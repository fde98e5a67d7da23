/** Literal and match tokens, and what they stand for. */
module Lz77 {
  import opened Bits

  datatype Token = Literal(b: Byte) | Match(len: nat, dist: nat)

  /** What deflate can encode: lengths 3..258 and distances 1..32768. */
  ghost predicate Encodable(t: Token)
  {
    t.Match? ==> 3 <= t.len <= 258 && 1 <= t.dist <= 32768
  }

  function TokenLen(t: Token): (n: nat)
  {
    if t.Literal? then 1 else t.len
  }

  /** Copy len bytes from dist back, one at a time, so that a copy may overlap itself. */
  function Copy(hist: seq<Byte>, dist: nat, len: nat): (r: seq<Byte>)
    requires 1 <= dist <= |hist|
    ensures |r| == |hist| + len
    decreases len
  {
    if len == 0 then hist else Copy(hist + [hist[|hist| - dist]], dist, len - 1)
  }

  ghost predicate Reaches(n: nat, t: Token)
  {
    t.Match? ==> 1 <= t.dist <= n
  }

  function Apply(hist: seq<Byte>, t: Token): (r: seq<Byte>)
    requires Reaches(|hist|, t)
    ensures |r| == |hist| + TokenLen(t)
  {
    match t
    case Literal(b) => hist + [b]
    case Match(len, dist) => Copy(hist, dist, len)
  }

  /** No match reaches back further than the n bytes before it plus what the tokens before it produced. */
  ghost predicate Expandable(n: nat, ts: seq<Token>)
    decreases |ts|
  {
    ts == [] || (Reaches(n, ts[0]) && Expandable(n + TokenLen(ts[0]), ts[1..]))
  }

  /** The history after the tokens. */
  ghost function Expand(hist: seq<Byte>, ts: seq<Token>): (r: seq<Byte>)
    requires Expandable(|hist|, ts)
    decreases |ts|
  {
    if ts == [] then hist else Expand(Apply(hist, ts[0]), ts[1..])
  }

  /** No match reaches back more than `far` bytes. */
  ghost predicate NearToken(t: Token, far: nat)
  {
    t.Match? ==> t.dist <= far
  }

  ghost predicate NearTokens(ts: seq<Token>, far: nat)
  {
    forall i :: 0 <= i < |ts| ==> NearToken(ts[i], far)
  }

  function TokensLen(ts: seq<Token>): (n: nat)
  {
    if ts == [] then 0 else TokenLen(ts[0]) + TokensLen(ts[1..])
  }

  lemma {:induction false} ExpandLength(hist: seq<Byte>, ts: seq<Token>)
    requires Expandable(|hist|, ts)
    ensures |Expand(hist, ts)| == |hist| + TokensLen(ts)
    decreases |ts|
  {
    if ts != [] {
      ExpandLength(Apply(hist, ts[0]), ts[1..]);
    }
  }

  lemma {:induction false} ExpandAppend(hist: seq<Byte>, ts: seq<Token>, us: seq<Token>)
    requires Expandable(|hist|, ts)
    requires Expandable(|Expand(hist, ts)|, us)
    ensures Expandable(|hist|, ts + us)
    ensures Expand(hist, ts + us) == Expand(Expand(hist, ts), us)
    decreases |ts|
  {
    if ts == [] {
      assert ts + us == us;
    } else {
      var h := Apply(hist, ts[0]);
      ExpandAppend(h, ts[1..], us);
      assert (ts + us)[1..] == ts[1..] + us;
    }
  }

  lemma {:induction false} CopyPrefix(hist: seq<Byte>, dist: nat, len: nat)
    requires 1 <= dist <= |hist|
    ensures hist <= Copy(hist, dist, len)
    decreases len
  {
    if len > 0 {
      CopyPrefix(hist + [hist[|hist| - dist]], dist, len - 1);
    }
  }

  /** A copy grows at its end by the byte dist before it. */
  lemma {:induction false} CopyMore(hist: seq<Byte>, dist: nat, len: nat)
    requires 1 <= dist <= |hist|
    ensures Copy(hist, dist, len + 1) == Copy(hist, dist, len) + [Copy(hist, dist, len)[|hist| + len - dist]]
    decreases len
  {
    if len > 0 {
      CopyMore(hist + [hist[|hist| - dist]], dist, len - 1);
    }
  }

  /** Every copied byte equals the byte dist before it. */
  lemma {:induction false} CopyAt(hist: seq<Byte>, dist: nat, len: nat, i: nat)
    requires 1 <= dist <= |hist| <= i < |hist| + len
    ensures Copy(hist, dist, len)[i] == Copy(hist, dist, len)[i - dist]
    decreases len
  {
    var h := hist + [hist[|hist| - dist]];
    CopyPrefix(h, dist, len - 1);
    if i > |hist| {
      CopyAt(h, dist, len - 1, i);
    }
  }

  /** A text that repeats itself at distance dist over its last len bytes is such a copy. */
  lemma {:induction false} CopyUnique(text: seq<Byte>, dist: nat, len: nat)
    requires len <= |text| && 1 <= dist <= |text| - len
    requires forall i :: |text| - len <= i < |text| ==> text[i] == text[i - dist]
    ensures Copy(text[..|text| - len], dist, len) == text
    decreases len
  {
    var n := |text| - len;
    if len == 0 {
      assert text[..n] == text;
    } else {
      assert text[..n + 1] == text[..n] + [text[n]];
      assert text[n] == text[n - dist];
      CopyUnique(text, dist, len - 1);
    }
  }
}
