/** The bits of deflate blocks (sections 3.2.3 to 3.2.7 of RFC 1951) and the proof that the
    decoder machine reads them back. */
module BlockFormat {
  import opened Bits
  import opened Canonical
  import opened Symbols
  import opened Lz77
  import opened CodeLengths
  import opened Decoder
  import opened MoreInput

  // ---------- codes in a stream ----------

  lemma CodeFits(lens: seq<nat>, s: nat)
    requires Coded(lens, s) && Kraft(lens) <= Pow2(15)
    ensures CodeVal(lens, s) < Pow2(lens[s])
  {
    hide CodeVal, NextCode, Pow2, Kraft, Rev;
    CodeValIsReversedCode(lens, s);
  }

  /** A stream that starts with the code word of s decodes to s. */
  lemma FindCode(lens: seq<nat>, s: nat, rest: BitString)
    requires Coded(lens, s) && Kraft(lens) <= Pow2(15)
    ensures Find(lens, CodeBits(lens, s) + rest) == Found(s)
  {
    hide CodeVal, FromBits, Low, Pow2, ToBits, Kraft, Rev, Pos, Find;
    var w := CodeBits(lens, s);
    var u := w + rest;
    FromToBits(CodeVal(lens, s), lens[s]);
    CodeFits(lens, s);
    LowSmall(CodeVal(lens, s), lens[s]);
    LowOfExtended(w, rest, lens[s]);
    assert Low(FromBits(w), lens[s]) == CodeVal(lens, s);
    MatchIffOwns(lens, s, FromBits(u));
    FoundIs(lens, u, s);
  }

  lemma FieldOfBits(v: nat, n: nat, rest: BitString)
    requires v < Pow2(n)
    ensures Field(ToBits(v, n) + rest, 0, n) == v
    ensures (ToBits(v, n) + rest)[n..] == rest
  {
    hide ToBits, Low, FromBits, Pow2;
    var u := ToBits(v, n) + rest;
    assert u[0..0 + n] == ToBits(v, n);
    FromToBits(v, n);
    LowSmall(v, n);
  }

  // ---------- tokens ----------

  /** The codes have words for everything the token needs. */
  ghost predicate TokenCoded(ll: seq<nat>, dl: seq<nat>, t: Token)
  {
    match t
    case Literal(b) => Coded(ll, b)
    case Match(len, dist) => Encodable(t) && Coded(ll, 257 + LengthCode(len)) && Coded(dl, DistCode(dist))
  }

  function MatchTail(dl: seq<nat>, dist: nat): (b: BitString)
    requires DistCode(dist) < |dl| && dl[DistCode(dist)] <= 15
    requires DistBase(DistCode(dist)) <= dist
  {
    var dc := DistCode(dist);
    CodeBits(dl, dc) + ToBits(dist - DistBase(dc), DistExtra(dc))
  }

  function MatchHead(ll: seq<nat>, len: nat): (b: BitString)
    requires 257 + LengthCode(len) < |ll| && ll[257 + LengthCode(len)] <= 15
    requires LenBase(LengthCode(len)) <= len
  {
    var lc := LengthCode(len);
    CodeBits(ll, 257 + lc) + ToBits(len - LenBase(lc), LenExtra(lc))
  }

  /** The bits of one token: code words followed by extra bits. */
  ghost function TokenBits(ll: seq<nat>, dl: seq<nat>, t: Token): (b: BitString)
    requires TokenCoded(ll, dl, t)
  {
    match t
    case Literal(b) => CodeBits(ll, b)
    case Match(len, dist) =>
      LengthCodeRange(len);
      DistCodeRange(dist);
      MatchHead(ll, len) + MatchTail(dl, dist)
  }

  ghost predicate AllCoded(ll: seq<nat>, dl: seq<nat>, ts: seq<Token>)
  {
    forall i :: 0 <= i < |ts| ==> TokenCoded(ll, dl, ts[i])
  }

  ghost function TokensBits(ll: seq<nat>, dl: seq<nat>, ts: seq<Token>): (b: BitString)
    requires AllCoded(ll, dl, ts)
  {
    if ts == [] then [] else TokenBits(ll, dl, ts[0]) + TokensBits(ll, dl, ts[1..])
  }

  lemma {:induction false} TokensBitsAppend(ll: seq<nat>, dl: seq<nat>, ts: seq<Token>, us: seq<Token>)
    requires AllCoded(ll, dl, ts) && AllCoded(ll, dl, us)
    ensures AllCoded(ll, dl, ts + us)
    ensures TokensBits(ll, dl, ts + us) == TokensBits(ll, dl, ts) + TokensBits(ll, dl, us)
    decreases |ts|
  {
    hide TokenBits, TokenCoded;
    if ts == [] {
      assert ts + us == us;
    } else {
      TokensBitsAppend(ll, dl, ts[1..], us);
      assert (ts + us)[1..] == ts[1..] + us;
    }
  }

  /** The codes in force are usable. */
  ghost predicate Usable(ll: seq<nat>, dl: seq<nat>)
  {
    ValidLens(ll) && ValidLens(dl) && Kraft(ll) <= Pow2(15) && Kraft(dl) <= Pow2(15)
  }

  ghost predicate AtSymbol(c: Config, ll: seq<nat>, dl: seq<nat>, out: seq<Byte>, u: BitString)
  {
    c.st.mode.Len? && c.st.llens == ll && c.st.dlens == dl && c.st.out == out && c.unread == u
  }

  lemma LiteralDecodes(far: nat, c: Config, ll: seq<nat>, dl: seq<nat>, b: Byte, rest: BitString) returns (d: Config)
    requires Usable(ll, dl) && Coded(ll, b)
    requires AtSymbol(c, ll, dl, c.st.out, CodeBits(ll, b) + rest)
    ensures Via(far, c, d) && AtSymbol(d, ll, dl, c.st.out + [b], rest) && d.st.last == c.st.last
  {
    hide Find, CodeBits, Kraft, Via;
    FindCode(ll, b, rest);
    assert (CodeBits(ll, b) + rest)[ll[b]..] == rest;
    var e := Config(c.st.(mode := Lit, length := b), rest);
    assert Step(c) == Some(e);
    d := Config(e.st.(mode := Len, out := e.st.out + [b]), rest);
    assert Step(e) == Some(d);
    ViaStep(far, c);
    ViaStep(far, e);
    ViaTrans(far, c, e, d);
  }

  lemma {:induction false} CopyDecodes(far: nat, c: Config, dist: nat, len: nat) returns (d: Config)
    requires c.st.mode.Matching? && c.st.offset == dist && c.st.length == len
    requires 1 <= dist <= |c.st.out| && 1 <= len && dist <= far
    ensures Via(far, c, d)
    ensures AtSymbol(d, c.st.llens, c.st.dlens, Copy(c.st.out, dist, len), c.unread) && d.st.last == c.st.last
    decreases len
  {
    hide Via;
    var e := Step(c).value;
    ViaStep(far, c);
    if len == 1 {
      d := e;
      assert Copy(e.st.out, dist, 0) == e.st.out;
    } else {
      d := CopyDecodes(far, e, dist, len - 1);
      ViaTrans(far, c, e, d);
    }
  }

  /** Length code and its extra bits. */
  lemma HeadDecodes(far: nat, c: Config, ll: seq<nat>, len: nat, rest: BitString) returns (d: Config)
    requires ValidLens(ll) && Kraft(ll) <= Pow2(15)
    requires 3 <= len <= 258 && Coded(ll, 257 + LengthCode(len))
    requires LenBase(LengthCode(len)) <= len < LenBase(LengthCode(len)) + Pow2(LenExtra(LengthCode(len)))
    requires c.st.mode.Len? && c.st.llens == ll && c.unread == MatchHead(ll, len) + rest
    ensures Via(far, c, d) && d.unread == rest
    ensures d.st.mode.Dist? && d.st.length == len
    ensures d.st == c.st.(mode := d.st.mode, length := d.st.length, extra := d.st.extra)
  {
    hide Find, CodeBits, Kraft, Via, LengthCode, LenBase, LenExtra, ToBits, Field, Pow2;
    var lc := LengthCode(len);
    var s := 257 + lc;
    var ext := ToBits(len - LenBase(lc), LenExtra(lc));
    assert c.unread == CodeBits(ll, s) + (ext + rest);
    FindCode(ll, s, ext + rest);
    assert (CodeBits(ll, s) + (ext + rest))[ll[s]..] == ext + rest;
    var e := Config(c.st.(mode := LenExt, length := LenBase(lc), extra := LenExtra(lc)), ext + rest);
    assert Step(c) == Some(e);
    FieldOfBits(len - LenBase(lc), LenExtra(lc), rest);
    d := Config(e.st.(mode := Dist, length := len), rest);
    assert Step(e) == Some(d);
    ViaStep(far, c);
    ViaStep(far, e);
    ViaTrans(far, c, e, d);
  }

  /** Distance code and its extra bits. */
  lemma TailDecodes(far: nat, c: Config, dl: seq<nat>, dist: nat, rest: BitString) returns (d: Config)
    requires ValidLens(dl) && Kraft(dl) <= Pow2(15)
    requires Coded(dl, DistCode(dist))
    requires DistBase(DistCode(dist)) <= dist < DistBase(DistCode(dist)) + Pow2(DistExtra(DistCode(dist)))
    requires c.st.mode.Dist? && c.st.dlens == dl && c.unread == MatchTail(dl, dist) + rest && dist <= far
    ensures Via(far, c, d) && d.unread == rest
    ensures d.st.mode.Matching? && d.st.offset == dist
    ensures d.st == c.st.(mode := d.st.mode, offset := d.st.offset, extra := d.st.extra)
  {
    hide Find, CodeBits, Kraft, Via, DistCode, DistBase, DistExtra, ToBits, Field, Pow2;
    var s := DistCode(dist);
    var ext := ToBits(dist - DistBase(s), DistExtra(s));
    assert c.unread == CodeBits(dl, s) + (ext + rest);
    FindCode(dl, s, ext + rest);
    assert (CodeBits(dl, s) + (ext + rest))[dl[s]..] == ext + rest;
    var e := Config(c.st.(mode := DistExt, offset := DistBase(s), extra := DistExtra(s)), ext + rest);
    assert Step(c) == Some(e);
    FieldOfBits(dist - DistBase(s), DistExtra(s), rest);
    d := Config(e.st.(mode := Matching, offset := dist), rest);
    assert Step(e) == Some(d);
    ViaStep(far, c);
    ViaStep(far, e);
    ViaTrans(far, c, e, d);
  }

  lemma MatchDecodes(far: nat, c: Config, ll: seq<nat>, dl: seq<nat>, len: nat, dist: nat, rest: BitString)
      returns (d: Config)
    requires Usable(ll, dl) && TokenCoded(ll, dl, Match(len, dist)) && dist <= |c.st.out| && dist <= far
    requires AtSymbol(c, ll, dl, c.st.out, TokenBits(ll, dl, Match(len, dist)) + rest)
    ensures Via(far, c, d) && AtSymbol(d, ll, dl, Copy(c.st.out, dist, len), rest) && d.st.last == c.st.last
  {
    hide Kraft, Via, LengthCode, LenBase, LenExtra, DistCode, DistBase, DistExtra, MatchHead, MatchTail, Copy, Pow2;
    LengthCodeRange(len);
    DistCodeRange(dist);
    assert c.unread == MatchHead(ll, len) + (MatchTail(dl, dist) + rest);
    var e := HeadDecodes(far, c, ll, len, MatchTail(dl, dist) + rest);
    var f := TailDecodes(far, e, dl, dist, rest);
    d := CopyDecodes(far, f, dist, len);
    ViaTrans(far, c, e, f);
    ViaTrans(far, c, f, d);
  }

  lemma TokenDecodes(far: nat, c: Config, ll: seq<nat>, dl: seq<nat>, t: Token, rest: BitString) returns (d: Config)
    requires Usable(ll, dl) && TokenCoded(ll, dl, t) && Reaches(|c.st.out|, t) && NearToken(t, far)
    requires AtSymbol(c, ll, dl, c.st.out, TokenBits(ll, dl, t) + rest)
    ensures Via(far, c, d) && AtSymbol(d, ll, dl, Apply(c.st.out, t), rest) && d.st.last == c.st.last
  {
    hide Kraft, Via, CodeBits, AtSymbol, Copy, MatchHead, MatchTail, Usable;
    match t
    case Literal(b) => d := LiteralDecodes(far, c, ll, dl, b, rest);
    case Match(len, dist) => d := MatchDecodes(far, c, ll, dl, len, dist, rest);
  }

  /** The decoder reads the bits of a token sequence as its expansion. */
  lemma {:induction false} TokensDecode(far: nat, c: Config, ll: seq<nat>, dl: seq<nat>, ts: seq<Token>,
                                        rest: BitString)
      returns (d: Config)
    requires Usable(ll, dl) && AllCoded(ll, dl, ts) && Expandable(|c.st.out|, ts) && NearTokens(ts, far)
    requires AtSymbol(c, ll, dl, c.st.out, TokensBits(ll, dl, ts) + rest)
    ensures Via(far, c, d) && AtSymbol(d, ll, dl, Expand(c.st.out, ts), rest) && d.st.last == c.st.last
    decreases |ts|
  {
    hide Via, Usable, TokenCoded, TokenBits, Apply, Reaches;
    if ts == [] {
      d := c;
      ViaRefl(far, c);
      assert TokensBits(ll, dl, ts) + rest == rest;
    } else {
      var tail := TokensBits(ll, dl, ts[1..]) + rest;
      assert c.unread == TokenBits(ll, dl, ts[0]) + tail;
      var e := TokenDecodes(far, c, ll, dl, ts[0], tail);
      d := TokensDecode(far, e, ll, dl, ts[1..], rest);
      ViaTrans(far, c, e, d);
    }
  }

  lemma EndDecodes(far: nat, c: Config, ll: seq<nat>, dl: seq<nat>, rest: BitString) returns (d: Config)
    requires Usable(ll, dl) && Coded(ll, 256)
    requires AtSymbol(c, ll, dl, c.st.out, CodeBits(ll, 256) + rest)
    ensures Via(far, c, d) && d == Config(c.st.(mode := Type), rest)
  {
    hide Find, CodeBits, Kraft, Via;
    FindCode(ll, 256, rest);
    assert (CodeBits(ll, 256) + rest)[ll[256]..] == rest;
    d := Config(c.st.(mode := Type), rest);
    assert Step(c) == Some(d);
    ViaStep(far, c);
  }
}
