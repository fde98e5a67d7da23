/** Canonical prefix codes, section 3.2.2 of RFC 1951.

    A code is given by its length vector alone.  Codes are laid out in order of (length, symbol)
    on the line [0, 2^15): a symbol of length n owns Width(n) consecutive points, starting at
    Pos.  Points are 15-bit strings read with the first transmitted bit on top, so "the stream
    starts with the code of s" is the same as "s owns the point the stream names". */
module Canonical {
  import opened Bits

  ghost predicate ValidLens(lens: seq<nat>)
  {
    forall i :: 0 <= i < |lens| ==> lens[i] <= 15
  }

  /** How many symbols have length b. */
  function Count(lens: seq<nat>, b: nat): (n: nat)
  {
    if lens == [] then 0
    else Count(lens[..|lens| - 1], b) + if lens[|lens| - 1] == b then 1 else 0
  }

  /** The points owned by a code of length b. */
  function Width(b: nat): (w: nat)
    requires b <= 15
  {
    Pow2(15 - b)
  }

  /** The first point after all codes shorter than b. */
  function FirstPos(lens: seq<nat>, b: nat): (p: nat)
    requires b <= 16
  {
    if b <= 1 then 0 else FirstPos(lens, b - 1) + Count(lens, b - 1) * Width(b - 1)
  }

  /** The Kraft sum in units of 2^-15. */
  function Kraft(lens: seq<nat>): (p: nat)
  {
    FirstPos(lens, 16)
  }

  ghost predicate Complete(lens: seq<nat>)
  {
    ValidLens(lens) && Kraft(lens) == Pow2(15)
  }

  ghost predicate Coded(lens: seq<nat>, s: int)
  {
    0 <= s < |lens| && 1 <= lens[s] <= 15
  }

  /** The first point of symbol s. */
  function Pos(lens: seq<nat>, s: nat): (p: nat)
    requires s < |lens| && lens[s] <= 15
  {
    FirstPos(lens, lens[s]) + Count(lens[..s], lens[s]) * Width(lens[s])
  }

  /** The code of s as the encoder stores it: first transmitted bit in bit 0. */
  function CodeVal(lens: seq<nat>, s: nat): (c: nat)
    requires s < |lens| && lens[s] <= 15
  {
    Rev(15, Pos(lens, s))
  }

  /** The code word of s in transmission order. */
  function CodeBits(lens: seq<nat>, s: nat): (b: BitString)
    requires s < |lens| && lens[s] <= 15
    ensures |b| == lens[s]
  {
    ToBits(CodeVal(lens, s), lens[s])
  }

  ghost predicate Owns(lens: seq<nat>, s: int, x: int)
  {
    Coded(lens, s) && Pos(lens, s) <= x < Pos(lens, s) + Width(lens[s])
  }

  ghost predicate Owned(lens: seq<nat>, x: int)
  {
    exists s :: Owns(lens, s, x)
  }

  // ---------- counts ----------

  lemma {:induction false} CountPrefix(lens: seq<nat>, i: nat, b: nat)
    requires i <= |lens|
    ensures Count(lens[..i], b) <= Count(lens, b)
    ensures i < |lens| && lens[i] == b ==> Count(lens[..i], b) < Count(lens, b)
  {
    if i < |lens| {
      var l' := lens[..|lens| - 1];
      if i < |l'| {
        CountPrefix(l', i, b);
        assert l'[..i] == lens[..i];
      }
    } else {
      assert lens[..i] == lens;
    }
  }

  lemma CountStep(lens: seq<nat>, i: nat, b: nat)
    requires i < |lens|
    ensures Count(lens[..i + 1], b) == Count(lens[..i], b) + if lens[i] == b then 1 else 0
  {
    assert lens[..i + 1][..i] == lens[..i];
  }

  /** Earlier symbols of the same length have a smaller rank. */
  lemma CountStrict(lens: seq<nat>, i: nat, j: nat)
    requires i < j < |lens| && lens[i] == lens[j]
    ensures Count(lens[..i], lens[i]) + 1 <= Count(lens[..j], lens[i])
  {
    CountPrefix(lens[..j], i, lens[i]);
    assert lens[..j][..i] == lens[..i];
  }

  /** The symbol of length b with rank r. */
  lemma {:induction false} Nth(lens: seq<nat>, b: nat, r: nat) returns (s: nat)
    requires r < Count(lens, b)
    ensures s < |lens| && lens[s] == b && Count(lens[..s], b) == r
  {
    var n := |lens| - 1;
    if Count(lens[..n], b) == r {
      s := n;
    } else {
      s := Nth(lens[..n], b, r);
      assert lens[..n][..s] == lens[..s];
    }
  }

  lemma {:induction false} CountAppend(a: seq<nat>, b: seq<nat>, n: nat)
    ensures Count(a + b, n) == Count(a, n) + Count(b, n)
    decreases |b|
  {
    if b == [] {
      assert a + b == a;
    } else {
      var m := |b| - 1;
      assert (a + b)[..|a + b| - 1] == a + b[..m];
      CountAppend(a, b[..m], n);
    }
  }

  lemma {:induction false} CountConstant(s: seq<nat>, v: nat, n: nat)
    requires forall i :: 0 <= i < |s| ==> s[i] == v
    ensures Count(s, n) == if n == v then |s| else 0
  {
    if s != [] {
      CountConstant(s[..|s| - 1], v, n);
    }
  }

  // ---------- positions ----------

  lemma {:induction false} FirstPosMono(lens: seq<nat>, a: nat, b: nat)
    requires a <= b <= 16
    ensures FirstPos(lens, a) <= FirstPos(lens, b)
    decreases b
  {
    hide Width, Count;
    if a < b {
      FirstPosMono(lens, a, b - 1);
      if b > 1 {
        MulMono(Count(lens, b - 1), 0, Width(b - 1));
      }
    }
  }

  /** A symbol's points lie between those of the shorter and those of the longer codes. */
  lemma PosRange(lens: seq<nat>, s: nat)
    requires Coded(lens, s)
    ensures FirstPos(lens, lens[s]) <= Pos(lens, s)
    ensures Pos(lens, s) + Width(lens[s]) <= FirstPos(lens, lens[s] + 1)
  {
    var b := lens[s];
    CountPrefix(lens, s, b);
    var r, n := Count(lens[..s], b), Count(lens, b);
    MulMono(Width(b), r + 1, n);
    Distribute(Width(b), r, 1);
  }

  lemma PosBound(lens: seq<nat>, s: nat)
    requires Coded(lens, s)
    ensures Pos(lens, s) + Width(lens[s]) <= Kraft(lens)
  {
    PosRange(lens, s);
    FirstPosMono(lens, lens[s] + 1, 16);
  }

  lemma OrderedDisjoint(lens: seq<nat>, s: nat, t: nat)
    requires Coded(lens, s) && Coded(lens, t)
    requires lens[s] < lens[t] || (lens[s] == lens[t] && s < t)
    ensures Pos(lens, s) + Width(lens[s]) <= Pos(lens, t)
  {
    if lens[s] < lens[t] {
      PosRange(lens, s);
      PosRange(lens, t);
      FirstPosMono(lens, lens[s] + 1, lens[t]);
    } else {
      CountStrict(lens, s, t);
      var b := lens[s];
      var i, j := Count(lens[..s], b), Count(lens[..t], b);
      MulMono(Width(b), i + 1, j);
      Distribute(Width(b), i, 1);
    }
  }

  /** No point has two owners: the code is prefix free. */
  lemma OwnerUnique(lens: seq<nat>, s: nat, t: nat, x: nat)
    requires Owns(lens, s, x) && Owns(lens, t, x)
    ensures s == t
  {
    if s != t {
      if lens[s] < lens[t] || (lens[s] == lens[t] && s < t) {
        OrderedDisjoint(lens, s, t);
      } else {
        OrderedDisjoint(lens, t, s);
      }
    }
  }

  /** Every point below the Kraft sum has an owner. */
  lemma {:induction false} OwnerExists(lens: seq<nat>, x: nat, b: nat) returns (s: nat)
    requires b <= 16 && x < FirstPos(lens, b)
    ensures Owns(lens, s, x)
    ensures lens[s] < b
  {
    hide Width, Count;
    if x < FirstPos(lens, b - 1) {
      s := OwnerExists(lens, x, b - 1);
    } else {
      var c, d := b - 1, x - FirstPos(lens, b - 1);
      var n, w := Count(lens, c), Width(c);
      var r := Quotient(d, w, n);
      s := Nth(lens, c, r);
    }
  }

  lemma Quotient(d: nat, w: nat, n: nat) returns (r: nat)
    requires w > 0 && d < n * w
    ensures r < n && r * w <= d < r * w + w
  {
    r := d / w;
    assert d == w * r + d % w;
    if r >= n {
      MulMono(w, n, r);
    }
  }

  lemma {:induction false} FirstPosAligned(lens: seq<nat>, b: nat) returns (q: nat)
    requires 1 <= b <= 15
    ensures FirstPos(lens, b) == Width(b) * q
  {
    if b == 1 {
      q := 0;
    } else {
      var q' := FirstPosAligned(lens, b - 1);
      WidthHalves(b);
      HalvedSum(Width(b), q', Count(lens, b - 1));
      q := 2 * (q' + Count(lens, b - 1));
    }
  }

  lemma PosAligned(lens: seq<nat>, s: nat) returns (c: nat)
    requires Coded(lens, s)
    ensures Pos(lens, s) == Width(lens[s]) * c
  {
    var q := FirstPosAligned(lens, lens[s]);
    var r := Count(lens[..s], lens[s]);
    Distribute(Width(lens[s]), q, r);
    c := q + r;
  }

  lemma {:induction false} SumAfter(lens: seq<nat>, b: nat, m: nat)
    requires 1 <= b <= m <= 16
    requires forall i :: b <= i <= 15 ==> Count(lens, i) == 0
    ensures FirstPos(lens, m) == FirstPos(lens, b)
    decreases m
  {
    hide Count, Width;
    if b < m {
      SumAfter(lens, b, m - 1);
    }
  }

  lemma {:induction false} SumBefore(lens: seq<nat>, b: nat)
    requires b <= 16
    requires forall i :: 1 <= i < b ==> Count(lens, i) == 0
    ensures FirstPos(lens, b) == 0
    decreases b
  {
    hide Count, Width;
    if b > 1 {
      SumBefore(lens, b - 1);
    }
  }

  // ---------- the integer codes of RFC 1951 ----------

  /** next_code[b] before any code of length b is handed out. */
  function NextCode(lens: seq<nat>, b: nat): (c: nat)
  {
    if b == 0 then 0 else 2 * (NextCode(lens, b - 1) + if b == 1 then 0 else Count(lens, b - 1))
  }

  lemma {:induction false} NextCodePos(lens: seq<nat>, b: nat)
    requires 1 <= b <= 15
    ensures FirstPos(lens, b) == Width(b) * NextCode(lens, b)
  {
    if b > 1 {
      NextCodePos(lens, b - 1);
      WidthHalves(b);
      HalvedSum(Width(b), NextCode(lens, b - 1), Count(lens, b - 1));
    }
  }

  lemma WidthHalves(b: nat)
    requires 1 <= b <= 15
    ensures Width(b - 1) == 2 * Width(b)
  {
  }

  lemma HalvedSum(w: nat, c: nat, n: nat)
    ensures (2 * w) * c + n * (2 * w) == w * (2 * (c + n))
  {
  }

  /** The stored code is the reversed RFC code: next_code of the length plus the rank. */
  lemma CodeValIsReversedCode(lens: seq<nat>, s: nat)
    requires Coded(lens, s)
    ensures CodeVal(lens, s) == Rev(lens[s], NextCode(lens, lens[s]) + Count(lens[..s], lens[s]))
    ensures CodeVal(lens, s) < Pow2(lens[s])
  {
    var b := lens[s];
    var c, r := NextCode(lens, b), Count(lens[..s], b);
    NextCodePos(lens, b);
    Distribute(Width(b), c, r);
    assert Pos(lens, s) == Pow2(15 - b) * (c + r);
    RevAligned(b, c + r);
  }

  lemma RevAligned(b: nat, c: nat)
    requires b <= 15
    ensures Rev(15, Pow2(15 - b) * c) == Rev(b, c) < Pow2(b)
  {
    hide Pow2, Rev, Low, Shr;
    var n := 15 - b;
    var v := Pow2(n) * c;
    assert n + b == 15;
    Join(0, n, c);
    RevSplit(n, b, v);
    RevLow(n, v, n);
    RevZero(n);
    RevBound(b, c);
  }

  lemma {:induction false} RevZero(n: nat)
    ensures Rev(n, 0) == 0
  {
    if n > 0 {
      RevZero(n - 1);
    }
  }

  // ---------- matching a stream ----------

  /** A stream value v starts with the code word of s exactly when s owns the point Rev(15, v). */
  lemma MatchIffOwns(lens: seq<nat>, s: nat, v: nat)
    requires Coded(lens, s) && Kraft(lens) <= Pow2(15)
    ensures Low(v, lens[s]) == CodeVal(lens, s) <==> Owns(lens, s, Rev(15, v))
  {
    hide Pow2, Rev, Low, Shr, FirstPos, Count, Kraft;
    var b := lens[s];
    var c := PosAligned(lens, s);
    PointInBlock(b, c, v);
    CodeBound(lens, s, c);
    RevAligned(b, c);
    ReversedEqual(b, c, v);
  }

  /** The point named by v lies in the c-th block of width Width(b) when its top b bits are c. */
  lemma PointInBlock(b: nat, c: nat, v: nat)
    requires b <= 15
    ensures Width(b) * c <= Rev(15, v) < Width(b) * c + Width(b) <==> Rev(b, v) == c
  {
    hide Pow2, Rev, Low, Shr;
    var n := 15 - b;
    assert b + n == 15;
    RevTop(b, n, v);
    Split(Rev(15, v), n);
    LowBound(Rev(15, v), n);
    BlockIff(Pow2(n), Rev(b, v), Low(Rev(15, v), n), c);
  }

  lemma ReversedEqual(b: nat, c: nat, v: nat)
    requires c < Pow2(b)
    ensures Rev(b, v) == c <==> Low(v, b) == Rev(b, c)
  {
    hide Pow2, Rev, Low, Shr;
    RevRev(b, v);
    RevRev(b, c);
    LowSmall(c, b);
    RevLow(b, v, b);
  }

  lemma CodeBound(lens: seq<nat>, s: nat, c: nat)
    requires Coded(lens, s) && Pos(lens, s) == Width(lens[s]) * c
    requires Kraft(lens) <= Pow2(15)
    ensures c < Pow2(lens[s])
  {
    var b := lens[s];
    PosBound(lens, s);
    Pow2Add(15 - b, b);
    assert (15 - b) + b == 15;
    if c >= Pow2(b) {
      MulMono(Width(b), Pow2(b), c);
      assert false;
    }
  }

  lemma BlockIff(w: nat, q: nat, r: nat, c: nat)
    requires r < w
    ensures w * c <= r + w * q < w * c + w <==> q == c
  {
    if q > c {
      MulMono(w, c + 1, q);
      Distribute(w, c, 1);
    } else if q < c {
      MulMono(w, q + 1, c);
      Distribute(w, q, 1);
    }
  }
}
