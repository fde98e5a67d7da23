/** Handing out canonical codes (trees.c: bi_reverse, gen_codes). */
module GenCodes {
  import opened Bits
  import opened Canonical

  /** Reverse the first len bits of a code, one bit at a time. */
  method BiReverse(code: nat, len: nat) returns (r: nat)
    requires 1 <= len <= 15
    ensures r == Rev(len, code)
  {
    hide Pow2, Low, BitOr;
    var res, c, l := 0, code, len;
    ghost var i := 0;
    while l > 0
      invariant i + l == len
      invariant res == 2 * Rev(i, code) && c == Shr(code, i)
    {
      NextReversedBit(code, i);
      OrLowBit(res, c % 2);
      res := BitOr(res, c % 2);
      c := c / 2;
      res := res * 2;
      l := l - 1;
      i := i + 1;
    }
    r := res / 2;
  }

  lemma NextReversedBit(v: nat, i: nat)
    ensures Rev(i + 1, v) == 2 * Rev(i, v) + Shr(v, i) % 2
    ensures Shr(v, i + 1) == Shr(v, i) / 2
  {
    hide Low;
    RevSplit(i, 1, v);
    ShrShr(v, i, 1);
    assert Pow2(1) == 2;
    var w := Shr(v, i);
    assert Rev(1, w) == w % 2;
    assert Shr(w, 1) == Shr(w / 2, 0);
  }

  lemma OrLowBit(a: nat, b: nat)
    requires a % 2 == 0 && b < 2
    ensures BitOr(a, b) == a + b
  {
    BitOrComm(a / 2, 0);
    BitOrZero(a / 2);
  }

  lemma {:induction false} BitOrComm(a: nat, b: nat)
    ensures BitOr(a, b) == BitOr(b, a)
    decreases a + b
  {
    if a > 0 || b > 0 {
      BitOrComm(a / 2, b / 2);
    }
  }

  /** The code counter of a length never exceeds that length's range. */
  lemma NextCodeBound(lens: seq<nat>, s: nat)
    requires Coded(lens, s) && Kraft(lens) <= Pow2(15)
    ensures NextCode(lens, lens[s]) + Count(lens[..s], lens[s]) < Pow2(lens[s])
  {
    hide Pow2, Count, NextCode, Kraft;
    var b := lens[s];
    var c, r := NextCode(lens, b), Count(lens[..s], b);
    NextCodePos(lens, b);
    Distribute(Width(b), c, r);
    assert Pos(lens, s) == Width(b) * (c + r);
    CodeBound(lens, s, c + r);
  }

  lemma {:induction false} NextCodeRange(lens: seq<nat>, b: nat)
    requires 1 <= b <= 15 && Kraft(lens) <= Pow2(15)
    ensures NextCode(lens, b) < 65536
  {
    hide Pow2, Count, NextCode;
    NextCodePos(lens, b);
    FirstPosMono(lens, b, 16);
    var c := NextCode(lens, b);
    MulMono(c, 1, Width(b));
    Pow2Values();
  }

  /** Give every symbol that has a length its canonical code, reversed for sending.
      blCount holds the number of symbols of each length. */
  method GenCodes(fc: array<nat>, dl: array<nat>, maxCode: nat, blCount: array<nat>)
    requires fc != dl && fc != blCount && dl != blCount
    requires maxCode < fc.Length && maxCode < dl.Length && blCount.Length == 16
    requires ValidLens(dl[..maxCode + 1]) && Kraft(dl[..maxCode + 1]) <= Pow2(15)
    requires blCount[0] == 0
    requires forall b :: 1 <= b <= 15 ==> blCount[b] == Count(dl[..maxCode + 1], b)
    modifies fc
    ensures forall n :: 0 <= n <= maxCode && dl[n] != 0 ==> fc[n] == CodeVal(dl[..maxCode + 1], n)
    ensures forall n :: 0 <= n < fc.Length && (n > maxCode || dl[n] == 0) ==> fc[n] == old(fc[n])
  {
    hide Pow2, Rev, Pos, Kraft, NextFree, CodeVal;
    ghost var lens := dl[..maxCode + 1];
    var nextCode := new nat[16];
    FirstCodes(blCount, nextCode, lens);
    for n := 0 to maxCode + 1
      invariant forall b :: 1 <= b <= 15 ==> nextCode[b] == NextFree(lens, n, b)
      invariant forall i :: 0 <= i < n && dl[i] != 0 ==> fc[i] == CodeVal(lens, i)
      invariant forall i :: 0 <= i < fc.Length && (i >= n || dl[i] == 0) ==> fc[i] == old(fc[i])
    {
      var len := dl[n];
      assert lens[n] == len;
      NextFreeSteps(lens, n);
      if len != 0 {
        StoredCode(lens, n);
        var code := BiReverse(nextCode[len], len);
        fc[n] := code;
        nextCode[len] := nextCode[len] + 1;
        assert nextCode[len] == NextFree(lens, n + 1, len);
      }
    }
  }

  /** The next code of length b to hand out once the symbols below n have theirs. */
  function NextFree(lens: seq<nat>, n: nat, b: nat): (c: nat)
    requires n <= |lens|
  {
    NextCode(lens, b) + Count(lens[..n], b)
  }

  lemma NextFreeSteps(lens: seq<nat>, n: nat)
    requires n < |lens|
    ensures forall b: nat {:trigger NextFree(lens, n + 1, b)} ::
              NextFree(lens, n + 1, b) == NextFree(lens, n, b) + if lens[n] == b then 1 else 0
  {
    hide Count, NextCode;
    forall b: nat ensures NextFree(lens, n + 1, b) == NextFree(lens, n, b) + if lens[n] == b then 1 else 0 {
      CountStep(lens, n, b);
    }
  }

  lemma StoredCode(lens: seq<nat>, n: nat)
    requires Coded(lens, n)
    ensures CodeVal(lens, n) == Rev(lens[n], NextFree(lens, n, lens[n]))
  {
    hide CodeVal, Rev;
    CodeValIsReversedCode(lens, n);
  }

  method FirstCodes(blCount: array<nat>, nextCode: array<nat>, ghost lens: seq<nat>)
    requires nextCode != blCount && nextCode.Length == 16 == blCount.Length
    requires Kraft(lens) <= Pow2(15)
    requires blCount[0] == 0
    requires forall b :: 1 <= b <= 15 ==> blCount[b] == Count(lens, b)
    modifies nextCode
    ensures forall b :: 1 <= b <= 15 ==> nextCode[b] == NextFree(lens, 0, b)
  {
    hide Kraft, Pow2, NextCode, Count, Low, NextFree;
    var code := 0;
    NextCodeStep(lens, 0);
    for bits := 1 to 16
      invariant code == NextCode(lens, bits - 1)
      invariant forall b :: 1 <= b < bits ==> nextCode[b] == NextFree(lens, 0, b)
    {
      NextCodeStep(lens, bits);
      code := (code + blCount[bits - 1]) * 2;
      NextCodeRange(lens, bits);
      FitsWord(code);
      nextCode[bits] := Low(code, 16);
    }
  }

  lemma NextCodeStep(lens: seq<nat>, b: nat)
    ensures NextCode(lens, 0) == 0
    ensures b == 1 ==> NextCode(lens, b) == 2 * (NextCode(lens, b - 1) + 0)
    ensures b > 1 ==> NextCode(lens, b) == 2 * (NextCode(lens, b - 1) + Count(lens, b - 1))
    ensures NextFree(lens, 0, b) == NextCode(lens, b)
  {
  }

  lemma FitsWord(v: nat)
    requires v < 65536
    ensures Low(v, 16) == v
  {
    Pow2Values();
    LowSmall(v, 16);
  }
}
