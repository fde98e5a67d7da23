/** The powers x^(2^k) modulo the CRC polynomial (crc32.h: x2n_table), and why the table of 32 of them can be
    used round and round: x^(2^32) is x again.

    Squaring is additive, so the square of a word is the sum of the squares of its powers of x.  The squarings
    of the table are evaluated on bit vectors, which Val ties to the words of the model. */
module PolyPowers {
  import opened Bits
  import opened Xors
  import opened PolyRing

  // ---------- bit vectors as words ----------

  predicate Odd(v: bv32)
  {
    v & 1 == 1
  }

  function Half(v: bv32): (r: bv32)
  {
    v >> 1
  }

  function Sum(a: bv32, b: bv32): (r: bv32)
  {
    a ^ b
  }

  /** The value of a bit vector. */
  function Val(v: bv32): (r: nat)
    decreases v
  {
    if v == 0 then 0 else (if Odd(v) then 1 else 0) + 2 * Val(Half(v))
  }

  lemma ValStep(v: bv32)
    ensures (Odd(v) <==> Val(v) % 2 == 1) && Val(v) / 2 == Val(Half(v))
    ensures Val(v) == 0 <==> v == 0
  {
    hide Val, Odd, Half;
    ValUnfold(v);
    BitAndRest(if Odd(v) then 1 else 0, Val(Half(v)));
    ValNone();
    if v != 0 {
      ValPositive(v);
    }
  }

  lemma ValUnfold(v: bv32)
    ensures Val(v) == (if Odd(v) then 1 else 0) + 2 * Val(Half(v))
  {
    if v == 0 {
      HalfNone();
      ValNone();
    }
  }

  lemma HalfNone()
    ensures Half(0) == 0 && !Odd(0)
  {
  }

  lemma BitAndRest(b: nat, r: nat)
    requires b < 2
    ensures (b + 2 * r) % 2 == b && (b + 2 * r) / 2 == r
  {
  }

  lemma {:induction false} ValPositive(v: bv32)
    requires v != 0
    ensures Val(v) > 0
    decreases v
  {
    if Half(v) != 0 {
      ValPositive(Half(v));
    }
  }

  lemma OddSum(a: bv32, b: bv32)
    ensures Odd(Sum(a, b)) <==> (Odd(a) != Odd(b))
  {
  }

  lemma HalfSum(a: bv32, b: bv32)
    ensures Half(Sum(a, b)) == Sum(Half(a), Half(b))
  {
  }

  lemma SumNone()
    ensures Sum(0, 0) == 0
  {
  }

  /** Exclusive or of bit vectors is that of their values. */
  lemma {:induction false} ValSum(a: bv32, b: bv32)
    ensures Val(Sum(a, b)) == Xor(Val(a), Val(b))
    decreases Val(a) + Val(b)
  {
    hide Xor, Val, Sum, Half, Odd;
    ValStep(a);
    ValStep(b);
    if a == 0 && b == 0 {
      SumNone();
      XorZero(0);
    } else {
      ValSum(Half(a), Half(b));
      HalfSum(a, b);
      OddSum(a, b);
      ValStep(Sum(a, b));
      XorStep(Val(a), Val(b));
      SameHalves(Val(Sum(a, b)), Xor(Val(a), Val(b)));
    }
  }

  lemma ValNone()
    ensures Val(0) == 0
  {
  }

  /** Multiplication by x. */
  function XB(v: bv32): (r: bv32)
  {
    if Odd(v) then Sum(Half(v), 0xedb88320) else Half(v)
  }

  lemma ValX(v: bv32)
    ensures Val(XB(v)) == X(Val(v))
  {
    hide Xor, Val, Odd, Half, Sum;
    ValStep(v);
    if Odd(v) {
      ValSum(Half(v), 0xedb88320);
      ValPoly();
    }
  }

  lemma ValPoly()
    ensures Val(0xedb88320) == POLY
  {
    assert Val(0x00000003) == 0x00000003;
    assert Val(0x0000000e) == 0x0000000e;
    assert Val(0x0000003b) == 0x0000003b;
    assert Val(0x000000ed) == 0x000000ed;
    assert Val(0x000003b6) == 0x000003b6;
    assert Val(0x00000edb) == 0x00000edb;
    assert Val(0x00003b6e) == 0x00003b6e;
    assert Val(0x0000edb8) == 0x0000edb8;
    assert Val(0x0003b6e2) == 0x0003b6e2;
    assert Val(0x000edb88) == 0x000edb88;
    assert Val(0x003b6e20) == 0x003b6e20;
    assert Val(0x00edb883) == 0x00edb883;
    assert Val(0x03b6e20c) == 0x03b6e20c;
    assert Val(0x0edb8832) == 0x0edb8832;
    assert Val(0x3b6e20c8) == 0x3b6e20c8;
    assert Val(0xedb88320) == 0xedb88320;
  }

  lemma ValOne()
    ensures Val(0x80000000) == ONE
  {
    assert Val(0x00000002) == 0x00000002;
    assert Val(0x00000008) == 0x00000008;
    assert Val(0x00000020) == 0x00000020;
    assert Val(0x00000080) == 0x00000080;
    assert Val(0x00000200) == 0x00000200;
    assert Val(0x00000800) == 0x00000800;
    assert Val(0x00002000) == 0x00002000;
    assert Val(0x00008000) == 0x00008000;
    assert Val(0x00020000) == 0x00020000;
    assert Val(0x00080000) == 0x00080000;
    assert Val(0x00200000) == 0x00200000;
    assert Val(0x00800000) == 0x00800000;
    assert Val(0x02000000) == 0x02000000;
    assert Val(0x08000000) == 0x08000000;
    assert Val(0x20000000) == 0x20000000;
    assert Val(0x80000000) == 0x80000000;
  }

  // ---------- the powers of x ----------

  /** The next power. */
  lemma Next(e: nat, v: bv32, w: bv32)
    requires P(e) == Val(v) && XB(v) == w
    ensures P(e + 1) == Val(w)
  {
    hide XB, Val, X;
    ValX(v);
  }

  lemma Powers0()
    requires P(0) == Val(0x80000000)
    ensures P(0) == Val(0x80000000) && P(2) == Val(0x20000000) && P(4) == Val(0x08000000)
    ensures P(6) == Val(0x02000000) && P(8) == Val(0x00800000) && P(10) == Val(0x00200000)
    ensures P(12) == Val(0x00080000) && P(14) == Val(0x00020000) && P(16) == Val(0x00008000)
  {
    hide P, Val;
    Next(0, 0x80000000, 0x40000000);
    Next(1, 0x40000000, 0x20000000);
    Next(2, 0x20000000, 0x10000000);
    Next(3, 0x10000000, 0x08000000);
    Next(4, 0x08000000, 0x04000000);
    Next(5, 0x04000000, 0x02000000);
    Next(6, 0x02000000, 0x01000000);
    Next(7, 0x01000000, 0x00800000);
    Next(8, 0x00800000, 0x00400000);
    Next(9, 0x00400000, 0x00200000);
    Next(10, 0x00200000, 0x00100000);
    Next(11, 0x00100000, 0x00080000);
    Next(12, 0x00080000, 0x00040000);
    Next(13, 0x00040000, 0x00020000);
    Next(14, 0x00020000, 0x00010000);
    Next(15, 0x00010000, 0x00008000);
  }

  lemma Powers1()
    requires P(16) == Val(0x00008000)
    ensures P(16) == Val(0x00008000) && P(18) == Val(0x00002000) && P(20) == Val(0x00000800)
    ensures P(22) == Val(0x00000200) && P(24) == Val(0x00000080) && P(26) == Val(0x00000020)
    ensures P(28) == Val(0x00000008) && P(30) == Val(0x00000002) && P(32) == Val(0xedb88320)
  {
    hide P, Val;
    Next(16, 0x00008000, 0x00004000);
    Next(17, 0x00004000, 0x00002000);
    Next(18, 0x00002000, 0x00001000);
    Next(19, 0x00001000, 0x00000800);
    Next(20, 0x00000800, 0x00000400);
    Next(21, 0x00000400, 0x00000200);
    Next(22, 0x00000200, 0x00000100);
    Next(23, 0x00000100, 0x00000080);
    Next(24, 0x00000080, 0x00000040);
    Next(25, 0x00000040, 0x00000020);
    Next(26, 0x00000020, 0x00000010);
    Next(27, 0x00000010, 0x00000008);
    Next(28, 0x00000008, 0x00000004);
    Next(29, 0x00000004, 0x00000002);
    Next(30, 0x00000002, 0x00000001);
    Next(31, 0x00000001, 0xedb88320);
  }

  lemma Powers2()
    requires P(32) == Val(0xedb88320)
    ensures P(32) == Val(0xedb88320) && P(34) == Val(0x3b6e20c8) && P(36) == Val(0x0edb8832)
    ensures P(38) == Val(0xee0e612c) && P(40) == Val(0x3b83984b) && P(42) == Val(0x958424a2)
    ensures P(44) == Val(0xc8d98a08) && P(46) == Val(0x32366282) && P(48) == Val(0xe1351b80)
  {
    hide P, Val;
    Next(32, 0xedb88320, 0x76dc4190);
    Next(33, 0x76dc4190, 0x3b6e20c8);
    Next(34, 0x3b6e20c8, 0x1db71064);
    Next(35, 0x1db71064, 0x0edb8832);
    Next(36, 0x0edb8832, 0x076dc419);
    Next(37, 0x076dc419, 0xee0e612c);
    Next(38, 0xee0e612c, 0x77073096);
    Next(39, 0x77073096, 0x3b83984b);
    Next(40, 0x3b83984b, 0xf0794f05);
    Next(41, 0xf0794f05, 0x958424a2);
    Next(42, 0x958424a2, 0x4ac21251);
    Next(43, 0x4ac21251, 0xc8d98a08);
    Next(44, 0xc8d98a08, 0x646cc504);
    Next(45, 0x646cc504, 0x32366282);
    Next(46, 0x32366282, 0x191b3141);
    Next(47, 0x191b3141, 0xe1351b80);
  }

  lemma Powers3()
    requires P(48) == Val(0xe1351b80)
    ensures P(48) == Val(0xe1351b80) && P(50) == Val(0x384d46e0) && P(52) == Val(0x0e1351b8)
    ensures P(54) == Val(0x0384d46e) && P(56) == Val(0xed59b63b) && P(58) == Val(0xa032af3e)
    ensures P(60) == Val(0xc5b428ef) && P(62) == Val(0xaa09c88b)
  {
    hide P, Val;
    Next(48, 0xe1351b80, 0x709a8dc0);
    Next(49, 0x709a8dc0, 0x384d46e0);
    Next(50, 0x384d46e0, 0x1c26a370);
    Next(51, 0x1c26a370, 0x0e1351b8);
    Next(52, 0x0e1351b8, 0x0709a8dc);
    Next(53, 0x0709a8dc, 0x0384d46e);
    Next(54, 0x0384d46e, 0x01c26a37);
    Next(55, 0x01c26a37, 0xed59b63b);
    Next(56, 0xed59b63b, 0x9b14583d);
    Next(57, 0x9b14583d, 0xa032af3e);
    Next(58, 0xa032af3e, 0x5019579f);
    Next(59, 0x5019579f, 0xc5b428ef);
    Next(60, 0xc5b428ef, 0x8f629757);
    Next(61, 0x8f629757, 0xaa09c88b);
  }

  // ---------- words are sums of powers, and squaring is additive ----------

  lemma SquareAdds(a: nat, b: nat)
    requires a < Pow2(32) && b < Pow2(32)
    ensures Mul(Xor(a, b), Xor(a, b)) == Xor(Mul(a, a), Mul(b, b))
  {
    hide MulFrom, Xor, Pow2;
    MulLeft(a, b, Xor(a, b), 32);
    MulRight(a, a, b, 32);
    MulRight(b, a, b, 32);
    MulComm(a, b);
    XorComm(Mul(b, a), Mul(b, b));
    XorSwap(Mul(a, a), Mul(a, b), Mul(b, b), Mul(b, a));
    XorSelf(Mul(a, b));
    XorZero(Xor(Mul(a, a), Mul(b, b)));
  }

  /** The sum of the squares for the bits of t, the lowest of which stands for bit k of a word, that is for
      x^(31 - k). */
  function Squares(t: nat, k: nat): (v: nat)
    requires k <= 32
    decreases 32 - k
  {
    if k == 32 then 0 else Xor(If(t % 2 == 1, P(2 * (31 - k))), Squares(t / 2, k + 1))
  }

  /** The square of a word is the sum of the squares for its bits. */
  lemma {:induction false} SquareSplits(w: nat, k: nat)
    requires w < Pow2(32) && k <= 32
    ensures Mul(w, w) == Xor(Mul(Low(w, k), Low(w, k)), Squares(Shr(w, k), k))
    decreases 32 - k
  {
    hide MulFrom, Xor, P, Low, Shr, Pow2, Mul;
    if k == 32 {
      LowSmall(w, 32);
      XorZero(Mul(w, w));
    } else {
      SquareSplits(w, k + 1);
      LowTop(w, k);
      NextBit(w, k);
      var i, l := If(Bit(w, k), Pow2(k)), Low(w, k);
      LowBound(w, k);
      Pow2Mono(k, 32);
      PowBelow(k);
      SquareAdds(i, l);
      SquareOfPower(k);
      SquareIf(Bit(w, k), Pow2(k));
      var s, r := If(Bit(w, k), P(2 * (31 - k))), Squares(Shr(w, k + 1), k + 1);
      XorComm(s, Mul(l, l));
      XorAssoc(Mul(l, l), s, r);
    }
  }

  lemma PowBelow(k: nat)
    requires k < 32
    ensures Pow2(k) < Pow2(32)
  {
    hide Pow2;
    Pow2Mono(k + 1, 32);
    Pow2Half(k);
  }

  lemma Pow2Half(k: nat)
    ensures Pow2(k + 1) == 2 * Pow2(k)
  {
  }

  lemma SquareIf(c: bool, v: nat)
    ensures Mul(If(c, v), If(c, v)) == If(c, Mul(v, v))
  {
    hide MulFrom;
    MulZero(0, 32);
  }

  lemma NextBit(w: nat, k: nat)
    ensures Shr(w, k) / 2 == Shr(w, k + 1) && (Bit(w, k) <==> Shr(w, k) % 2 == 1)
  {
    ShrShr(w, k, 1);
    assert Shr(Shr(w, k), 1) == Shr(Shr(w, k) / 2, 0);
  }

  lemma SquareOfPower(k: nat)
    requires k < 32
    ensures Mul(Pow2(k), Pow2(k)) == P(2 * (31 - k))
  {
    hide MulFrom, P, Pow2;
    PowersDown(31 - k);
    PowerAdd(31 - k, 31 - k);
  }

  lemma SquareIsSum(w: nat)
    requires w < Pow2(32)
    ensures Mul(w, w) == Squares(w, 0)
  {
    hide MulFrom, Xor, P, Pow2, Squares, Low;
    SquareSplits(w, 0);
    LowEmpty(w);
    ShrNone(w);
    MulZero(0, 32);
    XorZero(Squares(w, 0));
  }

  lemma ShrNone(w: nat)
    ensures Shr(w, 0) == w
  {
  }

  // ---------- squares of bit vectors ----------

  /** One bit: its square, if it is set, and the rest. */
  function One(t: bv32, square: bv32, rest: bv32): (r: bv32)
  {
    Sum(if Odd(t) then square else 0, rest)
  }

  lemma OneIs(t: bv32, square: bv32, rest: bv32, k: nat)
    requires k < 32 && P(2 * (31 - k)) == Val(square) && Val(rest) == Squares(Val(Half(t)), k + 1)
    ensures Val(One(t, square, rest)) == Squares(Val(t), k)
  {
    hide Xor, P, Val, Odd, Half, Sum;
    ValStep(t);
    ValNone();
    ValSum(if Odd(t) then square else 0, rest);
  }

  function Square7(t: bv32): (r: bv32)
  {
    One(t, 0x02000000, One(Half(t), 0x08000000, One(Half(Half(t)), 0x20000000, One(Half(Half(Half(t))), 0x80000000,
      0))))
  }

  function Square6(t: bv32): (r: bv32)
  {
    One(t, 0x00020000, One(Half(t), 0x00080000, One(Half(Half(t)), 0x00200000, One(Half(Half(Half(t))), 0x00800000,
      Square7(Half(Half(Half(Half(t)))))))))
  }

  function Square5(t: bv32): (r: bv32)
  {
    One(t, 0x00000200, One(Half(t), 0x00000800, One(Half(Half(t)), 0x00002000, One(Half(Half(Half(t))), 0x00008000,
      Square6(Half(Half(Half(Half(t)))))))))
  }

  function Square4(t: bv32): (r: bv32)
  {
    One(t, 0x00000002, One(Half(t), 0x00000008, One(Half(Half(t)), 0x00000020, One(Half(Half(Half(t))), 0x00000080,
      Square5(Half(Half(Half(Half(t)))))))))
  }

  function Square3(t: bv32): (r: bv32)
  {
    One(t, 0xee0e612c, One(Half(t), 0x0edb8832, One(Half(Half(t)), 0x3b6e20c8, One(Half(Half(Half(t))), 0xedb88320,
      Square4(Half(Half(Half(Half(t)))))))))
  }

  function Square2(t: bv32): (r: bv32)
  {
    One(t, 0x32366282, One(Half(t), 0xc8d98a08, One(Half(Half(t)), 0x958424a2, One(Half(Half(Half(t))), 0x3b83984b,
      Square3(Half(Half(Half(Half(t)))))))))
  }

  function Square1(t: bv32): (r: bv32)
  {
    One(t, 0x0384d46e, One(Half(t), 0x0e1351b8, One(Half(Half(t)), 0x384d46e0, One(Half(Half(Half(t))), 0xe1351b80,
      Square2(Half(Half(Half(Half(t)))))))))
  }

  function Square0(t: bv32): (r: bv32)
  {
    One(t, 0xaa09c88b, One(Half(t), 0xc5b428ef, One(Half(Half(t)), 0xa032af3e, One(Half(Half(Half(t))), 0xed59b63b,
      Square1(Half(Half(Half(Half(t)))))))))
  }

  /** The squares of the powers of x that the functions above use. */
  ghost predicate SquaresRight()
  {
    P(62) == Val(0xaa09c88b) && P(60) == Val(0xc5b428ef) && P(58) == Val(0xa032af3e) && P(56) == Val(0xed59b63b)
    && P(54) == Val(0x0384d46e) && P(52) == Val(0x0e1351b8) && P(50) == Val(0x384d46e0) && P(48) == Val(0xe1351b80)
    && P(46) == Val(0x32366282) && P(44) == Val(0xc8d98a08) && P(42) == Val(0x958424a2) && P(40) == Val(0x3b83984b)
    && P(38) == Val(0xee0e612c) && P(36) == Val(0x0edb8832) && P(34) == Val(0x3b6e20c8) && P(32) == Val(0xedb88320)
    && P(30) == Val(0x00000002) && P(28) == Val(0x00000008) && P(26) == Val(0x00000020) && P(24) == Val(0x00000080)
    && P(22) == Val(0x00000200) && P(20) == Val(0x00000800) && P(18) == Val(0x00002000) && P(16) == Val(0x00008000)
    && P(14) == Val(0x00020000) && P(12) == Val(0x00080000) && P(10) == Val(0x00200000) && P(8) == Val(0x00800000)
    && P(6) == Val(0x02000000) && P(4) == Val(0x08000000) && P(2) == Val(0x20000000) && P(0) == Val(0x80000000)
  }

  lemma SquaresAre()
    ensures SquaresRight()
  {
    hide P, Val;
    ValOne();
    PowerNone();
    Powers0();
    Powers1();
    Powers2();
    Powers3();
  }

  lemma PowerNone()
    ensures P(0) == ONE
  {
  }

  lemma Square7Is(t: bv32)
    requires SquaresRight()
    ensures Val(Square7(t)) == Squares(Val(t), 28)
  {
    hide One, Val, P, Squares, Half, Odd, Sum;
    SquaresNone(Val(Half(Half(Half(Half(t))))));
    ValNone();
    var rest := 0;
    OneIs(Half(Half(Half(t))), 0x80000000, rest, 31);
    var r3 := One(Half(Half(Half(t))), 0x80000000, rest);
    OneIs(Half(Half(t)), 0x20000000, r3, 30);
    var r2 := One(Half(Half(t)), 0x20000000, r3);
    OneIs(Half(t), 0x08000000, r2, 29);
    OneIs(t, 0x02000000, One(Half(t), 0x08000000, r2), 28);
  }

  lemma Square6Is(t: bv32)
    requires SquaresRight()
    ensures Val(Square6(t)) == Squares(Val(t), 24)
  {
    hide One, Val, P, Squares, Half, Odd, Sum, Square7;
    Square7Is(Half(Half(Half(Half(t)))));
    var rest := Square7(Half(Half(Half(Half(t)))));
    OneIs(Half(Half(Half(t))), 0x00800000, rest, 27);
    var r3 := One(Half(Half(Half(t))), 0x00800000, rest);
    OneIs(Half(Half(t)), 0x00200000, r3, 26);
    var r2 := One(Half(Half(t)), 0x00200000, r3);
    OneIs(Half(t), 0x00080000, r2, 25);
    OneIs(t, 0x00020000, One(Half(t), 0x00080000, r2), 24);
  }

  lemma Square5Is(t: bv32)
    requires SquaresRight()
    ensures Val(Square5(t)) == Squares(Val(t), 20)
  {
    hide One, Val, P, Squares, Half, Odd, Sum, Square6;
    Square6Is(Half(Half(Half(Half(t)))));
    var rest := Square6(Half(Half(Half(Half(t)))));
    OneIs(Half(Half(Half(t))), 0x00008000, rest, 23);
    var r3 := One(Half(Half(Half(t))), 0x00008000, rest);
    OneIs(Half(Half(t)), 0x00002000, r3, 22);
    var r2 := One(Half(Half(t)), 0x00002000, r3);
    OneIs(Half(t), 0x00000800, r2, 21);
    OneIs(t, 0x00000200, One(Half(t), 0x00000800, r2), 20);
  }

  lemma Square4Is(t: bv32)
    requires SquaresRight()
    ensures Val(Square4(t)) == Squares(Val(t), 16)
  {
    hide One, Val, P, Squares, Half, Odd, Sum, Square5;
    Square5Is(Half(Half(Half(Half(t)))));
    var rest := Square5(Half(Half(Half(Half(t)))));
    OneIs(Half(Half(Half(t))), 0x00000080, rest, 19);
    var r3 := One(Half(Half(Half(t))), 0x00000080, rest);
    OneIs(Half(Half(t)), 0x00000020, r3, 18);
    var r2 := One(Half(Half(t)), 0x00000020, r3);
    OneIs(Half(t), 0x00000008, r2, 17);
    OneIs(t, 0x00000002, One(Half(t), 0x00000008, r2), 16);
  }

  lemma Square3Is(t: bv32)
    requires SquaresRight()
    ensures Val(Square3(t)) == Squares(Val(t), 12)
  {
    hide One, Val, P, Squares, Half, Odd, Sum, Square4;
    Square4Is(Half(Half(Half(Half(t)))));
    var rest := Square4(Half(Half(Half(Half(t)))));
    OneIs(Half(Half(Half(t))), 0xedb88320, rest, 15);
    var r3 := One(Half(Half(Half(t))), 0xedb88320, rest);
    OneIs(Half(Half(t)), 0x3b6e20c8, r3, 14);
    var r2 := One(Half(Half(t)), 0x3b6e20c8, r3);
    OneIs(Half(t), 0x0edb8832, r2, 13);
    OneIs(t, 0xee0e612c, One(Half(t), 0x0edb8832, r2), 12);
  }

  lemma Square2Is(t: bv32)
    requires SquaresRight()
    ensures Val(Square2(t)) == Squares(Val(t), 8)
  {
    hide One, Val, P, Squares, Half, Odd, Sum, Square3;
    Square3Is(Half(Half(Half(Half(t)))));
    var rest := Square3(Half(Half(Half(Half(t)))));
    OneIs(Half(Half(Half(t))), 0x3b83984b, rest, 11);
    var r3 := One(Half(Half(Half(t))), 0x3b83984b, rest);
    OneIs(Half(Half(t)), 0x958424a2, r3, 10);
    var r2 := One(Half(Half(t)), 0x958424a2, r3);
    OneIs(Half(t), 0xc8d98a08, r2, 9);
    OneIs(t, 0x32366282, One(Half(t), 0xc8d98a08, r2), 8);
  }

  lemma Square1Is(t: bv32)
    requires SquaresRight()
    ensures Val(Square1(t)) == Squares(Val(t), 4)
  {
    hide One, Val, P, Squares, Half, Odd, Sum, Square2;
    Square2Is(Half(Half(Half(Half(t)))));
    var rest := Square2(Half(Half(Half(Half(t)))));
    OneIs(Half(Half(Half(t))), 0xe1351b80, rest, 7);
    var r3 := One(Half(Half(Half(t))), 0xe1351b80, rest);
    OneIs(Half(Half(t)), 0x384d46e0, r3, 6);
    var r2 := One(Half(Half(t)), 0x384d46e0, r3);
    OneIs(Half(t), 0x0e1351b8, r2, 5);
    OneIs(t, 0x0384d46e, One(Half(t), 0x0e1351b8, r2), 4);
  }

  lemma Square0Is(t: bv32)
    requires SquaresRight()
    ensures Val(Square0(t)) == Squares(Val(t), 0)
  {
    hide One, Val, P, Squares, Half, Odd, Sum, Square1;
    Square1Is(Half(Half(Half(Half(t)))));
    var rest := Square1(Half(Half(Half(Half(t)))));
    OneIs(Half(Half(Half(t))), 0xed59b63b, rest, 3);
    var r3 := One(Half(Half(Half(t))), 0xed59b63b, rest);
    OneIs(Half(Half(t)), 0xa032af3e, r3, 2);
    var r2 := One(Half(Half(t)), 0xa032af3e, r3);
    OneIs(Half(t), 0xc5b428ef, r2, 1);
    OneIs(t, 0xaa09c88b, One(Half(t), 0xc5b428ef, r2), 0);
  }

  lemma SquaresNone(t: nat)
    ensures Squares(t, 32) == 0
  {
  }

  /** Squaring once more. */
  lemma Squared(e: nat, v: bv32, w: bv32)
    requires SquaresRight() && P(e) == Val(v) && Square0(v) == w
    ensures P(2 * e) == Val(w)
  {
    hide Square0, Squares, P, Val, Pow2, MulFrom, SquaresRight;
    Square0Is(v);
    PowerAdd(e, e);
    PowerBound(e);
    SquareIsSum(P(e));
  }

  lemma PowerBound(e: nat)
    ensures P(e) < Pow2(32) && P(e) != 0
  {
    hide Pow2;
    PolyBound();
    XPowBound(e, ONE);
    XPowNonzero(e, ONE);
  }

  lemma Table0()
    requires SquaresRight() && P(Pow2(0)) == Val(0x40000000)
    ensures P(Pow2(4)) == Val(0x00008000)
  {
    hide P, Val, SquaresRight, Pow2;
    Pow2Half(0);
    Squared(Pow2(0), 0x40000000, 0x20000000);
    Pow2Half(1);
    Squared(Pow2(1), 0x20000000, 0x08000000);
    Pow2Half(2);
    Squared(Pow2(2), 0x08000000, 0x00800000);
    Pow2Half(3);
    Squared(Pow2(3), 0x00800000, 0x00008000);
  }

  lemma Table1()
    requires SquaresRight() && P(Pow2(4)) == Val(0x00008000)
    ensures P(Pow2(8)) == Val(0xed627dae)
  {
    hide P, Val, SquaresRight, Pow2;
    Pow2Half(4);
    Squared(Pow2(4), 0x00008000, 0xedb88320);
    Pow2Half(5);
    Squared(Pow2(5), 0xedb88320, 0xb1e6b092);
    Pow2Half(6);
    Squared(Pow2(6), 0xb1e6b092, 0xa06a2517);
    Pow2Half(7);
    Squared(Pow2(7), 0xa06a2517, 0xed627dae);
  }

  lemma Table2()
    requires SquaresRight() && P(Pow2(8)) == Val(0xed627dae)
    ensures P(Pow2(12)) == Val(0x8e7ea170)
  {
    hide P, Val, SquaresRight, Pow2;
    Pow2Half(8);
    Squared(Pow2(8), 0xed627dae, 0x88d14467);
    Pow2Half(9);
    Squared(Pow2(9), 0x88d14467, 0xd7bbfe6a);
    Pow2Half(10);
    Squared(Pow2(10), 0xd7bbfe6a, 0xec447f11);
    Pow2Half(11);
    Squared(Pow2(11), 0xec447f11, 0x8e7ea170);
  }

  lemma Table3()
    requires SquaresRight() && P(Pow2(12)) == Val(0x8e7ea170)
    ensures P(Pow2(16)) == Val(0x83852d0f)
  {
    hide P, Val, SquaresRight, Pow2;
    Pow2Half(12);
    Squared(Pow2(12), 0x8e7ea170, 0x6427800e);
    Pow2Half(13);
    Squared(Pow2(13), 0x6427800e, 0x4d47bae0);
    Pow2Half(14);
    Squared(Pow2(14), 0x4d47bae0, 0x09fe548f);
    Pow2Half(15);
    Squared(Pow2(15), 0x09fe548f, 0x83852d0f);
  }

  lemma Table4()
    requires SquaresRight() && P(Pow2(16)) == Val(0x83852d0f)
    ensures P(Pow2(20)) == Val(0x9fec022a)
  {
    hide P, Val, SquaresRight, Pow2;
    Pow2Half(16);
    Squared(Pow2(16), 0x83852d0f, 0x30362f1a);
    Pow2Half(17);
    Squared(Pow2(17), 0x30362f1a, 0x7b5a9cc3);
    Pow2Half(18);
    Squared(Pow2(18), 0x7b5a9cc3, 0x31fec169);
    Pow2Half(19);
    Squared(Pow2(19), 0x31fec169, 0x9fec022a);
  }

  lemma Table5()
    requires SquaresRight() && P(Pow2(20)) == Val(0x9fec022a)
    ensures P(Pow2(24)) == Val(0xbad90e37)
  {
    hide P, Val, SquaresRight, Pow2;
    Pow2Half(20);
    Squared(Pow2(20), 0x9fec022a, 0x6c8dedc4);
    Pow2Half(21);
    Squared(Pow2(21), 0x6c8dedc4, 0x15d6874d);
    Pow2Half(22);
    Squared(Pow2(22), 0x15d6874d, 0x5fde7a4e);
    Pow2Half(23);
    Squared(Pow2(23), 0x5fde7a4e, 0xbad90e37);
  }

  lemma Table6()
    requires SquaresRight() && P(Pow2(24)) == Val(0xbad90e37)
    ensures P(Pow2(28)) == Val(0x429a969e)
  {
    hide P, Val, SquaresRight, Pow2;
    Pow2Half(24);
    Squared(Pow2(24), 0xbad90e37, 0x2e4e5eef);
    Pow2Half(25);
    Squared(Pow2(25), 0x2e4e5eef, 0x4eaba214);
    Pow2Half(26);
    Squared(Pow2(26), 0x4eaba214, 0xa8a472c0);
    Pow2Half(27);
    Squared(Pow2(27), 0xa8a472c0, 0x429a969e);
  }

  lemma Table7()
    requires SquaresRight() && P(Pow2(28)) == Val(0x429a969e)
    ensures P(Pow2(32)) == Val(0x40000000)
  {
    hide P, Val, SquaresRight, Pow2;
    Pow2Half(28);
    Squared(Pow2(28), 0x429a969e, 0x148d302a);
    Pow2Half(29);
    Squared(Pow2(29), 0x148d302a, 0xc40ba6d0);
    Pow2Half(30);
    Squared(Pow2(30), 0xc40ba6d0, 0xc4e22c3c);
    Pow2Half(31);
    Squared(Pow2(31), 0xc4e22c3c, 0x40000000);
  }

  /** x^(2^32) is x. */
  lemma Frobenius()
    ensures P(Pow2(32)) == P(1)
  {
    hide P, Val, SquaresRight, Pow2;
    SquaresAre();
    FirstPower();
    Table0();
    Table1();
    Table2();
    Table3();
    Table4();
    Table5();
    Table6();
    Table7();
  }

  lemma FirstPower()
    ensures Pow2(0) == 1 && P(1) == Val(0x40000000)
  {
    hide Val;
    ValOne();
    PowerNone();
    Next(0, 0x80000000, 0x40000000);
  }

  /** So the powers x^(2^k) come round after 32. */
  lemma {:induction false} PowersRepeat(k: nat)
    ensures P(Pow2(k + 32)) == P(Pow2(k))
    decreases k
  {
    hide P, MulFrom, Pow2;
    if k == 0 {
      Frobenius();
      Pow2Values();
    } else {
      PowersRepeat(k - 1);
      Pow2Half(k - 1);
      Pow2Half(k + 31);
      PowerAdd(Pow2(k - 1), Pow2(k - 1));
      PowerAdd(Pow2(k + 31), Pow2(k + 31));
    }
  }

  lemma {:induction false} PowersCycle(k: nat)
    ensures P(Pow2(k)) == P(Pow2(k % 32))
    decreases k
  {
    hide P, Pow2;
    if k >= 32 {
      PowersCycle(k - 32);
      PowersRepeat(k - 32);
    }
  }
}
