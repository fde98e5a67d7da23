/** What the CRC is, in figures: its check value, and the constant that checking a text with its CRC behind it gives
    (section 8 of RFC 1952). */
module CrcValues {
  import opened Bits
  import opened Xors
  import opened PolyRing
  import opened PolyPowers
  import opened CrcTheory
  import opened Crc32

  // ---------- inversion ----------

  /** Not turns every one of the 32 bits around. */
  lemma NotIs(v: nat)
    requires v < 0x1_0000_0000
    ensures Not(v) == 0xffff_ffff - v
  {
    hide Xor, Pow2;
    PolyBound();
    XorOnes(v, 32);
  }

  lemma {:induction false} XorOnes(v: nat, n: nat)
    requires v < Pow2(n)
    ensures Xor(v, Pow2(n) - 1) == Pow2(n) - 1 - v
    decreases n
  {
    hide Xor;
    if n == 0 {
      XorZero(0);
    } else {
      XorOnes(v / 2, n - 1);
      XorStep(v, Pow2(n) - 1);
    }
  }

  // ---------- the check value ----------

  /** Eight multiplications by x. */
  function X8(v: bv32): (r: bv32)
  {
    XB(XB(XB(XB(XB(XB(XB(XB(v))))))))
  }

  lemma ValX8(v: bv32)
    ensures Val(X8(v)) == XPow(8, Val(v))
  {
    hide Val, X, XB;
    var a := XB(v);
    var b := XB(a);
    var c := XB(b);
    var d := XB(c);
    ValX(v);
    ValX(a);
    ValX(b);
    ValX(c);
    FourTimes(Val(v), Val(a), Val(b), Val(c), Val(d));
    var e := XB(d);
    var f := XB(e);
    var g := XB(f);
    ValX(d);
    ValX(e);
    ValX(f);
    ValX(g);
    FourTimes(Val(d), Val(e), Val(f), Val(g), Val(XB(g)));
    XPowAdd(4, 4, Val(v));
  }

  lemma FourTimes(v: nat, a: nat, b: nat, c: nat, d: nat)
    requires a == X(v) && b == X(a) && c == X(b) && d == X(c)
    ensures XPow(4, v) == d
  {
    hide X;
    assert XPow(1, v) == a by { XOnce(v); }
    assert XPow(2, v) == b;
    assert XPow(3, v) == c;
  }

  /** One byte on bit vectors. */
  lemma ByteVal(r: nat, v: bv32, c: Byte, d: bv32, w: bv32)
    requires r == Val(v) && c == Val(d) && X8(Sum(v, d)) == w
    ensures CrcByte(r, c) == Val(w)
  {
    hide Val, XPow, Xor, X8, Sum;
    ValSum(v, d);
    ValX8(Sum(v, d));
  }

  lemma ValAll()
    ensures Val(0xffffffff) == ALL
  {
    assert Val(0x00000003) == 0x00000003;
    assert Val(0x0000000f) == 0x0000000f;
    assert Val(0x0000003f) == 0x0000003f;
    assert Val(0x000000ff) == 0x000000ff;
    assert Val(0x000003ff) == 0x000003ff;
    assert Val(0x00000fff) == 0x00000fff;
    assert Val(0x00003fff) == 0x00003fff;
    assert Val(0x0000ffff) == 0x0000ffff;
    assert Val(0x0003ffff) == 0x0003ffff;
    assert Val(0x000fffff) == 0x000fffff;
    assert Val(0x003fffff) == 0x003fffff;
    assert Val(0x00ffffff) == 0x00ffffff;
    assert Val(0x03ffffff) == 0x03ffffff;
    assert Val(0x0fffffff) == 0x0fffffff;
    assert Val(0x3fffffff) == 0x3fffffff;
    assert Val(0xffffffff) == 0xffffffff;
  }

  lemma ValDigits()
    ensures Val(0x31) == 0x31 && Val(0x32) == 0x32 && Val(0x33) == 0x33 && Val(0x34) == 0x34 && Val(0x35) == 0x35
    ensures Val(0x36) == 0x36 && Val(0x37) == 0x37 && Val(0x38) == 0x38 && Val(0x39) == 0x39
  {
    assert Val(0x3) == 0x3;
    assert Val(0xc) == 0xc && Val(0xd) == 0xd && Val(0xe) == 0xe;
  }

  /** The bytes of "123456789". */
  const DIGITS: seq<Byte> := [0x31, 0x32, 0x33, 0x34, 0x35, 0x36, 0x37, 0x38, 0x39]

  lemma RawDigits()
    ensures CrcRaw(ALL, DIGITS) == Val(0x340bc6d9)
  {
    hide Val, CrcByte;
    ValAll();
    ValDigits();
    var r0 := ALL;
    DigitsRun(r0);
    ByteVal(r0, 0xffffffff, 0x31, 0x31, 0x7c231048);
    var r1 := CrcByte(r0, 0x31);
    ByteVal(r1, 0x7c231048, 0x32, 0x32, 0xb0acbb32);
    var r2 := CrcByte(r1, 0x32);
    ByteVal(r2, 0xb0acbb32, 0x33, 0x33, 0x77b79c2d);
    var r3 := CrcByte(r2, 0x33);
    ByteVal(r3, 0x77b79c2d, 0x34, 0x34, 0x641c1f5c);
    var r4 := CrcByte(r3, 0x34);
    ByteVal(r4, 0x641c1f5c, 0x35, 0x35, 0x340ac5e3);
    var r5 := CrcByte(r4, 0x35);
    ByteVal(r5, 0x340ac5e3, 0x36, 0x36, 0xf68d2c9e);
    var r6 := CrcByte(r5, 0x36);
    ByteVal(r6, 0xf68d2c9e, 0x37, 0x37, 0xaffc9660);
    var r7 := CrcByte(r6, 0x37);
    ByteVal(r7, 0xaffc9660, 0x38, 0x38, 0x651f2550);
    var r8 := CrcByte(r7, 0x38);
    ByteVal(r8, 0x651f2550, 0x39, 0x39, 0x340bc6d9);
    var r9 := CrcByte(r8, 0x39);
  }

  /** The register after each of the nine bytes. */
  lemma DigitsRun(r: nat)
    ensures CrcRaw(r, DIGITS)
      == CrcByte(CrcByte(CrcByte(CrcByte(CrcByte(CrcByte(CrcByte(CrcByte(CrcByte(
        r, 0x31), 0x32), 0x33), 0x34), 0x35), 0x36), 0x37), 0x38), 0x39)
  {
    hide CrcByte;
    var s := DIGITS;
    assert s[1..] == [0x32, 0x33, 0x34, 0x35, 0x36, 0x37, 0x38, 0x39];
    assert s[1..][1..] == [0x33, 0x34, 0x35, 0x36, 0x37, 0x38, 0x39];
    assert s[1..][1..][1..] == [0x34, 0x35, 0x36, 0x37, 0x38, 0x39];
    FourMore(r, s);
    var t := s[4..];
    assert t == [0x35, 0x36, 0x37, 0x38, 0x39];
    FourMore(CrcByte(CrcByte(CrcByte(CrcByte(r, 0x31), 0x32), 0x33), 0x34), t);
    assert t[4..] == [0x39];
    assert [0x39][1..] == [];
  }

  lemma FourMore(r: nat, s: seq<Byte>)
    requires |s| >= 4
    ensures CrcRaw(r, s) == CrcRaw(CrcByte(CrcByte(CrcByte(CrcByte(r, s[0]), s[1]), s[2]), s[3]), s[4..])
  {
    hide CrcByte;
    var a := CrcByte(r, s[0]);
    var b := CrcByte(a, s[1]);
    var c := CrcByte(b, s[2]);
    assert s[1..][1..] == s[2..] && s[2..][1..] == s[3..] && s[3..][1..] == s[4..];
    assert CrcRaw(r, s) == CrcRaw(a, s[1..]);
    assert CrcRaw(a, s[1..]) == CrcRaw(b, s[2..]);
    assert CrcRaw(b, s[2..]) == CrcRaw(c, s[3..]);
  }

  lemma ValCheck()
    ensures Val(0xcbf43926) == 0xcbf43926 && Sum(0x340bc6d9, 0xffffffff) == 0xcbf43926
  {
    assert Val(0x00000003) == 0x00000003;
    assert Val(0x0000000c) == 0x0000000c;
    assert Val(0x00000032) == 0x00000032;
    assert Val(0x000000cb) == 0x000000cb;
    assert Val(0x0000032f) == 0x0000032f;
    assert Val(0x00000cbf) == 0x00000cbf;
    assert Val(0x000032fd) == 0x000032fd;
    assert Val(0x0000cbf4) == 0x0000cbf4;
    assert Val(0x00032fd0) == 0x00032fd0;
    assert Val(0x000cbf43) == 0x000cbf43;
    assert Val(0x0032fd0e) == 0x0032fd0e;
    assert Val(0x00cbf439) == 0x00cbf439;
    assert Val(0x032fd0e4) == 0x032fd0e4;
    assert Val(0x0cbf4392) == 0x0cbf4392;
    assert Val(0x32fd0e49) == 0x32fd0e49;
    assert Val(0xcbf43926) == 0xcbf43926;
  }

  /** The check value of CRC-32. */
  lemma CheckValue()
    ensures Crc(0, DIGITS) == 0xCBF43926
  {
    hide Val, CrcRaw, Xor, Sum;
    XorZero(ALL);
    RawDigits();
    ValAll();
    ValSum(0x340bc6d9, 0xffffffff);
    ValCheck();
  }

  /** The same by the braided tables. */
  method CheckTables(t: Tables, address: nat) returns (r: nat)
    requires t.Valid()
    ensures r == 0xCBF43926
  {
    hide *;
    CheckValue();
    LowNone();
    r := t.CrcZ(0, DIGITS, address);
  }

  lemma LowNone()
    ensures Low(0, 32) == 0
  {
    hide Pow2;
    Pow2Values();
    LowSmall(0, 32);
  }

  // ---------- the residue ----------

  /** The four bytes of a CRC, the lowest first, as a gzip trailer has them. */
  function Trailer(v: nat): (s: seq<Byte>)
    requires v < 0x1_0000_0000
  {
    [v % 256, v / 0x100 % 256, v / 0x1_0000 % 256, v / 0x100_0000]
  }

  lemma WordFour(a: Byte, b: Byte, c: Byte, d: Byte)
    ensures Word([a, b, c, d]) == a + 256 * (b + 256 * (c + 256 * d))
  {
    assert [a, b, c, d][1..] == [b, c, d] && [b, c, d][1..] == [c, d] && [c, d][1..] == [d] && [d][1..] == [];
    assert Word([d]) == d;
    assert Word([c, d]) == c + 256 * d;
    assert Word([b, c, d]) == b + 256 * (c + 256 * d);
  }

  lemma Parts(v: nat)
    ensures v == v % 256 + 256 * (v / 0x100 % 256 + 256 * (v / 0x1_0000 % 256 + 256 * (v / 0x100_0000)))
  {
    var a, b := v / 0x100, v / 0x1_0000;
    assert v == v % 256 + 256 * a;
    assert b == a / 256 && a == a % 256 + 256 * b;
    assert v / 0x100_0000 == b / 256 && b == b % 256 + 256 * (b / 256);
  }

  lemma TrailerWord(v: nat)
    requires v < 0x1_0000_0000
    ensures Word(Trailer(v)) == v
  {
    hide Word;
    var s := Trailer(v);
    WordFour(s[0], s[1], s[2], s[3]);
    assert s == [s[0], s[1], s[2], s[3]];
    Parts(v);
  }

  lemma ValXPow(n: nat, u: nat, v: bv32, w: bv32)
    requires XPow(n, u) == Val(v) && X8(v) == w
    ensures XPow(n + 8, u) == Val(w)
  {
    hide Val, XPow, X8;
    ValX8(v);
    XPowAdd(8, n, u);
  }

  lemma Shifted32()
    ensures XPow(32, ALL) == Val(0xdebb20e3)
  {
    hide Val, XPow;
    ValAll();
    XPowNone(ALL);
    ValXPow(0, ALL, 0xffffffff, 0x2dfd1072);
    ValXPow(8, ALL, 0x2dfd1072, 0xbe26ed00);
    ValXPow(16, ALL, 0xbe26ed00, 0x00be26ed);
    ValXPow(24, ALL, 0x00be26ed, 0xdebb20e3);
  }

  lemma ValResidue()
    ensures Val(0x2144df1c) == 0x2144df1c && Sum(0xdebb20e3, 0xffffffff) == 0x2144df1c
  {
    assert Val(0x00000002) == 0x00000002;
    assert Val(0x00000008) == 0x00000008;
    assert Val(0x00000021) == 0x00000021;
    assert Val(0x00000085) == 0x00000085;
    assert Val(0x00000214) == 0x00000214;
    assert Val(0x00000851) == 0x00000851;
    assert Val(0x00002144) == 0x00002144;
    assert Val(0x00008513) == 0x00008513;
    assert Val(0x0002144d) == 0x0002144d;
    assert Val(0x00085137) == 0x00085137;
    assert Val(0x002144df) == 0x002144df;
    assert Val(0x0085137c) == 0x0085137c;
    assert Val(0x02144df1) == 0x02144df1;
    assert Val(0x085137c7) == 0x085137c7;
    assert Val(0x2144df1c) == 0x2144df1c;
  }

  /** A text with its CRC behind it always has the same CRC, so that a reader can check it in one go. */
  lemma Residue(crc: nat, s: seq<Byte>)
    requires crc < 0x1_0000_0000
    ensures Crc(crc, s) < 0x1_0000_0000
    ensures Crc(crc, s + Trailer(Crc(crc, s))) == 0x2144DF1C
  {
    hide Val, CrcRaw, Xor, Sum, Word, XPow, Pow2;
    PolyBound();
    CrcFits(crc, s);
    var r, c := CrcRaw(Not(crc), s), Crc(crc, s);
    var t := Trailer(c);
    CrcAppend(Not(crc), s, t);
    CrcIsShift(r, t);
    TrailerWord(c);
    XorAssoc(r, r, ALL);
    XorSelf(r);
    XorZero(ALL);
    Shifted32();
    ValAll();
    ValSum(0xdebb20e3, 0xffffffff);
    ValResidue();
  }
}
