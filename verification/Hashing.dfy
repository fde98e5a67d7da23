/** The rolling hash of the string matcher (deflate.c: UPDATE_HASH). */
module Hashing {
  import opened Bits
  import opened Xors

  const MIN_MATCH: nat := 3

  /** Shift the next byte in. */
  function Update(bits: nat, h: nat, c: Byte): (r: nat)
  {
    Low(Xor(h * Pow2(Shift(bits)), c), bits)
  }

  /** Three shifts drive a byte out. */
  function Shift(bits: nat): (s: nat)
    ensures bits <= 3 * s
  {
    (bits + MIN_MATCH - 1) / MIN_MATCH
  }

  /** The hash key of three bytes. */
  function Hash3(bits: nat, a: Byte, b: Byte, c: Byte): (r: nat)
  {
    Update(bits, Update(bits, Update(bits, 0, a), b), c)
  }

  lemma UpdateBound(bits: nat, h: nat, c: Byte)
    ensures Update(bits, h, c) < Pow2(bits)
  {
    hide Xor, Pow2, Low, Shift;
    LowBound(Xor(h * Pow2(Shift(bits)), c), bits);
  }

  lemma ShiftedLow(x: nat, s: nat, k: nat)
    ensures Low(x * Pow2(s), s + k) == Pow2(s) * Low(x, k)
  {
    hide Pow2, Low, Shr;
    Join(0, s, x);
    assert 0 + Pow2(s) * x == x * Pow2(s);
    LowAdd(x * Pow2(s), s, k);
  }

  lemma LowBoth(v: nat, w: nat, bits: nat, m: nat)
    requires Low(v, m) == Low(w, m)
    ensures Low(Low(v, bits), m) == Low(Low(w, bits), m)
  {
    hide Low, Pow2;
    if m <= bits {
      LowLow(v, m, bits);
      LowLow(w, m, bits);
    } else {
      LowLow(v, bits, m);
      LowLow(w, bits, m);
      assert Low(v, bits) == Low(w, bits);
    }
  }

  /** Keys that agree in k bits agree in more of them after the next byte. */
  lemma UpdateAgrees(bits: nat, x: nat, y: nat, k: nat, c: Byte)
    requires Low(x, k) == Low(y, k)
    ensures Low(Update(bits, x, c), Shift(bits) + k) == Low(Update(bits, y, c), Shift(bits) + k)
  {
    hide Low, Xor, Pow2, Shift;
    var s := Shift(bits);
    ShiftedLow(x, s, k);
    ShiftedLow(y, s, k);
    XorLow(x * Pow2(s), c, s + k);
    XorLow(y * Pow2(s), c, s + k);
    LowBoth(Xor(x * Pow2(s), c), Xor(y * Pow2(s), c), bits, s + k);
  }

  /** After three bytes nothing is left of what came before: the key can roll along the input. */
  lemma RollingHash(bits: nat, x: nat, a: Byte, b: Byte, c: Byte)
    ensures Update(bits, Update(bits, Update(bits, x, a), b), c) == Hash3(bits, a, b, c)
  {
    hide Low, Xor, Pow2, Update, Shift;
    var s := Shift(bits);
    var x1, x2 := Update(bits, x, a), Update(bits, Update(bits, x, a), b);
    var y1, y2 := Update(bits, 0, a), Update(bits, Update(bits, 0, a), b);
    LowNone(x);
    LowNone(0);
    UpdateAgrees(bits, x, 0, 0, a);
    UpdateAgrees(bits, x1, y1, s, b);
    UpdateAgrees(bits, x2, y2, s + s, c);
    UpdateBound(bits, x2, c);
    UpdateBound(bits, y2, c);
    ShiftThrice(bits);
    Pow2Mono(bits, s + (s + s));
    LowSmall(Update(bits, x2, c), s + (s + s));
    LowSmall(Update(bits, y2, c), s + (s + s));
  }

  lemma ShiftThrice(bits: nat)
    ensures bits <= 3 * Shift(bits)
  {
  }

  lemma LowNone(x: nat)
    ensures Low(x, 0) == 0
  {
  }

  /** With equal keys and equal first bytes the third bytes are equal: the comparison that longest_match leaves
      out. */
  lemma ThirdByte(bits: nat, a: Byte, b: Byte, c: Byte, d: Byte)
    requires bits >= 8 && Hash3(bits, a, b, c) == Hash3(bits, a, b, d)
    ensures c == d
  {
    hide Low, Xor, Pow2, Shift;
    var g := Update(bits, Update(bits, 0, a), b) * Pow2(Shift(bits));
    XorLow(g, c, bits);
    XorLow(g, d, bits);
    XorCancel(Low(g, bits), Low(c, bits), Low(d, bits));
    Pow2Values();
    Pow2Mono(8, bits);
    LowSmall(c, bits);
    LowSmall(d, bits);
  }
}
