/** Bit strings, shifts, masks and bit reversal: the arithmetic the rest of the model shares.

    A bit string lists its bits in stream order, least significant bit of a byte first, as
    section 3.1.1 of RFC 1951 packs them.  The C code works on unsigned values: `v >> n` is
    Shr(v, n), `v & ((1 << n) - 1)` is Low(v, n) and `v << n` is v * Pow2(n), cut to the width
    of the variable where that width matters. */
module Bits {

  type BitString = seq<bool>
  type Byte = x: nat | x < 256

  function Pow2(n: nat): (r: nat)
    ensures r >= 1
  {
    if n == 0 then 1 else 2 * Pow2(n - 1)
  }

  function Shr(v: nat, n: nat): (r: nat)
    decreases n
  {
    if n == 0 then v else Shr(v / 2, n - 1)
  }

  function Low(v: nat, n: nat): (r: nat)
    decreases n
  {
    if n == 0 then 0 else v % 2 + 2 * Low(v / 2, n - 1)
  }

  lemma {:induction false} Pow2Add(m: nat, n: nat)
    ensures Pow2(m + n) == Pow2(m) * Pow2(n)
  {
    if m > 0 {
      Pow2Add(m - 1, n);
      assert 2 * (Pow2(m - 1) * Pow2(n)) == Pow2(m) * Pow2(n);
    }
  }

  lemma {:induction false} Pow2Mono(m: nat, n: nat)
    requires m <= n
    ensures Pow2(m) <= Pow2(n)
    decreases n
  {
    if m < n {
      Pow2Mono(m, n - 1);
    }
  }

  lemma Pow2Values()
    ensures Pow2(0) == 1 && Pow2(1) == 2 && Pow2(2) == 4 && Pow2(3) == 8 && Pow2(4) == 16
    ensures Pow2(5) == 32 && Pow2(6) == 64 && Pow2(7) == 128 && Pow2(8) == 256 && Pow2(9) == 512
    ensures Pow2(13) == 8192 && Pow2(14) == 16384 && Pow2(15) == 32768 && Pow2(16) == 65536
  {
    assert Pow2(3) == 8;
    assert Pow2(6) == 64;
    assert Pow2(9) == 512;
    assert Pow2(12) == 4096;
    assert Pow2(15) == 32768;
  }

  // ---------- shifting and masking ----------

  lemma {:induction false} LowBound(v: nat, n: nat)
    ensures Low(v, n) < Pow2(n)
    decreases n
  {
    if n > 0 {
      LowBound(v / 2, n - 1);
    }
  }

  lemma {:induction false} Split(v: nat, n: nat)
    ensures v == Low(v, n) + Pow2(n) * Shr(v, n)
    decreases n
  {
    if n > 0 {
      Split(v / 2, n - 1);
      assert 2 * (Pow2(n - 1) * Shr(v, n)) == Pow2(n) * Shr(v, n);
    }
  }

  /** A value assembled from n low bits and a high part splits back into them. */
  lemma {:induction false} Join(a: nat, n: nat, q: nat)
    requires a < Pow2(n)
    ensures Low(a + Pow2(n) * q, n) == a
    ensures Shr(a + Pow2(n) * q, n) == q
    decreases n
  {
    if n > 0 {
      var v := a + Pow2(n) * q;
      assert Pow2(n) * q == 2 * (Pow2(n - 1) * q);
      assert v / 2 == a / 2 + Pow2(n - 1) * q && v % 2 == a % 2;
      Join(a / 2, n - 1, q);
    }
  }

  lemma LowSmall(v: nat, n: nat)
    requires v < Pow2(n)
    ensures Low(v, n) == v && Shr(v, n) == 0
  {
    Join(v, n, 0);
  }

  lemma {:induction false} ShrShr(v: nat, m: nat, n: nat)
    ensures Shr(v, m + n) == Shr(Shr(v, m), n)
    decreases m
  {
    if m > 0 {
      ShrShr(v / 2, m - 1, n);
      assert m + n - 1 == (m - 1) + n;
    }
  }

  lemma TwicePow(m: nat, x: nat)
    requires m > 0
    ensures 2 * (Pow2(m - 1) * x) == Pow2(m) * x
  {
    var p := Pow2(m - 1);
    assert Pow2(m) == 2 * p;
    assert 2 * (p * x) == (2 * p) * x;
  }

  lemma {:induction false} LowAdd(v: nat, m: nat, n: nat)
    ensures Low(v, m + n) == Low(v, m) + Pow2(m) * Low(Shr(v, m), n)
    decreases m
  {
    if m > 0 {
      LowAdd(v / 2, m - 1, n);
      assert m + n - 1 == (m - 1) + n;
      TwicePow(m, Low(Shr(v, m), n));
    }
  }

  lemma {:induction false} LowLow(v: nat, n: nat, m: nat)
    requires n <= m
    ensures Low(Low(v, m), n) == Low(v, n)
    decreases n
  {
    if n > 0 {
      LowLow(v / 2, n - 1, m - 1);
    }
  }

  lemma ShrBound(v: nat, m: nat, n: nat)
    requires v < Pow2(m + n)
    ensures Shr(v, m) < Pow2(n)
  {
    Split(v, m);
    Pow2Add(m, n);
    if Shr(v, m) >= Pow2(n) {
      MulMono(Pow2(m), Pow2(n), Shr(v, m));
      assert false;
    }
  }

  lemma MulMono(a: nat, x: nat, y: nat)
    requires x <= y
    ensures a * x <= a * y
  {
    assert a * y == a * x + a * (y - x);
  }

  lemma Distribute(a: nat, x: nat, y: nat)
    ensures a * (x + y) == a * x + a * y
  {
  }

  // ---------- values of bit strings ----------

  /** The low n bits of v, least significant first. */
  function ToBits(v: nat, n: nat): (b: BitString)
    ensures |b| == n
    decreases n
  {
    if n == 0 then [] else [v % 2 == 1] + ToBits(v / 2, n - 1)
  }

  function FromBits(b: BitString): (v: nat)
  {
    if b == [] then 0 else (if b[0] then 1 else 0) + 2 * FromBits(b[1..])
  }

  lemma {:induction false} FromBitsBound(b: BitString)
    ensures FromBits(b) < Pow2(|b|)
  {
    if b != [] {
      FromBitsBound(b[1..]);
    }
  }

  lemma {:induction false} FromToBits(v: nat, n: nat)
    ensures FromBits(ToBits(v, n)) == Low(v, n)
    decreases n
  {
    if n > 0 {
      FromToBits(v / 2, n - 1);
      assert ToBits(v, n)[1..] == ToBits(v / 2, n - 1);
    }
  }

  lemma {:induction false} ToFromBits(b: BitString)
    ensures ToBits(FromBits(b), |b|) == b
  {
    if b != [] {
      ToFromBits(b[1..]);
      assert b == [b[0]] + b[1..];
    }
  }

  lemma {:induction false} FromBitsAppend(a: BitString, b: BitString)
    ensures FromBits(a + b) == FromBits(a) + Pow2(|a|) * FromBits(b)
  {
    if a == [] {
      assert a + b == b;
    } else {
      FromBitsAppend(a[1..], b);
      assert (a + b)[1..] == a[1..] + b;
      assert 2 * (Pow2(|a| - 1) * FromBits(b)) == Pow2(|a|) * FromBits(b);
    }
  }

  lemma {:induction false} ToBitsSplit(v: nat, m: nat, n: nat)
    ensures ToBits(v, m + n) == ToBits(v, m) + ToBits(Shr(v, m), n)
    decreases m
  {
    if m > 0 {
      ToBitsSplit(v / 2, m - 1, n);
      assert m + n - 1 == (m - 1) + n;
    } else {
      assert ToBits(v, 0) + ToBits(v, n) == ToBits(v, n);
    }
  }

  lemma {:induction false} ToBitsLow(v: nat, n: nat, m: nat)
    requires n <= m
    ensures ToBits(Low(v, m), n) == ToBits(v, n)
    decreases n
  {
    if n > 0 {
      ToBitsLow(v / 2, n - 1, m - 1);
    }
  }

  lemma ToBitsPrefix(v: nat, n: nat, m: nat)
    requires n <= m
    ensures ToBits(v, m)[..n] == ToBits(v, n)
    ensures ToBits(v, m)[n..] == ToBits(Shr(v, n), m - n)
  {
    ToBitsSplit(v, n, m - n);
    assert n + (m - n) == m;
  }

  lemma {:induction false} FromBitsPrefix(b: BitString, n: nat)
    requires n <= |b|
    ensures FromBits(b[..n]) == Low(FromBits(b), n)
    ensures FromBits(b[n..]) == Shr(FromBits(b), n)
    decreases n
  {
    if n > 0 {
      FromBitsPrefix(b[1..], n - 1);
      assert b[..n][1..] == b[1..][..n - 1];
      assert b[n..] == b[1..][n - 1..];
      PrefixStep(b, n);
    } else {
      assert b[0..] == b;
    }
  }

  lemma PrefixStep(b: BitString, n: nat)
    requires 1 <= n <= |b|
    ensures FromBits(b[..n]) == (if b[0] then 1 else 0) + 2 * FromBits(b[..n][1..])
    ensures Low(FromBits(b), n) == (if b[0] then 1 else 0) + 2 * Low(FromBits(b[1..]), n - 1)
    ensures Shr(FromBits(b), n) == Shr(FromBits(b[1..]), n - 1)
  {
    assert b[..n][0] == b[0];
    assert FromBits(b) == (if b[0] then 1 else 0) + 2 * FromBits(b[1..]);
    assert FromBits(b) / 2 == FromBits(b[1..]);
  }

  // ---------- bit reversal ----------

  /** The low n bits of v in the opposite order. */
  function Rev(n: nat, v: nat): (r: nat)
  {
    if n == 0 then 0 else (if v % 2 == 1 then Pow2(n - 1) else 0) + Rev(n - 1, v / 2)
  }

  lemma {:induction false} RevBound(n: nat, v: nat)
    ensures Rev(n, v) < Pow2(n)
  {
    if n > 0 {
      RevBound(n - 1, v / 2);
    }
  }

  lemma {:induction false} RevSplit(m: nat, n: nat, v: nat)
    ensures Rev(m + n, v) == Pow2(n) * Rev(m, v) + Rev(n, Shr(v, m))
    decreases m
  {
    if m > 0 {
      var w := v / 2;
      RevSplit(m - 1, n, w);
      var top := if v % 2 == 1 then Pow2(m - 1) else 0;
      Pow2Add(n, m - 1);
      Distribute(Pow2(n), top, Rev(m - 1, w));
      assert (m - 1) + n == m + n - 1;
      assert Rev(m, v) == top + Rev(m - 1, w);
    }
  }

  lemma {:induction false} RevLow(n: nat, v: nat, m: nat)
    requires n <= m
    ensures Rev(n, Low(v, m)) == Rev(n, v)
    decreases n
  {
    if n > 0 {
      RevLow(n - 1, v / 2, m - 1);
    }
  }

  /** Reversing the low m + n bits and dropping the last n leaves the reversal of the low m. */
  lemma RevTop(m: nat, n: nat, v: nat)
    ensures Shr(Rev(m + n, v), n) == Rev(m, v)
    ensures Low(Rev(m + n, v), n) == Rev(n, Shr(v, m))
  {
    RevSplit(m, n, v);
    RevBound(n, Shr(v, m));
    Join(Rev(n, Shr(v, m)), n, Rev(m, v));
  }

  /** Reversal is its own inverse on the low n bits. */
  lemma {:induction false} RevRev(n: nat, v: nat)
    ensures Rev(n, Rev(n, v)) == Low(v, n)
    decreases n
  {
    if n > 0 {
      // Rev(n, v) carries bit 0 of v on top of Rev(n - 1, v / 2).
      var low := Rev(n - 1, v / 2);
      RevBound(n - 1, v / 2);
      Join(low, n - 1, v % 2);
      assert Rev(n, v) == low + Pow2(n - 1) * (v % 2);
      RevSplit(n - 1, 1, Rev(n, v));
      assert Rev(1, v % 2) == v % 2;
      RevLow(n - 1, Rev(n, v), n - 1);
      RevRev(n - 1, v / 2);
    }
  }

  // ---------- bitwise or ----------

  /** Bitwise or of two unsigned values. */
  function BitOr(a: nat, b: nat): (r: nat)
    decreases a + b
  {
    if a == 0 && b == 0 then 0
    else (if a % 2 == 1 || b % 2 == 1 then 1 else 0) + 2 * BitOr(a / 2, b / 2)
  }

  lemma {:induction false} BitOrZero(b: nat)
    ensures BitOr(0, b) == b
  {
    if b > 0 {
      BitOrZero(b / 2);
    }
  }

  /** Or-ing a value into bits above those in use adds it. */
  lemma {:induction false} BitOrDisjoint(a: nat, k: nat, b: nat)
    requires a < Pow2(k)
    ensures BitOr(a, b * Pow2(k)) == a + b * Pow2(k)
    decreases k
  {
    if k == 0 {
      BitOrZero(b);
    } else {
      var c := b * Pow2(k);
      assert c == 2 * (b * Pow2(k - 1));
      BitOrDisjoint(a / 2, k - 1, b);
      assert c / 2 == b * Pow2(k - 1) && c % 2 == 0;
    }
  }

  /** Or-ing a value into bits some of which are in use leaves the bits below. */
  lemma {:induction false} BitOrLow(a: nat, k: nat, b: nat)
    ensures Low(BitOr(a, b * Pow2(k)), k) == Low(a, k)
    decreases k
  {
    if k > 0 {
      var c := b * Pow2(k);
      assert c == 2 * (b * Pow2(k - 1));
      BitOrLow(a / 2, k - 1, b);
      assert c / 2 == b * Pow2(k - 1) && c % 2 == 0;
    }
  }

  // ---------- bytes ----------

  function BytesToBits(s: seq<Byte>): (b: BitString)
    ensures |b| == 8 * |s|
  {
    if s == [] then [] else ToBits(s[0], 8) + BytesToBits(s[1..])
  }

  lemma {:induction false} BytesToBitsAppend(s: seq<Byte>, t: seq<Byte>)
    ensures BytesToBits(s + t) == BytesToBits(s) + BytesToBits(t)
  {
    if s == [] {
      assert s + t == t;
    } else {
      assert (s + t)[1..] == s[1..] + t;
      BytesToBitsAppend(s[1..], t);
    }
  }

  /** The bits from position pos to the next byte boundary. */
  function Padding(pos: nat): (k: nat)
    ensures k < 8 && (pos + k) % 8 == 0
  {
    (8 - pos % 8) % 8
  }

  /** A remainder is determined by any way to write the number as a multiple and a rest. */
  lemma Remainder(n: nat, q: nat, r: nat)
    requires r < n
    ensures (n * q + r) % n == r
  {
    var x := n * q + r;
    var k := x / n;
    assert x == n * k + x % n;
    if k < q {
      MulMono(n, k + 1, q);
      Distribute(n, k, 1);
      assert false;
    }
    if q < k {
      MulMono(n, q + 1, k);
      Distribute(n, q, 1);
      assert false;
    }
  }
}
