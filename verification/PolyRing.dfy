/** Polynomials over GF(2) modulo the CRC polynomial, as 32-bit words with the lowest power in the highest
    bit (crc32.c: multmodp, x2nmodp; section 8 of RFC 1952). */
module PolyRing {
  import opened Bits
  import opened Xors

  const POLY: nat := 0xedb88320   // the CRC polynomial, with x^32 implied
  const ONE: nat := 0x8000_0000   // x^0

  /** Multiplication by x. */
  function X(v: nat): (r: nat)
  {
    if v % 2 == 1 then Xor(v / 2, POLY) else v / 2
  }

  /** Multiplication by x^n. */
  function XPow(n: nat, v: nat): (r: nat)
  {
    if n == 0 then v else X(XPow(n - 1, v))
  }

  predicate Bit(v: nat, k: nat)
  {
    Shr(v, k) % 2 == 1
  }

  function If(c: bool, v: nat): (r: nat)
  {
    if c then v else 0
  }

  /** The sum of b, x b, x^2 b, ... for the n lowest bits of a that are set, from bit n - 1 down. */
  function MulFrom(a: nat, b: nat, n: nat): (r: nat)
    decreases n
  {
    if n == 0 then 0 else Xor(If(Bit(a, n - 1), b), MulFrom(a, X(b), n - 1))
  }

  /** The product. */
  function Mul(a: nat, b: nat): (r: nat)
  {
    MulFrom(a, b, 32)
  }

  /** x^e. */
  function P(e: nat): (r: nat)
  {
    XPow(e, ONE)
  }

  // ---------- multiplication by x ----------

  lemma XLinear(a: nat, b: nat)
    ensures X(Xor(a, b)) == Xor(X(a), X(b))
  {
    hide Xor;
    var p := POLY;
    hide POLY;
    XorStep(a, b);
    XorSwap(a / 2, If(a % 2 == 1, p), b / 2, If(b % 2 == 1, p));
    XorZero(a / 2);
    XorZero(b / 2);
    XorZero(Xor(a / 2, b / 2));
    XorZero(p);
    XorZero(0);
    XorSelf(p);
  }

  lemma XZero()
    ensures X(0) == 0
  {
  }

  lemma {:induction false} XPowLinear(n: nat, a: nat, b: nat)
    ensures XPow(n, Xor(a, b)) == Xor(XPow(n, a), XPow(n, b))
    decreases n
  {
    hide X, Xor;
    if n > 0 {
      XPowLinear(n - 1, a, b);
      XLinear(XPow(n - 1, a), XPow(n - 1, b));
    }
  }

  lemma {:induction false} XPowZero(n: nat)
    ensures XPow(n, 0) == 0
    decreases n
  {
    if n > 0 {
      XPowZero(n - 1);
    }
  }

  lemma {:induction false} XPowAdd(m: nat, n: nat, v: nat)
    ensures XPow(m, XPow(n, v)) == XPow(m + n, v)
    decreases m
  {
    hide X;
    if m > 0 {
      XPowAdd(m - 1, n, v);
    }
  }

  /** Multiplying by x and taking remainders stays within 32 bits. */
  lemma XBound(v: nat)
    requires v < Pow2(32)
    ensures X(v) < Pow2(32)
  {
    hide Xor;
    Pow2Values();
    assert Pow2(32) == 2 * Pow2(31);
    PolyBound();
    XorBound(v / 2, POLY, 32);
  }

  lemma PolyBound()
    ensures POLY < Pow2(32) && ONE < Pow2(32) && Pow2(32) == 0x1_0000_0000
  {
    hide Pow2;
    Pow2Values();
    Pow2Add(16, 16);
  }

  lemma {:induction false} XPowBound(n: nat, v: nat)
    requires v < Pow2(32)
    ensures XPow(n, v) < Pow2(32)
    decreases n
  {
    hide X, Pow2;
    if n > 0 {
      XPowBound(n - 1, v);
      XBound(XPow(n - 1, v));
    }
  }

  /** Only zero becomes zero. */
  lemma XNonzero(v: nat)
    requires 0 < v < Pow2(32)
    ensures X(v) != 0
  {
    hide Xor;
    PolyBound();
    if v % 2 == 1 && Xor(v / 2, POLY) == 0 {
      XorSelf(POLY);
      XorComm(v / 2, POLY);
      XorCancel(POLY, v / 2, POLY);
    }
  }

  lemma {:induction false} XPowNonzero(n: nat, v: nat)
    requires 0 < v < Pow2(32)
    ensures XPow(n, v) != 0
    decreases n
  {
    hide X, Pow2;
    if n > 0 {
      XPowNonzero(n - 1, v);
      XPowBound(n - 1, v);
      XNonzero(XPow(n - 1, v));
    }
  }

  // ---------- products ----------

  lemma BitXor(a: nat, b: nat, k: nat)
    ensures Bit(Xor(a, b), k) == (Bit(a, k) != Bit(b, k))
  {
    hide Xor, Shr;
    XorShr(a, b, k);
    XorStep(Shr(a, k), Shr(b, k));
  }

  lemma IfXor(c: bool, d: bool, b: nat)
    ensures If(c != d, b) == Xor(If(c, b), If(d, b))
  {
    hide Xor;
    XorZero(b);
    XorZero(0);
    XorSelf(b);
  }

  lemma {:induction false} MulLeft(a: nat, c: nat, b: nat, n: nat)
    ensures MulFrom(Xor(a, c), b, n) == Xor(MulFrom(a, b, n), MulFrom(c, b, n))
    decreases n
  {
    hide X, Xor, Bit, If;
    if n > 0 {
      MulLeft(a, c, X(b), n - 1);
      BitXor(a, c, n - 1);
      IfXor(Bit(a, n - 1), Bit(c, n - 1), b);
      XorSwap(If(Bit(a, n - 1), b), If(Bit(c, n - 1), b), MulFrom(a, X(b), n - 1), MulFrom(c, X(b), n - 1));
    } else {
      XorZero(0);
    }
  }

  lemma IfBoth(c: bool, a: nat, b: nat)
    ensures If(c, Xor(a, b)) == Xor(If(c, a), If(c, b)) && X(If(c, a)) == If(c, X(a))
  {
    hide Xor;
    XorZero(0);
    XZero();
  }

  lemma {:induction false} MulRight(a: nat, b: nat, c: nat, n: nat)
    ensures MulFrom(a, Xor(b, c), n) == Xor(MulFrom(a, b, n), MulFrom(a, c, n))
    decreases n
  {
    hide X, Xor, Bit, If;
    if n > 0 {
      XLinear(b, c);
      MulRight(a, X(b), X(c), n - 1);
      IfBoth(Bit(a, n - 1), b, c);
      XorSwap(If(Bit(a, n - 1), b), If(Bit(a, n - 1), c), MulFrom(a, X(b), n - 1), MulFrom(a, X(c), n - 1));
    } else {
      XorZero(0);
    }
  }

  lemma {:induction false} MulZero(a: nat, n: nat)
    ensures MulFrom(a, 0, n) == 0
    decreases n
  {
    if n > 0 {
      MulZero(a, n - 1);
      XorZero(0);
    }
  }

  /** Multiplying a factor by x multiplies the product by x. */
  lemma {:induction false} MulX(a: nat, b: nat, n: nat)
    ensures MulFrom(a, X(b), n) == X(MulFrom(a, b, n))
    decreases n
  {
    hide X, Xor, Bit, If;
    if n > 0 {
      MulX(a, X(b), n - 1);
      XLinear(If(Bit(a, n - 1), b), MulFrom(a, X(b), n - 1));
      IfBoth(Bit(a, n - 1), b, b);
    } else {
      XZero();
    }
  }

  lemma {:induction false} MulXPow(a: nat, k: nat, b: nat)
    ensures Mul(a, XPow(k, b)) == XPow(k, Mul(a, b))
    decreases k
  {
    hide X, MulFrom;
    if k > 0 {
      MulXPow(a, k - 1, b);
      MulX(a, XPow(k - 1, b), 32);
    }
  }

  /** A word is the sum of its own powers of x. */
  lemma {:induction false} MulOne(b: nat, n: nat)
    requires n <= 32
    ensures MulFrom(b, if n == 0 then 0 else Pow2(n - 1), n) == Low(b, n)
    decreases n
  {
    hide Xor, Pow2, Low, Bit;
    if n > 0 {
      HalfPower(n);
      MulOne(b, n - 1);
      LowTop(b, n - 1);
      if n == 1 {
        MulFromNone(b, X(1));
        LowEmpty(b);
      }
    } else {
      LowEmpty(b);
    }
  }

  lemma MulFromNone(b: nat, c: nat)
    ensures MulFrom(b, c, 0) == 0
  {
  }

  lemma LowEmpty(b: nat)
    ensures Low(b, 0) == 0
  {
  }

  lemma HalfPower(n: nat)
    requires n >= 1
    ensures n >= 2 ==> X(Pow2(n - 1)) == Pow2(n - 2)
    ensures n == 1 ==> Pow2(n - 1) == 1
  {
    hide Xor;
    if n >= 2 {
      assert Pow2(n - 1) == 2 * Pow2(n - 2);
    }
  }

  /** Bit k on top of the lower ones. */
  lemma LowTop(b: nat, k: nat)
    ensures Low(b, k + 1) == Xor(If(Bit(b, k), Pow2(k)), Low(b, k))
  {
    hide Pow2, Low, Shr, Xor;
    LowAdd(b, k, 1);
    LowOne(Shr(b, k));
    LowBound(b, k);
    XorApart(if Bit(b, k) then 1 else 0, k, Low(b, k));
  }

  lemma LowOne(v: nat)
    ensures Low(v, 1) == v % 2
  {
    LowEmpty(v / 2);
  }

  lemma MulByOne(b: nat)
    requires b < Pow2(32)
    ensures Mul(b, ONE) == b
  {
    hide Pow2, Low, MulFrom;
    MulOne(b, 32);
    TopBit();
    LowSmall(b, 32);
  }

  lemma TopBit()
    ensures Pow2(31) == ONE
  {
    hide Pow2;
    Pow2Values();
    Pow2Add(16, 15);
  }

  /** Multiplication passes through the sum that makes up a product. */
  lemma {:induction false} MulThrough(a: nat, b: nat, c: nat, n: nat)
    ensures Mul(a, MulFrom(b, c, n)) == MulFrom(b, Mul(a, c), n)
    decreases n
  {
    hide X, Xor, Bit, If;
    if n > 0 {
      MulThrough(a, b, X(c), n - 1);
      MulX(a, c, 32);
      MulRight(a, If(Bit(b, n - 1), c), MulFrom(b, X(c), n - 1), 32);
      MulIf(a, Bit(b, n - 1), c);
    } else {
      MulZero(a, 32);
    }
  }

  lemma MulIf(a: nat, k: bool, c: nat)
    ensures Mul(a, If(k, c)) == If(k, Mul(a, c))
  {
    hide MulFrom;
    MulZero(a, 32);
  }

  lemma MulComm(a: nat, b: nat)
    requires a < Pow2(32) && b < Pow2(32)
    ensures Mul(a, b) == Mul(b, a)
  {
    hide MulFrom, Pow2;
    MulByOne(b);
    MulByOne(a);
    MulThrough(a, b, ONE, 32);
  }

  lemma MulAssoc(a: nat, b: nat, c: nat)
    requires a < Pow2(32) && b < Pow2(32) && c < Pow2(32)
    ensures Mul(Mul(a, b), c) == Mul(a, Mul(b, c))
  {
    hide MulFrom, Pow2;
    MulBound(a, b, 32);
    MulBound(b, c, 32);
    MulThrough(a, b, c, 32);
    MulThrough(c, b, a, 32);
    MulComm(Mul(a, b), c);
    MulComm(a, b);
    MulComm(a, c);
  }

  lemma {:induction false} MulBound(a: nat, b: nat, n: nat)
    requires b < Pow2(32)
    ensures MulFrom(a, b, n) < Pow2(32)
    decreases n
  {
    hide X, Xor, Bit, Pow2;
    if n > 0 {
      XBound(b);
      MulBound(a, X(b), n - 1);
      XorBound(If(Bit(a, n - 1), b), MulFrom(a, X(b), n - 1), 32);
    }
  }

  /** Multiplying by a power of x is shifting that often. */
  lemma MulPower(e: nat, v: nat)
    requires v < Pow2(32)
    ensures Mul(P(e), v) == XPow(e, v)
  {
    hide XPow, MulFrom, Pow2;
    PolyBound();
    XPowBound(e, ONE);
    MulComm(P(e), v);
    MulXPow(v, e, ONE);
    MulByOne(v);
  }

  /** Exponents add. */
  lemma PowerAdd(e: nat, f: nat)
    ensures Mul(P(e), P(f)) == P(e + f)
  {
    hide XPow, MulFrom, Pow2;
    PolyBound();
    XPowBound(f, ONE);
    MulPower(e, P(f));
    XPowAdd(e, f, ONE);
  }

  /** x^32 is what the polynomial says: the words are the polynomials modulo p(x). */
  lemma Modulus()
    ensures P(32) == POLY
  {
    hide Xor, Pow2;
    PowersDown(31);
    TopBit();
    Pow2Values();
    XorZero(POLY);
    assert X(1) == POLY;
  }

  lemma {:induction false} PowersDown(e: nat)
    requires e <= 31
    ensures P(e) == Pow2(31 - e)
    decreases e
  {
    hide Xor;
    if e == 0 {
      TopBit();
    } else {
      PowersDown(e - 1);
      HalfPower(32 - e + 1);
    }
  }
}
