/** The CRC-32 a bit at a time (section 8 of RFC 1952), and what it is on whole words. */
module CrcTheory {
  import opened Bits
  import opened Xors
  import opened PolyRing

  const ALL: nat := 0xffff_ffff

  /** The register after one more byte: eight shifts, a bit at a time. */
  function CrcByte(r: nat, c: Byte): (q: nat)
  {
    XPow(8, Xor(r, c))
  }

  /** The register after more bytes. */
  function CrcRaw(r: nat, s: seq<Byte>): (q: nat)
    decreases |s|
  {
    if s == [] then r else CrcRaw(CrcByte(r, s[0]), s[1..])
  }

  function Not(v: nat): (r: nat)
  {
    Xor(v, ALL)
  }

  /** The CRC of a text that continues one with the given CRC. */
  function Crc(crc: nat, s: seq<Byte>): (r: nat)
  {
    Not(CrcRaw(Not(crc), s))
  }

  /** Bytes as a number, the first one lowest. */
  function Word(s: seq<Byte>): (n: nat)
  {
    if s == [] then 0 else s[0] + 256 * Word(s[1..])
  }

  // ---------- shifting ----------

  lemma {:induction false} XPowShift(n: nat, v: nat)
    ensures XPow(n, Pow2(n) * v) == v
    decreases n
  {
    hide X;
    if n > 0 {
      XPowShift(n - 1, v);
      XPowAdd(n - 1, 1, Pow2(n) * v);
      XOnce(Pow2(n) * v);
      TwoTimes(Pow2(n - 1), v);
      XEven(Pow2(n - 1) * v);
    }
  }

  lemma XOnce(v: nat)
    ensures XPow(1, v) == X(v)
  {
    assert XPow(0, v) == v;
  }

  lemma TwoTimes(p: nat, v: nat)
    ensures 2 * p * v == 2 * (p * v)
  {
  }

  lemma XEven(v: nat)
    ensures X(2 * v) == v
  {
  }

  /** A larger power first uses up the shift. */
  lemma XPowShifted(m: nat, n: nat, v: nat)
    requires n <= m
    ensures XPow(m, Pow2(n) * v) == XPow(m - n, v)
  {
    hide X, Pow2;
    XPowAdd(m - n, n, Pow2(n) * v);
    XPowShift(n, v);
  }

  /** What the table look-up replaces: the low byte goes through eight shifts, the rest just moves down. */
  lemma ByteStep(v: nat)
    ensures XPow(8, v) == Xor(v / 256, XPow(8, v % 256))
  {
    hide XPow, Xor, Pow2;
    Pow2Values();
    XorApart(v / 256, 8, v % 256);
    assert v == 256 * (v / 256) + v % 256;
    XPowLinear(8, 256 * (v / 256), v % 256);
    XPowShift(8, v / 256);
  }

  /** Words longer than 32 bits shrink to 32. */
  lemma XShrinks(v: nat, m: nat)
    requires v < Pow2(32 + m + 1)
    ensures X(v) < Pow2(32 + m)
  {
    hide Xor;
    PolyBound();
    Pow2Mono(32, 32 + m);
    XorBound(v / 2, POLY, 32 + m);
  }

  lemma {:induction false} XPowShrinks(n: nat, v: nat, m: nat)
    requires v < Pow2(32 + m) && m <= n
    ensures XPow(n, v) < Pow2(32)
    decreases n
  {
    hide X, Pow2;
    if m == 0 {
      XPowBound(n, v);
    } else {
      XShrinks(v, m - 1);
      XPowShrinks(n - 1, X(v), m - 1);
      XPowAdd(n - 1, 1, v);
      XOnce(v);
    }
  }

  // ---------- the CRC as one shift of a number ----------

  lemma WordStep(s: seq<Byte>)
    requires s != []
    ensures Word(s) == Xor(s[0], Pow2(8) * Word(s[1..]))
  {
    hide Xor;
    Pow2Values();
    XorApart(Word(s[1..]), 8, s[0]);
    XorComm(s[0], Pow2(8) * Word(s[1..]));
  }

  /** Running bytes through the register is multiplying, by x for each bit, what the register and the bytes make
      together. */
  lemma {:induction false} CrcIsShift(r: nat, s: seq<Byte>)
    ensures CrcRaw(r, s) == XPow(8 * |s|, Xor(r, Word(s)))
    decreases |s|
  {
    hide Xor, Word, XPow, Pow2;
    if s == [] {
      XPowNone(r);
      XorZero(r);
    } else {
      var t := s[1..];
      CrcIsShift(CrcByte(r, s[0]), t);
      WordStep(s);
      XorAssoc(r, s[0], Pow2(8) * Word(t));
      XPowAdd(8 * |t|, 8, Xor(r, Word(s)));
      XPowLinear(8, Xor(r, s[0]), Pow2(8) * Word(t));
      XPowShift(8, Word(t));
    }
  }

  lemma XPowNone(r: nat)
    ensures XPow(0, r) == r && Word([]) == 0
  {
  }

  /** Two texts one after the other. */
  lemma {:induction false} CrcAppend(r: nat, s: seq<Byte>, t: seq<Byte>)
    ensures CrcRaw(r, s + t) == CrcRaw(CrcRaw(r, s), t)
    decreases |s|
  {
    hide CrcByte;
    if s == [] {
      assert s + t == t;
    } else {
      CrcAppend(CrcByte(r, s[0]), s[1..], t);
      assert (s + t)[1..] == s[1..] + t;
    }
  }

  /** The register's contribution is separate from that of the bytes. */
  lemma CrcLinear(r: nat, q: nat, s: seq<Byte>)
    ensures CrcRaw(Xor(r, q), s) == Xor(CrcRaw(r, s), XPow(8 * |s|, q))
  {
    hide Xor, Word, XPow, CrcRaw;
    CrcIsShift(r, s);
    CrcIsShift(Xor(r, q), s);
    XorAssoc(r, q, Word(s));
    XorComm(q, Word(s));
    XorAssoc(r, Word(s), q);
    XPowLinear(8 * |s|, Xor(r, Word(s)), q);
  }

  lemma AllBound()
    ensures ALL < Pow2(32)
  {
    hide Pow2;
    PolyBound();
  }

  lemma NotNot(v: nat)
    ensures Not(Not(v)) == v
  {
    hide Xor;
    XorAssoc(v, ALL, ALL);
    XorSelf(ALL);
    XorZero(v);
  }

  lemma {:induction false} CrcBound(r: nat, s: seq<Byte>)
    requires r < Pow2(32)
    ensures CrcRaw(r, s) < Pow2(32)
    decreases |s|
  {
    hide Xor, XPow, Pow2;
    if s != [] {
      PolyBound();
      XorBound(r, s[0], 32);
      XPowBound(8, Xor(r, s[0]));
      CrcBound(CrcByte(r, s[0]), s[1..]);
    }
  }

  lemma CrcFits(crc: nat, s: seq<Byte>)
    requires crc < Pow2(32)
    ensures Crc(crc, s) < Pow2(32) && Not(crc) < Pow2(32)
  {
    hide Xor, CrcRaw, Pow2;
    AllBound();
    XorBound(crc, ALL, 32);
    CrcBound(Not(crc), s);
    XorBound(CrcRaw(Not(crc), s), ALL, 32);
  }

  /** The CRC of a whole from those of its parts. */
  lemma CrcCombines(crc: nat, s: seq<Byte>, t: seq<Byte>)
    requires crc < Pow2(32)
    ensures Crc(crc, s + t) == Xor(Mul(P(8 * |t|), Crc(crc, s)), Crc(0, t))
  {
    hide Xor, CrcRaw, XPow, MulFrom, Mul, P, Pow2;
    var c, u := Crc(crc, s), CrcRaw(Not(crc), s);
    CrcFits(crc, s);
    MulPower(8 * |t|, c);
    CrcAppend(Not(crc), s, t);
    NotNot(u);
    XorComm(c, ALL);
    CrcLinear(ALL, c, t);
    NotZero();
    var a, b := CrcRaw(ALL, t), XPow(8 * |t|, c);
    XorComm(a, b);
    XorAssoc(b, a, ALL);
  }

  lemma NotZero()
    ensures Not(0) == ALL
  {
    XorZero(ALL);
  }

  // ---------- braids ----------

  /** The words of a block of n words of w bytes. */
  function Words(s: seq<Byte>, n: nat, w: nat): (d: seq<nat>)
    requires |s| == n * w
    ensures |d| == n
    decreases n
  {
    if n == 0 then []
    else
      FirstWord(n, w);
      [Word(s[..w])] + Words(s[w..], n - 1, w)
  }

  lemma FirstWord(n: nat, w: nat)
    requires n >= 1
    ensures w <= n * w && n * w - w == (n - 1) * w
  {
  }

  /** The registers of the braids brought together: the first has the most words still to go. */
  function Gather(d: seq<nat>, w: nat): (r: nat)
  {
    if d == [] then 0 else Xor(XPow(8 * (|d| * w), d[0]), Gather(d[1..], w))
  }

  /** Word by word exclusive or. */
  function XorEach(d: seq<nat>, e: seq<nat>): (r: seq<nat>)
    requires |d| == |e|
    ensures |r| == |d|
  {
    seq(|d|, i requires 0 <= i < |d| => Xor(d[i], e[i]))
  }

  lemma {:induction false} GatherXor(d: seq<nat>, e: seq<nat>, w: nat)
    requires |d| == |e|
    ensures Gather(XorEach(d, e), w) == Xor(Gather(d, w), Gather(e, w))
    decreases |d|
  {
    hide Xor, XPow;
    if d == [] {
      XorZero(0);
    } else {
      GatherXor(d[1..], e[1..], w);
      assert XorEach(d, e)[1..] == XorEach(d[1..], e[1..]);
      var n := 8 * (|d| * w);
      XPowLinear(n, d[0], e[0]);
      XorSwap(XPow(n, d[0]), XPow(n, e[0]), Gather(d[1..], w), Gather(e[1..], w));
    }
  }

  /** Every register shifted on. */
  function ShiftEach(d: seq<nat>, n: nat): (r: seq<nat>)
    ensures |r| == |d|
  {
    seq(|d|, i requires 0 <= i < |d| => XPow(n, d[i]))
  }

  lemma {:induction false} GatherShift(d: seq<nat>, n: nat, w: nat)
    ensures Gather(ShiftEach(d, n), w) == XPow(n, Gather(d, w))
    decreases |d|
  {
    hide Xor, XPow;
    if d == [] {
      XPowZero(n);
    } else {
      GatherShift(d[1..], n, w);
      assert ShiftEach(d, n)[1..] == ShiftEach(d[1..], n);
      var m := 8 * (|d| * w);
      XPowAdd(m, n, d[0]);
      XPowAdd(n, m, d[0]);
      XPowLinear(n, XPow(m, d[0]), Gather(d[1..], w));
    }
  }

  lemma {:induction false} WordAppend(s: seq<Byte>, t: seq<Byte>)
    ensures Word(s + t) == Word(s) + Pow2(8 * |s|) * Word(t) && Word(s) < Pow2(8 * |s|)
    decreases |s|
  {
    hide Pow2;
    if s == [] {
      assert s + t == t;
      Pow2Values();
    } else {
      WordAppend(s[1..], t);
      assert (s + t)[1..] == s[1..] + t;
      Pow2Add(8, 8 * |s[1..]|);
      Pow2Values();
      Thrice(Pow2(8 * |s[1..]|), Word(t));
    }
  }

  lemma Thrice(p: nat, v: nat)
    ensures 256 * (p * v) == 256 * p * v
  {
  }

  /** A block of words, shifted by its length, is its words gathered. */
  lemma {:induction false} WordsGather(s: seq<Byte>, n: nat, w: nat)
    requires |s| == n * w
    ensures XPow(8 * (n * w), Word(s)) == Gather(Words(s, n, w), w)
    decreases n
  {
    hide Xor, XPow, Word, Pow2;
    if n == 0 {
      assert s == [];
      XPowNone(0);
      XPowZero(0);
    } else {
      FirstWord(n, w);
      var a, b := s[..w], s[w..];
      WordsGather(b, n - 1, w);
      assert s == a + b;
      WordAppend(a, b);
      XorApart(Word(b), 8 * w, Word(a));
      XorComm(Pow2(8 * w) * Word(b), Word(a));
      XPowLinear(8 * (n * w), Word(a), Pow2(8 * w) * Word(b));
      XPowShifted(8 * (n * w), 8 * w, Word(b));
      assert Words(s, n, w)[1..] == Words(b, n - 1, w);
    }
  }

  /** The registers stand for the CRC register r at the start of the next block. */
  ghost predicate Braided(r: nat, crcs: seq<nat>, w: nat)
  {
    XPow(8 * (|crcs| * w), r) == Gather(crcs, w)
  }

  lemma BraidStart(r: nat, n: nat, w: nat)
    requires n >= 1
    ensures Braided(r, [r] + seq(n - 1, _ => 0), w)
  {
    hide Xor, XPow;
    var z := seq(n - 1, _ => 0);
    GatherZero(n - 1, w);
    XorZero(XPow(8 * (n * w), r));
    assert ([r] + z)[1..] == z;
  }

  lemma {:induction false} GatherZero(n: nat, w: nat)
    ensures Gather(seq(n, _ => 0), w) == 0
    decreases n
  {
    hide Xor, XPow;
    if n > 0 {
      GatherZero(n - 1, w);
      assert seq(n, _ => 0)[1..] == seq(n - 1, _ => 0);
      XPowZero(8 * (n * w));
      XorZero(0);
    }
  }

  /** After a block the CRC register is what the registers and the words make, gathered. */
  lemma BlockGather(r: nat, crcs: seq<nat>, s: seq<Byte>, w: nat)
    requires Braided(r, crcs, w) && |s| == |crcs| * w
    ensures CrcRaw(r, s) == Gather(XorEach(crcs, Words(s, |crcs|, w)), w)
  {
    hide Xor, XPow, Word, CrcRaw, Words, Gather;
    CrcIsShift(r, s);
    XPowLinear(8 * |s|, r, Word(s));
    WordsGather(s, |crcs|, w);
    GatherXor(crcs, Words(s, |crcs|, w), w);
  }

  /** Shifting each braid on by a whole block keeps them in step. */
  lemma BraidStep(r: nat, crcs: seq<nat>, s: seq<Byte>, w: nat)
    requires Braided(r, crcs, w) && |s| == |crcs| * w
    ensures Braided(CrcRaw(r, s), ShiftEach(XorEach(crcs, Words(s, |crcs|, w)), 8 * (|crcs| * w)), w)
  {
    hide Xor, XPow, CrcRaw, Words, Gather;
    BlockGather(r, crcs, s, w);
    GatherShift(XorEach(crcs, Words(s, |crcs|, w)), 8 * (|crcs| * w), w);
  }

  /** Combining the braids one after the other. */
  function Chain(c: nat, d: seq<nat>, w: nat): (r: nat)
    decreases |d|
  {
    if d == [] then c else Chain(XPow(8 * w, Xor(d[0], c)), d[1..], w)
  }

  lemma {:induction false} ChainGathers(c: nat, d: seq<nat>, w: nat)
    ensures Chain(c, d, w) == Xor(XPow(8 * (|d| * w), c), Gather(d, w))
    decreases |d|
  {
    hide Xor, XPow;
    if d == [] {
      XPowNone(c);
      XorZero(c);
    } else {
      var n := 8 * ((|d| - 1) * w);
      ChainGathers(XPow(8 * w, Xor(d[0], c)), d[1..], w);
      FirstWord(|d|, w);
      XPowAdd(n, 8 * w, Xor(d[0], c));
      XPowLinear(n + 8 * w, d[0], c);
      var a, b, g := XPow(n + 8 * w, d[0]), XPow(n + 8 * w, c), Gather(d[1..], w);
      XorComm(a, b);
      XorAssoc(b, a, g);
    }
  }
}
