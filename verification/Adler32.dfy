/** The Adler-32 checksum (adler32.c, section 8.2 of RFC 1950). */
module Adler32 {
  import opened Bits

  const BASE: nat := 65521
  const NMAX: nat := 5552
  const WORD: nat := 0x1_0000_0000    // values of a 32-bit unsigned

  // ---------- the definition, a byte at a time ----------

  /** The checksum with its two sums in the upper and lower sixteen bits. */
  function Pack(a: nat, b: nat): (r: nat)
  {
    a + b * 65536
  }

  ghost predicate Reduced(adler: nat)
  {
    adler % 65536 < BASE && adler / 65536 < BASE
  }

  /** The definition: both sums are reduced after every byte. */
  function Adler(adler: nat, s: seq<Byte>): (r: nat)
    decreases |s|
  {
    if s == [] then adler else AdlerByte(Adler(adler, s[..|s| - 1]), s[|s| - 1])
  }

  function AdlerByte(adler: nat, c: Byte): (r: nat)
  {
    var a := (adler % 65536 + c) % BASE;
    Pack(a, (adler / 65536 + a) % BASE)
  }

  /** The bytes of "Wikipedia". */
  const WIKIPEDIA: seq<Byte> := [0x57, 0x69, 0x6b, 0x69, 0x70, 0x65, 0x64, 0x69, 0x61]

  lemma NextByte(s: seq<Byte>, n: nat, r: nat, q: nat)
    requires n < |s| && Adler(1, s[..n]) == r && AdlerByte(r, s[n]) == q
    ensures Adler(1, s[..n + 1]) == q
  {
    hide AdlerByte;
    assert s[..n + 1][..n] == s[..n];
  }

  /** A byte added to small sums. */
  lemma SmallSums(low: nat, high: nat, c: Byte, adler: nat, next: nat)
    requires low + c < BASE && high + low + c < BASE && adler == 65536 * high + low
    requires next == 65536 * (high + low + c) + low + c
    ensures AdlerByte(adler, c) == next
  {
    HalvesOf(low, high);
    assert (low + c) % BASE == low + c && (high + low + c) % BASE == high + low + c;
  }

  lemma HalvesOf(low: nat, high: nat)
    requires low < 65536
    ensures (65536 * high + low) % 65536 == low && (65536 * high + low) / 65536 == high
  {
  }

  lemma WikipediaIs()
    ensures |WIKIPEDIA| == 9
    ensures WIKIPEDIA[0] == 0x57 && WIKIPEDIA[1] == 0x69 && WIKIPEDIA[2] == 0x6b && WIKIPEDIA[3] == 0x69
    ensures WIKIPEDIA[4] == 0x70 && WIKIPEDIA[5] == 0x65 && WIKIPEDIA[6] == 0x64 && WIKIPEDIA[7] == 0x69
      && WIKIPEDIA[8] == 0x61
    ensures Adler(1, WIKIPEDIA[..0]) == 1 && WIKIPEDIA[..9] == WIKIPEDIA
  {
  }

  lemma SumBase()
    ensures BASE == 65521
  {
  }

  /** A known value of the checksum. */
  lemma CheckValue()
    ensures Adler(1, WIKIPEDIA) == 0x11E60398
  {
    hide *;
    WikipediaIs();
    SumBase();
    SmallSums(1, 0, 0x57, 0x00000001, 0x00580058);
    NextByte(WIKIPEDIA, 0, 0x00000001, 0x00580058);
    SmallSums(88, 88, 0x69, 0x00580058, 0x011900c1);
    NextByte(WIKIPEDIA, 1, 0x00580058, 0x011900c1);
    SmallSums(193, 281, 0x6b, 0x011900c1, 0x0245012c);
    NextByte(WIKIPEDIA, 2, 0x011900c1, 0x0245012c);
    SmallSums(300, 581, 0x69, 0x0245012c, 0x03da0195);
    NextByte(WIKIPEDIA, 3, 0x0245012c, 0x03da0195);
    SmallSums(405, 986, 0x70, 0x03da0195, 0x05df0205);
    NextByte(WIKIPEDIA, 4, 0x03da0195, 0x05df0205);
    SmallSums(517, 1503, 0x65, 0x05df0205, 0x0849026a);
    NextByte(WIKIPEDIA, 5, 0x05df0205, 0x0849026a);
    SmallSums(618, 2121, 0x64, 0x0849026a, 0x0b1702ce);
    NextByte(WIKIPEDIA, 6, 0x0849026a, 0x0b1702ce);
    SmallSums(718, 2839, 0x69, 0x0b1702ce, 0x0e4e0337);
    NextByte(WIKIPEDIA, 7, 0x0b1702ce, 0x0e4e0337);
    SmallSums(823, 3662, 0x61, 0x0e4e0337, 0x11e60398);
    NextByte(WIKIPEDIA, 8, 0x0e4e0337, 0x11e60398);
  }

  // ---------- the sums without reduction ----------

  function SumA(a: nat, s: seq<Byte>): (r: nat)
  {
    if s == [] then a else SumA(a, s[..|s| - 1]) + s[|s| - 1]
  }

  function SumB(a: nat, b: nat, s: seq<Byte>): (r: nat)
  {
    if s == [] then b else SumB(a, b, s[..|s| - 1]) + SumA(a, s)
  }

  /** Largest value of the second sum after n bytes. */
  function Most(n: nat): (r: nat)
  {
    255 * (n * (n + 1) / 2) + (n + 1) * 65535
  }

  lemma SumsMore(a: nat, b: nat, s: seq<Byte>, c: Byte)
    ensures SumA(a, s + [c]) == SumA(a, s) + c
    ensures SumB(a, b, s + [c]) == SumB(a, b, s) + SumA(a, s) + c
  {
    assert (s + [c])[..|s + [c]| - 1] == s;
  }

  lemma {:induction false} SumsBound(a: nat, b: nat, s: seq<Byte>)
    requires a <= 65535 && b <= 65535
    ensures SumA(a, s) <= 65535 + 255 * |s| && SumB(a, b, s) <= Most(|s|)
    decreases |s|
  {
    if s != [] {
      var n := |s| - 1;
      SumsBound(a, b, s[..n]);
      assert (n + 1) * (n + 2) / 2 == n * (n + 1) / 2 + n + 1 by {
        assert (n + 1) * (n + 2) == n * (n + 1) + 2 * (n + 1);
      }
      assert (n + 2) * 65535 == (n + 1) * 65535 + 65535;
    }
  }

  /** A block of NMAX bytes cannot make the sums overflow 32 bits, even from sums that are not reduced. */
  lemma NoOverflow(a: nat, b: nat, s: seq<Byte>)
    requires a <= 65535 && b <= 65535 && |s| <= NMAX
    ensures SumA(a, s) < WORD && SumB(a, b, s) < WORD
  {
    SumsBound(a, b, s);
    var n := |s|;
    MulMono(n, n + 1, NMAX + 1);
    MulMono(NMAX + 1, n, NMAX);
    assert n * (n + 1) <= NMAX * (NMAX + 1);
    assert Most(NMAX) == 4294773495;
  }

  /** NMAX is the largest number of bytes for which that is so. */
  lemma LargestBlock(n: nat)
    ensures 255 * (n * (n + 1) / 2) + (n + 1) * (BASE - 1) <= WORD - 1 <==> n <= NMAX
  {
    if n <= NMAX {
      MulMono(n, n + 1, NMAX + 1);
      MulMono(NMAX + 1, n, NMAX);
    } else {
      MulMono(n, NMAX + 2, n + 1);
      MulMono(NMAX + 2, NMAX + 1, n);
    }
  }

  /** The definition reduces at every byte; reducing at the end is the same. */
  lemma {:induction false} AdlerIsSums(adler: nat, s: seq<Byte>)
    requires Reduced(adler)
    ensures Reduced(Adler(adler, s))
    ensures Adler(adler, s) == Pack(SumA(adler % 65536, s) % BASE, SumB(adler % 65536, adler / 65536, s) % BASE)
    decreases |s|
  {
    hide AdlerByte, Pack, Reduced;
    if s == [] {
      Unpack(adler);
    } else {
      AdlerIsSums(adler, s[..|s| - 1]);
      ByteIs(SumA(adler % 65536, s[..|s| - 1]), SumB(adler % 65536, adler / 65536, s[..|s| - 1]), s[|s| - 1]);
    }
  }

  /** The checksum with both sums reduced. */
  function Reduce(adler: nat): (r: nat)
  {
    Pack(adler % 65536 % BASE, adler / 65536 % BASE)
  }

  /** The unreduced sums from any starting value are those from the reduced one. */
  lemma {:induction false} SumsReduce(a: nat, b: nat, s: seq<Byte>)
    ensures SumA(a, s) % BASE == SumA(a % BASE, s) % BASE
    ensures SumB(a, b, s) % BASE == SumB(a % BASE, b % BASE, s) % BASE
    decreases |s|
  {
    if s != [] {
      var n := |s| - 1;
      SumsReduce(a, b, s[..n]);
      Both(SumA(a, s[..n]), SumA(a % BASE, s[..n]), s[n], s[n]);
      Both(SumB(a, b, s[..n]), SumB(a % BASE, b % BASE, s[..n]), SumA(a, s), SumA(a % BASE, s));
    }
  }

  lemma AdlerReduces(adler: nat, s: seq<Byte>)
    requires adler < WORD
    ensures Adler(Reduce(adler), s) == Pack(SumA(adler % 65536, s) % BASE, SumB(adler % 65536, adler / 65536, s) % BASE)
    ensures Reduced(adler) ==> Reduce(adler) == adler
  {
    hide Adler, SumA, SumB, Reduced, Pack;
    var a, b := adler % 65536, adler / 65536;
    ReducedIs(a % BASE, b % BASE);
    Halves(a % BASE, b % BASE);
    AdlerIsSums(Reduce(adler), s);
    SumsReduce(a, b, s);
    if Reduced(adler) {
      Unpack(adler);
    }
  }

  lemma Unpack(adler: nat)
    requires Reduced(adler)
    ensures adler == Pack((adler % 65536) % BASE, (adler / 65536) % BASE)
  {
  }

  lemma ByteIs(a: nat, b: nat, c: Byte)
    ensures AdlerByte(Pack(a % BASE, b % BASE), c) == Pack((a + c) % BASE, (b + (a + c)) % BASE)
    ensures Reduced(Pack((a + c) % BASE, (b + (a + c)) % BASE))
  {
    hide Pack, Reduced;
    Halves(a % BASE, b % BASE);
    AddReduced(a, c);
    AddReduced(b, (a + c) % BASE);
    AddReduced(a + c, b);
    ReducedIs((a + c) % BASE, (b + (a + c)) % BASE);
  }

  lemma ReducedIs(a: nat, b: nat)
    requires a < BASE && b < BASE
    ensures Reduced(Pack(a, b))
  {
  }

  lemma Halves(a: nat, b: nat)
    requires a < 65536
    ensures Pack(a, b) % 65536 == a && Pack(a, b) / 65536 == b
  {
  }

  lemma AddReduced(a: nat, c: nat)
    ensures (a % BASE + c) % BASE == (a + c) % BASE
  {
    assert a == BASE * (a / BASE) + a % BASE;
  }

  // ---------- reduction without division ----------

  /** CHOP: 65536 is 15 modulo BASE. */
  function Chop(a: nat): (r: nat)
    ensures r % BASE == a % BASE && r <= 65535 + 15 * (a / 65536)
  {
    var tmp := a / 65536;
    assert a == 65536 * tmp + a % 65536;
    a % 65536 + (16 * tmp - tmp)
  }

  /** MOD28 for what it is used on. */
  function Mod28(a: nat): (r: nat)
    requires a < 0x1000_0000
    ensures r == a % BASE
  {
    var c := Chop(a);
    if c >= BASE then c - BASE else c
  }

  /** MOD for 32-bit values. */
  function Mod(a: nat): (r: nat)
    requires a < WORD
    ensures r == a % BASE
  {
    Mod28(Chop(a))
  }

  /** MOD63 for lengths that are not negative: 2^32 is 225 modulo BASE. */
  function Mod63(a: nat): (r: nat)
    requires a < 0x8000_0000_0000_0000
    ensures r == a % BASE
  {
    var tmp := a / WORD;
    Fold(a);
    var b := a % WORD + (256 * tmp - 32 * tmp + tmp);
    var c := Chop(Chop(b));
    Subtract(c);
    if c >= BASE then c - BASE else c
  }

  lemma Fold(a: nat)
    requires a < 0x8000_0000_0000_0000
    ensures a % WORD + 225 * (a / WORD) < 0x80_0000_0000
    ensures (a % WORD + 225 * (a / WORD)) % BASE == a % BASE
  {
    var tmp, lo := a / WORD, a % WORD;
    assert a == WORD * tmp + lo;
    assert WORD == BASE * 65551 + 225;
    assert a == lo + 225 * tmp + BASE * (65551 * tmp);
    Multiple(lo + 225 * tmp, 65551 * tmp);
  }

  lemma Subtract(c: nat)
    requires c < 2 * BASE
    ensures (if c >= BASE then c - BASE else c) == c % BASE
  {
  }

  // ---------- adler32_z ----------

  /** One byte (DO1). */
  method Do1(c: Byte, adler: nat, sum2: nat, ghost a: nat, ghost b: nat, ghost s: seq<Byte>) returns (x: nat, y: nat)
    requires adler == SumA(a, s) && sum2 == SumB(a, b, s)
    ensures x == SumA(a, s + [c]) && y == SumB(a, b, s + [c])
  {
    SumsMore(a, b, s, c);
    x := adler + c;
    y := sum2 + x;
  }

  /** Some bytes of buf from position p on, without reduction (DO16 and the loops over single bytes). */
  method Run(buf: seq<Byte>, p: nat, n: nat, adler: nat, sum2: nat, ghost a: nat, ghost b: nat, ghost q: nat)
      returns (x: nat, y: nat)
    requires q <= p && p + n <= |buf| && adler == SumA(a, buf[q..p]) && sum2 == SumB(a, b, buf[q..p])
    ensures x == SumA(a, buf[q..p + n]) && y == SumB(a, b, buf[q..p + n])
  {
    x, y := adler, sum2;
    for i := 0 to n
      invariant x == SumA(a, buf[q..p + i]) && y == SumB(a, b, buf[q..p + i])
    {
      assert buf[q..p + i] + [buf[p + i]] == buf[q..p + i + 1];
      x, y := Do1(buf[p + i], x, y, a, b, buf[q..p + i]);
    }
  }

  /** The sums go on from reduced values as they would from the values themselves. */
  lemma {:induction false} SumsFrom(a: nat, b: nat, s: seq<Byte>, t: seq<Byte>)
    ensures SumA(a, s + t) % BASE == SumA(SumA(a, s) % BASE, t) % BASE
    ensures SumB(a, b, s + t) % BASE == SumB(SumA(a, s) % BASE, SumB(a, b, s) % BASE, t) % BASE
    decreases |t|
  {
    if t == [] {
      assert s + t == s;
    } else {
      var n := |t| - 1;
      SumsFrom(a, b, s, t[..n]);
      assert (s + t)[..|s + t| - 1] == s + t[..n];
      var x, y := SumA(a, s + t[..n]), SumA(SumA(a, s) % BASE, t[..n]);
      AddReduced(x, t[n]);
      AddReduced(y, t[n]);
      Both(SumB(a, b, s + t[..n]), SumB(SumA(a, s) % BASE, SumB(a, b, s) % BASE, t[..n]), x + t[n], y + t[n]);
    }
  }

  lemma Both(b: nat, b': nat, a: nat, a': nat)
    requires b % BASE == b' % BASE && a % BASE == a' % BASE
    ensures (b + a) % BASE == (b' + a') % BASE
  {
    AddReduced(b, a);
    AddReduced(b', a');
    AddReduced(a, b % BASE);
    AddReduced(a', b % BASE);
  }

  /** A block of at most NMAX bytes, and then one reduction. */
  method Block(buf: seq<Byte>, p: nat, n: nat, adler: nat, sum2: nat) returns (x: nat, y: nat)
    requires p + n <= |buf| && n <= NMAX && adler <= 65535 && sum2 <= 65535
    ensures x == SumA(adler, buf[p..p + n]) % BASE && y == SumB(adler, sum2, buf[p..p + n]) % BASE
  {
    var k := 0;
    x, y := adler, sum2;
    assert buf[p..p + 0] == [];
    while n - k >= 16
      invariant 0 <= k <= n && x == SumA(adler, buf[p..p + k]) && y == SumB(adler, sum2, buf[p..p + k])
    {
      x, y := Run(buf, p + k, 16, x, y, adler, sum2, p);
      k := k + 16;
    }
    x, y := Run(buf, p + k, n - k, x, y, adler, sum2, p);
    NoOverflow(adler, sum2, buf[p..p + n]);
    x, y := Mod(x), Mod(y);
  }

  /** All bytes, NMAX at a time. */
  method Blocks(buf: seq<Byte>, adler: nat, sum2: nat) returns (x: nat, y: nat)
    requires adler <= 65535 && sum2 <= 65535 && buf != []
    ensures x == SumA(adler, buf) % BASE && y == SumB(adler, sum2, buf) % BASE
  {
    var p := 0;
    x, y := adler, sum2;
    assert buf[..0] == [];
    while |buf| - p >= NMAX
      invariant 0 <= p <= |buf| && (p == 0 ==> x == adler && y == sum2)
      invariant p > 0 ==> x == SumA(adler, buf[..p]) % BASE && y == SumB(adler, sum2, buf[..p]) % BASE
    {
      assert buf[..p] + buf[p..p + NMAX] == buf[..p + NMAX];
      SumsFrom(adler, sum2, buf[..p], buf[p..p + NMAX]);
      FromStart(buf, p, p + NMAX);
      x, y := Block(buf, p, NMAX, x, y);
      p := p + NMAX;
    }
    if p < |buf| {
      assert buf[..p] + buf[p..] == buf && buf[p..p + (|buf| - p)] == buf[p..];
      SumsFrom(adler, sum2, buf[..p], buf[p..]);
      FromStart(buf, p, |buf|);
      x, y := Block(buf, p, |buf| - p, x, y);
    } else {
      assert buf[..p] == buf;
    }
  }

  lemma FromStart(buf: seq<Byte>, p: nat, q: nat)
    requires p <= q <= |buf|
    ensures p == 0 ==> buf[p..q] == buf[..q] && buf[p..q] == buf[..p] + buf[p..q]
  {
  }

  /** A single byte, without any division: the second sum is reduced by BASE at most once. */
  method OneByte(adler: nat, c: Byte) returns (r: nat)
    requires adler < WORD
    ensures var a, b := (adler % 65536 + c) % BASE, adler / 65536;
            r == Pack(a, (b + a) % BASE + if b + a < 2 * BASE then 0 else BASE)
  {
    var a, b := adler % 65536, adler / 65536;
    a := a + c;
    if a >= BASE {
      a := a - BASE;
    }
    b := b + a;
    if b >= BASE {
      b := b - BASE;
    }
    return Pack(a, b);
  }

  /** Fewer than sixteen bytes. */
  method Short(buf: seq<Byte>, adler: nat, sum2: nat) returns (a: nat, b: nat)
    requires |buf| < 16 && adler <= 65535 && sum2 <= 65535
    ensures a == SumA(adler, buf) % BASE && b == SumB(adler, sum2, buf) % BASE
  {
    hide SumA, SumB, Most;
    NoBytesYet(adler, sum2);
    assert buf[0..0] == [] && buf[0..|buf|] == buf;
    a, b := Run(buf, 0, |buf|, adler, sum2, adler, sum2, 0);
    SumsBound(adler, sum2, buf);
    ShortSum(adler, buf);
    ShortMost(|buf|);
    Subtract(a);
    if a >= BASE {
      a := a - BASE;
    }
    b := Mod28(b);
  }

  lemma NoBytesYet(a: nat, b: nat)
    ensures SumA(a, []) == a && SumB(a, b, []) == b
  {
  }

  lemma {:induction false} ShortSum(a: nat, s: seq<Byte>)
    ensures SumA(a, s) <= a + 255 * |s|
    decreases |s|
  {
    if s != [] {
      ShortSum(a, s[..|s| - 1]);
    }
  }

  /** The subtractions suffice: always, but for a single byte and a second sum that was not reduced. */
  predicate Exact(adler: nat, buf: seq<Byte>)
  {
    |buf| != 1 || adler / 65536 + (adler % 65536 + buf[0]) % BASE < 2 * BASE
  }

  lemma ReducedExact(adler: nat, buf: seq<Byte>)
    requires Reduced(adler)
    ensures Exact(adler, buf)
  {
  }

  /** Starting values that are no checksums of any text, for which the subtractions do not suffice. */
  lemma LargeSums()
    ensures !Exact(0xFFFF_FFF0, [0]) && !Fits(0xFFFF_FFFF, 0xFFFF_FFFF, 1)
  {
    assert 0xFFFF_FFF0 / 65536 == 65535 && 0xFFFF_FFF0 % 65536 == 65520;
    assert 0xFFFF_FFFF % 65536 == 65535;
  }

  /** Go on with a checksum: whatever the length, and whichever path it takes, the result is that of the definition,
      started with both sums reduced; with the one exception of a single byte and a second sum that was too large. */
  method AdlerZ(adler: nat, buf: seq<Byte>) returns (r: nat)
    requires adler < WORD
    ensures r == Adler(Reduce(adler), buf) <==> Exact(adler, buf)
    ensures Reduced(adler) ==> r == Adler(adler, buf)
  {
    hide AdlerByte, Adler, SumA, SumB, Pack, Reduce, Reduced, Exact;
    AdlerReduces(adler, buf);
    ExactIs(adler, buf);
    if Reduced(adler) {
      ReducedExact(adler, buf);
    }
    if |buf| == 1 {
      r := OneByte(adler, buf[0]);
      OneSum(adler % 65536, adler / 65536, buf);
    } else if |buf| < 16 {
      var a, b := Short(buf, adler % 65536, adler / 65536);
      r := Pack(a, b);
    } else {
      var a, b := Blocks(buf, adler % 65536, adler / 65536);
      r := Pack(a, b);
    }
  }

  lemma ExactIs(adler: nat, buf: seq<Byte>)
    ensures Exact(adler, buf) <==> |buf| != 1 || adler / 65536 + (adler % 65536 + buf[0]) % BASE < 2 * BASE
  {
  }

  lemma OneSum(a: nat, b: nat, buf: seq<Byte>)
    requires |buf| == 1
    ensures var x := (a + buf[0]) % BASE;
            SumA(a, buf) % BASE == x && SumB(a, b, buf) % BASE == (b + x) % BASE
            && Pack(x, (b + x) % BASE + BASE) != Pack(x, (b + x) % BASE)
  {
    assert buf == [] + [buf[0]];
    SumsMore(a, b, [], buf[0]);
    NoBytesYet(a, b);
    hide SumA, SumB;
    AddReduced(a + buf[0], b);
  }

  lemma ShortMost(n: nat)
    requires n < 16
    ensures Most(n) < 0x1000_0000
  {
    MulMono(n, n + 1, 16);
  }

  // ---------- combining ----------

  /** The sums of a text that starts elsewhere. */
  lemma {:induction false} SumsShift(a: nat, b: nat, s: seq<Byte>)
    ensures SumA(a, s) == SumA(1, s) + a - 1
    ensures SumB(a, b, s) == SumB(1, 0, s) + b + Times(|s|, a) - |s|
    decreases |s|
  {
    if s != [] {
      SumsShift(a, b, s[..|s| - 1]);
      TimesMore(|s| - 1, a);
    }
  }

  function Times(n: nat, a: nat): (r: nat)
  {
    n * a
  }

  lemma TimesMore(n: nat, a: nat)
    ensures Times(n + 1, a) == Times(n, a) + a && Times(0, a) == 0
  {
  }

  /** What the combination of two checksums must be, for a second text of `len` bytes. */
  ghost predicate Combined(adler1: nat, adler2: nat, len: nat, r: nat)
  {
    Reduced(r) && r % 65536 == (adler1 % 65536 + adler2 % 65536 + BASE - 1) % BASE
    && r / 65536 == (Times(len, adler1 % 65536) + adler1 / 65536 + adler2 / 65536 + Times(len, BASE - 1)) % BASE
  }

  /** BASE is taken from the first sum twice, which leaves one BASE too many of the largest. */
  method TakeOnce(x: nat) returns (z: nat)
    requires x <= 3 * BASE + 27
    ensures if x < 3 * BASE then z == x % BASE else z == x % BASE + BASE && z <= 65548
  {
    z := x;
    if z >= BASE {
      z := z - BASE;
    }
    if z >= BASE {
      z := z - BASE;
    }
  }

  /** BASE is taken from the second sum three times. */
  method TakeTwice(x: nat) returns (z: nat)
    requires x <= 4 * BASE + 27
    ensures if x < 4 * BASE then z == x % BASE else z == x % BASE + BASE && z <= 65548
  {
    z := x;
    if z >= 2 * BASE {
      z := z - 2 * BASE;
    }
    if z >= BASE {
      z := z - BASE;
    }
  }

  lemma SmallProduct(rem: nat, a: nat)
    requires rem < BASE && a <= 65535
    ensures Times(rem, a) < WORD
  {
    MulMono(rem, a, 65535);
    MulMono(65535, rem, BASE - 1);
  }

  /** The subtractions at the end suffice. */
  predicate Fits(adler1: nat, adler2: nat, len: nat)
  {
    adler1 % 65536 + adler2 % 65536 <= 2 * BASE
    && Times(len % BASE, adler1 % 65536) % BASE + adler1 / 65536 + adler2 / 65536 < 3 * BASE + len % BASE
  }

  lemma ReducedFits(adler1: nat, adler2: nat, len: nat)
    requires Reduced(adler1) && Reduced(adler2)
    ensures Fits(adler1, adler2, len)
  {
    hide Times;
  }

  /** The two sums before the last subtractions. */
  method CombineSums(adler1: nat, adler2: nat, len2: nat) returns (sum1: nat, sum2: nat)
    requires adler1 < WORD && adler2 < WORD && len2 < 0x8000_0000_0000_0000
    ensures sum1 == adler1 % 65536 + adler2 % 65536 + BASE - 1 <= 3 * BASE + 27
    ensures sum2 == Times(len2 % BASE, adler1 % 65536) % BASE + adler1 / 65536 + adler2 / 65536 + BASE - len2 % BASE
    ensures sum2 <= 4 * BASE + 27
  {
    hide *;
    Constants();
    var a1, b1, a2, b2 := adler1 % 65536, adler1 / 65536, adler2 % 65536, adler2 / 65536;
    var rem := Mod63(len2);
    HalfBounds(adler1);
    HalfBounds(adler2);
    SumBounds(a1, b1, a2, b2, rem, Times(rem, a1) % BASE);
    SmallProduct(rem, a1);
    sum1 := a1;
    sum2 := Mod(Times(rem, sum1));
    sum1 := sum1 + a2 + BASE - 1;
    sum2 := sum2 + b1 + b2 + BASE - rem;
  }

  lemma Constants()
    ensures BASE == 65521 && WORD == 0x1_0000_0000
  {
  }

  lemma HalfBounds(adler: nat)
    requires adler < WORD
    ensures adler % 65536 <= 65535 && adler / 65536 <= 65535
  {
  }

  lemma SumBounds(a1: nat, b1: nat, a2: nat, b2: nat, rem: nat, t: nat)
    requires a1 <= 65535 && b1 <= 65535 && a2 <= 65535 && b2 <= 65535
    ensures BASE > 0 && (rem < BASE && t < BASE ==> t + b1 + b2 + BASE - rem <= 4 * BASE + 27)
      && a1 + a2 + BASE - 1 <= 3 * BASE + 27
  {
  }

  /** The checksum of a whole from those of its parts (adler32_combine_). */
  method Combine(adler1: nat, adler2: nat, len2: int) returns (r: nat)
    requires adler1 < WORD && adler2 < WORD && len2 < 0x8000_0000_0000_0000
    ensures len2 < 0 ==> r == 0xffff_ffff
    ensures len2 >= 0 ==> (Combined(adler1, adler2, len2, r) <==> Fits(adler1, adler2, len2))
  {
    hide Times, Pack, Combined, Fits, BitOr;
    if len2 < 0 {
      return 0xffff_ffff;
    }
    var x, y := CombineSums(adler1, adler2, len2);
    var sum1 := TakeOnce(x);
    var sum2 := TakeTwice(y);
    r := BitOr(sum1, sum2 * 65536);
    RestTerms(len2, adler1 % 65536, adler1 / 65536 + adler2 / 65536);
    CombinedIf(adler1, adler2, len2, sum1, sum2, x, y);
  }

  lemma LowIsRest(v: nat)
    ensures Low(v, 16) == v % 65536
  {
    hide Pow2, Low, Shr;
    assert Pow2(16) == 65536 by { Pow2Values(); }
    Split(v, 16);
    LowBound(v, 16);
  }

  /** The result is right exactly if both sums are reduced. */
  lemma CombinedIf(adler1: nat, adler2: nat, len: nat, s1: nat, s2: nat, x: nat, y: nat)
    requires x == adler1 % 65536 + adler2 % 65536 + BASE - 1
    requires y == Times(len % BASE, adler1 % 65536) % BASE + adler1 / 65536 + adler2 / 65536 + BASE - len % BASE
    requires y % BASE == (Times(len, adler1 % 65536) + adler1 / 65536 + adler2 / 65536 + Times(len, BASE - 1)) % BASE
    requires if x < 3 * BASE then s1 == x % BASE else s1 == x % BASE + BASE && s1 <= 65548
    requires if y < 4 * BASE then s2 == y % BASE else s2 == y % BASE + BASE && s2 <= 65548
    ensures Combined(adler1, adler2, len, BitOr(s1, s2 * 65536)) <==> Fits(adler1, adler2, len)
  {
    hide Times, BitOr, Pow2, Low;
    assert Pow2(16) == 65536 by { Pow2Values(); }
    BitOrLow(s1, 16, s2);
    LowIsRest(s1);
    LowIsRest(BitOr(s1, s2 * 65536));
    var r := BitOr(s1, s2 * 65536);
    if x < 3 * BASE {
      BitOrDisjoint(s1, 16, s2);
      assert r == s1 + s2 * 65536;
      assert r % 65536 == s1 && r / 65536 == s2;
    } else {
      assert r % 65536 == s1 % 65536;
    }
  }

  /** Multiplying and subtracting the length modulo BASE. */
  lemma RestTerms(len: nat, a: nat, k: nat)
    ensures (Times(len % BASE, a) % BASE + k + BASE - len % BASE) % BASE
      == (Times(len, a) + k + Times(len, BASE - 1)) % BASE
  {
    var q, m := len / BASE, len % BASE;
    var z, p := m * a, q * a;
    assert len == BASE * q + m;
    SpreadBase(q, m, a);
    var left := z % BASE + k + BASE - m;
    var n := p + z / BASE + len - q - 1;
    assert z == BASE * (z / BASE) + z % BASE;
    assert Times(len, BASE - 1) == BASE * len - len;
    assert Times(len, a) + k + Times(len, BASE - 1) == left + BASE * n;
    Multiple(left, n);
  }

  lemma SpreadBase(q: nat, m: nat, a: nat)
    ensures (BASE * q + m) * a == BASE * (q * a) + m * a
  {
    assert (BASE * q + m) * a == BASE * q * a + m * a;
    assert BASE * q * a == BASE * (q * a);
  }

  lemma Multiple(x: int, k: int)
    ensures (x + BASE * k) % BASE == x % BASE
  {
  }

  /** Combining the checksums of two texts gives the checksum of the two together. */
  lemma CombineIsConcatenation(s: seq<Byte>, t: seq<Byte>, r: nat)
    requires Combined(Adler(1, s), Adler(1, t), |t|, r)
    ensures r == Adler(1, s + t)
  {
    hide Adler, SumA, SumB, Pack, Times, Reduced;
    One();
    AdlerIsSums(1, s);
    AdlerIsSums(1, t);
    AdlerIsSums(1, s + t);
    var sa, sb, ta, tb := SumA(1, s), SumB(1, 0, s), SumA(1, t), SumB(1, 0, t);
    Halves(sa % BASE, sb % BASE);
    Halves(ta % BASE, tb % BASE);
    SumsFrom(1, 0, s, t);
    SumsShift(sa % BASE, sb % BASE, t);
    LowPart(sa % BASE, ta);
    HighPart(|t|, sa % BASE, sb % BASE, tb);
    Repack(r);
  }

  lemma One()
    ensures Reduced(1) && 1 % 65536 == 1 && 1 / 65536 == 0
  {
  }

  lemma Repack(r: nat)
    ensures r == Pack(r % 65536, r / 65536)
  {
  }

  lemma LowPart(a: nat, ta: nat)
    requires a + ta >= 1
    ensures (a + ta % BASE + BASE - 1) % BASE == (ta + a - 1) % BASE
  {
    assert ta == BASE * (ta / BASE) + ta % BASE;
    Multiple(ta + a - 1, 1 - ta / BASE);
  }

  lemma HighPart(n: nat, a: nat, b: nat, tb: nat)
    requires tb + b + Times(n, a) >= n
    ensures (Times(n, a) + b + tb % BASE + Times(n, BASE - 1)) % BASE == (tb + b + Times(n, a) - n) % BASE
  {
    assert tb == BASE * (tb / BASE) + tb % BASE;
    assert Times(n, BASE - 1) == BASE * n - n;
    var z := Times(n, a);
    hide Times;
    Multiple(tb + b + z - n, n - tb / BASE);
  }
}
