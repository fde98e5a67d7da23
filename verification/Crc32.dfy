/** The table-driven CRC-32 (crc32.c): polynomial products, the tables, and the braided computation on a
    little-endian machine, for any number of braids and both word sizes. */
module Crc32 {
  import opened Bits
  import opened Xors
  import opened PolyRing
  import opened PolyPowers
  import opened CrcTheory

  // ---------- products ----------

  lemma NextBit(a: nat, k: nat)
    ensures !Bit(a, k) ==> Low(a, k + 1) == Low(a, k)
    ensures Bit(a, k) ==> Low(a, k + 1) != 0
  {
    hide Low, Shr, Pow2;
    LowAdd(a, k, 1);
    LowOne(Shr(a, k));
  }

  /** Nothing more is added once the bits left are clear. */
  lemma {:induction false} MulDone(a: nat, b: nat, n: nat)
    requires Low(a, n) == 0
    ensures MulFrom(a, b, n) == 0
    decreases n
  {
    hide Low, X, Bit;
    if n > 0 {
      NextBit(a, n - 1);
      MulDone(a, X(b), n - 1);
      XorZero(0);
    }
  }

  lemma MulNext(a: nat, b: nat, p: nat, k: nat)
    ensures Xor(if Bit(a, k) then Xor(p, b) else p, MulFrom(a, X(b), k)) == Xor(p, MulFrom(a, b, k + 1))
  {
    hide X, Xor, Bit;
    XorAssoc(p, b, MulFrom(a, X(b), k));
    XorZero(MulFrom(a, X(b), k));
  }

  method MultModP(a: nat, b: nat) returns (p: nat)
    requires 0 < a < Pow2(32) && b < Pow2(32)
    ensures p == Mul(a, b) && p < Pow2(32)
  {
    hide Low, Xor, MulFrom, Pow2, Bit, X;
    var k, v := 31, b;   // the mask has bit k alone
    p := 0;
    LowSmall(a, 32);
    XorZero(MulFrom(a, b, 32));
    MulBound(a, b, 32);
    while true
      invariant 0 <= k <= 31 && Low(a, k + 1) != 0
      invariant Xor(p, MulFrom(a, v, k + 1)) == Mul(a, b)
      decreases k
    {
      MulNext(a, v, p, k);
      NextBit(a, k);
      if Bit(a, k) {
        p := Xor(p, v);
        if Low(a, k) == 0 {
          MulDone(a, X(v), k);
          XorZero(p);
          break;
        }
      }
      LowEmpty(a);
      k := k - 1;
      v := X(v);
    }
  }

  // ---------- a byte at a time ----------

  lemma ByteParts(v: nat)
    ensures Shr(v, 8) == v / 256 && Low(v, 8) == v % 256
  {
    hide Low, Shr, Pow2;
    Pow2Values();
    Split(v, 8);
    LowBound(v, 8);
  }

  /** The byte reaches only the part that is looked up. */
  lemma ByteIn(r: nat, c: Byte)
    ensures Xor(Shr(r, 8), XPow(8, Low(Xor(r, c), 8))) == CrcByte(r, c)
  {
    hide Xor, Shr, Low, XPow, Pow2;
    Pow2Values();
    XorShr(r, c, 8);
    LowSmall(c, 8);
    XorZero(Shr(r, 8));
    ByteParts(Xor(r, c));
    ByteStep(Xor(r, c));
  }

  lemma OneMore(r: nat, s: seq<Byte>, i: nat)
    requires i < |s|
    ensures CrcRaw(r, s[..i + 1]) == CrcByte(CrcRaw(r, s[..i]), s[i])
  {
    hide CrcByte;
    CrcAppend(r, s[..i], [s[i]]);
    assert s[..i + 1] == s[..i] + [s[i]];
    var q := CrcRaw(r, s[..i]);
    assert CrcRaw(q, [s[i]]) == CrcRaw(CrcByte(q, s[i]), []);
  }

  // ---------- the braid tables ----------

  /** What braid computes for byte i in place k of a word. */
  lemma BraidEntry(i: nat, m: nat)
    requires i < 256
    ensures Mul(Pow2(24) * i, P(8 * m + 24)) == XPow(8 * m, i)
    ensures Pow2(24) * i < Pow2(32)
  {
    hide XPow, MulFrom, Pow2;
    Pow2Add(24, 8);
    Pow2Values();
    Top(Pow2(24), i);
    var v := Pow2(24) * i;
    PowerBound(8 * m + 24);
    MulComm(v, P(8 * m + 24));
    MulPower(8 * m + 24, v);
    XPowShifted(8 * m + 24, 24, i);
  }

  lemma Top(p: nat, i: nat)
    requires i < 256 && p >= 1
    ensures p * i < p * 256
  {
  }

  /** Byte k of a word, shifted by a block, comes from table k. */
  lemma WordPart(word: nat, k: nat, m: nat)
    requires 8 * k <= m
    ensures XPow(m, Low(word, 8 * k + 8)) ==
            Xor(XPow(m, Low(word, 8 * k)), XPow(m - 8 * k, Low(Shr(word, 8 * k), 8)))
  {
    hide XPow, Xor, Low, Shr, Pow2;
    var n := 8 * k;
    var c := Low(Shr(word, n), 8);
    LowAdd(word, n, 8);
    LowBound(word, n);
    XorApart(c, n, Low(word, n));
    XorComm(Pow2(n) * c, Low(word, n));
    XPowLinear(m, Low(word, n), Pow2(n) * c);
    XPowShifted(m, n, c);
  }

  lemma WordFirst(word: nat, m: nat)
    ensures XPow(m, Low(word, 8)) == XPow(m - 8 * 0, Low(Shr(word, 8 * 0), 8))
  {
  }

  lemma ByteBound(v: nat)
    ensures Low(v, 8) < 256
  {
    hide Pow2, Low;
    Pow2Values();
    LowBound(v, 8);
  }

  // ---------- powers ----------

  lemma NoPower()
    ensures P(0) == ONE
  {
  }

  /** One bit of the multiplier. */
  lemma Halving(m: nat, k: nat)
    ensures m * Pow2(k) == m % 2 * Pow2(k) + m / 2 * Pow2(k + 1)
  {
    var p := Pow2(k);
    hide Pow2;
    HalfTimes(m / 2, m % 2, p);
    Pow2Add(1, k);
    Pow2Values();
  }

  lemma HalfTimes(h: nat, r: nat, p: nat)
    ensures (2 * h + r) * p == r * p + h * (2 * p)
  {
  }

  // ---------- blocks ----------

  lemma Elements(a: array<nat>, s: seq<nat>, bound: nat)
    requires a[..] == s && forall i :: 0 <= i < |s| ==> s[i] < bound
    ensures forall i :: 0 <= i < a.Length ==> a[i] < bound
  {
    forall i | 0 <= i < a.Length
      ensures a[i] < bound
    {
      assert a[i] == s[i];
    }
  }

  lemma {:induction false} WordsAt(s: seq<Byte>, n: nat, w: nat, i: nat)
    requires |s| == n * w && i < n
    ensures i * w + w <= n * w && Words(s, n, w)[i] == Word(s[i * w..i * w + w])
    decreases n
  {
    hide Word;
    FirstWord(n, w);
    if i > 0 {
      WordsAt(s[w..], n - 1, w, i - 1);
      FirstWord(i, w);
      assert s[w..][(i - 1) * w..(i - 1) * w + w] == s[i * w..i * w + w];
    } else {
      assert s[0 * w..0 * w + w] == s[..w];
    }
  }

  /** Alignment takes at most w - 1 bytes. */
  lemma Aligning(address: nat, w: nat, pos: nat)
    requires w >= 1 && pos + address % w <= w
    ensures (address + pos) % w == if pos + address % w == w then 0 else pos + address % w
  {
    assert address == w * (address / w) + address % w;
    if pos + address % w == w {
      assert address + pos == w * (address / w + 1);
      Remainder(w, address / w + 1, 0);
    } else {
      Remainder(w, address / w, pos + address % w);
    }
  }

  lemma Blocks(len: nat, b: nat)
    requires b >= 1
    ensures len / b * b <= len && (len >= b ==> len / b >= 1)
  {
    assert len == b * (len / b) + len % b;
    if len >= b && len / b == 0 {
      assert false;
    }
  }

  lemma OneBlock(blks: nat, b: nat)
    requires blks >= 1
    ensures b <= blks * b && (blks - 1) * b == blks * b - b
  {
  }

  lemma FirstSquare()
    ensures P(Pow2(0)) == 0x4000_0000
  {
    hide P, Pow2;
    PowersDown(1);
    Pow2Values();
    Pow2Add(15, 15);
  }

  lemma Product(a: nat, b: nat)
    ensures a * b >= 0
  {
  }

  lemma NoBytes(r: nat, buf: seq<Byte>)
    ensures CrcRaw(r, buf[..0]) == r
  {
  }

  lemma Doubling(j: nat)
    requires j >= 1
    ensures Pow2(j - 1) + Pow2(j - 1) == Pow2(j)
  {
  }

  lemma Taken(r: nat, buf: seq<Byte>, pos: nat, k: nat)
    requires pos + k <= |buf|
    ensures CrcRaw(CrcRaw(r, buf[..pos]), buf[pos..][..k]) == CrcRaw(r, buf[..pos + k])
  {
    hide CrcRaw;
    CrcAppend(r, buf[..pos], buf[pos..][..k]);
    assert buf[..pos] + buf[pos..][..k] == buf[..pos + k];
  }

  class Tables {
    const n: nat          // braids
    const w: nat          // bytes in a word
    const crcTable: array<nat>
    const x2n: array<nat>
    const braid: array2<nat>

    ghost predicate Shape()
    {
      && 1 <= n <= 6 && (w == 4 || w == 8)
      && crcTable.Length == 256 && x2n.Length == 32 && crcTable != x2n
      && braid.Length0 == w && braid.Length1 == 256
    }

    ghost predicate Powers()
      requires Shape()
      reads x2n
    {
      forall j :: 0 <= j < 32 ==> x2n[j] == P(Pow2(j))
    }

    ghost predicate Valid()
      reads crcTable, x2n, braid
    {
      && Shape()
      && (forall i :: 0 <= i < 256 ==> crcTable[i] == XPow(8, i))
      && Powers()
      && (forall k, i :: 0 <= k < w && 0 <= i < 256 ==> braid[k, i] == XPow(8 * (n * w) - 8 * k, i))
    }

    /** The bytes of the next block. */
    function Block(buf: seq<Byte>, pos: nat): (s: seq<Byte>)
      requires pos + n * w <= |buf|
      ensures |s| == n * w
    {
      buf[pos..][..n * w]
    }

    /** How many bytes that many blocks have. */
    function Bytes(blks: nat): (k: nat)
      ensures k == blks * (n * w)
    {
      Product(blks, n * w);
      blks * (n * w)
    }

    lemma Room()
      requires Shape()
      ensures n * w >= w
    {
    }

    /** x^(m * 2^k0), for k0 counted beyond the table's 32 entries too. */
    method X2nModP(m0: nat, k0: nat) returns (p: nat)
      requires Shape() && Powers()
      ensures p == P(m0 * Pow2(k0)) && 0 < p < Pow2(32)
    {
      hide XPow, MulFrom, Mul, P, Pow2;
      var m: nat, k: nat := m0, k0;
      p := ONE;
      ghost var e: nat := 0;
      NoPower();
      while m != 0
        invariant e >= 0 && p == P(e) && e + m * Pow2(k) == m0 * Pow2(k0)
        decreases m
      {
        Halving(m, k);
        PowerBound(e);
        if m % 2 == 1 {
          PowersCycle(k);
          PowerBound(Pow2(k % 32));
          PowerAdd(Pow2(k), e);
          p := MultModP(x2n[k % 32], p);
          e := Pow2(k) + e;
        }
        m := m / 2;
        k := k + 1;
      }
      PowerBound(e);
    }

    method CrcWord(data: nat) returns (crc: nat)
      requires Valid() && data < Pow2(8 * w)
      ensures crc == XPow(8 * w, data) && crc < Pow2(32)
    {
      hide XPow, Xor, Low, Shr, Pow2;
      var d := data;
      XPowNone(data);
      for k := 0 to w
        invariant d == XPow(8 * k, data)
      {
        ByteStep(d);
        ByteParts(d);
        XPowAdd(8, 8 * k, data);
        d := Xor(Shr(d, 8), crcTable[Low(d, 8)]);
      }
      XPowShrinks(8 * w, data, 8 * w - 32);
      LowSmall(d, 32);
      crc := Low(d, 32);
    }

    method Step(crc: nat, c: Byte) returns (r: nat)
      requires Valid()
      ensures r == CrcByte(crc, c)
    {
      hide XPow, Xor, Low, Shr, CrcByte;
      ByteIn(crc, c);
      ByteParts(Xor(crc, c));
      r := Xor(Shr(crc, 8), crcTable[Low(Xor(crc, c), 8)]);
    }

    /** The words of a block with the braids' registers added. */
    method LoadWords(crcs: array<nat>, buf: seq<Byte>, pos: nat) returns (words: array<nat>)
      requires Valid() && crcs.Length == n && pos + n * w <= |buf|
      ensures fresh(words)
      ensures words[..] == XorEach(crcs[..], Words(Block(buf, pos), n, w))
    {
      hide XPow, Xor, Words, Word;
      words := new nat[n];
      ghost var s := Block(buf, pos);
      for i := 0 to n
        invariant forall j :: 0 <= j < i ==> words[j] == Xor(crcs[j], Words(s, n, w)[j])
      {
        WordsAt(s, n, w, i);
        assert s[i * w..i * w + w] == buf[pos..][i * w..i * w + w];
        words[i] := Xor(crcs[i], Word(buf[pos..][i * w..i * w + w]));
      }
    }

    /** Every register is its word shifted on by a block. */
    method LookUp(crcs: array<nat>, words: array<nat>)
      requires Valid() && crcs.Length == words.Length == n && crcs != words
      requires forall i :: 0 <= i < n ==> words[i] < Pow2(8 * w)
      requires crcs !in {crcTable, x2n}
      modifies crcs
      ensures crcs[..] == ShiftEach(words[..], 8 * (n * w))
    {
      hide XPow, Xor, Low, Shr, Pow2;
      ghost var m := 8 * (n * w);
      Room();
      for i := 0 to n
        invariant forall j :: 0 <= j < i ==> crcs[j] == XPow(m, Low(words[j], 8))
      {
        WordFirst(words[i], m);
        ByteBound(Shr(words[i], 0));
        PolyPowers.ShrNone(words[i]);
        crcs[i] := braid[0, Low(words[i], 8)];
      }
      for k := 1 to w
        invariant forall j :: 0 <= j < n ==> crcs[j] == XPow(m, Low(words[j], 8 * k))
      {
        for i := 0 to n
          invariant forall j :: 0 <= j < i ==> crcs[j] == XPow(m, Low(words[j], 8 * k + 8))
          invariant forall j :: i <= j < n ==> crcs[j] == XPow(m, Low(words[j], 8 * k))
        {
          WordPart(words[i], k, m);
          ByteBound(Shr(words[i], 8 * k));
          crcs[i] := Xor(crcs[i], braid[k, Low(Shr(words[i], 8 * k), 8)]);
        }
      }
      forall j | 0 <= j < n
        ensures Low(words[j], 8 * w) == words[j]
      {
        LowSmall(words[j], 8 * w);
      }
    }

    lemma WordBounds(crcs: seq<nat>, s: seq<Byte>)
      requires Shape() && |crcs| == n && |s| == n * w
      requires forall i :: 0 <= i < n ==> crcs[i] < Pow2(32)
      ensures forall i :: 0 <= i < n ==> XorEach(crcs, Words(s, n, w))[i] < Pow2(8 * w)
    {
      hide Xor, Words, Pow2;
      Pow2Mono(32, 8 * w);
      forall i | 0 <= i < n
        ensures XorEach(crcs, Words(s, n, w))[i] < Pow2(8 * w)
      {
        WordsAt(s, n, w, i);
        WordAppend(s[i * w..i * w + w], []);
        XorBound(crcs[i], Words(s, n, w)[i], 8 * w);
      }
    }

    lemma StaySmall(d: seq<nat>)
      requires Shape() && forall i :: 0 <= i < |d| ==> d[i] < Pow2(8 * w)
      ensures forall i :: 0 <= i < |d| ==> ShiftEach(d, 8 * (n * w))[i] < Pow2(32)
    {
      hide XPow, Pow2;
      Room();
      forall i | 0 <= i < |d|
        ensures ShiftEach(d, 8 * (n * w))[i] < Pow2(32)
      {
        XPowShrinks(8 * (n * w), d[i], 8 * w - 32);
      }
    }

    /** One block on every braid. */
    method NextBlock(crcs: array<nat>, buf: seq<Byte>, pos: nat, ghost r: nat)
      requires Valid() && crcs.Length == n && pos + n * w <= |buf|
      requires crcs !in {crcTable, x2n}
      requires Braided(r, crcs[..], w) && forall i :: 0 <= i < n ==> crcs[i] < Pow2(32)
      modifies crcs
      ensures Braided(CrcRaw(r, Block(buf, pos)), crcs[..], w)
      ensures forall i :: 0 <= i < n ==> crcs[i] < Pow2(32)
    {
      hide XPow, Xor, Words, Pow2, Braided, CrcRaw, XorEach, ShiftEach;
      ghost var s := Block(buf, pos);
      BraidStep(r, crcs[..], s, w);
      WordBounds(crcs[..], s);
      ghost var d := XorEach(crcs[..], Words(s, n, w));
      StaySmall(d);
      var words := LoadWords(crcs, buf, pos);
      Elements(words, d, Pow2(8 * w));
      LookUp(crcs, words);
      Elements(crcs, ShiftEach(d, 8 * (n * w)), Pow2(32));
    }

    /** The registers are combined one braid after the other. */
    method Combine(words: array<nat>) returns (crc: nat)
      requires Valid() && words.Length == n
      requires forall i :: 0 <= i < n ==> words[i] < Pow2(8 * w)
      ensures crc == Chain(0, words[..], w)
    {
      hide XPow, Xor, Pow2;
      ghost var d := words[..];
      XorZero(d[0]);
      Pow2Mono(32, 8 * w);
      crc := CrcWord(words[0]);
      for i := 1 to n
        invariant Chain(crc, d[i..], w) == Chain(0, d, w)
        invariant crc < Pow2(32)
      {
        XorBound(words[i], crc, 8 * w);
        crc := CrcWord(Xor(words[i], crc));
        assert d[i..][1..] == d[i + 1..];
      }
    }

    /** The last block, with the braids put together on the way. */
    method LastBlock(crcs: array<nat>, buf: seq<Byte>, pos: nat, ghost r: nat) returns (crc: nat)
      requires Valid() && crcs.Length == n && pos + n * w <= |buf|
      requires Braided(r, crcs[..], w) && forall i :: 0 <= i < n ==> crcs[i] < Pow2(32)
      ensures crc == CrcRaw(r, Block(buf, pos))
    {
      hide XPow, Xor, Words, Pow2, Braided, CrcRaw, XorEach, Gather, Chain;
      ghost var s := Block(buf, pos);
      BlockGather(r, crcs[..], s, w);
      WordBounds(crcs[..], s);
      ghost var d := XorEach(crcs[..], Words(s, n, w));
      var words := LoadWords(crcs, buf, pos);
      ChainGathers(0, d, w);
      XPowZero(8 * (n * w));
      XorZero(Gather(d, w));
      Elements(words, d, Pow2(8 * w));
      crc := Combine(words);
    }

    /** All the blocks there are. */
    method AllBlocks(crc0: nat, buf: seq<Byte>, blks0: nat) returns (crc: nat)
      requires Valid() && crc0 < Pow2(32)
      requires blks0 >= 1 && Bytes(blks0) <= |buf|
      ensures crc == CrcRaw(crc0, buf[..Bytes(blks0)])
    {
      hide XPow, Xor, Words, Pow2, Braided, CrcRaw, XorEach, Gather, Chain;
      ghost var b := n * w;
      var blks, pos := blks0, 0;
      var crcs := new nat[n];
      crcs[0] := crc0;
      for i := 1 to n
        invariant crcs[0] == crc0 && forall j :: 1 <= j < i ==> crcs[j] == 0
      {
        crcs[i] := 0;
      }
      assert crcs[..] == [crc0] + seq(n - 1, _ => 0);
      BraidStart(crc0, n, w);
      NoBytes(crc0, buf);
      blks := blks - 1;
      while blks != 0
        invariant pos + blks * b + b == blks0 * b
        invariant pos + b <= |buf|
        invariant Braided(CrcRaw(crc0, buf[..pos]), crcs[..], w)
        invariant forall i :: 0 <= i < n ==> crcs[i] < Pow2(32)
        invariant fresh(crcs)
        decreases blks
      {
        OneBlock(blks, b);
        NextBlock(crcs, buf, pos, CrcRaw(crc0, buf[..pos]));
        Onward(crc0, buf, pos);
        pos := pos + n * w;
        blks := blks - 1;
      }
      crc := LastBlock(crcs, buf, pos, CrcRaw(crc0, buf[..pos]));
      Onward(crc0, buf, pos);
    }

    lemma Onward(r: nat, buf: seq<Byte>, pos: nat)
      requires pos + n * w <= |buf|
      ensures CrcRaw(CrcRaw(r, buf[..pos]), Block(buf, pos)) == CrcRaw(r, buf[..pos + n * w])
    {
      hide CrcRaw;
      CrcAppend(r, buf[..pos], Block(buf, pos));
      assert buf[..pos] + Block(buf, pos) == buf[..pos + n * w];
    }

    /** The CRC of the text so far and the bytes in buf, which start at the given address in memory. */
    method CrcZ(crc: nat, buf: seq<Byte>, address: nat) returns (r: nat)
      requires Valid()
      ensures r == Crc(Low(crc, 32), buf)
    {
      hide XPow, Xor, Pow2, Low, CrcRaw, CrcByte;
      LowBound(crc, 32);
      var c := Not(Low(crc, 32));
      ghost var c0 := c;
      CrcFits(Low(crc, 32), []);
      NoBytes(c0, buf);
      var pos := 0;
      Room();
      var len := |buf|;
      if len >= n * w + w - 1 {
        while len != 0 && (address + pos) % w != 0
          invariant len == |buf| - pos && pos <= |buf|
          invariant pos > 0 ==> address % w > 0 && pos + address % w <= w
          invariant c == CrcRaw(c0, buf[..pos])
          decreases len
        {
          Aligning(address, w, pos);
          OneMore(c0, buf, pos);
          c := Step(c, buf[pos]);
          pos, len := pos + 1, len - 1;
        }
        var blks := len / (n * w);
        Blocks(len, n * w);
        CrcBound(c0, buf[..pos]);
        c := AllBlocks(c, buf[pos..], blks);
        Taken(c0, buf, pos, Bytes(blks));
        len := len - Bytes(blks);
        pos := pos + Bytes(blks);
      }
      while len >= 8
        invariant len == |buf| - pos && pos <= |buf|
        invariant c == CrcRaw(c0, buf[..pos])
      {
        len := len - 8;
        for j := 0 to 8
          invariant len + 8 == |buf| - pos + j && j <= pos <= |buf|
          invariant c == CrcRaw(c0, buf[..pos])
        {
          OneMore(c0, buf, pos);
          c := Step(c, buf[pos]);
          pos := pos + 1;
        }
      }
      while len != 0
        invariant len == |buf| - pos && pos <= |buf|
        invariant c == CrcRaw(c0, buf[..pos])
      {
        len := len - 1;
        OneMore(c0, buf, pos);
        c := Step(c, buf[pos]);
        pos := pos + 1;
      }
      assert buf[..pos] == buf;
      r := Xor(c, ALL);
    }

    /** The CRC of two texts one after the other, from theirs and the length of the second. */
    method Combine64(crc1: nat, crc2: nat, len2: nat) returns (r: nat)
      requires Shape() && Powers()
      ensures forall c: nat, s: seq<Byte>, t: seq<Byte> ::
        c < Pow2(32) && |t| == len2 && crc1 == Crc(c, s) && crc2 == Crc(0, t) ==>
                r == Crc(c, s + t)
    {
      hide XPow, MulFrom, Mul, P, Xor, Pow2, Low, Crc;
      LowBound(crc1, 32);
      Pow2Values();
      var op := X2nModP(len2, 3);
      var p := MultModP(op, Low(crc1, 32));
      r := Xor(p, Low(crc2, 32));
      forall c: nat, s: seq<Byte>, t: seq<Byte> | c < Pow2(32) && |t| == len2 && crc1 == Crc(c, s) && crc2 == Crc(0, t)
        ensures r == Crc(c, s + t)
      {
        CrcCombines(c, s, t);
        CrcFits(c, s);
        CrcFits(0, t);
        LowSmall(crc1, 32);
        LowSmall(crc2, 32);
        assert len2 * 8 == 8 * |t|;
      }
    }

    // ---------- making the tables ----------

    constructor (n: nat, w: nat)
      requires 1 <= n <= 6 && (w == 4 || w == 8)
      ensures Valid() && this.n == n && this.w == w
      ensures fresh(crcTable) && fresh(x2n) && fresh(braid)
    {
      this.n, this.w := n, w;
      crcTable := new nat[256];
      x2n := new nat[32];
      braid := new nat[w, 256];
      new;
      MakeBytes();
      MakePowers();
      MakeBraids();
    }

    method MakeBytes()
      requires Shape()
      modifies crcTable
      ensures forall i :: 0 <= i < 256 ==> crcTable[i] == XPow(8, i)
    {
      hide X;
      for i := 0 to 256
        invariant forall j :: 0 <= j < i ==> crcTable[j] == XPow(8, j)
      {
        var p := i;
        for j := 0 to 8
          invariant p == XPow(j, i)
        {
          p := X(p);
        }
        crcTable[i] := p;
      }
    }

    method MakePowers()
      requires Shape()
      modifies x2n
      ensures Powers()
    {
      hide XPow, MulFrom, Mul, P, Pow2, X;
      PolyBound();
      FirstSquare();
      var p := 0x4000_0000;
      x2n[0] := p;
      for j := 1 to 32
        invariant p == P(Pow2(j - 1))
        invariant forall i :: 0 <= i < j ==> x2n[i] == P(Pow2(i))
      {
        PowerBound(Pow2(j - 1));
        PowerAdd(Pow2(j - 1), Pow2(j - 1));
        Doubling(j);
        p := MultModP(p, p);
        x2n[j] := p;
      }
    }

    method MakeBraids()
      requires Shape() && Powers()
      modifies braid
      ensures forall k, i :: 0 <= k < w && 0 <= i < 256 ==> braid[k, i] == XPow(8 * (n * w) - 8 * k, i)
    {
      hide XPow, MulFrom, Mul, P, Pow2, X;
      Room();
      for k := 0 to w
        invariant forall m, i :: 0 <= m < k && 0 <= i < 256 ==> braid[m, i] == XPow(8 * (n * w) - 8 * m, i)
      {
        var p := X2nModP((n * w + 3 - k) * 8, 0);
        braid[k, 0] := 0;
        XPowZero(8 * (n * w) - 8 * k);
        for i := 1 to 256
          invariant forall m, j :: 0 <= m < k && 0 <= j < 256 ==> braid[m, j] == XPow(8 * (n * w) - 8 * m, j)
          invariant forall j :: 0 <= j < i ==> braid[k, j] == XPow(8 * (n * w) - 8 * k, j)
        {
          Entry(i, k);
          var q := MultModP(Pow2(24) * i, p);
          braid[k, i] := q;
        }
      }
    }

    lemma Entry(i: nat, k: nat)
      requires Shape() && 1 <= i < 256 && k < w
      ensures n * w >= w
      ensures Mul(Pow2(24) * i, P((n * w + 3 - k) * 8 * Pow2(0))) == XPow(8 * (n * w) - 8 * k, i)
      ensures 0 < Pow2(24) * i < Pow2(32)
    {
      hide XPow, MulFrom, Mul, P, Pow2, X;
      Room();
      Pow2Values();
      BraidEntry(i, n * w - k);
      assert Pow2(24) * i >= Pow2(24);
      assert (n * w + 3 - k) * 8 * Pow2(0) == 8 * (n * w - k) + 24;
    }
  }
}
