/** The 16-bit bit buffer of the compressor (trees.c).

    Stream() is what a reader of the output will see: the bits of the bytes already put into the
    pending buffer, then the bits still held in biBuf. */
module BitWriter {
  import opened Bits

  /** The bits of a followed by the low n bits of v, as one value. */
  lemma JoinBits(a: nat, k: nat, v: nat, n: nat)
    requires a < Pow2(k)
    ensures ToBits(a + v * Pow2(k), k + n) == ToBits(a, k) + ToBits(v, n)
  {
    hide Pow2, Low, Shr, ToBits;
    var w := a + Pow2(k) * v;
    Join(a, k, v);
    ToBitsSplit(w, k, n);
    ToBitsLow(w, k, k);
  }

  lemma TwoBytes(w: nat)
    ensures ToBits(Low(w, 8), 8) + ToBits(Low(Shr(w, 8), 8), 8) == ToBits(w, 16)
  {
    hide Pow2, Low, Shr, ToBits;
    ToBitsLow(w, 8, 8);
    ToBitsLow(Shr(w, 8), 8, 8);
    ToBitsSplit(w, 8, 8);
  }

  /** Low sixteen bits out, the rest stays: what the overflowing branch of send_bits relies on. */
  lemma Overflow(buf: nat, valid: nat, v: nat, n: nat)
    requires buf < Pow2(valid) && valid <= 16 < valid + n
    ensures ToBits(buf, valid) + ToBits(v, n)
         == ToBits(Low(buf + v * Pow2(valid), 16), 16) + ToBits(Shr(v, 16 - valid), valid + n - 16)
  {
    hide Pow2, Low, Shr, ToBits;
    var w := buf + v * Pow2(valid);
    JoinBits(buf, valid, v, n);
    Join(buf, valid, v);
    ShrShr(w, valid, 16 - valid);
    assert valid + (16 - valid) == 16 && 16 + (valid + n - 16) == valid + n;
    ToBitsSplit(w, 16, valid + n - 16);
    ToBitsLow(w, 16, 16);
  }

  class Writer {
    var biBuf: nat          // 16 bits wide
    var biValid: nat        // bits of biBuf in use
    var pending: seq<Byte>  // output not yet taken by the caller

    ghost predicate Valid()
      reads this`biBuf, this`biValid
    {
      biValid <= 16 && biBuf < Pow2(biValid)
    }

    ghost function Stream(): (b: BitString)
      reads this
    {
      BytesToBits(pending) + ToBits(biBuf, biValid)
    }

    /** The bits that are not yet in the pending buffer. */
    ghost function Held(): (h: BitString)
      reads this
      ensures |h| == biValid && Stream() == BytesToBits(pending) + h
    {
      ToBits(biBuf, biValid)
    }

    constructor ()
      ensures Valid() && Stream() == [] && pending == []
    {
      biBuf, biValid, pending := 0, 0, [];
    }

    method PutByte(c: nat)
      modifies this`pending
      ensures pending == old(pending) + [Low(c, 8)]
      ensures BytesToBits(pending) == BytesToBits(old(pending)) + ToBits(Low(c, 8), 8)
    {
      hide Low, ToBits, Pow2;
      LowBound(c, 8);
      Pow2Values();
      pending := pending + [Low(c, 8)];
      BytesToBitsAppend(old(pending), [Low(c, 8)]);
      assert BytesToBits([Low(c, 8)]) == ToBits(Low(c, 8), 8);
    }

    method PutShort(w: nat)
      modifies this`pending
      ensures pending == old(pending) + [Low(w, 8), Low(Shr(w, 8), 8)]
      ensures BytesToBits(pending) == BytesToBits(old(pending)) + ToBits(w, 16)
    {
      hide Low, Shr, ToBits, Pow2, BytesToBits;
      PutByte(w);
      PutByte(Shr(w, 8));
      TwoBytes(w);
    }

    /** Append the low `length` bits of `value` to the stream. */
    method SendBits(value: nat, length: nat)
      requires Valid() && 1 <= length <= 16 && value < Pow2(length)
      modifies this
      ensures Valid()
      ensures Stream() == old(Stream()) + ToBits(value, length)
      ensures old(pending) <= pending && (|pending| - |old(pending)|) % 2 == 0 && biValid >= 1
    {
      hide Pow2, Low, Shr, ToBits, BytesToBits, BitOr;
      ghost var buf, valid := biBuf, biValid;
      BitOrDisjoint(biBuf, biValid, value);
      if biValid > 16 - length {
        biBuf := Low(BitOr(biBuf, value * Pow2(biValid)), 16);
        PutShort(biBuf);
        Overflow(buf, valid, value, length);
        biBuf := Shr(value, 16 - biValid);
        biValid := biValid + length - 16;
        assert (16 - valid) + biValid == length;
        ShrBound(value, 16 - valid, biValid);
        assert Stream() == BytesToBits(old(pending))
            + (ToBits(Low(buf + value * Pow2(valid), 16), 16) + ToBits(biBuf, biValid));
      } else {
        ShiftedBound(buf, valid, value, length);
        LowWide(buf + value * Pow2(valid), valid + length);
        biBuf := Low(BitOr(biBuf, value * Pow2(biValid)), 16);
        biValid := biValid + length;
        JoinBits(buf, valid, value, length);
      }
    }

    /** Write out whole bytes; at most seven bits stay behind. */
    method BiFlush()
      requires Valid()
      modifies this
      ensures Valid() && biValid <= 7
      ensures Stream() == old(Stream()) && old(pending) <= pending
    {
      hide Pow2, Low, Shr, ToBits, BytesToBits;
      ghost var buf, valid := biBuf, biValid;
      if biValid == 16 {
        PutShort(biBuf);
        biBuf := 0;
        biValid := 0;
        NoBits(0);
        PowZero();
      } else if biValid >= 8 {
        PutByte(biBuf);
        biBuf := Shr(biBuf, 8);
        biValid := biValid - 8;
        ToBitsSplit(buf, 8, valid - 8);
        ToBitsLow(buf, 8, 8);
        assert 8 + (valid - 8) == valid;
        ShrBound(buf, 8, valid - 8);
      }
    }

    /** Pad with zero bits to a byte boundary and write everything out. */
    method BiWindup()
      requires Valid()
      modifies this
      ensures Valid() && biValid == 0
      ensures Stream() == old(Stream()) + ToBits(0, Padding(|old(Stream())|))
      ensures Stream() == BytesToBits(pending) && old(pending) <= pending
    {
      hide *;
      ValidHas();
      StreamHas();
      ghost var u, p, buf, valid := Stream(), BytesToBits(pending), biBuf, biValid;
      PaddingIs(|pending|, valid);
      if biValid > 8 {
        PutShort(biBuf);
        WindupShort(p, buf, valid);
      } else if biValid > 0 {
        PutByte(biBuf);
        WindupByte(p, buf, valid);
      } else {
        WindupNone(p, buf);
      }
      biBuf := 0;
      biValid := 0;
      NothingHeld();
    }

    lemma ValidHas()
      requires Valid()
      ensures biValid <= 16 && biBuf < Pow2(biValid)
    {
      hide Pow2;
    }

    lemma StreamHas()
      ensures Stream() == BytesToBits(pending) + ToBits(biBuf, biValid)
      ensures |Stream()| == 8 * |pending| + biValid
    {
      hide BytesToBits, ToBits;
    }

    lemma NothingHeld()
      requires biBuf == biValid == 0
      ensures Valid() && Stream() == BytesToBits(pending)
    {
      hide BytesToBits, ToBits;
      NoBits(0);
      PowZero();
    }
  }

  lemma PaddingIs(n: nat, valid: nat)
    requires valid <= 16
    ensures Padding(8 * n + valid) == (16 - valid) % 8
  {
  }

  lemma WindupShort(p: BitString, buf: nat, valid: nat)
    requires 8 < valid <= 16 && buf < Pow2(valid)
    ensures p + ToBits(buf, 16) == p + ToBits(buf, valid) + ToBits(0, (16 - valid) % 8)
  {
    hide ToBits, Pow2;
    Padded(buf, valid, (16 - valid) % 8, 16);
  }

  lemma WindupByte(p: BitString, buf: nat, valid: nat)
    requires 0 < valid <= 8 && buf < Pow2(valid)
    ensures p + ToBits(Low(buf, 8), 8) == p + ToBits(buf, valid) + ToBits(0, (16 - valid) % 8)
  {
    hide ToBits, Pow2, Low;
    ToBitsLow(buf, 8, 8);
    Padded(buf, valid, (16 - valid) % 8, 8);
  }

  lemma WindupNone(p: BitString, buf: nat)
    ensures p == p + ToBits(buf, 0) + ToBits(0, 16 % 8)
  {
    hide *;
    NoBits(buf);
    NoBits(0);
    assert p + [] + [] == p;
  }

  lemma Padded(buf: nat, valid: nat, k: nat, n: nat)
    requires buf < Pow2(valid) && valid + k == n
    ensures ToBits(buf, n) == ToBits(buf, valid) + ToBits(0, k)
  {
    hide Pow2, ToBits;
    JoinBits(buf, valid, 0, k);
    assert buf + 0 * Pow2(valid) == buf;
  }

  lemma NoBits(v: nat)
    ensures ToBits(v, 0) == []
  {
  }

  lemma PowZero()
    ensures Pow2(0) == 1
  {
  }

  lemma ShiftedBound(buf: nat, valid: nat, v: nat, n: nat)
    requires buf < Pow2(valid) && v < Pow2(n)
    ensures buf + v * Pow2(valid) < Pow2(valid + n)
  {
    Pow2Add(valid, n);
    MulMono(Pow2(valid), v + 1, Pow2(n));
    Distribute(Pow2(valid), v, 1);
  }

  lemma LowWide(v: nat, n: nat)
    requires v < Pow2(n) && n <= 16
    ensures Low(v, 16) == v
  {
    Pow2Mono(n, 16);
    LowSmall(v, 16);
  }
}
