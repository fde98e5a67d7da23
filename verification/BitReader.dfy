/** The bit accumulator of the decompressor and its macros (inflate.c: PULLBYTE, NEEDBITS, BITS,
    DROPBITS, BYTEBITS, INITBITS), and the look-up of one code. */
module BitReader {
  import opened Bits
  import opened Canonical
  import opened Decoder
  import opened MoreInput
  import opened BitWriter
  import opened DecodeTable
  import opened NeededInput

  lemma PullStep(hold: nat, bits: nat, b: Byte, rest: seq<Byte>)
    requires hold < Pow2(bits)
    ensures hold + b * Pow2(bits) < Pow2(bits + 8)
    ensures ToBits(hold + b * Pow2(bits), bits + 8) + BytesToBits(rest) == ToBits(hold, bits) + BytesToBits([b] + rest)
  {
    hide Pow2, ToBits;
    Pow2Values();
    ShiftedBound(hold, bits, b, 8);
    JoinBits(hold, bits, b, 8);
    assert ([b] + rest)[1..] == rest;
  }

  lemma DropStep(hold: nat, bits: nat, n: nat)
    requires hold < Pow2(bits) && n <= bits
    ensures Shr(hold, n) < Pow2(bits - n)
    ensures ToBits(Shr(hold, n), bits - n) == ToBits(hold, bits)[n..]
  {
    hide Pow2, ToBits, Shr;
    assert n + (bits - n) == bits;
    ShrBound(hold, n, bits - n);
    ToBitsPrefix(hold, n, bits);
  }

  lemma PeekIs(hold: nat, bits: nat, rest: BitString, n: nat)
    requires n <= bits
    ensures Field(ToBits(hold, bits) + rest, 0, n) == Low(hold, n)
  {
    hide ToBits, Low, FromBits;
    ToBitsPrefix(hold, n, bits);
    assert (ToBits(hold, bits) + rest)[0..0 + n] == ToBits(hold, bits)[..n];
    FromToBits(hold, n);
  }

  lemma BytesLength(s: seq<Byte>)
    ensures |BytesToBits(s)| % 8 == 0
  {
  }

  lemma FieldShift(u: BitString)
    requires |u| >= 3
    ensures Field(u, 0, 1) == if u[0] then 1 else 0
    ensures Field(u[1..], 0, 2) == Field(u, 1, 2) < 4
    ensures u[1..][2..] == u[3..]
  {
    assert u[0..0 + 1] == [u[0]] && [u[0]][1..] == [];
    assert FromBits([]) == 0 && FromBits([u[0]]) == (if u[0] then 1 else 0) + 2 * FromBits([u[0]][1..]);
    assert u[1..][0..0 + 2] == u[1..1 + 2];
    FromBitsBound(u[1..1 + 2]);
    Pow2Values();
    assert u[1..][2..] == u[3..];
  }

  lemma FieldLater(u: BitString, k: nat, n: nat)
    requires k + n <= |u|
    ensures Field(u[k..], 0, n) == Field(u, k, n)
  {
    hide FromBits;
    assert u[k..][0..0 + n] == u[k..k + n];
  }

  lemma DropTwice(u: BitString, k: nat, n: nat)
    requires k + n <= |u|
    ensures u[k..][n..] == u[k + n..]
  {
  }

  lemma HighField(hold: nat, rest: BitString)
    requires hold < Pow2(32)
    ensures Field(ToBits(hold, 32) + rest, 16, 16) == Shr(hold, 16)
  {
    hide ToBits, Low, Shr, Pow2, FromBits;
    assert 16 + 16 == 32;
    ShrBound(hold, 16, 16);
    ToBitsSplit(hold, 16, 16);
    assert (ToBits(hold, 32) + rest)[16..16 + 16] == ToBits(Shr(hold, 16), 16);
    FromToBits(Shr(hold, 16), 16);
    LowSmall(Shr(hold, 16), 16);
  }

  lemma KeepLow(hold: nat, bits: nat, n: nat, rest: BitString)
    requires n <= bits
    ensures (ToBits(hold, bits) + rest)[..n] == ToBits(Low(hold, n), n)
  {
    hide ToBits, Low, Pow2;
    ToBitsPrefix(hold, n, bits);
    ToBitsLow(hold, n, n);
  }

  lemma LaterBytes(s: seq<Byte>, a: nat, b: nat)
    requires a <= b <= |s|
    ensures Suffix(BytesToBits(s[b..]), BytesToBits(s[a..]))
  {
    hide BytesToBits;
    assert s[a..] == s[a..b] + s[b..];
    BytesToBitsAppend(s[a..b], s[b..]);
  }

  lemma SameSuffix(u: BitString, n: nat, v: BitString, w: BitString, all: BitString)
    requires Suffix(u, all) && Suffix(v, w) && Suffix(w, all) && |u| == n + |v|
    ensures u == u[..n] + v
  {
    SuffixTrans(v, w, all);
  }

  class Reader {
    var hold: nat         // unused bits of the bytes taken, first bit lowest
    var bits: nat         // how many
    var input: seq<Byte>  // the input of this call
    var next: nat         // how much of it is taken

    ghost predicate Valid()
      reads this
    {
      bits <= 32 && hold < Pow2(bits) && next <= |input|
    }

    /** The bits still to be decoded. */
    ghost function Unread(): (u: BitString)
      reads this
      requires next <= |input|
    {
      ToBits(hold, bits) + BytesToBits(input[next..])
    }

    /** The bits in the accumulator. */
    ghost function Held(): (u: BitString)
      reads this
    {
      ToBits(hold, bits)
    }

    lemma HeldFirst()
      requires Valid()
      ensures next <= |input| && bits <= |Unread()| && Unread()[..bits] == Held() && |Held()| == bits
      ensures |Unread()| == bits + 8 * (|input| - next)
    {
      hide ToBits;
      BytesLength(input[next..]);
    }

    constructor ()
      ensures Valid() && bits == 0 && input == [] && Unread() == []
    {
      hold, bits, input, next := 0, 0, [], 0;
    }

    /** Give the reader the input of a call. */
    method Load(data: seq<Byte>)
      requires Valid() && next == |input|
      modifies this
      ensures Valid() && next == 0 && input == data && bits == old(bits) && hold == old(hold)
      ensures Unread() == old(Unread()) + BytesToBits(data)
    {
      hide Pow2, ToBits;
      input := data;
      next := 0;
    }

    /** Give back what is left of the input. */
    method Unload()
      requires Valid()
      modifies this`input
      ensures Valid() && next == |input| && old(next) <= old(|input|) && input == old(input)[..next]
      ensures old(Unread()) == Unread() + BytesToBits(old(input)[next..])
    {
      hide Pow2, ToBits;
      input := input[..next];
      NoBytes();
      assert input[next..] == [];
    }

    /** Take one byte of input, if there is one. */
    method PullByte() returns (ok: bool)
      requires Valid() && bits <= 24
      modifies this`hold, this`bits, this`next
      ensures Valid() && Unread() == old(Unread())
      ensures ok <==> old(next) < |input|
      ensures next <= |input| && (!ok ==> next == |input|)
      ensures ok ==> next == old(next) + 1 && bits == old(bits) + 8
      ensures ok ==> hold == old(hold) + input[old(next)] * Pow2(old(bits))
      ensures !ok ==> next == old(next) && bits == old(bits) && hold == old(hold)
    {
      hide Pow2, ToBits, BytesToBits;
      if next == |input| {
        return false;
      }
      PullStep(hold, bits, input[next], input[next + 1..]);
      assert input[next..] == [input[next]] + input[next + 1..];
      hold := hold + input[next] * Pow2(bits);
      next := next + 1;
      bits := bits + 8;
      return true;
    }

    /** Make sure there are n bits, if the input has them. */
    method NeedBits(n: nat) returns (ok: bool)
      requires Valid() && (n <= 25 || (n == 32 && bits % 8 == 0))
      modifies this`hold, this`bits, this`next
      ensures Valid() && next <= |input| && Unread() == old(Unread()) && old(bits) <= bits && bits % 8 == old(bits) % 8
      ensures ok ==> n <= bits
      ensures !ok ==> bits < n && next == |input| && |Unread()| == bits
      ensures n == 32 && ok ==> bits == 32
      ensures ok ==> bits == old(bits) || bits < n + 8
      ensures old(bits) >= n ==> ok && bits == old(bits) && next == old(next) && hold == old(hold)
    {
      hide Pow2, ToBits, BytesToBits;
      while bits < n
        invariant Valid() && Unread() == old(Unread()) && old(bits) <= bits && bits % 8 == old(bits) % 8
        invariant n == 32 ==> bits <= 32
        invariant bits == old(bits) || bits < n + 8
        invariant old(bits) >= n ==> bits == old(bits) && next == old(next) && hold == old(hold)
        decreases n - bits
      {
        var got := PullByte();
        if !got {
          NoBytes();
          return false;
        }
      }
      return true;
    }

    /** Remove n bits. */
    method DropBits(n: nat)
      requires Valid() && n <= bits
      modifies this`hold, this`bits
      ensures Valid() && bits == old(bits) - n && Unread() == old(Unread())[n..] && hold == Shr(old(hold), n)
    {
      hide Pow2, ToBits, BytesToBits, Shr;
      DropStep(hold, bits, n);
      assert Unread()[n..] == ToBits(hold, bits)[n..] + BytesToBits(input[next..]);
      hold := Shr(hold, n);
      bits := bits - n;
    }

    /** Read n bits and remove them. */
    method Take(n: nat) returns (v: nat)
      requires Valid() && n <= bits
      modifies this`hold, this`bits
      ensures Valid() && bits == old(bits) - n && n <= |old(Unread())|
      ensures v == Field(old(Unread()), 0, n) < Pow2(n) && Unread() == old(Unread())[n..]
    {
      hide *;
      Peek(n);
      LowBound(hold, n);
      v := Low(hold, n);
      DropBits(n);
    }

    /** Enough bits for any code, without asking whether the input has them (inffast.c). */
    method Refill()
      requires Valid() && (bits < 15 ==> next + 2 <= |input|)
      modifies this`hold, this`bits, this`next
      ensures Valid() && next <= |input| && Unread() == old(Unread())
      ensures old(bits) >= 15 ==> bits == old(bits) && next == old(next)
      ensures old(bits) < 15 ==> bits == old(bits) + 16 && next == old(next) + 2
    {
      hide *;
      ReaderBits();
      if bits < 15 {
        var got := PullByte();
        got := PullByte();
      }
    }

    /** Read n extra bits, taking a byte at a time without asking whether the input has it (inffast.c). */
    method TakeExtra(n: nat) returns (v: nat)
      requires Valid() && n <= 13 && (bits < n ==> next < |input|) && (bits + 8 < n ==> next + 2 <= |input|)
      modifies this`hold, this`bits, this`next
      ensures Valid() && next <= |input| && n <= |old(Unread())| && v == Field(old(Unread()), 0, n)
        && Unread() == old(Unread())[n..]
      ensures next == old(next) + (if n <= old(bits) then 0 else if n <= old(bits) + 8 then 1 else 2)
      ensures bits == old(bits) + 8 * (next - old(next)) - n
    {
      hide *;
      ReaderBits();
      if bits < n {
        var got := PullByte();
        if bits < n {
          got := PullByte();
        }
      }
      v := Take(n);
    }

    /** The three bits that start a block: whether it is the last, and its type. */
    method TakeType() returns (last: bool, kind: nat)
      requires Valid() && bits >= 3
      modifies this`hold, this`bits
      ensures Valid() && |old(Unread())| >= 3
      ensures last == old(Unread())[0] && kind == Field(old(Unread()), 1, 2) < 4 && Unread() == old(Unread())[3..]
    {
      hide *;
      Peek(3);
      ghost var u := Unread();
      var b := Take(1);
      last := b == 1;
      FieldShift(u);
      kind := Take(2);
    }

    /** The three sizes of a table description. */
    method TakeSizes() returns (a: nat, b: nat, c: nat)
      requires Valid() && bits >= 14
      modifies this`hold, this`bits
      ensures Valid() && |old(Unread())| >= 14 && Unread() == old(Unread())[14..]
      ensures a == Field(old(Unread()), 0, 5) < 32 && b == Field(old(Unread()), 5, 5) < 32
      ensures c == Field(old(Unread()), 10, 4) < 16
    {
      hide *;
      Peek(14);
      ghost var u := Unread();
      a := Take(5);
      b := Take(5);
      c := Take(4);
      FieldLater(u, 5, 5);
      FieldLater(u, 10, 4);
      DropTwice(u, 5, 5);
      DropTwice(u, 10, 4);
      Pow2Values();
    }

    /** The two sizes of a stored block, the second complemented. */
    method PeekStored() returns (a: nat, b: nat)
      requires Valid() && bits == 32
      ensures next <= |input| && |Unread()| >= 32
      ensures a == Field(Unread(), 0, 16) < 65536 && b == Field(Unread(), 16, 16) < 65536
    {
      hide *;
      Peek(16);
      Peek(32);
      ReaderBits();
      Pow2Values();
      LowBound(hold, 16);
      ShrBound(hold, 16, 16);
      HighField(hold, BytesToBits(input[next..]));
      a := Low(hold, 16);
      b := Shr(hold, 16);
    }

    lemma ReaderIs()
      requires bits <= 32 && hold < Pow2(bits) && next <= |input|
      ensures Valid() && Unread() == ToBits(hold, bits) + BytesToBits(input[next..])
    {
      hide ToBits, Pow2;
    }

    lemma ReaderBits()
      requires Valid()
      ensures bits <= 32 && hold < Pow2(bits) && next <= |input|
        && Unread() == ToBits(hold, bits) + BytesToBits(input[next..])
    {
      hide ToBits;
    }

    /** Go to a byte boundary. */
    method ByteBits()
      requires Valid()
      modifies this`hold, this`bits
      ensures Valid() && bits == old(bits) - old(bits) % 8 && bits % 8 == 0
      ensures Unread() == Aligned(old(Unread()))
    {
      hide Pow2, ToBits, BytesToBits;
      BytesLength(input[next..]);
      assert |Unread()| % 8 == bits % 8;
      DropBits(bits % 8);
    }

    /** Clear the accumulator of its 32 bits. */
    method InitBits()
      requires Valid() && bits == 32
      modifies this`hold, this`bits
      ensures Valid() && bits == 0 && Unread() == old(Unread())[32..]
    {
      hide Pow2, ToBits, BytesToBits;
      ghost var u := Unread();
      NoBits(0);
      PowZero();
      assert u[32..] == BytesToBits(input[next..]);
      hold := 0;
      bits := 0;
    }

    /** Give back the whole bytes in the accumulator, none of them taken before position n0. */
    method ReturnBytes(ghost u0: BitString, ghost n0: nat)
      requires Valid() && n0 <= |input| && Suffix(BytesToBits(input[n0..]), u0) && Suffix(Unread(), u0)
      requires n0 + bits / 8 <= next
      modifies this`hold, this`bits, this`next
      ensures Valid() && bits == old(bits) % 8 && next == old(next) - old(bits) / 8 && n0 <= next
      ensures Unread() == old(Unread())
    {
      hide *;
      ReaderBits();
      HeldFirst();
      ghost var u := Unread();
      var n := bits / 8;
      LowBound(hold, bits % 8);
      KeepLow(hold, bits, bits % 8, BytesToBits(input[next..]));
      BytesLength(input[next - n..]);
      LaterBytes(input, n0, next - n);
      next := next - n;
      bits := bits - 8 * n;
      hold := Low(hold, bits);
      SameSuffix(u, bits, BytesToBits(input[next..]), BytesToBits(input[n0..]), u0);
      ReaderIs();
    }

    lemma Peek(n: nat)
      requires Valid() && n <= bits
      ensures next <= |input| && n <= |Unread()| && Low(hold, n) == Field(Unread(), 0, n)
    {
      hide Pow2, ToBits, BytesToBits, Low, Field;
      PeekIs(hold, bits, BytesToBits(input[next..]), n);
    }
  }

  lemma NoBytes()
    ensures BytesToBits([]) == []
  {
  }

  // ---------- looking up one code ----------

  lemma FromBitsExtend(hold: nat, bits: nat, rest: BitString, n: nat)
    requires n <= bits
    ensures Low(FromBits(ToBits(hold, bits) + rest), n) == Low(hold, n)
  {
    hide ToBits, Low, FromBits;
    FromToBits(hold, bits);
    LowOfExtended(ToBits(hold, bits), rest, n);
    LowLow(hold, n, bits);
  }

  /** A symbol whose code the bits at hand contain is the symbol the stream starts with. */
  lemma HeldCode(kind: CodeKind, lens: seq<nat>, hold: nat, bits: nat, rest: BitString, s: nat)
    requires Acceptable(kind, lens) && Owns(lens, s, Rev(15, hold)) && lens[s] <= bits
    ensures Find(lens, ToBits(hold, bits) + rest) == Found(s)
  {
    hide ToBits, Low, FromBits, Kraft, CodeVal, Rev, Owns, Find;
    var u := ToBits(hold, bits) + rest;
    AcceptableKraft(kind, lens);
    OwnsCoded(lens, s, Rev(15, hold));
    MatchIffOwns(lens, s, hold);
    FromBitsExtend(hold, bits, rest, lens[s]);
    MatchIffOwns(lens, s, FromBits(u));
    FoundIs(lens, u, s);
  }

  lemma OwnsCoded(lens: seq<nat>, s: nat, x: nat)
    requires Owns(lens, s, x)
    ensures Coded(lens, s)
  {
  }

  /** With the input at its end, a code longer than the bits at hand means waiting. */
  lemma HeldShort(lens: seq<nat>, hold: nat, bits: nat, s: nat)
    requires hold < Pow2(bits) && Owns(lens, s, Rev(15, hold)) && lens[s] > bits
    ensures Find(lens, ToBits(hold, bits)) == Wait
  {
    hide ToBits, Low, Rev, Owns, Find, Pow2;
    FromToBits(hold, bits);
    LowSmall(hold, bits);
    FoundIs(lens, ToBits(hold, bits), s);
  }

  lemma HeldNothing(kind: CodeKind, lens: seq<nat>, hold: nat, bits: nat, rest: BitString)
    requires Acceptable(kind, lens) && hold < Pow2(bits) && !Owned(lens, Rev(15, hold))
    ensures bits >= 1 ==> Find(lens, ToBits(hold, bits) + rest) == Nothing
    ensures bits == 0 && rest == [] ==> Find(lens, ToBits(hold, bits) + rest) == Wait
  {
    hide ToBits, Low, Rev, Owns, Owned, Find, Pow2, FromBits, Kraft;
    var u := ToBits(hold, bits) + rest;
    FromToBits(hold, bits);
    LowSmall(hold, bits);
    if bits >= 1 {
      FromBitsExtend(hold, bits, rest, 1);
      LowIsParity(FromBits(u));
      LowIsParity(hold);
      NothingByFirstBit(kind, lens, hold);
      NothingByFirstBit(kind, lens, FromBits(u));
      NothingIs(lens, u);
    } else if rest == [] {
      assert u == ToBits(hold, bits);
      EmptyWaits(lens, hold);
    }
  }

  lemma LowIsParity(v: nat)
    ensures Low(v, 1) == v % 2
  {
    assert Low(v / 2, 0) == 0;
  }

  lemma EmptyWaits(lens: seq<nat>, hold: nat)
    requires !Owned(lens, Rev(15, hold)) && hold < 1
    ensures Find(lens, []) == Wait
  {
    assert hold == 0;
    assert FromBits([]) == 0;
  }

  /** What is known of an entry: the table reads it for the bits held. */
  lemma EntryMeans(kind: CodeKind, t: seq<Code>, start: nat, root: nat, lens: seq<nat>, hold: nat, bits: nat,
                   rest: BitString)
    requires Acceptable(kind, lens) && Decodes(t, start, root, kind, lens) && hold < Pow2(bits)
    ensures start + Low(hold, root) < |t|
    ensures var e := t[start + Low(hold, root)];
            IsLink(e) ==> start + e.val + Low(Shr(hold, e.bits), e.op) < |t|
    ensures var e := Read(t, start, root, hold);
            if e.bits <= bits then
              Means(kind, lens, ToBits(hold, bits) + rest, e)
            else rest == [] ==> Find(lens, ToBits(hold, bits) + rest) == Wait
  {
    hide ToBits, Low, Rev, Owns, Owned, Find, Pow2, FromBits, Kraft, Read, Entry, Shr, Acceptable;
    FirstInRange(t, start, root, hold);
    assert ReadsAs(t, start, root, kind, lens, hold);
    var e := Read(t, start, root, hold);
    if Owned(lens, Rev(15, hold)) {
      var s := OwnerOf(lens, Rev(15, hold));
      OwnsCoded(lens, s, Rev(15, hold));
      EntryIsNoLink(kind, s, lens[s]);
      if e.bits <= bits {
        HeldCode(kind, lens, hold, bits, rest, s);
      } else {
        HeldShort(lens, hold, bits, s);
        assert rest == [] ==> ToBits(hold, bits) + rest == ToBits(hold, bits);
      }
    } else {
      HeldNothing(kind, lens, hold, bits, rest);
    }
  }

  lemma OwnerOf(lens: seq<nat>, x: nat) returns (s: nat)
    requires Owned(lens, x)
    ensures Owns(lens, s, x)
  {
    s :| Owns(lens, s, x);
  }

  /** The entry stands for what the stream starts with. */
  ghost predicate Means(kind: CodeKind, lens: seq<nat>, u: BitString, e: Code)
  {
    match Find(lens, u)
    case Found(s) => SymbolsFit(kind, lens) && s < 288 && (kind.DISTS? ==> s < 32) && e == Entry(kind, s, lens[s])
    case Nothing => e == INVALID
    case Wait => false
  }

  /** The parts of a look-up for the bits held. */
  lemma LookUpParts(kind: CodeKind, t: seq<Code>, start: nat, root: nat, lens: seq<nat>, hold: nat)
    requires Decodes(t, start, root, kind, lens) && ValidLens(lens) && root <= 15
    ensures start + Low(hold, root) < |t|
    ensures var e := t[start + Low(hold, root)];
            e.bits <= 15 && (!IsLink(e) ==> Reads(t, start, root, hold, e))
            && (IsLink(e) ==>
                  (e.bits == root && Shr(Low(hold, e.bits + e.op), e.bits) == Low(Shr(hold, e.bits), e.op)
                   && start + e.val + Low(Shr(hold, e.bits), e.op) < |t|
                   && var f := t[start + e.val + Low(Shr(hold, e.bits), e.op)];
                      Reads(t, start, root, hold, Code(f.op, e.bits + f.bits, f.val)) && e.bits + f.bits <= 15))
  {
    hide Low, Rev, Pow2, Entry, Shr, Owns;
    FirstInRange(t, start, root, hold);
    assert ReadsAs(t, start, root, kind, lens, hold);
    ReadShort(kind, t, start, root, lens, hold);
    LowBound(hold, root);
    var e := t[start + Low(hold, root)];
    if IsLink(e) {
      LowBetween(hold, e.bits, e.op);
    }
  }

  lemma ReadShort(kind: CodeKind, t: seq<Code>, start: nat, root: nat, lens: seq<nat>, hold: nat)
    requires SymbolsFit(kind, lens) && Readable(t, start, root) && ValidLens(lens)
    requires start + Low(hold, root) < |t|
    requires var e := t[start + Low(hold, root)]; IsLink(e) ==> start + e.val + Low(Shr(hold, e.bits), e.op) < |t|
    requires ReadsAs(t, start, root, kind, lens, hold)
    ensures Read(t, start, root, hold).bits <= 15
  {
    hide Low, Rev, Pow2, Entry, Shr, Read, Owns, Readable;
    if Owned(lens, Rev(15, hold)) {
      var s := OwnerOf(lens, Rev(15, hold));
      OwnsCoded(lens, s, Rev(15, hold));
      EntryIsNoLink(kind, s, lens[s]);
    }
  }

  lemma LowBetween(v: nat, a: nat, b: nat)
    ensures Shr(Low(v, a + b), a) == Low(Shr(v, a), b)
  {
    hide Low, Shr, Pow2;
    LowAdd(v, a, b);
    LowBound(v, a);
    Join(Low(v, a), a, Low(Shr(v, a), b));
  }

  lemma LowKept(hold: nat, bits: nat, b: nat, n: nat)
    requires n <= bits && hold < Pow2(bits)
    ensures Low(hold + b * Pow2(bits), n) == Low(hold, n)
  {
    hide Low, Shr, Pow2;
    Join(hold, bits, b);
    LowLow(hold + b * Pow2(bits), n, bits);
  }

  ghost predicate Reads(t: seq<Code>, start: nat, root: nat, hold: nat, e: Code)
  {
    start + Low(hold, root) < |t|
    && var f := t[start + Low(hold, root)];
    (IsLink(f) ==> start + f.val + Low(Shr(hold, f.bits), f.op) < |t|) && Read(t, start, root, hold) == e
  }

  lemma ReaderHold(r: Reader)
    requires r.Valid()
    ensures r.hold < Pow2(r.bits) && r.next <= |r.input|
    ensures r.Unread() == ToBits(r.hold, r.bits) + BytesToBits(r.input[r.next..])
    ensures r.next == |r.input| ==> BytesToBits(r.input[r.next..]) == []
  {
    hide ToBits;
  }

  lemma AcceptableValid(kind: CodeKind, lens: seq<nat>)
    requires Acceptable(kind, lens)
    ensures ValidLens(lens)
  {
    hide Kraft;
  }

  lemma WaitsHere(r: Reader, kind: CodeKind, t: seq<Code>, start: nat, root: nat, lens: seq<nat>, e: Code)
    requires r.Valid() && Acceptable(kind, lens) && Decodes(t, start, root, kind, lens)
    requires Reads(t, start, root, r.hold, e) && e.bits > r.bits
    ensures r.next <= |r.input| && Find(lens, r.Held()) == Wait
    ensures r.next == |r.input| ==> r.Unread() == r.Held()
  {
    hide *;
    ReaderHold(r);
    ReadsIs(t, start, root, r.hold, e);
    EntryMeans(kind, t, start, root, lens, r.hold, r.bits, []);
    HeldIs(r);
  }

  lemma HeldIs(r: Reader)
    requires r.Valid()
    ensures r.next <= |r.input| && r.Held() == ToBits(r.hold, r.bits) && r.Held() + [] == r.Held()
    ensures r.next == |r.input| ==> r.Unread() == r.Held()
  {
    hide ToBits, BytesToBits;
    NoBytes();
  }

  lemma ReadsIs(t: seq<Code>, start: nat, root: nat, hold: nat, e: Code)
    requires Reads(t, start, root, hold, e)
    ensures start + Low(hold, root) < |t|
    ensures var f := t[start + Low(hold, root)];
            (IsLink(f) ==> start + f.val + Low(Shr(hold, f.bits), f.op) < |t|)
    ensures Read(t, start, root, hold) == e
  {
    hide Low, Shr, Read;
  }

  lemma WaitsFirst(r: Reader, kind: CodeKind, t: seq<Code>, start: nat, root: nat, lens: seq<nat>, e: Code)
    requires r.Valid() && Acceptable(kind, lens) && Decodes(t, start, root, kind, lens) && root <= 15
    requires start + Low(r.hold, root) < |t| && e == t[start + Low(r.hold, root)] && e.bits > r.bits
    ensures r.next <= |r.input| && Find(lens, r.Held()) == Wait
    ensures r.next == |r.input| ==> r.Unread() == r.Held()
  {
    hide *;
    AcceptableValid(kind, lens);
    LookUpParts(kind, t, start, root, lens, r.hold);
    if IsLink(e) {
      var f := t[start + e.val + Low(Shr(r.hold, e.bits), e.op)];
      WaitsHere(r, kind, t, start, root, lens, Code(f.op, e.bits + f.bits, f.val));
    } else {
      WaitsHere(r, kind, t, start, root, lens, e);
    }
  }

  lemma FoundHere(r: Reader, kind: CodeKind, t: seq<Code>, start: nat, root: nat, lens: seq<nat>, e: Code)
    requires r.Valid() && Acceptable(kind, lens) && Decodes(t, start, root, kind, lens)
    requires Reads(t, start, root, r.hold, e) && e.bits <= r.bits
    ensures Means(kind, lens, r.Unread(), e)
  {
    hide *;
    ReaderHold(r);
    ReadsIs(t, start, root, r.hold, e);
    EntryMeans(kind, t, start, root, lens, r.hold, r.bits, BytesToBits(r.input[r.next..]));
  }

  /** Without the last byte taken there would be too few bits for a code. */
  ghost predicate NotBefore(r: Reader, lens: seq<nat>)
    requires r.Valid()
    reads r
  {
    8 <= r.bits <= |r.Unread()| && Find(lens, r.Unread()[..r.bits - 8]) == Wait
  }

  /** Take one more byte for a code. */
  method PullFor(r: Reader, ghost lens: seq<nat>) returns (ok: bool)
    requires r.Valid() && r.bits <= 24 && Find(lens, r.Held()) == Wait
    requires r.next == |r.input| ==> r.Unread() == r.Held()
    modifies r`hold, r`bits, r`next
    ensures r.Valid() && r.Unread() == old(r.Unread()) && r.next <= |r.input|
    ensures ok ==> r.next == old(r.next) + 1 && r.bits == old(r.bits) + 8 && NotBefore(r, lens)
    ensures ok ==> r.hold == old(r.hold) + r.input[r.next - 1] * Pow2(old(r.bits))
    ensures !ok ==> r.next == |r.input| && Find(lens, r.Unread()) == Wait
    ensures !ok ==> r.bits == old(r.bits)
  {
    hide *;
    r.HeldFirst();
    ok := r.PullByte();
    r.HeldFirst();
    NotBeforeIs(r, lens);
  }

  lemma NotBeforeIs(r: Reader, lens: seq<nat>)
    requires r.Valid() && r.next <= |r.input|
    ensures 8 <= r.bits <= |r.Unread()| && Find(lens, r.Unread()[..r.bits - 8]) == Wait ==> NotBefore(r, lens)
  {
    hide Find, ToBits, BytesToBits;
  }

  /** The entry of the root table, with bits enough for it. */
  method LookUpRoot(r: Reader, table: array<Code>, ghost end: nat, start: nat, root: nat, ghost kind: CodeKind,
                    ghost lens: seq<nat>) returns (ok: bool, here: Code)
    requires r.Valid() && Acceptable(kind, lens) && root <= 15
    requires end <= table.Length && Decodes(table[..end], start, root, kind, lens)
    modifies r`hold, r`bits, r`next
    ensures r.Valid() && r.next <= |r.input| && r.Unread() == old(r.Unread()) && old(r.bits) <= r.bits
    ensures r.bits == old(r.bits) || NotBefore(r, lens) || !ok
    ensures ok ==> start + Low(r.hold, root) < end && here == table[start + Low(r.hold, root)] && here.bits <= r.bits
    ensures !ok ==> r.next == |r.input| && Find(lens, r.Unread()) == Wait
  {
    hide *;
    ghost var t := table[..end];
    AcceptableValid(kind, lens);
    ReaderHold(r);
    LookUpParts(kind, t, start, root, lens, r.hold);
    here := table[start + Low(r.hold, root)];
    while here.bits > r.bits
      invariant r.Valid() && r.next <= |r.input| && r.Unread() == old(r.Unread()) && old(r.bits) <= r.bits
      invariant start + Low(r.hold, root) < |t| && here == t[start + Low(r.hold, root)] && here.bits <= 15
      invariant r.bits == old(r.bits) || NotBefore(r, lens)
      decreases |r.input| - r.next
    {
      WaitsFirst(r, kind, t, start, root, lens, here);
      var got := PullFor(r, lens);
      if !got {
        return false, here;
      }
      LookUpParts(kind, t, start, root, lens, r.hold);
      here := table[start + Low(r.hold, root)];
    }
    return true, here;
  }

  /** The entry of the sub-table that `last` links to, with bits enough for both. */
  method LookUpSub(r: Reader, table: array<Code>, ghost end: nat, start: nat, root: nat, ghost kind: CodeKind,
                   ghost lens: seq<nat>, last: Code) returns (ok: bool, here: Code)
    requires r.Valid() && Acceptable(kind, lens) && root <= 15
    requires end <= table.Length && Decodes(table[..end], start, root, kind, lens)
    requires start + Low(r.hold, root) < end && last == table[start + Low(r.hold, root)] && IsLink(last)
      && last.bits <= r.bits
    modifies r`hold, r`bits, r`next
    ensures r.Valid() && r.next <= |r.input| && r.Unread() == old(r.Unread()) && old(r.bits) <= r.bits
    ensures (r.bits == old(r.bits) && r.next == old(r.next) && r.hold == old(r.hold)) || NotBefore(r, lens) || !ok
    ensures ok ==> here.bits <= r.bits && Reads(table[..end], start, root, r.hold, here)
    ensures !ok ==> r.next == |r.input| && Find(lens, r.Unread()) == Wait
  {
    hide *;
    ghost var t := table[..end];
    AcceptableValid(kind, lens);
    ReaderHold(r);
    LookUpParts(kind, t, start, root, lens, r.hold);
    here := table[start + last.val + Shr(Low(r.hold, last.bits + last.op), last.bits)];
    while last.bits + here.bits > r.bits
      invariant r.Valid() && r.next <= |r.input| && r.Unread() == old(r.Unread()) && old(r.bits) <= r.bits
        && root <= r.bits
      invariant start + Low(r.hold, root) < |t| && last == t[start + Low(r.hold, root)]
      invariant Reads(t, start, root, r.hold, Code(here.op, last.bits + here.bits, here.val))
        && last.bits + here.bits <= 15
      invariant (r.bits == old(r.bits) && r.next == old(r.next) && r.hold == old(r.hold)) || NotBefore(r, lens)
      decreases |r.input| - r.next
    {
      ghost var hold, bits := r.hold, r.bits;
      ReaderHold(r);
      WaitsHere(r, kind, t, start, root, lens, Code(here.op, last.bits + here.bits, here.val));
      var got := PullFor(r, lens);
      if !got {
        return false, here;
      }
      LowKept(hold, bits, r.input[r.next - 1], root);
      LookUpParts(kind, t, start, root, lens, r.hold);
      here := table[start + last.val + Shr(Low(r.hold, last.bits + last.op), last.bits)];
    }
    return true, Code(here.op, last.bits + here.bits, here.val);
  }

  /** Find the entry for the next code, taking just enough input; no bits are dropped yet. */
  method LookUp(r: Reader, table: array<Code>, ghost end: nat, start: nat, root: nat, ghost kind: CodeKind,
                ghost lens: seq<nat>) returns (ok: bool, here: Code)
    requires r.Valid() && Acceptable(kind, lens) && root <= 15
    requires end <= table.Length && Decodes(table[..end], start, root, kind, lens)
    modifies r`hold, r`bits, r`next
    ensures r.Valid() && r.next <= |r.input| && r.Unread() == old(r.Unread()) && old(r.bits) <= r.bits
    ensures ok ==> here.bits <= r.bits && Means(kind, lens, r.Unread(), here)
    ensures ok ==> r.bits == old(r.bits) || NotBefore(r, lens)
    ensures !ok ==> r.next == |r.input| && Find(lens, r.Unread()) == Wait
  {
    hide *;
    ok, here := LookUpRoot(r, table, end, start, root, kind, lens);
    if !ok {
      return;
    }
    AcceptableValid(kind, lens);
    LookUpParts(kind, table[..end], start, root, lens, r.hold);
    if IsLink(here) {
      ok, here := LookUpSub(r, table, end, start, root, kind, lens, here);
      if !ok {
        return;
      }
    }
    FoundHere(r, kind, table[..end], start, root, lens, here);
  }

  /** The same for a table without sub-tables. */
  method LookUpFlat(r: Reader, table: array<Code>, ghost end: nat, start: nat, root: nat, ghost kind: CodeKind,
                    ghost lens: seq<nat>) returns (ok: bool, here: Code)
    requires r.Valid() && Acceptable(kind, lens) && root <= 15
    requires end <= table.Length && Decodes(table[..end], start, root, kind, lens) && Flat(table[..end], start, root)
    modifies r`hold, r`bits, r`next
    ensures r.Valid() && r.next <= |r.input| && r.Unread() == old(r.Unread()) && old(r.bits) <= r.bits
    ensures ok ==> here.bits <= r.bits && Means(kind, lens, r.Unread(), here)
    ensures ok ==> r.bits == old(r.bits) || NotBefore(r, lens)
    ensures !ok ==> r.next == |r.input| && Find(lens, r.Unread()) == Wait
  {
    hide *;
    ghost var t := table[..end];
    AcceptableValid(kind, lens);
    ReaderHold(r);
    LookUpParts(kind, t, start, root, lens, r.hold);
    here := table[start + Low(r.hold, root)];
    while here.bits > r.bits
      invariant r.Valid() && r.next <= |r.input| && r.Unread() == old(r.Unread()) && old(r.bits) <= r.bits
      invariant start + Low(r.hold, root) < |t| && here == t[start + Low(r.hold, root)] && here.bits <= 15
      invariant r.bits == old(r.bits) || NotBefore(r, lens)
      decreases |r.input| - r.next
    {
      WaitsFirst(r, kind, t, start, root, lens, here);
      var got := PullFor(r, lens);
      if !got {
        return false, here;
      }
      LookUpParts(kind, t, start, root, lens, r.hold);
      here := table[start + Low(r.hold, root)];
    }
    LookUpParts(kind, t, start, root, lens, r.hold);
    FlatAt(t, start, root, r.hold);
    FoundHere(r, kind, t, start, root, lens, here);
    return true, here;
  }

  /** An entry that is not a link has one of these marks. */
  lemma OpKinds(kind: CodeKind, lens: seq<nat>, u: BitString, e: Code)
    requires Means(kind, lens, u, e)
    ensures e.op == 0 || Has(e.op, 16) || Has(e.op, 64)
  {
    hide Find, LBASE, DBASE;
  }

  lemma LinkOps(e: Code)
    requires IsLink(e)
    ensures e.op != 0 && !Has(e.op, 16) && !Has(e.op, 64)
  {
  }

  /** Find the entry for the next code and drop its bits, when there are certainly enough. */
  method LookUpNow(r: Reader, table: array<Code>, ghost end: nat, start: nat, root: nat, ghost kind: CodeKind,
                   ghost lens: seq<nat>) returns (op: nat, val: nat, ghost l: nat)
    requires r.Valid() && Acceptable(kind, lens) && root <= 15 && r.bits >= 15
    requires end <= table.Length && Decodes(table[..end], start, root, kind, lens)
    modifies r`hold, r`bits
    ensures r.Valid() && r.next <= |r.input| && l <= 15 && l <= |old(r.Unread())| && r.bits == old(r.bits) - l
    ensures r.Unread() == old(r.Unread())[l..] && Means(kind, lens, old(r.Unread()), Code(op, l, val))
    ensures op == 0 || Has(op, 16) || Has(op, 64)
  {
    hide *;
    ghost var t := table[..end];
    AcceptableValid(kind, lens);
    r.HeldFirst();
    LookUpParts(kind, t, start, root, lens, r.hold);
    var here := table[start + Low(r.hold, root)];
    ghost var hold, u := r.hold, r.Unread();
    if IsLink(here) {
      LinkOps(here);
      ghost var g := t[start + here.val + Low(Shr(hold, here.bits), here.op)];
      FoundHere(r, kind, t, start, root, lens, Code(g.op, here.bits + g.bits, g.val));
      OpKinds(kind, lens, u, Code(g.op, here.bits + g.bits, g.val));
    } else {
      FoundHere(r, kind, t, start, root, lens, here);
      OpKinds(kind, lens, u, here);
    }
    r.DropBits(here.bits);
    l := here.bits;
    if here.op != 0 && !Has(here.op, 16) && !Has(here.op, 64) {
      here := table[start + here.val + Low(r.hold, here.op)];
      DropTwice(u, l, here.bits);
      r.DropBits(here.bits);
      l := l + here.bits;
    }
    op, val := here.op, here.val;
  }

  lemma FlatAt(t: seq<Code>, start: nat, root: nat, hold: nat)
    requires Flat(t, start, root)
    ensures start + Low(hold, root) < |t| && !IsLink(t[start + Low(hold, root)])
  {
    hide Low, Pow2;
    LowBound(hold, root);
  }
}
