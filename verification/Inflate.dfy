/** The decompressor proper (inflate.c: inflate), one method for each state of its state machine.

    The object keeps what inflate_state and the stream keep: the bit accumulator, the window, the
    mode and the fields of the state at hand.  Cfg() is the configuration of the decoder machine it
    stands for; every method takes the steps of that machine. */
module Inflate {
  import opened Bits
  import opened Canonical
  import opened Symbols
  import opened Lz77
  import opened Decoder
  import opened MoreInput
  import opened DecodeTable
  import opened TableSize
  import opened InflateTable
  import opened BitWriter
  import opened BitReader
  import opened HistoryWindow
  import opened Windowed
  import opened InflateSteps
  import opened NeededInput

  const ENOUGH: nat := 1444
  const Z_OK: int := 0
  const Z_STREAM_END: int := 1
  const Z_DATA_ERROR: int := -3
  const Z_BUF_ERROR: int := -5

  /** Which states follow one another without taking input or giving output. */
  function Order(m: Mode): (n: nat)
  {
    match m
    case LenLens => 3
    case Copying => 2
    case CodeLens => 2
    case LenExt => 2
    case DistExt => 2
    case Done => 0
    case Bad => 0
    case _ => 1
  }

  /** Less is left to do: fewer bits, or less room, or a later state. */
  ghost predicate Nearer(u: nat, room: nat, m: Mode, u': nat, room': nat, m': Mode)
  {
    u' < u || (u' == u && (room' < room || (room' == room && Order(m') < Order(m))))
  }

  /** The lengths read so far, in the order in which they are sent. */
  ghost predicate LensGot(lens: seq<nat>, got: seq<nat>)
  {
    |got| <= 19 <= |lens| && forall i :: 0 <= i < |got| ==> got[i] < 8 && lens[BlOrder(i)] == got[i]
  }

  /** The lengths read so far, in symbol order. */
  ghost predicate Prefix(lens: seq<nat>, got: seq<nat>)
  {
    |got| <= |lens| && lens[..|got|] == got && forall i :: 0 <= i < |got| ==> got[i] <= 15
  }

  lemma FixedAsked()
    ensures Asked(LENS, FixedLitLens(), 9) && Roomy(LENS, FixedLitLens(), 9) && Acceptable(LENS, FixedLitLens())
    ensures Asked(DISTS, FixedDistLens(), 5) && Roomy(DISTS, FixedDistLens(), 5) && Acceptable(DISTS, FixedDistLens())
    ensures |FixedLitLens()| == 288 && |FixedDistLens()| == 32 && Room(LENS) == 852 && Room(DISTS) == 592
      && ENOUGH == 1444
  {
    hide Kraft;
    FixedLitValid();
    FixedAcceptable();
  }

  lemma NearerIs(u: nat, room: nat, m: Mode, u': nat, room': nat, m': Mode)
    ensures u' < u ==> Nearer(u, room, m, u', room', m')
    ensures u' <= u && room' < room ==> Nearer(u, room, m, u', room', m')
    ensures u' <= u && room' <= room && Order(m') < Order(m) ==> Nearer(u, room, m, u', room', m')
    ensures m.Type? && m'.Done? ==> Order(m') < Order(m)
    ensures m'.Bad? && !m.Bad? && !m.Done? ==> Order(m') < Order(m)
    ensures m.Copying? && m'.Type? ==> Order(m') < Order(m)
    ensures (m.LenLens? && m'.CodeLens?) || (m.CodeLens? && m'.Len?) ==> Order(m') < Order(m)
    ensures (m.LenExt? && m'.Dist?) || (m.DistExt? && m'.Matching?) ==> Order(m') < Order(m)
  {
  }

  lemma AlignedShorter(u: BitString)
    ensures |Aligned(u)| <= |u|
  {
  }

  lemma TypeDropped(u: BitString)
    requires |u| >= 3
    ensures |u[3..]| == |u| - 3 && |Aligned(u[3..])| <= |u| - 3
  {
  }

  lemma RangeFree(st: State)
    requires !st.mode.LenExt? && !st.mode.Dist? && !st.mode.DistExt? && !st.mode.Matching?
    ensures InRange(st)
  {
  }

  lemma DecodingIs(m: Mode)
    ensures Decoding(m) <==> m.Len? || m.LenExt? || m.Dist? || m.DistExt? || m.Matching? || m.Lit?
  {
  }

  lemma AlignedWhole(r: Reader)
    requires r.Valid() && r.bits % 8 == 0
    ensures r.next <= |r.input| && Aligned(r.Unread()) == r.Unread()
  {
    hide ToBits, Pow2;
  }

  lemma NoBitsHeld(r: Reader)
    requires r.next <= |r.input| && r.bits == 0
    ensures r.Unread() == BytesToBits(r.input[r.next..])
  {
    hide BytesToBits;
    NoBits(r.hold);
  }

  lemma HeldKept(r: Reader)
    requires r.bits == 0 && r.hold < 1 && r.next <= |r.input|
    ensures r.Valid()
  {
  }

  lemma OutPlus(a: seq<Byte>, b: seq<Byte>, c: seq<Byte>)
    ensures a + (b + c) == a + b + c
  {
  }

  lemma ByteLess(b: Byte, s: seq<Byte>)
    ensures |BytesToBits(s)| <= |BytesToBits([b] + s)|
  {
  }

  lemma NothingSent(lens: seq<nat>)
    ensures |lens| >= 19 ==> LensGot(lens, [])
  {
  }

  lemma SentSize(lens: seq<nat>, got: seq<nat>)
    requires LensGot(lens, got)
    ensures |got| <= 19 <= |lens| && forall i :: 0 <= i < |got| ==> got[i] < 8
    ensures ZeroFrom(lens, |got|, |got|)
  {
    hide BlOrder;
  }

  lemma OrderApart(i: nat, j: nat)
    requires i < j < 19
    ensures BlOrder(i) != BlOrder(j)
  {
    RankOf(i);
    RankOf(j);
  }

  lemma RankOf(i: nat)
    requires i < 19
    ensures BlRank(BlOrder(i)) == i
  {
  }

  lemma SentMore(lens: seq<nat>, got: seq<nat>, v: nat)
    requires LensGot(lens, got) && |got| < 19 && v < Pow2(3)
    ensures LensGot(lens[BlOrder(|got|) := v], got + [v])
  {
    hide BlOrder, Pow2;
    Pow2Values();
    forall i | 0 <= i < |got| ensures BlOrder(i) != BlOrder(|got|) {
      OrderApart(i, |got|);
    }
  }

  ghost predicate ZeroFrom(lens: seq<nat>, a: nat, b: nat)
  {
    b <= 19 <= |lens| && forall i :: a <= i < b ==> lens[BlOrder(i)] == 0
  }

  lemma ZeroMore(lens: seq<nat>, got: seq<nat>, have: nat)
    requires LensGot(lens, got) && ZeroFrom(lens, |got|, have) && |got| <= have < 19
    ensures var l := lens[BlOrder(have) := 0]; LensGot(l, got) && ZeroFrom(l, |got|, have + 1)
  {
    hide BlOrder;
    forall i | 0 <= i < have ensures BlOrder(i) != BlOrder(have) {
      OrderApart(i, have);
    }
  }

  lemma PermutedIs(lens: seq<nat>, got: seq<nat>)
    requires LensGot(lens, got) && ZeroFrom(lens, |got|, 19)
    ensures lens[..19] == Permuted(got)
  {
    hide BlOrder, BlRank;
    forall s | 0 <= s < 19 ensures lens[s] == Permuted(got)[s] {
      var i := BlRank(s);
      assert lens[BlOrder(i)] == if i < |got| then got[i] else 0;
    }
  }

  lemma LengthAsked(cl: seq<nat>, got: seq<nat>)
    requires cl == Permuted(got) && forall i :: 0 <= i < |got| ==> got[i] < 8
    ensures Asked(CODES, cl, 7) && |cl| == 19 && Room(CODES) == 128
  {
    hide BlOrder, BlRank;
  }

  lemma NoPrefix(lens: seq<nat>)
    ensures Prefix(lens, [])
  {
  }

  lemma PrefixMore(lens: seq<nat>, got: seq<nat>, v: nat)
    requires Prefix(lens, got) && |got| < |lens| && v <= 15
    ensures Prefix(lens[|got| := v], got + [v])
  {
  }

  lemma PrefixLast(lens: seq<nat>, got: seq<nat>)
    requires Prefix(lens, got)
    ensures |got| > 0 ==> |got| <= |lens| && lens[|got| - 1] == got[|got| - 1] <= 15
  {
    assert |got| > 0 ==> lens[..|got|][|got| - 1] == lens[|got| - 1];
  }

  lemma MeansShort(kind: CodeKind, lens: seq<nat>, u: BitString, e: Code)
    requires Means(kind, lens, u, e)
    ensures 1 <= e.bits <= 15
  {
    hide Find, LBASE, LEXT, DBASE, DEXT;
  }

  lemma RepeatBitsIs(s: nat)
    ensures RepeatBits(s) <= 7
    ensures RepeatBits(s) == if s == 16 then 2 else if s == 17 then 3 else 7
  {
  }

  lemma PrefixSplit(lens: seq<nat>, got: seq<nat>, nlen: nat, ndist: nat)
    requires Prefix(lens, got) && |got| == nlen + ndist
    ensures nlen + ndist <= |lens| && got == lens[..nlen + ndist] && forall i :: 0 <= i < |got| ==> got[i] <= 15
  {
  }

  /** The requests for the tables of a block meet the conditions under which the room suffices. */
  lemma TablesAsked(ll: seq<nat>, dl: seq<nat>)
    requires |ll| <= 286 && |dl| <= 30
    requires forall i :: 0 <= i < |ll| ==> ll[i] <= 15
    requires forall i :: 0 <= i < |dl| ==> dl[i] <= 15
    ensures Asked(LENS, ll, 9) && Roomy(LENS, ll, 9) && Asked(DISTS, dl, 6) && Roomy(DISTS, dl, 6)
    ensures Room(LENS) == 852 && Room(DISTS) == 592
  {
  }

  lemma GoesInRange(c: Config, f: nat, st: State, o: seq<Byte>, u: BitString)
    requires Goes(c, f, Config(st.(out := o), u)) && InRange(c.st)
    ensures InRange(st)
  {
    hide InRange, StepIn;
    StepInRange(c, f);
    RangeKept(st, o);
  }

  lemma RangeKept(st: State, o: seq<Byte>)
    ensures InRange(st.(out := o)) == InRange(st)
  {
  }

  lemma NoField(u: BitString)
    ensures Field(u, 0, 0) == 0 && u[0..] == u
  {
  }

  lemma MatchRange(st: State)
    requires InRange(st) && st.mode.Matching?
    ensures 1 <= st.length <= 258 && 1 <= st.offset <= 32768
  {
  }

  lemma RangeNow(st: State, rest: nat)
    requires InRange(st) && st.mode.Matching? && st.length == rest + 1
    ensures InRange(st.(mode := Len, length := 0)) && (rest > 0 ==> InRange(st.(length := rest)))
  {
  }

  /** Successive bytes of one piece of the ring lie one position nearer each. */
  lemma PieceIs(back: nat, start: int, n: nat, wnext: nat, wsize: nat, i: nat)
    requires start == (if back > wnext then wsize - (back - wnext) else wnext - back)
    requires n <= (if back > wnext then back - wnext else back) && i < n
    ensures back - i >= 1 && Back(back - i, wnext, wsize) == start + i
  {
  }

  lemma WithIs(c: Config, more: BitString)
    ensures With(c, more) == Config(c.st, c.unread + more)
  {
  }

  lemma BytesAligned(u: BitString, more: BitString, data: seq<Byte>)
    requires more == BytesToBits(data)
    ensures Aligned(u + more) == Aligned(u) + more
  {
    hide BytesToBits;
    BytesLength(data);
    AlignedExtended(u, more);
  }

  lemma NearerHas(u: nat, room: nat, m: Mode, u': nat, room': nat, m': Mode)
    requires Nearer(u, room, m, u', room', m')
    ensures u' < u || (u' == u && (room' < room || (room' == room && Order(m') < Order(m))))
  {
    hide Order;
  }

  /** The first m unread bits are not enough for a step. */
  ghost predicate Idle(c: Config, m: nat)
  {
    m <= |c.unread| && Step(Config(c.st, c.unread[..m])).None?
  }

  lemma IdleIf(c: Config, f: nat, m: nat)
    requires m <= |c.unread| && Waits(Config(c.st, c.unread[..m]), f)
    ensures Idle(c, m)
  {
    hide Step;
  }

  /** Less than a byte is held, or too little for the state at hand. */
  ghost predicate Snug(st: State, bits: nat, held: BitString)
  {
    bits < 8 || Step(Config(st, held)).None?
  }

  lemma NearerDiffers(c: Config, d: Config, room: nat)
    requires Nearer(|c.unread|, room, c.st.mode, |d.unread|, room, d.st.mode)
    ensures d != c
  {
    hide Order;
  }

  /** b bits are held, of which b0 were held before; no byte was taken that was not needed. */
  ghost predicate Minimal(c: Config, b0: nat, b: nat)
  {
    (b0 < 8 || Idle(c, b0)) && (b == b0 || (8 <= b && Idle(c, b - 8)))
  }

  /** Where fewer than n bits are not enough. */
  lemma ShortIdle(c: Config, f: nat, n: nat)
    requires (c.st.mode.Type? && !c.st.last && n == 3) || (c.st.mode.Table? && n == 14)
      || (c.st.mode.LenLens? && |c.st.got| < c.st.ncode && n == 3)
      || ((c.st.mode.LenExt? || c.st.mode.DistExt?) && n == c.st.extra)
    ensures forall m: nat :: m < n && m <= |c.unread| ==> Idle(c, m)
  {
    hide Idle, Waits, Field, BlockOpen;
    forall m: nat | m < n && m <= |c.unread| ensures Idle(c, m) {
      var d := Config(c.st, c.unread[..m]);
      match c.st.mode {
        case Type => OnType(d, f);
        case Table => OnTable(d, f);
        case LenLens => OnLenLens(d, f);
        case LenExt => OnLenExt(d, f);
        case DistExt => OnDistExt(d, f);
      }
      IdleIf(c, f, m);
    }
  }

  /** More bytes were taken, each needed. */
  lemma MinimalMore(c: Config, b0: nat, b: nat, b': nat)
    requires Minimal(c, b0, b) && (b' == b || (8 <= b' && Idle(c, b' - 8)))
    ensures Minimal(c, b0, b')
  {
    hide Idle;
  }

  lemma AlignedLength(u: BitString)
    ensures |Aligned(u)| == |u| - |u| % 8
  {
  }

  lemma FewLeft(c: Config, f: nat, d: Config, b0: nat, b: nat, rest: nat)
    requires Sound(c.st) && LeadsIn(c, f, d) && d != c && |c.unread| == b + rest && rest % 8 == 0 && Minimal(c, b0, b)
    ensures d.st.mode.Bad? || |d.unread| < rest + 8
  {
    hide Sound, LeadsIn, Step;
    LeadsSuffix(c, f, d);
    if 8 <= b0 == b {
      assert c.unread == c.unread[..b] + c.unread[b..];
      LeadsNeeds(c, f, d, c.unread[..b], c.unread[b..]);
    } else if b != b0 {
      assert c.unread == c.unread[..b - 8] + c.unread[b - 8..];
      LeadsNeeds(c, f, d, c.unread[..b - 8], c.unread[b - 8..]);
    }
  }

  lemma TailSuffix(a: BitString, b: BitString)
    ensures Suffix(b, a + b)
  {
  }

  /** The codes read use up all but at most seven of the bits held at the start. */
  lemma FastLeft(c: Config, f: nat, d: Config, b0: nat, rest: nat)
    requires Sound(c.st) && c.st.mode.Len? && LeadsIn(c, f, d) && d != c && |c.unread| == b0 + rest
      && Minimal(c, b0, b0)
    ensures |d.unread| < rest + 8
  {
    hide Sound, LeadsIn, Step;
    LeadsSuffix(c, f, d);
    if 8 <= b0 {
      assert c.unread == c.unread[..b0] + c.unread[b0..];
      LenLeadsNeeds(c, f, d, c.unread[..b0], c.unread[b0..]);
    }
  }

  /** With fewer bits than a repeat symbol takes there is no step. */
  lemma RepeatIdle(c: Config, f: nat, here: Code, m: nat)
    requires c.st.mode.CodeLens? && |c.st.got| < c.st.nlen + c.st.ndist && Means(CODES, c.st.clens, c.unread, here)
    requires Acceptable(CODES, c.st.clens) && here.val >= 16 && m <= |c.unread| && m < here.bits + RepeatBits(here.val)
    ensures Idle(c, m)
  {
    hide Find, Acceptable, Idle, Waits, RepeatBits;
    var u := c.unread[..m];
    var d := Config(c.st, u);
    if Find(c.st.clens, u) == Wait {
      OnCodeWaits(d, f);
    } else {
      assert u + c.unread[m..] == c.unread;
      FindStable(CODES, c.st.clens, u, c.unread[m..]);
      OnCodeRepeat(d, f, here);
    }
    IdleIf(c, f, m);
  }

  class Inflater {
    const r: Reader
    const win: Window
    const lens: array<nat>
    const work: array<nat>
    const codes: array<Code>
    const fixed: array<Code>
    var mode: Mode
    var last: bool
    var length: nat
    var offset: nat
    var extra: nat
    var ncode: nat
    var nlen: nat
    var ndist: nat
    var have: nat
    var lencode: array<Code>   // the tables in use: where they start and their index bits
    var lenstart: nat
    var lenbits: nat
    var distcode: array<Code>
    var diststart: nat
    var distbits: nat
    var fixlenbits: nat        // the tables of the fixed codes
    var fixdist: nat
    var fixdistbits: nat
    var out: array<Byte>       // the output of this call
    var put: nat
    ghost var st: State        // the machine's state, but for its output
    ghost var sent: seq<Byte>  // all output of earlier calls
    ghost var fed: seq<Byte>   // all input taken by earlier calls
    ghost var lenend: nat
    ghost var distend: nat
    ghost var fixend: nat

    /** A decompressor for raw streams with a window of 2^wbits bytes. */
    constructor (wbits: nat)
      requires 8 <= wbits <= 15
      ensures Inv() && sent == [] && put == 0 && mode == Type && win.wbits == wbits && fresh(r) && fresh(win)
        && fresh(win.buf)
      ensures fresh(lens) && fresh(work) && fresh(codes) && fresh(fixed)
      ensures r.next == |r.input| && r.bits == 0 && Cfg() == Config(InitState, []) && fed == []
    {
      hide *;
      var table := new Code[ENOUGH](_ => Code(0, 0, 0));
      r := new Reader();
      win := new Window(wbits);
      lens := new nat[320];
      work := new nat[288];
      codes := new Code[ENOUGH](_ => Code(0, 0, 0));
      fixed := table;
      lencode, distcode := table, table;
      out := new Byte[0];
      mode, last, length, offset, extra := Type, false, 0, 0, 0;
      ncode, nlen, ndist, have := 0, 0, 0, 0;
      lenstart, lenbits, diststart, distbits := 0, 0, 0, 0;
      fixlenbits, fixdist, fixdistbits := 0, 0, 0;
      put := 0;
      st, sent, fed := InitState, [], [];
      lenend, distend, fixend := 0, 0, 0;
      new;
      Start();
    }

    /** The fixed codes, and the state at the start of a stream. */
    method Start()
      requires lens.Length == 320 && work.Length == 288 && codes.Length == ENOUGH == fixed.Length
      requires lens != work && codes != fixed && out != win.buf
      requires r.Valid() && r.next == |r.input| && r.Unread() == [] && win.Valid() && win.hist == sent == []
      requires out.Length == put == 0 && mode == Type && !last && st == InitState
      modifies this`fixlenbits, this`fixdist, this`fixdistbits, this`fixend, fixed, work
      ensures Inv() && Cfg() == Config(InitState, [])
    {
      hide *;
      BuildFixed();
      StartsValid();
    }

    /** Build the tables of the fixed codes (fixedtables). */
    method BuildFixed()
      requires fixed.Length == ENOUGH && work.Length == 288
      modifies this`fixlenbits, this`fixdist, this`fixdistbits, this`fixend, fixed, work
      ensures FixedTables()
    {
      hide *;
      var ret;
      FixedAsked();
      ret, fixdist, fixlenbits := InflateTable.InflateTable(LENS, FixedLitLens(), fixed, 0, 9, work);
      ghost var t := fixed[..fixdist];
      var end: nat;
      ret, end, fixdistbits := InflateTable.InflateTable(DISTS, FixedDistLens(), fixed, fixdist, 5, work);
      fixend := end;
      assert fixed[..fixdist] == t;
      FixedAre();
    }

    lemma FixedAre()
      requires fixdist <= fixend <= fixed.Length && 1 <= fixlenbits <= 15 && 1 <= fixdistbits <= 15
      requires Decodes(fixed[..fixdist], 0, fixlenbits, LENS, FixedLitLens())
      requires Decodes(fixed[..fixend], fixdist, fixdistbits, DISTS, FixedDistLens())
      ensures FixedTables()
    {
      hide Decodes, FixedLitLens, FixedDistLens;
    }

    ghost predicate Layout()
      reads this`out
    {
      lens.Length == 320 && work.Length == 288 && codes.Length == ENOUGH == fixed.Length
      && lens != work && codes != fixed && out != win.buf
    }

    ghost predicate Streams()
      reads this`out, this`put, this`mode, this`sent, r, win, win.buf
    {
      r.Valid() && win.Valid() && put <= out.Length && (mode != Bad ==> win.hist == sent)
    }

    /** The configuration of the decoder machine. */
    ghost function Cfg(): (c: Config)
      reads this`out, this`put, this`mode, this`sent, this`st, r, out
      requires put <= out.Length && r.next <= |r.input|
    {
      Config(st.(out := sent + out[..put]), if mode.Stored? then Aligned(r.Unread()) else r.Unread())
    }

    /** The first byte of the output that can still be copied. */
    ghost function Lowest(): (f: nat)
      reads win
    {
      Floor(|win.hist|, Pow2(win.wbits))
    }

    /** All input has been taken, or none is needed any more. */
    ghost predicate Spent()
      reads this`mode, r
    {
      r.next == |r.input| || mode.Done? || mode.Bad?
    }

    /** Nothing can be done without more input or more room. */
    ghost predicate Stuck()
      reads this`out, this`put, this`mode, this`sent, this`st, this`length, r, out, win
      requires put <= out.Length && r.next <= |r.input|
    {
      (Waits(Cfg(), Lowest()) && Spent())
          || (put == out.Length && (mode.Matching? || mode.Lit? || (mode.Copying? && length > 0)))
    }

    /** No more bits are held than the state at hand may be waiting for. */
    ghost predicate Tight()
      reads this`out, this`put, this`mode, this`sent, this`st, r, out
      requires put <= out.Length && r.next <= |r.input|
    {
      Snug(Cfg().st, r.bits, r.Held()) || mode.Bad?
    }

    lemma TightIs()
      requires put <= out.Length && r.next <= |r.input|
      ensures Tight() <==> Snug(Cfg().st, r.bits, r.Held()) || mode.Bad?
    {
      hide Snug;
    }

    lemma TightFew()
      requires put <= out.Length && r.next <= |r.input| && (r.bits < 8 || mode.Bad?)
      ensures Tight()
    {
      hide Step;
    }

    lemma TightHas()
      requires Base() && put <= out.Length && r.next <= |r.input| && Tight()
      ensures !mode.Stored? && !mode.Bad? ==> Minimal(Cfg(), r.bits, r.bits)
      ensures |r.Unread()| == r.bits + 8 * (|r.input| - r.next)
    {
      hide Step, Layout, FixedTables;
      r.HeldFirst();
    }

    /** States that need no bits never hold a whole byte. */
    lemma TightBusy()
      requires Base() && put <= out.Length && r.next <= |r.input| && Tight()
      requires mode.Matching? || mode.Lit? || (mode.Type? && last)
        || (mode.LenLens? && |st.got| >= st.ncode) || (mode.CodeLens? && |st.got| >= st.nlen + st.ndist)
      ensures r.bits < 8
    {
      hide Layout, FixedTables, Acceptable, Permuted, Aligned;
    }

    lemma CodeSound()
      requires Inv() && mode.CodeLens?
      ensures Acceptable(CODES, st.clens)
    {
      hide *;
      CodeLensHas();
      LenTableHas(CODES, st.clens);
    }

    /** After a look-up no byte was taken that the code did not need. */
    lemma CodeMinimal(c: Config, f: nat, b0: nat)
      requires r.Valid() && Minimal(c, b0, b0) && c.unread == r.Unread()
      requires (c.st.mode.CodeLens? && |c.st.got| < c.st.nlen + c.st.ndist) || c.st.mode.Len? || c.st.mode.Dist?
      requires r.bits == b0
        || NotBefore(r, if c.st.mode.CodeLens? then c.st.clens else if c.st.mode.Len? then c.st.llens else c.st.dlens)
      ensures Minimal(c, b0, r.bits)
    {
      hide Find, Idle, Waits;
      if r.bits != b0 {
        var d := Config(c.st, c.unread[..r.bits - 8]);
        if c.st.mode.CodeLens? {
          OnCodeWaits(d, f);
        } else if c.st.mode.Len? {
          OnLenWaits(d, f);
        } else {
          OnDistWaits(d, f);
        }
        IdleIf(c, f, r.bits - 8);
      }
    }

    /** A state that waits at the end of the input. */
    lemma WaitsTight()
      requires Base() && r.next == |r.input| && put <= out.Length && Cfg().unread == r.Unread()
        && Waits(Cfg(), Lowest())
      ensures Tight()
    {
      hide Step, Layout, FixedTables;
      HeldIs(r);
    }

    lemma SoundNow()
      requires Inv() && put <= out.Length && r.next <= |r.input|
      ensures Sound(Cfg().st)
    {
      hide Pow2, Ring, Decodes, Acceptable, FixedLitLens, FixedDistLens, InRange;
    }

    /** Get n bits, taking no byte that is not needed. */
    method NeedFor(n: nat, ghost c: Config) returns (ok: bool)
      requires r.Valid() && n <= 25 && c.unread == r.Unread() && Minimal(c, r.bits, r.bits)
      requires forall m: nat :: m < n && m <= |c.unread| ==> Idle(c, m)
      modifies r`hold, r`bits, r`next
      ensures r.Valid() && r.next <= |r.input| && r.Unread() == old(r.Unread()) && old(r.bits) <= r.bits
      ensures ok ==> n <= r.bits && Minimal(c, old(r.bits), r.bits)
      ensures !ok ==> r.next == |r.input| && r.bits < n && |r.Unread()| == r.bits
      ensures |r.Unread()| == r.bits + 8 * (|r.input| - r.next)
    {
      hide *;
      ok := r.NeedBits(n);
      r.HeldFirst();
      MinimalMore(c, old(r.bits), old(r.bits), r.bits);
    }

    /** After a step for which only the bytes it needed were taken, less than a byte is left. */
    lemma StillTight(c: Config, f: nat, b0: nat, b: nat)
      requires Base() && put <= out.Length && r.next <= |r.input| && Sound(c.st) && LeadsIn(c, f, Cfg()) && Cfg() != c
      requires |c.unread| == b + 8 * (|r.input| - r.next) && Minimal(c, b0, b)
      ensures Tight()
    {
      hide *;
      BaseHas();
      CfgIs();
      r.HeldFirst();
      ghost var d, rest := Cfg(), 8 * (|r.input| - r.next);
      AlignedLength(r.Unread());
      FewLeft(c, f, d, b0, b, rest);
      TightFew();
    }

    lemma StuckIs()
      requires Base()
      ensures put <= out.Length && r.next <= |r.input|
      ensures Waits(Cfg(), Lowest()) && (r.next == |r.input| || mode.Done? || mode.Bad?) ==> Stuck()
      ensures put == out.Length && (mode.Matching? || mode.Lit? || (mode.Copying? && length > 0)) ==> Stuck()
    {
      hide Pow2, Ring, Decodes, Acceptable, FixedLitLens, FixedDistLens, Waits;
    }

    ghost predicate FixedTables()
      reads this`fixlenbits, this`fixdist, this`fixdistbits, this`fixend, fixed
    {
      fixdist <= fixend <= fixed.Length && 1 <= fixlenbits <= 15 && 1 <= fixdistbits <= 15
      && Decodes(fixed[..fixdist], 0, fixlenbits, LENS, FixedLitLens())
      && Decodes(fixed[..fixend], fixdist, fixdistbits, DISTS, FixedDistLens())
    }

    ghost predicate LenTable(kind: CodeKind, l: seq<nat>)
      reads this`lencode, this`lenstart, this`lenbits, this`lenend, lencode
    {
      lenend <= lencode.Length && 1 <= lenbits <= 15 && Acceptable(kind, l)
      && Decodes(lencode[..lenend], lenstart, lenbits, kind, l)
    }

    ghost predicate DistTable(l: seq<nat>)
      reads this`distcode, this`diststart, this`distbits, this`distend, distcode
    {
      distend <= distcode.Length && 1 <= distbits <= 15 && Acceptable(DISTS, l)
      && Decodes(distcode[..distend], diststart, distbits, DISTS, l)
    }

    /** The tables for decoding symbols are there. */
    ghost predicate Tables()
      reads this`mode, this`st, this`lencode, this`lenstart, this`lenbits, this`lenend, lencode, this`distcode,
        this`diststart, this`distbits, this`distend, distcode
    {
      Decoding(mode) ==> LenTable(LENS, st.llens) && DistTable(st.dlens)
    }

    /** The table description read so far. */
    ghost predicate Header()
      reads this`mode, this`st, this`ncode, this`nlen, this`ndist, this`have, lens, this`lencode, this`lenstart,
        this`lenbits, this`lenend, lencode
    {
      (mode.LenLens? || mode.CodeLens? ==>
         st.nlen == nlen && st.ndist == ndist && 257 <= nlen <= 286 && 1 <= ndist <= 30 && have == |st.got|)
      && (mode.LenLens? ==> st.ncode == ncode && 4 <= ncode <= 19 && have <= ncode && LensGot(lens[..], st.got))
      && (mode.CodeLens? ==> have <= nlen + ndist && Prefix(lens[..], st.got) && LenTable(CODES, st.clens)
                             && Flat(lencode[..lenend], lenstart, lenbits))
    }

    /** The fields of the state at hand. */
    ghost predicate Fields()
      reads this`mode, this`st, this`last, this`length, this`offset, this`extra, r`bits
    {
      st.mode == mode && st.last == last && InRange(st)
      && (mode.Copying? ==> st.length == length && r.bits == 0)
      && (mode.LenExt? || mode.Dist? || mode.DistExt? || mode.Matching? || mode.Lit? ==> st.length == length)
      && (mode.DistExt? || mode.Matching? ==> st.offset == offset)
      && (mode.LenExt? ==> st.extra == extra <= 5) && (mode.DistExt? ==> st.extra == extra <= 13)
      && (mode.Lit? ==> length < 256)
    }

    ghost predicate Inv()
      reads this, r, win, win.buf, lens, lencode, distcode, fixed
    {
      Layout() && Streams() && FixedTables() && Tables() && Header() && Fields()
    }

    lemma Parts()
      requires Inv()
      ensures Layout() && Streams() && FixedTables() && Tables() && Header() && Fields()
      ensures r.Valid() && win.Valid() && put <= out.Length && (mode != Bad ==> win.hist == sent)
      ensures r.next <= |r.input| && st.mode == mode && st.last == last && InRange(st) && out != win.buf
      ensures Cfg().st == st.(out := sent + out[..put])
      ensures Cfg().unread == if mode.Stored? then Aligned(r.Unread()) else r.Unread()
    {
      hide Pow2, Ring, Decodes, Acceptable, FixedLitLens, FixedDistLens, InRange;
    }

    lemma Whole()
      requires Layout() && Streams() && FixedTables() && Tables() && Header() && Fields()
      ensures Inv()
    {
    }

    lemma StartsValid()
      requires lens.Length == 320 && work.Length == 288 && codes.Length == ENOUGH == fixed.Length
      requires lens != work && codes != fixed && out != win.buf
      requires r.Valid() && r.next == |r.input| && r.Unread() == [] && win.Valid() && win.hist == sent == []
      requires out.Length == put == 0 && mode == Type && !last && st == InitState && FixedTables()
      ensures Inv() && Cfg() == Config(InitState, [])
    {
      hide Pow2, Ring, Decodes, Acceptable, FixedLitLens, FixedDistLens;
    }

    /** Everything that does not depend on the state at hand. */
    ghost predicate Base()
      reads this`out, this`put, this`mode, this`sent, this`st, this`last, r, win, win.buf, this`fixlenbits,
        this`fixdist, this`fixdistbits, this`fixend, fixed
    {
      Layout() && r.Valid() && win.Valid() && put <= out.Length && (mode != Bad ==> win.hist == sent) && FixedTables()
      && st.mode == mode && st.last == last
    }

    lemma CfgIs()
      requires Base()
      ensures r.next <= |r.input| && put <= out.Length
      ensures Cfg() == Config(st.(out := sent + out[..put]), if mode.Stored? then Aligned(r.Unread()) else r.Unread())
    {
      hide Pow2, Ring, Decodes, Acceptable, FixedLitLens, FixedDistLens;
    }

    lemma BaseOf()
      requires Inv()
      ensures Base()
    {
      hide Pow2, Ring, Decodes, Acceptable, FixedLitLens, FixedDistLens, InRange;
    }

    lemma BaseIs()
      requires Layout() && r.Valid() && win.Valid() && put <= out.Length && (mode != Bad ==> win.hist == sent)
        && FixedTables()
      requires st.mode == mode && st.last == last
      ensures Base()
    {
      hide Pow2, Ring, Decodes, FixedLitLens, FixedDistLens;
    }

    /** States that need no more than that. */
    lemma Plain()
      requires Base() && (mode.Type? || mode.Stored? || mode.Table? || mode.Done? || mode.Bad?)
      ensures Inv()
    {
      hide Pow2, Ring, Decodes, Acceptable, FixedLitLens, FixedDistLens;
    }

    /** States of a block body. */
    lemma Body()
      requires Base() && Decoding(mode) && LenTable(LENS, st.llens) && DistTable(st.dlens) && InRange(st)
      requires mode.LenExt? || mode.Dist? || mode.DistExt? || mode.Matching? || mode.Lit? ==> st.length == length
      requires mode.DistExt? || mode.Matching? ==> st.offset == offset
      requires (mode.LenExt? ==> st.extra == extra <= 5) && (mode.DistExt? ==> st.extra == extra <= 13)
      requires mode.Lit? ==> length < 256
      ensures Inv()
    {
      hide Pow2, Ring, Decodes, Acceptable, FixedLitLens, FixedDistLens, InRange;
    }

    /** Block type, or the end of the stream. */
    method DoType() returns (leave: bool)
      requires Inv() && mode.Type? && Tight()
      modifies this`st, this`mode, this`last, this`lencode, this`lenstart, this`lenbits, this`lenend, this`distcode,
        this`diststart, this`distbits, this`distend, r`hold, r`bits, r`next
      ensures Inv() && LeadsIn(old(Cfg()), Lowest(), Cfg()) && Tight()
      ensures leave ==> Stuck()
      ensures !leave ==> Nearer(|old(Cfg()).unread|, out.Length - put, Type, |Cfg().unread|, out.Length - put, mode)
    {
      hide *;
      Parts();
      BaseOf();
      CfgIs();
      SoundNow();
      TightHas();
      if last {
        EndStream();
        return false;
      }
      ghost var c, f := Cfg(), Lowest();
      ghost var b0 := r.bits;
      OnType(c, f);
      ShortIdle(c, f, 3);
      var ok := NeedFor(3, c);
      ghost var b := r.bits;
      BaseIs();
      CfgIs();
      Plain();
      LeadsInRefl(c, f);
      StuckIs();
      if ok {
        StartBlock();
        Parts();
        BaseOf();
        NearerDiffers(c, Cfg(), out.Length - put);
        StillTight(c, f, b0, b);
      } else {
        WaitsTight();
      }
      return !ok;
    }

    method EndStream()
      requires Inv() && mode.Type? && last && Tight()
      modifies this`st, this`mode, r`hold, r`bits
      ensures Inv() && LeadsIn(old(Cfg()), Lowest(), Cfg()) && Tight()
      ensures Nearer(|old(Cfg()).unread|, out.Length - put, Type, |Cfg().unread|, out.Length - put, mode)
    {
      hide *;
      Parts();
      BaseOf();
      CfgIs();
      ghost var c, f := Cfg(), Lowest();
      OnTypeLast(c, f);
      TightBusy();
      r.ByteBits();
      mode := Done;
      st := st.(mode := Done);
      AlignedShorter(c.unread);
      BaseIs();
      CfgIs();
      GoesLeads(c, f, Cfg());
      Plain();
      TightFew();
      NearerIs(|c.unread|, out.Length - put, Type, |Cfg().unread|, out.Length - put, mode);
    }

    method StartBlock()
      requires Inv() && mode.Type? && !last && r.bits >= 3
      modifies this`st, this`mode, this`last, this`lencode, this`lenstart, this`lenbits, this`lenend, this`distcode,
        this`diststart, this`distbits, this`distend, r`hold, r`bits
      ensures Inv() && LeadsIn(old(Cfg()), Lowest(), Cfg())
      ensures Nearer(|old(Cfg()).unread|, out.Length - put, Type, |Cfg().unread|, out.Length - put, mode)
    {
      hide *;
      Parts();
      BaseOf();
      CfgIs();
      ghost var c, f := Cfg(), Lowest();
      var kind;
      last, kind := r.TakeType();
      SetBlock(kind);
      ghost var o := sent + out[..put];
      BlockOpenIs(st.(last := last), kind, o);
      st := BlockOpen(st.(last := last), kind);
      BaseIs();
      BlockStarted(c, f, kind, o);
    }

    lemma BlockStarted(c: Config, f: nat, kind: nat, o: seq<Byte>)
      requires Base() && o == sent + out[..put] && |c.unread| >= 3 && c.st.mode.Type? && !c.st.last
      requires kind == Field(c.unread, 1, 2) && st.(out := o) == BlockOpen(c.st.(last := c.unread[0]), kind)
      requires r.Unread() == c.unread[3..] && mode == BlockOpen(c.st.(last := c.unread[0]), kind).mode
      requires kind == 1 ==> LenTable(LENS, st.llens) && DistTable(st.dlens)
      ensures Inv() && LeadsIn(c, f, Cfg())
      ensures Nearer(|c.unread|, out.Length - put, Type, |Cfg().unread|, out.Length - put, mode)
    {
      hide *;
      BlockOpenIs(c.st.(last := c.unread[0]), kind, o);
      TypeDropped(c.unread);
      OnType(c, f);
      CfgIs();
      GoesLeads(c, f, Cfg());
      if mode.Len? {
        RangeFree(st);
        DecodingIs(mode);
        Body();
      } else {
        Plain();
      }
      NearerIs(|c.unread|, out.Length - put, Type, |Cfg().unread|, out.Length - put, mode);
    }

    /** What the type of a block leads to. */
    method SetBlock(kind: nat)
      requires FixedTables()
      modifies this`mode, this`lencode, this`lenstart, this`lenbits, this`lenend, this`distcode, this`diststart,
        this`distbits, this`distend
      ensures mode == if kind == 0 then Stored else if kind == 1 then Len else if kind == 2 then Table else Bad
      ensures kind == 1 ==> LenTable(LENS, FixedLitLens()) && DistTable(FixedDistLens())
    {
      hide *;
      match kind {
        case 0 => mode := Stored;
        case 1 =>
          lencode, lenstart, lenbits, lenend := fixed, 0, fixlenbits, fixdist;
          distcode, diststart, distbits, distend := fixed, fixdist, fixdistbits, fixend;
          UseFixed();
          mode := Len;
        case 2 => mode := Table;
        case _ => mode := Bad;
      }
    }

    lemma UseFixed()
      requires FixedTables() && lencode == fixed == distcode && lenstart == 0 && lenbits == fixlenbits
        && lenend == fixdist
      requires diststart == fixdist && distbits == fixdistbits && distend == fixend
      ensures LenTable(LENS, FixedLitLens()) && DistTable(FixedDistLens())
    {
      hide Decodes, Acceptable, FixedLitLens, FixedDistLens;
      FixedAcceptable();
    }

    /** The sizes of a stored block. */
    method DoStored() returns (leave: bool)
      requires Inv() && mode.Stored? && Tight()
      modifies this`st, this`mode, this`length, r`hold, r`bits, r`next
      ensures Inv() && LeadsIn(old(Cfg()), Lowest(), Cfg()) && Tight()
      ensures leave ==> Stuck()
      ensures !leave ==> Nearer(|old(Cfg()).unread|, out.Length - put, Stored, |Cfg().unread|, out.Length - put, mode)
    {
      hide *;
      Parts();
      BaseOf();
      CfgIs();
      ghost var c, f := Cfg(), Lowest();
      OnStored(c, f);
      r.ByteBits();
      var ok := r.NeedBits(32);
      AlignedWhole(r);
      BaseIs();
      CfgIs();
      Plain();
      StuckIs();
      LeadsInRefl(c, f);
      if ok {
        TakeStored();
      } else {
        WaitsTight();
      }
      return !ok;
    }

    method TakeStored()
      requires Inv() && mode.Stored? && r.bits == 32
      modifies this`st, this`mode, this`length, r`hold, r`bits
      ensures Inv() && LeadsIn(old(Cfg()), Lowest(), Cfg()) && Tight()
      ensures Nearer(|old(Cfg()).unread|, out.Length - put, Stored, |Cfg().unread|, out.Length - put, mode)
    {
      hide *;
      Parts();
      BaseOf();
      CfgIs();
      AlignedWhole(r);
      ghost var c, f := Cfg(), Lowest();
      OnStored(c, f);
      var a, b := r.PeekStored();
      if a != 65535 - b {
        mode := Bad;
        st := st.(mode := Bad);
      } else {
        length := a;
        r.InitBits();
        mode := Copying;
        st := st.(mode := Copying, length := a);
      }
      BaseIs();
      CfgIs();
      GoesLeads(c, f, Cfg());
      TightFew();
      if mode.Bad? {
        Plain();
      } else {
        CopyingIs();
      }
      NearerIs(|c.unread|, out.Length - put, Stored, |Cfg().unread|, out.Length - put, mode);
    }

    lemma CopyingIs()
      requires Base() && mode.Copying? && st.length == length && r.bits == 0
      ensures Inv()
    {
      hide Pow2, Ring, Decodes, Acceptable, FixedLitLens, FixedDistLens;
    }

    /** Stored bytes go from the input to the output as they are. */
    method DoCopy() returns (leave: bool)
      requires Inv() && mode.Copying? && Tight()
      modifies this`st, this`mode, this`length, this`put, out, r`next
      ensures Inv() && LeadsIn(old(Cfg()), Lowest(), Cfg()) && Tight()
      ensures leave ==> Stuck()
      ensures !leave ==>
        Nearer(|old(Cfg()).unread|, out.Length - old(put), Copying, |Cfg().unread|, out.Length - put, mode)
    {
      hide *;
      Parts();
      BaseOf();
      CfgIs();
      CopyingHas();
      ghost var c, f := Cfg(), Lowest();
      var copy := length;
      if copy != 0 {
        if copy > |r.input| - r.next {
          copy := |r.input| - r.next;
        }
        if copy > out.Length - put {
          copy := out.Length - put;
        }
        if copy == 0 {
          LeadsInRefl(c, f);
          if put < out.Length {
            NoInput();
          }
          StuckIs();
          TightFew();
          return true;
        }
        CopyBytes(copy);
        Parts();
        CopyingHas();
        TightFew();
        return false;
      }
      OnCopied(c, f);
      mode := Type;
      st := st.(mode := Type);
      BaseIs();
      CfgIs();
      GoesLeads(c, f, Cfg());
      Plain();
      TightFew();
      NearerIs(|c.unread|, out.Length - put, Copying, |Cfg().unread|, out.Length - put, mode);
      return false;
    }

    lemma CopyingHas()
      requires Inv() && mode.Copying?
      ensures st.length == length && r.bits == 0 && r.Unread() == BytesToBits(r.input[r.next..])
    {
      hide Pow2, Ring, Decodes, Acceptable, FixedLitLens, FixedDistLens, BytesToBits;
      NoBitsHeld(r);
    }

    lemma NoInput()
      requires Inv() && mode.Copying? && length > 0 && r.next == |r.input|
      ensures put <= out.Length && Waits(Cfg(), Lowest())
    {
      hide *;
      Parts();
      BaseOf();
      CfgIs();
      CopyingHas();
      NoBytes();
      assert r.input[r.next..] == [];
      OnCopyingWaits(Cfg(), Lowest());
    }

    /** One stored byte. */
    method CopyByte()
      requires Base() && mode.Copying? && st.length > 0 && r.bits == 0 && r.next < |r.input| && put < out.Length
      modifies this`st, this`put, out, r`next
      ensures Base() && st == old(st).(length := old(st).length - 1) && put == old(put) + 1 && r.next == old(r.next) + 1
      ensures LeadsIn(old(Cfg()), Lowest(), Cfg()) && |Cfg().unread| <= |old(Cfg()).unread|
    {
      hide *;
      BaseHas();
      CfgIs();
      ghost var c, f, b := Cfg(), Lowest(), r.input[r.next];
      r.ReaderBits();
      PowZero();
      NoBitsHeld(r);
      assert r.input[r.next..] == [b] + r.input[r.next + 1..];
      OnCopying(c, f, b, r.input[r.next + 1..]);
      out[put] := r.input[r.next];
      assert out[..put + 1] == old(out[..put]) + [b];
      r.next := r.next + 1;
      put := put + 1;
      st := st.(length := st.length - 1);
      HeldKept(r);
      BaseIs();
      CfgIs();
      NoBitsHeld(r);
      OutPlus(sent, old(out[..put]), [b]);
      GoesLeads(c, f, Cfg());
      ByteLess(b, r.input[r.next..]);
    }

    lemma BaseHas()
      requires Base()
      ensures Layout() && r.Valid() && win.Valid() && put <= out.Length && (mode != Bad ==> win.hist == sent)
        && FixedTables()
      ensures st.mode == mode && st.last == last && r.next <= |r.input| && out != win.buf
    {
      hide Pow2, Ring, Decodes, FixedLitLens, FixedDistLens;
    }

    method CopyBytes(n: nat)
      requires Inv() && mode.Copying? && 1 <= n <= length && r.next + n <= |r.input| && put + n <= out.Length
      modifies this`st, this`length, this`put, out, r`next
      ensures Inv() && mode.Copying? && LeadsIn(old(Cfg()), Lowest(), Cfg())
      ensures Nearer(|old(Cfg()).unread|, out.Length - old(put), Copying, |Cfg().unread|, out.Length - put, mode)
    {
      hide *;
      Parts();
      BaseOf();
      CfgIs();
      CopyingHas();
      ghost var c, f, p := Cfg(), Lowest(), put;
      LeadsInRefl(c, f);
      length := length - n;
      var copy := n;
      while copy != 0
        invariant Base() && mode.Copying? && st.length == length + copy && r.bits == 0 && f == Lowest()
        invariant r.next + copy <= |r.input| && put + copy <= out.Length && p + (n - copy) == put
        invariant LeadsIn(c, f, Cfg()) && |Cfg().unread| <= |c.unread|
        decreases copy
      {
        ghost var d := Cfg();
        CopyByte();
        LeadsInTrans(c, f, d, Cfg());
        copy := copy - 1;
      }
      CopyingIs();
      NearerIs(|c.unread|, out.Length - p, Copying, |Cfg().unread|, out.Length - put, mode);
    }

    /** The sizes of a table description. */
    method DoTable() returns (leave: bool)
      requires Inv() && mode.Table? && Tight()
      modifies this`st, this`mode, this`nlen, this`ndist, this`ncode, this`have, r`hold, r`bits, r`next
      ensures Inv() && LeadsIn(old(Cfg()), Lowest(), Cfg()) && Tight()
      ensures leave ==> Stuck()
      ensures !leave ==> Nearer(|old(Cfg()).unread|, out.Length - put, Table, |Cfg().unread|, out.Length - put, mode)
    {
      hide *;
      Parts();
      BaseOf();
      CfgIs();
      ghost var c, f := Cfg(), Lowest();
      ghost var b0 := r.bits;
      SoundNow();
      TightHas();
      OnTable(c, f);
      ShortIdle(c, f, 14);
      var ok := NeedFor(14, c);
      ghost var b := r.bits;
      BaseIs();
      CfgIs();
      Plain();
      StuckIs();
      LeadsInRefl(c, f);
      if ok {
        TakeTable();
        Parts();
        BaseOf();
        NearerDiffers(c, Cfg(), out.Length - put);
        StillTight(c, f, b0, b);
      } else {
        WaitsTight();
      }
      return !ok;
    }

    method TakeTable()
      requires Inv() && mode.Table? && r.bits >= 14
      modifies this`st, this`mode, this`nlen, this`ndist, this`ncode, this`have, r`hold, r`bits
      ensures Inv() && LeadsIn(old(Cfg()), Lowest(), Cfg())
      ensures Nearer(|old(Cfg()).unread|, out.Length - put, Table, |Cfg().unread|, out.Length - put, mode)
    {
      hide *;
      Parts();
      BaseOf();
      CfgIs();
      ghost var c, f := Cfg(), Lowest();
      ghost var o := sent + out[..put];
      var a, b, n := r.TakeSizes();
      SetSizes(a + 257, b + 1, n + 4);
      BaseIs();
      TableTaken(c, f, o);
    }

    /** Accept the sizes, if they are in range. */
    method SetSizes(a: nat, b: nat, n: nat)
      modifies this`st, this`mode, this`nlen, this`ndist, this`ncode, this`have
      ensures nlen == a && ndist == b && ncode == n
      ensures var st' := old(st).(nlen := a, ndist := b, ncode := n);
              if a > 286 || b > 30 then mode.Bad? && st == st'.(mode := Bad)
              else mode.LenLens? && have == 0 && st == st'.(mode := LenLens, got := [])
    {
      nlen, ndist, ncode := a, b, n;
      st := st.(nlen := nlen, ndist := ndist, ncode := ncode);
      if nlen > 286 || ndist > 30 {
        mode := Bad;
        st := st.(mode := Bad);
      } else {
        have := 0;
        mode := LenLens;
        st := st.(mode := LenLens, got := []);
      }
    }

    lemma TableTaken(c: Config, f: nat, o: seq<Byte>)
      requires Base() && o == sent + out[..put] && |c.unread| >= 14 && c.st.mode.Table? && r.Unread() == c.unread[14..]
      requires nlen == Field(c.unread, 0, 5) + 257 && ndist == Field(c.unread, 5, 5) + 1
        && ncode == Field(c.unread, 10, 4) + 4
      requires Field(c.unread, 10, 4) < 16
      requires var st' := c.st.(nlen := nlen, ndist := ndist, ncode := ncode);
               if nlen > 286 || ndist > 30 then mode.Bad? && st.(out := o) == st'.(mode := Bad)
               else mode.LenLens? && have == 0 && st.(out := o) == st'.(mode := LenLens, got := [])
      ensures Inv() && LeadsIn(c, f, Cfg())
      ensures Nearer(|c.unread|, out.Length - put, Table, |Cfg().unread|, out.Length - put, mode)
    {
      hide *;
      OnTable(c, f);
      CfgIs();
      GoesLeads(c, f, Cfg());
      if mode.Bad? {
        Plain();
      } else {
        NothingSent(lens[..]);
        LenLensIs();
      }
      NearerIs(|c.unread|, out.Length - put, Table, |Cfg().unread|, out.Length - put, mode);
    }

    lemma LenLensIs()
      requires Base() && mode.LenLens? && st.nlen == nlen && st.ndist == ndist && 257 <= nlen <= 286 && 1 <= ndist <= 30
      requires have == |st.got| <= ncode == st.ncode && 4 <= ncode <= 19
        && (lens.Length == 320 ==> LensGot(lens[..], st.got))
      ensures Inv()
    {
      hide Pow2, Ring, Decodes, Acceptable, FixedLitLens, FixedDistLens, LensGot;
    }

    lemma LenLensHas()
      requires Inv() && mode.LenLens?
      ensures st.nlen == nlen && st.ndist == ndist && 257 <= nlen <= 286 && 1 <= ndist <= 30
      ensures have == |st.got| <= ncode == st.ncode && 4 <= ncode <= 19 && LensGot(lens[..], st.got)
      ensures lens.Length == 320 && work.Length == 288 && codes.Length == ENOUGH == 1444 && lens != work
        && codes != fixed
    {
      hide Pow2, Ring, Decodes, Acceptable, FixedLitLens, FixedDistLens, LensGot, BlOrder;
    }

    /** The lengths of the code length code, then its table. */
    method DoLenLens() returns (leave: bool)
      requires Inv() && mode.LenLens? && Tight()
      modifies this`st, this`mode, this`have, this`lencode, this`lenstart, this`lenbits, this`lenend, lens, work,
        codes, r`hold, r`bits, r`next
      ensures Inv() && LeadsIn(old(Cfg()), Lowest(), Cfg()) && Tight()
      ensures leave ==> Stuck()
      ensures !leave ==> Nearer(|old(Cfg()).unread|, out.Length - put, LenLens, |Cfg().unread|, out.Length - put, mode)
    {
      hide *;
      Parts();
      LenLensHas();
      ghost var c, f := Cfg(), Lowest();
      LeadsInRefl(c, f);
      while have < ncode
        invariant Inv() && mode.LenLens? && put <= out.Length && r.next <= |r.input| && f == Lowest() && have <= ncode
        invariant LeadsIn(c, f, Cfg()) && |Cfg().unread| <= |c.unread| && Tight()
        decreases ncode - have
      {
        ghost var d := Cfg();
        leave := TakeLenLen();
        Parts();
        LenLensHas();
        LeadsInTrans(c, f, d, Cfg());
        if leave {
          return;
        }
      }
      ghost var d := Cfg();
      BaseOf();
      LenLensHas();
      TightBusy();
      BuildLengthTable();
      Parts();
      TightFew();
      LeadsInTrans(c, f, d, Cfg());
      NearerIs(|c.unread|, out.Length - put, LenLens, |Cfg().unread|, out.Length - put, mode);
      return false;
    }

    method TakeLenLen() returns (leave: bool)
      requires Inv() && mode.LenLens? && have < ncode && Tight()
      modifies this`st, this`have, lens, r`hold, r`bits, r`next
      ensures Inv() && LeadsIn(old(Cfg()), Lowest(), Cfg()) && |Cfg().unread| <= |old(Cfg()).unread|
      ensures leave ==> Stuck()
      ensures Tight()
      ensures !leave ==> have == old(have) + 1
    {
      hide *;
      Parts();
      BaseOf();
      CfgIs();
      LenLensHas();
      ghost var c, f := Cfg(), Lowest();
      ghost var b0 := r.bits;
      SoundNow();
      TightHas();
      OnLenLens(c, f);
      ShortIdle(c, f, 3);
      var ok := NeedFor(3, c);
      ghost var b := r.bits;
      if ok {
        ghost var l := lens[..];
        var v := r.Take(3);
        lens[BlOrder(have)] := v;
        SentMore(l, st.got, v);
        assert lens[..] == l[BlOrder(have) := v];
        have := have + 1;
        st := st.(got := st.got + [v]);
      } else {
        LeadsInRefl(c, f);
      }
      BaseIs();
      CfgIs();
      LenLensIs();
      StuckIs();
      if ok {
        GoesLeads(c, f, Cfg());
        assert |Cfg().unread| == |c.unread| - 3;
        StillTight(c, f, b0, b);
      } else {
        WaitsTight();
      }
      return !ok;
    }

    method BuildLengthTable()
      requires Inv() && mode.LenLens? && have == ncode
      modifies this`st, this`mode, this`have, this`lencode, this`lenstart, this`lenbits, this`lenend, lens, work, codes
      ensures Inv() && (mode.CodeLens? || mode.Bad?)
      ensures LeadsIn(old(Cfg()), Lowest(), Cfg()) && Cfg().unread == old(Cfg()).unread
    {
      hide *;
      Parts();
      BaseOf();
      CfgIs();
      LenLensHas();
      ghost var c, f, o := Cfg(), Lowest(), sent + out[..put];
      ghost var got := st.got;
      FillLens(got);
      LengthAsked(lens[..19], got);
      MakeLengthTable(got);
      BaseIs();
      LengthsBuilt(c, f, o, got);
    }

    /** The table of the code length code. */
    method MakeLengthTable(ghost got: seq<nat>)
      requires lens.Length == 320 && work.Length == 288 && codes.Length == ENOUGH == 1444 && lens != work
      requires Asked(CODES, lens[..19], 7) && lens[..19] == Permuted(got) && Room(CODES) == 128
      modifies this`st, this`mode, this`have, this`lencode, this`lenstart, this`lenbits, this`lenend, work, codes
      ensures if Acceptable(CODES, Permuted(got)) then
                mode.CodeLens? && have == 0 && LenTable(CODES, Permuted(got))
                    && Flat(lencode[..lenend], lenstart, lenbits)
                && st == old(st).(mode := CodeLens, got := [], clens := Permuted(got))
              else mode.Bad? && st == old(st).(mode := Bad)
    {
      hide *;
      lencode, lenstart := codes, 0;
      var ret, next;
      ret, next, lenbits := InflateTable.InflateTable(CODES, lens[..19], codes, 0, 7, work);
      lenend := next;
      if ret != 0 {
        mode := Bad;
        st := st.(mode := Bad);
      } else {
        have := 0;
        mode := CodeLens;
        st := st.(mode := CodeLens, got := [], clens := Permuted(got));
        LenTableIs(CODES, Permuted(got));
      }
    }

    lemma LengthsBuilt(c: Config, f: nat, o: seq<Byte>, got: seq<nat>)
      requires Base() && o == sent + out[..put] && c.st.mode.LenLens? && r.Unread() == c.unread
      requires got == c.st.got && |got| == c.st.ncode && c.st.nlen == nlen && c.st.ndist == ndist
      requires 257 <= nlen <= 286 && 1 <= ndist <= 30
      requires if Acceptable(CODES, Permuted(got)) then
                 mode.CodeLens? && have == 0 && LenTable(CODES, Permuted(got))
                     && Flat(lencode[..lenend], lenstart, lenbits)
                 && st.(out := o) == c.st.(mode := CodeLens, got := [], clens := Permuted(got))
               else mode.Bad? && st.(out := o) == c.st.(mode := Bad)
      ensures Inv() && (mode.CodeLens? || mode.Bad?)
      ensures LeadsIn(c, f, Cfg()) && Cfg().unread == c.unread
    {
      hide *;
      OnLenLens(c, f);
      CfgIs();
      GoesLeads(c, f, Cfg());
      if mode.Bad? {
        Plain();
      } else {
        NoPrefix(lens[..]);
        StateParts(st, o);
        CodeLensIs();
      }
    }

    lemma StateParts(st: State, o: seq<Byte>)
      ensures st.(out := o).mode == st.mode && st.(out := o).clens == st.clens && st.(out := o).got == st.got
      ensures st.(out := o).nlen == st.nlen && st.(out := o).ndist == st.ndist
    {
    }

    /** Lengths that are not sent are zero. */
    method FillLens(ghost got: seq<nat>)
      requires have == |got| && lens.Length == 320 && LensGot(lens[..], got)
      modifies this`have, lens
      ensures lens[..19] == Permuted(got) && have == 19 && forall i :: 0 <= i < |got| ==> got[i] < 8
    {
      hide *;
      SentSize(lens[..], got);
      while have < 19
        invariant |got| <= have <= 19 && lens.Length == 320 && LensGot(lens[..], got)
        invariant ZeroFrom(lens[..], |got|, have)
        decreases 19 - have
      {
        ghost var l := lens[..];
        lens[BlOrder(have)] := 0;
        assert lens[..] == l[BlOrder(have) := 0];
        ZeroMore(l, got, have);
        have := have + 1;
      }
      PermutedIs(lens[..], got);
      assert lens[..][..19] == lens[..19];
    }

    lemma LenTableIs(kind: CodeKind, l: seq<nat>)
      requires lenend <= lencode.Length && 1 <= lenbits <= 15 && Acceptable(kind, l)
      requires Decodes(lencode[..lenend], lenstart, lenbits, kind, l)
      ensures LenTable(kind, l)
    {
      hide Decodes, Acceptable;
    }

    lemma CodeLensIs()
      requires Base() && mode.CodeLens? && st.nlen == nlen && st.ndist == ndist && 257 <= nlen <= 286
        && 1 <= ndist <= 30
      requires have == |st.got| <= nlen + ndist && Prefix(lens[..], st.got) && LenTable(CODES, st.clens)
      requires Flat(lencode[..lenend], lenstart, lenbits)
      ensures Inv()
    {
      hide Pow2, Ring, Decodes, Acceptable, FixedLitLens, FixedDistLens, Prefix, Flat;
    }

    /** A step of the machine brought us where we are. */
    lemma Went(c: Config, f: nat, o: seq<Byte>)
      requires Base() && o == sent + out[..put] && !mode.Stored? && Goes(c, f, Config(st.(out := o), r.Unread()))
      ensures put <= out.Length && r.next <= |r.input| && LeadsIn(c, f, Cfg()) && Cfg().unread == r.Unread()
    {
      hide *;
      CfgIs();
      GoesLeads(c, f, Cfg());
    }

    lemma CodeLensHas()
      requires Inv() && mode.CodeLens?
      ensures st.nlen == nlen && st.ndist == ndist && 257 <= nlen <= 286 && 1 <= ndist <= 30
      ensures have == |st.got| <= nlen + ndist && Prefix(lens[..], st.got)
      ensures LenTable(CODES, st.clens) && Flat(lencode[..lenend], lenstart, lenbits)
      ensures lens.Length == 320 && work.Length == 288 && codes.Length == ENOUGH == 1444 && lens != work
        && codes != fixed
    {
      hide Pow2, Ring, Decodes, Acceptable, FixedLitLens, FixedDistLens, Prefix, Flat;
    }

    lemma LenTableHas(kind: CodeKind, l: seq<nat>)
      requires LenTable(kind, l)
      ensures lenend <= lencode.Length && 1 <= lenbits <= 15 && Acceptable(kind, l)
      ensures Decodes(lencode[..lenend], lenstart, lenbits, kind, l)
    {
      hide Decodes, Acceptable;
    }

    /** The code lengths, and then the tables for the block. */
    method DoCodeLens() returns (leave: bool)
      requires Inv() && mode.CodeLens? && Tight()
      modifies this`st, this`mode, this`have, this`lencode, this`lenstart, this`lenbits, this`lenend, this`distcode,
        this`diststart, this`distbits, this`distend, lens, work, codes, r`hold, r`bits, r`next
      ensures Inv() && LeadsIn(old(Cfg()), Lowest(), Cfg()) && Tight()
      ensures leave ==> Stuck()
      ensures !leave ==> Nearer(|old(Cfg()).unread|, out.Length - put, CodeLens, |Cfg().unread|, out.Length - put, mode)
    {
      hide *;
      Parts();
      CodeLensHas();
      ghost var c, f := Cfg(), Lowest();
      LeadsInRefl(c, f);
      while mode.CodeLens? && have < nlen + ndist
        invariant Inv() && (mode.CodeLens? || mode.Bad?) && put <= out.Length && r.next <= |r.input| && f == Lowest()
        invariant mode.CodeLens? ==> have <= nlen + ndist
        invariant LeadsIn(c, f, Cfg()) && |Cfg().unread| <= |c.unread| && Tight()
        decreases |Cfg().unread|
      {
        ghost var d := Cfg();
        leave := TakeCodeLen();
        Parts();
        LeadsInTrans(c, f, d, Cfg());
        if leave {
          return;
        }
        if mode.CodeLens? {
          CodeLensHas();
        }
      }
      if mode.CodeLens? {
        ghost var d := Cfg();
        BaseOf();
        CodeLensHas();
        TightBusy();
        BuildTables();
        Parts();
        TightFew();
        LeadsInTrans(c, f, d, Cfg());
      }
      NearerIs(|c.unread|, out.Length - put, CodeLens, |Cfg().unread|, out.Length - put, mode);
      return false;
    }

    /** One symbol of the code length alphabet. */
    method TakeCodeLen() returns (leave: bool)
      requires Inv() && mode.CodeLens? && have < nlen + ndist && Tight()
      modifies this`st, this`mode, this`have, lens, r`hold, r`bits, r`next
      ensures Inv() && (mode.CodeLens? || mode.Bad?)
      ensures LeadsIn(old(Cfg()), Lowest(), Cfg()) && |Cfg().unread| <= |old(Cfg()).unread|
      ensures leave ==> Stuck()
      ensures Tight()
      ensures !leave ==> |Cfg().unread| < |old(Cfg()).unread|
    {
      hide *;
      Parts();
      BaseOf();
      CfgIs();
      CodeLensHas();
      LenTableHas(CODES, st.clens);
      ghost var c, f := Cfg(), Lowest();
      ghost var b0 := r.bits;
      SoundNow();
      TightHas();
      var ok, here := LookUpFlat(r, lencode, lenend, lenstart, lenbits, CODES, st.clens);
      ghost var b := r.bits;
      r.HeldFirst();
      BaseIs();
      CfgIs();
      CodeLensIs();
      if !ok {
        OnCodeWaits(c, f);
        StuckIs();
        LeadsInRefl(c, f);
        WaitsTight();
        return true;
      }
      MeansShort(CODES, st.clens, c.unread, here);
      CodeMinimal(c, f, b0);
      if here.val < 16 {
        TakePlain(here);
        Parts();
        BaseOf();
        StillTight(c, f, b0, b);
        return false;
      }
      leave := TakeRepeat(here, b0);
    }

    method TakePlain(here: Code)
      requires Inv() && mode.CodeLens? && have < nlen + ndist && here.val < 16 && 1 <= here.bits <= r.bits
      requires Means(CODES, st.clens, Cfg().unread, here)
      modifies this`st, this`have, lens, r`hold, r`bits
      ensures Inv() && mode.CodeLens?
      ensures LeadsIn(old(Cfg()), Lowest(), Cfg()) && |Cfg().unread| < |old(Cfg()).unread|
    {
      hide *;
      Parts();
      BaseOf();
      CfgIs();
      CodeLensHas();
      ghost var c, f, o, l := Cfg(), Lowest(), sent + out[..put], lens[..];
      OnCodePlain(c, f, here);
      r.DropBits(here.bits);
      lens[have] := here.val;
      assert lens[..] == l[have := here.val];
      PrefixMore(l, st.got, here.val);
      have := have + 1;
      st := st.(got := st.got + [here.val]);
      BaseIs();
      Went(c, f, o);
      CodeLensIs();
    }

    /** A repeat symbol with its count. */
    method TakeRepeat(here: Code, ghost b0: nat) returns (leave: bool)
      requires Inv() && mode.CodeLens? && have < nlen + ndist && here.val >= 16 && 1 <= here.bits <= 15
        && here.bits <= r.bits
      requires Means(CODES, st.clens, Cfg().unread, here) && Minimal(Cfg(), b0, r.bits)
      modifies this`st, this`mode, this`have, lens, r`hold, r`bits, r`next
      ensures Inv() && (mode.CodeLens? || mode.Bad?)
      ensures LeadsIn(old(Cfg()), Lowest(), Cfg()) && |Cfg().unread| <= |old(Cfg()).unread|
      ensures leave ==> Stuck()
      ensures Tight()
      ensures !leave ==> |Cfg().unread| < |old(Cfg()).unread|
    {
      hide *;
      Parts();
      BaseOf();
      CfgIs();
      CodeLensHas();
      ghost var c, f := Cfg(), Lowest();
      OnCodeRepeat(c, f, here);
      RepeatBitsIs(here.val);
      var n := RepeatBits(here.val);
      ghost var b1 := r.bits;
      SoundNow();
      CodeSound();
      var ok := r.NeedBits(here.bits + n);
      ghost var b := r.bits;
      r.HeldFirst();
      if b != b1 && ok {
        RepeatIdle(c, f, here, b - 8);
      }
      if ok {
        MinimalMore(c, b0, b1, b);
      }
      BaseIs();
      CfgIs();
      CodeLensIs();
      StuckIs();
      LeadsInRefl(c, f);
      if !ok {
        WaitsTight();
        return true;
      }
      if here.val == 16 && have == 0 {
        RepeatNone(here, n);
      } else {
        RepeatSome(here, n);
      }
      Parts();
      BaseOf();
      StillTight(c, f, b0, b);
      return false;
    }

    /** There is nothing yet to repeat. */
    method RepeatNone(here: Code, n: nat)
      requires Inv() && mode.CodeLens? && have < nlen + ndist && here.val >= 16 && here.bits >= 1
      requires n == RepeatBits(here.val) && here.bits + n <= r.bits
      requires Means(CODES, st.clens, Cfg().unread, here)
      requires here.val == 16 && have == 0
      modifies this`st, this`mode, r`hold, r`bits
      ensures Inv() && mode.Bad?
      ensures LeadsIn(old(Cfg()), Lowest(), Cfg()) && |Cfg().unread| < |old(Cfg()).unread|
    {
      hide *;
      Parts();
      BaseOf();
      CfgIs();
      CodeLensHas();
      ghost var c, f, o := Cfg(), Lowest(), sent + out[..put];
      OnCodeRepeat(c, f, here);
      r.Peek(here.bits + n);
      r.DropBits(here.bits);
      SetBad();
      BaseIs();
      Went(c, f, o);
      Plain();
    }

    method RepeatSome(here: Code, n: nat)
      requires Inv() && mode.CodeLens? && have < nlen + ndist && here.val >= 16 && here.bits >= 1
      requires n == RepeatBits(here.val) && here.bits + n <= r.bits
      requires Means(CODES, st.clens, Cfg().unread, here)
      requires !(here.val == 16 && have == 0)
      modifies this`st, this`mode, this`have, lens, r`hold, r`bits
      ensures Inv() && (mode.CodeLens? || mode.Bad?)
      ensures LeadsIn(old(Cfg()), Lowest(), Cfg()) && |Cfg().unread| < |old(Cfg()).unread|
    {
      hide *;
      Parts();
      BaseOf();
      CfgIs();
      CodeLensHas();
      ghost var c, f, o := Cfg(), Lowest(), sent + out[..put];
      PrefixLast(lens[..], st.got);
      var len := 0;
      if here.val == 16 {
        len := lens[have - 1];
      }
      var times := TakeTimes(here.bits, n);
      ExtendLens(len, times + if here.val == 18 then 11 else 3);
      BaseIs();
      Repeated(c, f, o, here, n, len, times);
    }

    lemma Repeated(c: Config, f: nat, o: seq<Byte>, here: Code, n: nat, len: nat, times: nat)
      requires Base() && o == sent + out[..put] && c.st.mode.CodeLens? && |c.st.got| < c.st.nlen + c.st.ndist
      requires here.val >= 16 && here.bits >= 1 && n == RepeatBits(here.val) && Means(CODES, c.st.clens, c.unread, here)
      requires !(here.val == 16 && c.st.got == [])
      requires here.bits + n <= |c.unread| && r.Unread() == c.unread[here.bits + n..]
        && times == Field(c.unread, here.bits, n)
      requires len == if here.val == 16 then c.st.got[|c.st.got| - 1] else 0
      requires c.st.nlen == nlen && c.st.ndist == ndist && 257 <= nlen <= 286 && 1 <= ndist <= 30
      requires var copy := times + if here.val == 18 then 11 else 3;
               if |c.st.got| + copy > nlen + ndist then mode.Bad? && st.(out := o) == c.st.(mode := Bad)
               else mode.CodeLens? && st.(out := o) == c.st.(got := c.st.got + seq(copy, _ => len))
                    && have == |st.got| <= nlen + ndist && Prefix(lens[..], st.got)
      requires LenTable(CODES, c.st.clens) && Flat(lencode[..lenend], lenstart, lenbits)
      ensures Inv() && (mode.CodeLens? || mode.Bad?)
      ensures put <= out.Length && r.next <= |r.input| && LeadsIn(c, f, Cfg()) && |Cfg().unread| < |c.unread|
    {
      hide *;
      OnCodeRepeat(c, f, here);
      Went(c, f, o);
      if mode.Bad? {
        Plain();
      } else {
        StateParts(st, o);
        CodeLensIs();
      }
    }

    /** Drop the code and read the count behind it. */
    method TakeTimes(l: nat, n: nat) returns (times: nat)
      requires r.Valid() && l + n <= r.bits
      modifies r`hold, r`bits
      ensures r.Valid() && r.next <= |r.input| && |old(r.Unread())| >= l + n
      ensures times == Field(old(r.Unread()), l, n) && r.Unread() == old(r.Unread())[l + n..]
    {
      hide *;
      r.Peek(l + n);
      FieldLater(r.Unread(), l, n);
      DropTwice(r.Unread(), l, n);
      r.DropBits(l);
      times := r.Take(n);
    }

    method SetBad()
      modifies this`st, this`mode
      ensures mode.Bad? && st == old(st).(mode := Bad)
    {
      mode := Bad;
      st := st.(mode := Bad);
    }

    /** Store a length several times, unless that is too often. */
    method ExtendLens(len: nat, copy: nat)
      requires lens.Length == 320 && have == |st.got| && nlen + ndist <= 316 && Prefix(lens[..], st.got) && len <= 15
      requires mode.CodeLens? && st.mode == mode
      modifies this`st, this`mode, this`have, lens
      ensures if old(have) + copy > nlen + ndist then mode.Bad? && st == old(st).(mode := Bad)
              else mode.CodeLens? && st == old(st).(got := old(st).got + seq(copy, _ => len))
                   && have == |st.got| <= nlen + ndist && Prefix(lens[..], st.got)
    {
      hide *;
      if have + copy > nlen + ndist {
        SetBad();
      } else {
        Spread(len, copy);
      }
    }

    /** Store a length several times. */
    method Spread(len: nat, n: nat)
      requires lens.Length == 320 && have == |st.got| && have + n <= 316 && Prefix(lens[..], st.got) && len <= 15
      modifies this`st, this`have, lens
      ensures st == old(st).(got := old(st).got + seq(n, _ => len)) && have == |st.got| == old(have) + n
      ensures Prefix(lens[..], st.got)
    {
      hide *;
      var copy := n;
      ghost var got := st.got;
      assert got + seq(0, _ => len) == got;
      while copy != 0
        invariant 0 <= copy <= n && have == |got| + (n - copy) && lens.Length == 320 && st == old(st)
        invariant Prefix(lens[..], got + seq(n - copy, _ => len))
        decreases copy
      {
        ghost var l := lens[..];
        lens[have] := len;
        assert lens[..] == l[have := len];
        PrefixMore(l, got + seq(n - copy, _ => len), len);
        assert got + seq(n - copy, _ => len) + [len] == got + seq(n - (copy - 1), _ => len);
        have := have + 1;
        copy := copy - 1;
      }
      st := st.(got := got + seq(n, _ => len));
    }

    /** All lengths are in: build both tables. */
    method BuildTables()
      requires Inv() && mode.CodeLens? && have >= nlen + ndist
      modifies this`st, this`mode, this`lencode, this`lenstart, this`lenbits, this`lenend, this`distcode,
        this`diststart, this`distbits, this`distend, work, codes
      ensures Inv() && (mode.Len? || mode.Bad?)
      ensures LeadsIn(old(Cfg()), Lowest(), Cfg()) && Cfg().unread == old(Cfg()).unread
    {
      hide *;
      Parts();
      BaseOf();
      CfgIs();
      CodeLensHas();
      ghost var c, f, o := Cfg(), Lowest(), sent + out[..put];
      ghost var ll, dl := lens[..nlen], lens[nlen..nlen + ndist];
      PrefixSplit(lens[..], st.got, nlen, ndist);
      OnCodesIn(c, f);
      MakeTables(st.got);
      BaseIs();
      Went(c, f, o);
      if mode.Bad? {
        Plain();
      } else {
        RangeFree(st);
        DecodingIs(mode);
        Body();
      }
    }

    lemma DistTableIs(l: seq<nat>)
      requires distend <= distcode.Length && 1 <= distbits <= 15 && Acceptable(DISTS, l)
      requires Decodes(distcode[..distend], diststart, distbits, DISTS, l)
      ensures DistTable(l)
    {
      hide Decodes, Acceptable;
    }

    /** The literal/length table, and behind it the distance table. */
    method MakeTables(ghost got: seq<nat>)
      requires lens.Length == 320 && work.Length == 288 && codes.Length == ENOUGH == 1444 && lens != work
      requires 257 <= nlen <= 286 && 1 <= ndist <= 30
      requires got == lens[..nlen + ndist] && forall i :: 0 <= i < |got| ==> got[i] <= 15
      modifies this`st, this`mode, this`lencode, this`lenstart, this`lenbits, this`lenend, this`distcode,
        this`diststart, this`distbits, this`distend, work, codes
      ensures var ll, dl := got[..nlen], got[nlen..];
              if got[256] != 0 && Acceptable(LENS, ll) && Acceptable(DISTS, dl) then
                mode.Len? && LenTable(LENS, ll) && DistTable(dl)
                    && st == old(st).(mode := Len, llens := ll, dlens := dl)
              else mode.Bad? && st == old(st).(mode := Bad)
    {
      hide *;
      ghost var ll, dl := got[..nlen], got[nlen..];
      TablesAsked(ll, dl);
      assert lens[..nlen] == ll && lens[nlen..nlen + ndist] == dl && lens[256] == got[256];
      if lens[256] == 0 {
        SetBad();
        return;
      }
      var ok, next := MakeLenTable(ll);
      if !ok {
        SetBad();
        return;
      }
      ok := MakeDistTable(next, ll, dl);
      if !ok {
        SetBad();
        return;
      }
      mode := Len;
      st := st.(mode := Len, llens := ll, dlens := dl);
    }

    method MakeLenTable(ghost ll: seq<nat>) returns (ok: bool, next: nat)
      requires work.Length == 288 && codes.Length == ENOUGH == 1444 && nlen <= lens.Length && lens != work
      requires ll == lens[..nlen] && Asked(LENS, ll, 9) && Roomy(LENS, ll, 9) && Room(LENS) == 852 && |ll| <= 286
      modifies this`lencode, this`lenstart, this`lenbits, this`lenend, work, codes
      ensures ok <==> Acceptable(LENS, ll)
      ensures ok ==> LenTable(LENS, ll) && lencode == codes && lenend == next <= 852
    {
      hide *;
      lencode, lenstart := codes, 0;
      var ret;
      ret, next, lenbits := InflateTable.InflateTable(LENS, lens[..nlen], codes, 0, 9, work);
      lenend := next;
      ok := ret == 0;
      if ok {
        LenTableIs(LENS, ll);
      }
    }

    method MakeDistTable(start: nat, ghost ll: seq<nat>, ghost dl: seq<nat>) returns (ok: bool)
      requires work.Length == 288 && codes.Length == ENOUGH == 1444 && nlen + ndist <= lens.Length && lens != work
      requires dl == lens[nlen..nlen + ndist] && Asked(DISTS, dl, 6) && Roomy(DISTS, dl, 6) && Room(DISTS) == 592
        && |dl| <= 30
      requires LenTable(LENS, ll) && lencode == codes && lenend == start <= 852
      modifies this`distcode, this`diststart, this`distbits, this`distend, work, codes
      ensures ok <==> Acceptable(DISTS, dl)
      ensures ok ==> LenTable(LENS, ll) && DistTable(dl)
    {
      hide *;
      LenTableHas(LENS, ll);
      ghost var t := codes[..lenend];
      distcode, diststart := codes, start;
      var ret, next;
      ret, next, distbits := InflateTable.InflateTable(DISTS, lens[nlen..nlen + ndist], codes, start, 6, work);
      distend := next;
      assert codes[..lenend] == t;
      LenTableIs(LENS, ll);
      ok := ret == 0;
      if ok {
        DistTableIs(dl);
      }
    }

    lemma BodyHas()
      requires Inv() && Decoding(mode)
      ensures LenTable(LENS, st.llens) && DistTable(st.dlens) && InRange(st)
      ensures mode.LenExt? || mode.Dist? || mode.DistExt? || mode.Matching? || mode.Lit? ==> st.length == length
      ensures mode.DistExt? || mode.Matching? ==> st.offset == offset
      ensures (mode.LenExt? ==> st.extra == extra <= 5) && (mode.DistExt? ==> st.extra == extra <= 13)
      ensures mode.Lit? ==> length < 256
    {
      hide Pow2, Ring, Decodes, Acceptable, FixedLitLens, FixedDistLens, InRange;
    }

    lemma DistTableHas(l: seq<nat>)
      requires DistTable(l)
      ensures distend <= distcode.Length && 1 <= distbits <= 15 && Acceptable(DISTS, l)
      ensures Decodes(distcode[..distend], diststart, distbits, DISTS, l)
    {
      hide Decodes, Acceptable;
    }

    /** A step within a block body keeps the tables. */
    lemma BodyWent(c: Config, f: nat, o: seq<Byte>)
      requires Base() && o == sent + out[..put] && Goes(c, f, Config(st.(out := o), r.Unread())) && InRange(c.st)
      requires Decoding(mode) || mode.Type? || mode.Bad?
      requires Decoding(mode) ==> LenTable(LENS, st.llens) && DistTable(st.dlens)
      requires mode.LenExt? || mode.Dist? || mode.DistExt? || mode.Matching? || mode.Lit? ==> st.length == length
      requires mode.DistExt? || mode.Matching? ==> st.offset == offset
      requires (mode.LenExt? ==> st.extra == extra <= 5) && (mode.DistExt? ==> st.extra == extra <= 13)
      requires mode.Lit? ==> length < 256
      ensures Inv() && put <= out.Length && r.next <= |r.input| && LeadsIn(c, f, Cfg()) && Cfg().unread == r.Unread()
    {
      hide *;
      DecodingIs(mode);
      Went(c, f, o);
      if Decoding(mode) {
        GoesInRange(c, f, st, o, r.Unread());
        Body();
      } else {
        Plain();
      }
    }

    /** Literal/length code: the fast loop where there is enough of everything, else one look-up. */
    method DoLen() returns (leave: bool)
      requires Inv() && mode.Len? && Tight()
      modifies this`st, this`mode, this`length, this`extra, this`put, out, r`hold, r`bits, r`next
      ensures Inv() && LeadsIn(old(Cfg()), Lowest(), Cfg()) && Tight()
      ensures leave ==> Stuck()
      ensures !leave ==> |Cfg().unread| < |old(Cfg()).unread|
    {
      hide *;
      Parts();
      if |r.input| - r.next >= 6 && out.Length - put >= 258 {
        InflateFast();
        return false;
      }
      leave := SlowLen();
    }

    /** The look-up that takes input a byte at a time. */
    method SlowLen() returns (leave: bool)
      requires Inv() && mode.Len? && Tight()
      modifies this`st, this`mode, this`length, this`extra, r`hold, r`bits, r`next
      ensures Inv() && LeadsIn(old(Cfg()), Lowest(), Cfg()) && Tight()
      ensures leave ==> Stuck()
      ensures !leave ==> |Cfg().unread| < |old(Cfg()).unread|
    {
      hide *;
      Parts();
      BaseOf();
      CfgIs();
      DecodingIs(mode);
      BodyHas();
      LenTableHas(LENS, st.llens);
      ghost var c, f := Cfg(), Lowest();
      ghost var b0 := r.bits;
      SoundNow();
      TightHas();
      var ok, here := LookUp(r, lencode, lenend, lenstart, lenbits, LENS, st.llens);
      ghost var b := r.bits;
      r.HeldFirst();
      BaseIs();
      CfgIs();
      Body();
      LeadsInRefl(c, f);
      if !ok {
        OnLenWaits(c, f);
        StuckIs();
        WaitsTight();
        return true;
      }
      MeansShort(LENS, st.llens, c.unread, here);
      CodeMinimal(c, f, b0);
      TakeLen(here);
      Parts();
      BaseOf();
      StillTight(c, f, b0, b);
      return false;
    }

    method TakeLen(here: Code)
      requires Inv() && mode.Len? && 1 <= here.bits <= r.bits && Means(LENS, st.llens, Cfg().unread, here)
      modifies this`st, this`mode, this`length, this`extra, r`hold, r`bits
      ensures Inv() && LeadsIn(old(Cfg()), Lowest(), Cfg()) && |Cfg().unread| < |old(Cfg()).unread|
    {
      hide *;
      Parts();
      BaseOf();
      CfgIs();
      DecodingIs(mode);
      BodyHas();
      ghost var c, f, o := Cfg(), Lowest(), sent + out[..put];
      OnLen(c, f, here);
      RangeKept(st, o);
      r.DropBits(here.bits);
      ActOnLen(here);
      DecodingIs(mode);
      BaseIs();
      BodyWent(c, f, o);
    }

    /** What the entry says. */
    method ActOnLen(here: Code)
      modifies this`st, this`mode, this`length, this`extra
      ensures length == here.val
      ensures if here.op == 0 then mode.Lit? && st == old(st).(mode := Lit, length := here.val)
              else if Has(here.op, 32) then mode.Type? && st == old(st).(mode := Type)
              else if Has(here.op, 64) then mode.Bad? && st == old(st).(mode := Bad)
              else mode.LenExt? && extra == here.op % 16
                   && st == old(st).(mode := LenExt, length := here.val, extra := here.op % 16)
    {
      length := here.val;
      if here.op == 0 {
        mode := Lit;
        st := st.(mode := Lit, length := here.val);
      } else if Has(here.op, 32) {
        mode := Type;
        st := st.(mode := Type);
      } else if Has(here.op, 64) {
        SetBad();
      } else {
        extra := here.op % 16;
        mode := LenExt;
        st := st.(mode := LenExt, length := here.val, extra := here.op % 16);
      }
    }

    /** The extra bits of a length. */
    method DoLenExt() returns (leave: bool)
      requires Inv() && mode.LenExt? && Tight()
      modifies this`st, this`mode, this`length, r`hold, r`bits, r`next
      ensures Inv() && LeadsIn(old(Cfg()), Lowest(), Cfg()) && Tight()
      ensures leave ==> Stuck()
      ensures !leave ==> Nearer(|old(Cfg()).unread|, out.Length - put, LenExt, |Cfg().unread|, out.Length - put, mode)
    {
      hide *;
      Parts();
      BaseOf();
      CfgIs();
      DecodingIs(mode);
      BodyHas();
      ghost var c, f := Cfg(), Lowest();
      OnLenExt(c, f);
      LeadsInRefl(c, f);
      ghost var b0 := r.bits;
      SoundNow();
      TightHas();
      if extra != 0 {
        ShortIdle(c, f, extra);
        var ok := NeedFor(extra, c);
        BaseIs();
        CfgIs();
        Body();
        StuckIs();
        if !ok {
          WaitsTight();
          return true;
        }
      }
      ghost var b := r.bits;
      r.HeldFirst();
      TakeLenExt();
      Parts();
      BaseOf();
      NearerDiffers(c, Cfg(), out.Length - put);
      StillTight(c, f, b0, b);
      return false;
    }

    method TakeLenExt()
      requires Inv() && mode.LenExt? && (extra == 0 || r.bits >= extra)
      modifies this`st, this`mode, this`length, r`hold, r`bits
      ensures Inv() && LeadsIn(old(Cfg()), Lowest(), Cfg())
      ensures Nearer(|old(Cfg()).unread|, out.Length - put, LenExt, |Cfg().unread|, out.Length - put, mode)
    {
      hide *;
      Parts();
      BaseOf();
      CfgIs();
      DecodingIs(mode);
      BodyHas();
      ghost var c, f, o := Cfg(), Lowest(), sent + out[..put];
      OnLenExt(c, f);
      RangeKept(st, o);
      NoField(c.unread);
      if extra != 0 {
        var v := r.Take(extra);
        length := length + v;
      }
      mode := Dist;
      st := st.(mode := Dist, length := length);
      BaseIs();
      DecodingIs(mode);
      BodyWent(c, f, o);
      NearerIs(|c.unread|, out.Length - put, LenExt, |Cfg().unread|, out.Length - put, mode);
    }

    /** Distance code. */
    method DoDist() returns (leave: bool)
      requires Inv() && mode.Dist? && Tight()
      modifies this`st, this`mode, this`offset, this`extra, r`hold, r`bits, r`next
      ensures Inv() && LeadsIn(old(Cfg()), Lowest(), Cfg()) && Tight()
      ensures leave ==> Stuck()
      ensures !leave ==> |Cfg().unread| < |old(Cfg()).unread|
    {
      hide *;
      Parts();
      BaseOf();
      CfgIs();
      DecodingIs(mode);
      BodyHas();
      DistTableHas(st.dlens);
      ghost var c, f := Cfg(), Lowest();
      ghost var b0 := r.bits;
      SoundNow();
      TightHas();
      var ok, here := LookUp(r, distcode, distend, diststart, distbits, DISTS, st.dlens);
      ghost var b := r.bits;
      r.HeldFirst();
      BaseIs();
      CfgIs();
      Body();
      LeadsInRefl(c, f);
      if !ok {
        OnDistWaits(c, f);
        StuckIs();
        WaitsTight();
        return true;
      }
      MeansShort(DISTS, st.dlens, c.unread, here);
      CodeMinimal(c, f, b0);
      TakeDist(here);
      Parts();
      BaseOf();
      StillTight(c, f, b0, b);
      return false;
    }

    method TakeDist(here: Code)
      requires Inv() && mode.Dist? && 1 <= here.bits <= r.bits && Means(DISTS, st.dlens, Cfg().unread, here)
      modifies this`st, this`mode, this`offset, this`extra, r`hold, r`bits
      ensures Inv() && LeadsIn(old(Cfg()), Lowest(), Cfg()) && |Cfg().unread| < |old(Cfg()).unread|
    {
      hide *;
      Parts();
      BaseOf();
      CfgIs();
      DecodingIs(mode);
      BodyHas();
      ghost var c, f, o := Cfg(), Lowest(), sent + out[..put];
      OnDist(c, f, here);
      RangeKept(st, o);
      r.DropBits(here.bits);
      ActOnDist(here);
      DecodingIs(mode);
      BaseIs();
      BodyWent(c, f, o);
    }

    method ActOnDist(here: Code)
      modifies this`st, this`mode, this`offset, this`extra
      ensures if Has(here.op, 64) then mode.Bad? && st == old(st).(mode := Bad)
              else mode.DistExt? && offset == here.val && extra == here.op % 16
                   && st == old(st).(mode := DistExt, offset := here.val, extra := here.op % 16)
    {
      if Has(here.op, 64) {
        SetBad();
      } else {
        offset := here.val;
        extra := here.op % 16;
        mode := DistExt;
        st := st.(mode := DistExt, offset := here.val, extra := here.op % 16);
      }
    }

    /** The extra bits of a distance. */
    method DoDistExt() returns (leave: bool)
      requires Inv() && mode.DistExt? && Tight()
      modifies this`st, this`mode, this`offset, r`hold, r`bits, r`next
      ensures Inv() && LeadsIn(old(Cfg()), Lowest(), Cfg()) && Tight()
      ensures leave ==> Stuck()
      ensures !leave ==> Nearer(|old(Cfg()).unread|, out.Length - put, DistExt, |Cfg().unread|, out.Length - put, mode)
    {
      hide *;
      Parts();
      BaseOf();
      CfgIs();
      DecodingIs(mode);
      BodyHas();
      ghost var c, f := Cfg(), Lowest();
      OnDistExt(c, f);
      LeadsInRefl(c, f);
      ghost var b0 := r.bits;
      SoundNow();
      TightHas();
      if extra != 0 {
        ShortIdle(c, f, extra);
        var ok := NeedFor(extra, c);
        BaseIs();
        CfgIs();
        Body();
        StuckIs();
        if !ok {
          WaitsTight();
          return true;
        }
      }
      ghost var b := r.bits;
      r.HeldFirst();
      TakeDistExt();
      Parts();
      BaseOf();
      NearerDiffers(c, Cfg(), out.Length - put);
      StillTight(c, f, b0, b);
      return false;
    }

    method TakeDistExt()
      requires Inv() && mode.DistExt? && (extra == 0 || r.bits >= extra)
      modifies this`st, this`mode, this`offset, r`hold, r`bits
      ensures Inv() && LeadsIn(old(Cfg()), Lowest(), Cfg())
      ensures Nearer(|old(Cfg()).unread|, out.Length - put, DistExt, |Cfg().unread|, out.Length - put, mode)
    {
      hide *;
      Parts();
      BaseOf();
      CfgIs();
      DecodingIs(mode);
      BodyHas();
      ghost var c, f, o := Cfg(), Lowest(), sent + out[..put];
      OnDistExt(c, f);
      RangeKept(st, o);
      NoField(c.unread);
      if extra != 0 {
        var v := r.Take(extra);
        offset := offset + v;
      }
      mode := Matching;
      st := st.(mode := Matching, offset := offset);
      BaseIs();
      DecodingIs(mode);
      BodyWent(c, f, o);
      NearerIs(|c.unread|, out.Length - put, DistExt, |Cfg().unread|, out.Length - put, mode);
    }

    /** Write a byte of output. */
    method PutByte(b: Byte)
      requires put < out.Length
      modifies this`put, out
      ensures put == old(put) + 1 && out[..put] == old(out[..put]) + [b]
      ensures sent + out[..put] == sent + old(out[..put]) + [b]
    {
      hide *;
      out[put] := b;
      put := put + 1;
      assert out[..put] == old(out[..put]) + [b];
      OutPlus(sent, old(out[..put]), [b]);
    }

    /** A literal byte. */
    method DoLit() returns (leave: bool)
      requires Inv() && mode.Lit? && Tight()
      modifies this`st, this`mode, this`put, out
      ensures Inv() && LeadsIn(old(Cfg()), Lowest(), Cfg()) && Tight()
      ensures leave ==> Stuck()
      ensures !leave ==> Nearer(|old(Cfg()).unread|, out.Length - old(put), Lit, |Cfg().unread|, out.Length - put, mode)
    {
      hide *;
      Parts();
      BaseOf();
      if put == out.Length {
        LeadsInRefl(Cfg(), Lowest());
        StuckIs();
        leave := true;
      } else {
        PutLiteral();
        leave := false;
      }
    }

    method PutLiteral()
      requires Inv() && mode.Lit? && Tight() && put < out.Length
      modifies this`st, this`mode, this`put, out
      ensures Inv() && LeadsIn(old(Cfg()), Lowest(), Cfg()) && Tight()
      ensures Nearer(|old(Cfg()).unread|, out.Length - old(put), Lit, |Cfg().unread|, out.Length - put, mode)
    {
      hide *;
      Parts();
      BaseOf();
      CfgIs();
      DecodingIs(mode);
      BodyHas();
      TightBusy();
      ghost var c, f, o, p := Cfg(), Lowest(), sent + out[..put], put;
      OnLit(c, f);
      RangeKept(st, o);
      PutByte(length);
      mode := Len;
      st := st.(mode := Len);
      BaseIs();
      DecodingIs(mode);
      BodyWent(c, f, sent + out[..put]);
      TightFew();
      NearerIs(|c.unread|, out.Length - p, Lit, |Cfg().unread|, out.Length - put, mode);
    }

    /** How far back the window reaches. */
    lemma WindowHas()
      requires win.Valid()
      ensures win.whave == |win.hist| - Lowest() && Lowest() <= |win.hist|
      ensures win.whave > 0 ==>
        (win.buf.Length == win.wsize && Ring(win.buf[..], win.wsize, win.whave, win.wnext, win.hist)
         && win.wnext < win.wsize && win.whave <= win.wsize)
    {
      hide Pow2;
    }

    /** One byte of a match; the match ends with its last byte. */
    method CopyOne(b: Byte, rest: nat)
      requires Base() && mode.Matching? && st.length == rest + 1 && put < out.Length
        && Cfg().st.out == sent + out[..put]
      requires 1 <= st.offset && st.offset + Lowest() <= |sent| + put
        && b == (sent + out[..put])[|sent| + put - st.offset]
      requires LenTable(LENS, st.llens) && DistTable(st.dlens)
      modifies this`st, this`mode, this`put, out
      ensures Base() && put == old(put) + 1 && out[..put] == old(out[..put]) + [b]
      ensures if rest == 0 then mode.Len? && st == old(st).(mode := Len, length := 0)
              else mode.Matching? && st == old(st).(length := rest)
      ensures LeadsIn(old(Cfg()), Lowest(), Cfg()) && Cfg().unread == old(Cfg()).unread
    {
      hide *;
      BaseHas();
      CfgIs();
      ghost var c, f := Cfg(), Lowest();
      OnMatching(c, f);
      PutByte(b);
      EndCopy(rest);
      BaseIs();
      Went(c, f, sent + out[..put]);
    }

    method EndCopy(rest: nat)
      requires mode.Matching?
      modifies this`st, this`mode
      ensures if rest == 0 then mode.Len? && st == old(st).(mode := Len, length := 0)
              else mode.Matching? && st == old(st).(length := rest)
    {
      if rest == 0 {
        mode := Len;
        st := st.(mode := Len, length := 0);
      } else {
        st := st.(length := rest);
      }
    }

    /** What holds while the bytes of a match are copied. */
    ghost predicate MidMatch(c: Config, f: nat, rest: nat)
      reads this`st, this`mode, this`last, this`offset, this`put, this`out, this`sent, this`fixlenbits, this`fixdist,
        this`fixdistbits, this`fixend, this`lencode, this`lenstart, this`lenbits, this`lenend, this`distcode,
        this`diststart, this`distbits, this`distend, r, win, win.buf, out, lencode, distcode, fixed
    {
      Base() && f == Lowest() && LeadsIn(c, f, Cfg()) && Cfg().unread == c.unread
      && LenTable(LENS, st.llens) && DistTable(st.dlens) && InRange(st)
      && if rest == 0 then mode.Len?
        else mode.Matching? && st.length == rest && st.offset == offset && offset + f <= |sent| + put
    }

    lemma MidStart(c: Config, f: nat)
      requires Inv() && mode.Matching? && c == Cfg() && f == Lowest() && offset + f <= |sent| + put
      ensures MidMatch(c, f, length) && 1 <= length && 1 <= offset <= 32768
    {
      hide *;
      Parts();
      BaseOf();
      DecodingIs(mode);
      BodyHas();
      LeadsInRefl(c, f);
      MatchRange(st);
      MidSet(c, f, length);
    }

    lemma MidSet(c: Config, f: nat, rest: nat)
      requires Base() && f == Lowest() && LeadsIn(c, f, Cfg()) && Cfg().unread == c.unread
      requires LenTable(LENS, st.llens) && DistTable(st.dlens) && InRange(st)
      requires if rest == 0 then mode.Len?
        else mode.Matching? && st.length == rest && st.offset == offset && offset + f <= |sent| + put
      ensures MidMatch(c, f, rest)
    {
      hide Decodes, Acceptable, LeadsIn, InRange, FixedTables, Layout, LenTable, DistTable;
    }

    lemma MidGet(c: Config, f: nat, rest: nat)
      requires MidMatch(c, f, rest)
      ensures Base() && put <= out.Length && r.next <= |r.input|
      ensures f == Lowest() && LeadsIn(c, f, Cfg()) && Cfg().unread == c.unread
      ensures LenTable(LENS, st.llens) && DistTable(st.dlens) && InRange(st)
      ensures if rest == 0 then mode.Len?
        else mode.Matching? && st.length == rest && st.offset == offset && offset + f <= |sent| + put
      ensures Cfg().st.out == sent + out[..put]
    {
      hide Decodes, Acceptable, LeadsIn, InRange, FixedTables, Layout, LenTable, DistTable;
    }

    lemma MidDone(c: Config, f: nat, rest: nat)
      requires MidMatch(c, f, rest) && length == rest
      ensures Inv()
    {
      hide *;
      MidGet(c, f, rest);
      DecodingIs(mode);
      Body();
    }

    /** One byte, with everything that is kept. */
    method CopyNext(b: Byte, rest: nat, ghost c: Config, ghost f: nat)
      requires MidMatch(c, f, rest + 1) && put < out.Length && 1 <= offset && offset + f <= |sent| + put
      requires b == (sent + out[..put])[|sent| + put - offset]
      modifies this`st, this`mode, this`put, out
      ensures MidMatch(c, f, rest) && put == old(put) + 1 && out[..put] == old(out[..put]) + [b]
    {
      hide *;
      MidGet(c, f, rest + 1);
      BaseHas();
      ghost var d := Cfg();
      RangeNow(st, rest);
      CopyOne(b, rest);
      BaseHas();
      LeadsInTrans(c, f, d, Cfg());
      MidSet(c, f, rest);
    }

    /** Copy a match, or as much of it as there is room for or one piece of the window holds. */
    method DoMatch() returns (leave: bool)
      requires Inv() && mode.Matching? && Tight()
      modifies this`st, this`mode, this`length, this`put, out
      ensures Inv() && LeadsIn(old(Cfg()), Lowest(), Cfg()) && Tight()
      ensures leave ==> Stuck()
      ensures !leave ==>
        Nearer(|old(Cfg()).unread|, out.Length - old(put), Matching, |Cfg().unread|, out.Length - put, mode)
    {
      hide *;
      Parts();
      BaseOf();
      CfgIs();
      DecodingIs(mode);
      BodyHas();
      WindowHas();
      ghost var c, f, o, p := Cfg(), Lowest(), sent + out[..put], put;
      MatchRange(st);
      TightBusy();
      if put == out.Length {
        LeadsInRefl(c, f);
        StuckIs();
        return true;
      }
      if offset > put {
        if offset - put > win.whave {
          TooFar();
          Parts();
          TightFew();
          return false;
        }
        MidStart(c, f);
        FromWindow(offset - put, c, f);
      } else {
        MidStart(c, f);
        FromOutput(c, f);
      }
      TightFew();
      NearerIs(|c.unread|, out.Length - p, Matching, |Cfg().unread|, out.Length - put, mode);
      return false;
    }

    method TooFar()
      requires Inv() && mode.Matching? && offset > put + win.whave
      modifies this`st, this`mode
      ensures Inv() && LeadsIn(old(Cfg()), Lowest(), Cfg())
      ensures Nearer(|old(Cfg()).unread|, out.Length - put, Matching, |Cfg().unread|, out.Length - put, mode)
    {
      hide *;
      Parts();
      BaseOf();
      CfgIs();
      DecodingIs(mode);
      BodyHas();
      WindowHas();
      ghost var c, f, o := Cfg(), Lowest(), sent + out[..put];
      OnTooFar(c, f);
      RangeKept(st, o);
      SetBad();
      BaseIs();
      DecodingIs(mode);
      BodyWent(c, f, o);
      NearerIs(|c.unread|, out.Length - put, Matching, |Cfg().unread|, out.Length - put, mode);
    }

    /** Copy from the window, back bytes behind the start of this call's output. */
    method FromWindow(back: nat, ghost c: Config, ghost f: nat)
      requires MidMatch(c, f, length) && length >= 1 && put < out.Length && offset == put + back
        && 1 <= back <= win.whave
      modifies this`st, this`mode, this`length, this`put, out
      ensures Inv() && put <= out.Length && r.next <= |r.input|
      ensures f == Lowest() && LeadsIn(c, f, Cfg()) && Cfg().unread == c.unread && put > old(put)
    {
      hide *;
      MidGet(c, f, length);
      BaseHas();
      WindowHas();
      var copy := back;
      var from;
      if copy > win.wnext {
        copy := copy - win.wnext;
        from := win.wsize - copy;
      } else {
        from := win.wnext - copy;
      }
      if copy > length {
        copy := length;
      }
      if copy > out.Length - put {
        copy := out.Length - put;
      }
      ghost var n, p, start, w := copy, put, from, (win.whave, win.wnext, win.wsize);
      length := length - copy;
      while copy != 0
        invariant 0 <= copy <= n && MidMatch(c, f, length + copy) && put == p + (n - copy) && put + copy <= out.Length
        invariant win.Valid() && from + copy <= win.buf.Length && offset == p + back && out != win.buf
          && win.hist == sent
        invariant from == start + (n - copy) && win.whave == w.0 && win.wnext == w.1 && win.wsize == w.2
        decreases copy
      {
        WindowHas();
        PieceIs(back, start, n, w.1, w.2, n - copy);
        RingAt(win.buf[..], win.wsize, win.whave, win.wnext, win.hist, back - (n - copy));
        MidGet(c, f, length + copy);
        copy := copy - 1;
        CopyNext(win.buf[from], length + copy, c, f);
        from := from + 1;
      }
      MidGet(c, f, length);
      MidDone(c, f, length);
    }

    /** Copy from the output of this call; source and target may overlap. */
    method FromOutput(ghost c: Config, ghost f: nat)
      requires MidMatch(c, f, length) && length >= 1 && put < out.Length && 1 <= offset <= put
      modifies this`st, this`mode, this`length, this`put, out
      ensures Inv() && put <= out.Length && r.next <= |r.input|
      ensures f == Lowest() && LeadsIn(c, f, Cfg()) && Cfg().unread == c.unread && put > old(put)
    {
      hide *;
      MidGet(c, f, length);
      BaseHas();
      WindowHas();
      var from := put - offset;
      var copy := length;
      if copy > out.Length - put {
        copy := out.Length - put;
      }
      ghost var n, p := copy, put;
      length := length - copy;
      while copy != 0
        invariant 0 <= copy <= n && MidMatch(c, f, length + copy) && put == p + (n - copy) && put + copy <= out.Length
        invariant from == put - offset && f <= |sent|
        decreases copy
      {
        MidGet(c, f, length + copy);
        copy := copy - 1;
        assert out[..put][from] == out[from];
        CopyNext(out[from], length + copy, c, f);
        from := from + 1;
      }
      MidGet(c, f, length);
      MidDone(c, f, length);
    }

    // ---------- the fast loop (inffast.c) ----------

    /** n bytes of a match that starts after o are copied. */
    ghost predicate Copied(o: seq<Byte>, dist: nat, n: nat)
      reads this`out, this`put, this`sent, out
    {
      put <= out.Length && 1 <= dist <= |o| && sent + out[..put] == Copy(o, dist, n)
    }

    /** The next `left` bytes of the match can be taken from position `from` of the window, or of the output. */
    ghost predicate Source(src: array<Byte>, from: nat, dist: nat, left: nat)
      reads this`out, this`put, this`sent, src, win
    {
      if src == out then from + dist == put
      else src == win.buf && put < dist && Piece(src[..], from, dist - put, left, sent)
    }

    /** One byte of a match. */
    method FastByte(src: array<Byte>, from: nat, ghost o: seq<Byte>, ghost dist: nat, ghost n: nat, ghost left: nat)
      requires put < out.Length && Copied(o, dist, n) && Source(src, from, dist, left) && left >= 1 && out != win.buf
      modifies this`put, out
      ensures put == old(put) + 1 && Copied(o, dist, n + 1) && (left >= 2 ==> Source(src, from + 1, dist, left - 1))
      ensures src != out ==> src[..] == old(src[..])
    {
      hide *;
      SourceByte(src, from, o, dist, n, left);
      ghost var b, before, p := src[from], src[..], put;
      PutByte(src[from]);
      CopiedMore(o, dist, n, b);
      if src != out {
        assert src[..] == before;
      }
      SourceMore(src, from, dist, left, p);
    }

    lemma SourceByte(src: array<Byte>, from: nat, o: seq<Byte>, dist: nat, n: nat, left: nat)
      requires Copied(o, dist, n) && Source(src, from, dist, left) && left >= 1 && put < out.Length
      ensures from < src.Length && put <= out.Length && 1 <= dist <= |o| && sent + out[..put] == Copy(o, dist, n)
      ensures |o| + n == |sent| + put && src[from] == Copy(o, dist, n)[|o| + n - dist]
      ensures if src == out then from + dist == put
        else src == win.buf && put < dist && Piece(src[..], from, dist - put, left, sent)
    {
      hide Copy;
      ghost var h := Copy(o, dist, n);
      assert |h| == |sent| + put;
      if src == out {
        assert h[|h| - dist] == out[..put][put - dist];
      } else {
        assert src[..][from] == sent[|sent| - (dist - put)];
      }
    }

    lemma CopiedMore(o: seq<Byte>, dist: nat, n: nat, b: Byte)
      requires 1 <= dist <= |o| && put <= out.Length && b == Copy(o, dist, n)[|o| + n - dist]
      requires sent + out[..put] == Copy(o, dist, n) + [b]
      ensures Copied(o, dist, n + 1)
    {
      hide Copy;
      CopyMore(o, dist, n);
    }

    lemma SourceMore(src: array<Byte>, from: nat, dist: nat, left: nat, p: nat)
      requires put == p + 1 && left >= 1
      requires if src == out then from + dist == p
        else src == win.buf && p < dist && Piece(src[..], from, dist - p, left, sent)
      ensures left >= 2 ==> Source(src, from + 1, dist, left - 1)
    {
      if src != out {
        PieceNext(src[..], from, dist - p, left, sent);
      }
    }

    /** Some bytes from one place. */
    method FastRun(src: array<Byte>, from: nat, op: nat, ghost o: seq<Byte>, ghost dist: nat, ghost n: nat)
      requires op >= 1 && put + op <= out.Length && Copied(o, dist, n) && Source(src, from, dist, op) && out != win.buf
      modifies this`put, out
      ensures put == old(put) + op && Copied(o, dist, n + op)
      ensures src != out ==> src[..] == old(src[..])
    {
      hide *;
      var f, left := from, op;
      while left != 0
        invariant 0 <= left <= op && f == from + (op - left) && put == old(put) + (op - left)
          && Copied(o, dist, n + (op - left))
        invariant left >= 1 ==> Source(src, f, dist, left)
        invariant src != out ==> src[..] == old(src[..])
        decreases left
      {
        FastByte(src, f, o, dist, n + (op - left), left);
        f := f + 1;
        left := left - 1;
      }
    }

    /** The last bytes of a match, three at a time. */
    method FastThrees(src: array<Byte>, from: nat, len: nat, ghost o: seq<Byte>, ghost dist: nat, ghost n: nat)
      requires put + len <= out.Length && Copied(o, dist, n) && (len >= 1 ==> Source(src, from, dist, len))
        && out != win.buf
      modifies this`put, out
      ensures put == old(put) + len && Copied(o, dist, n + len)
    {
      hide *;
      var f, left := from, len;
      while left > 2
        invariant 0 <= left <= len && f == from + (len - left) && put == old(put) + (len - left)
        invariant Copied(o, dist, n + (len - left)) && (left >= 1 ==> Source(src, f, dist, left))
        decreases left
      {
        FastByte(src, f, o, dist, n + (len - left), left);
        FastByte(src, f + 1, o, dist, n + (len - left) + 1, left - 1);
        FastByte(src, f + 2, o, dist, n + (len - left) + 2, left - 2);
        f := f + 3;
        left := left - 3;
      }
      if left != 0 {
        FastByte(src, f, o, dist, n + (len - left), left);
        if left > 1 {
          FastByte(src, f + 1, o, dist, n + (len - left) + 1, left - 1);
        }
      }
    }

    /** What can be had at once from the window, `back` bytes behind its end. */
    lemma FromRing(back: nat, dist: nat)
      requires win.Valid() && win.hist == sent && 1 <= back <= win.whave && dist == put + back && out != win.buf
      ensures win.wnext < win.wsize == win.buf.Length && win.whave <= win.wsize
      ensures back <= win.wnext ==> Source(win.buf, win.wnext - back, dist, back)
      ensures back > win.wnext ==> Source(win.buf, win.wnext + win.wsize - back, dist, back - win.wnext)
    {
      hide Piece, Ring, Pow2;
      WindowHas();
      RingSize(win.buf[..], win.wsize, win.whave, win.wnext, win.hist);
      RingPiece(win.buf[..], win.wsize, win.whave, win.wnext, win.hist, back);
    }

    lemma SourceFewer(src: array<Byte>, from: nat, dist: nat, left: nat, n: nat)
      requires Source(src, from, dist, left) && n <= left
      ensures Source(src, from, dist, n)
    {
      hide Piece;
      if src != out {
        PieceFewer(src[..], from, dist - put, left, sent, n);
      }
    }

    lemma SourceOut(dist: nat, left: nat)
      requires dist <= put
      ensures Source(out, put - dist, dist, left)
    {
    }

    /** The part of a match that the window holds; where the rest is to be found, and how much that is. */
    method FastWindow(dist: nat, length: nat, ghost o: seq<Byte>) returns (src: array<Byte>, from: nat, len: nat)
      requires win.Valid() && win.hist == sent && out != win.buf && put + length <= out.Length && length >= 1
      requires put < dist <= put + win.whave && Copied(o, dist, 0)
      modifies this`put, out
      ensures len <= length && put == old(put) + (length - len) && Copied(o, dist, length - len)
      ensures len >= 1 ==> Source(src, from, dist, len)
    {
      hide *;
      len := length;
      var op := dist - put;
      FromRing(op, dist);
      ghost var p := put;
      src, from := win.buf, 0;
      if win.wnext == 0 {
        from := win.wsize - op;
        if op < len {
          len := len - op;
          FastRun(src, from, op, o, dist, 0);
          src, from := out, put - dist;
          SourceOut(dist, len);
        } else {
          SourceFewer(src, from, dist, op, len);
        }
      } else if win.wnext < op {
        from := win.wsize + win.wnext - op;
        op := op - win.wnext;
        if op < len {
          len := len - op;
          FastRun(src, from, op, o, dist, 0);
          from := 0;
          FromRing(dist - put, dist);
          if win.wnext < len {
            op := win.wnext;
            len := len - op;
            FastRun(src, from, op, o, dist, length - len - op);
            src, from := out, put - dist;
            SourceOut(dist, len);
          } else {
            SourceFewer(src, from, dist, win.wnext, len);
          }
        } else {
          SourceFewer(src, from, dist, op, len);
        }
      } else {
        from := win.wnext - op;
        if op < len {
          len := len - op;
          FastRun(src, from, op, o, dist, 0);
          src, from := out, put - dist;
          SourceOut(dist, len);
        } else {
          SourceFewer(src, from, dist, op, len);
        }
      }
    }

    /** Copy a match for which there is room. */
    method FastCopy(dist: nat, len: nat, ghost o: seq<Byte>) returns (ok: bool)
      requires win.Valid() && win.hist == sent && out != win.buf && put + len <= out.Length && len >= 3 && dist >= 1
      requires o == sent + out[..put]
      modifies this`put, out
      ensures ok <==> dist <= old(put) + win.whave
      ensures ok ==> put == old(put) + len && 1 <= dist <= |o| && sent + out[..put] == Copy(o, dist, len)
      ensures !ok ==> put == old(put) && o == sent + out[..put]
    {
      hide *;
      WindowHas();
      if dist > put {
        if dist - put > win.whave {
          return false;
        }
        CopiedNone(o, dist);
        var src, from, left := FastWindow(dist, len, o);
        FastThrees(src, from, left, o, dist, len - left);
      } else {
        CopiedNone(o, dist);
        SourceOut(dist, len);
        FastThrees(out, put - dist, len, o, dist, 0);
      }
      CopiedIs(o, dist, len);
      return true;
    }

    lemma CopiedNone(o: seq<Byte>, dist: nat)
      requires put <= out.Length && o == sent + out[..put] && 1 <= dist <= |o|
      ensures Copied(o, dist, 0)
    {
    }

    lemma CopiedIs(o: seq<Byte>, dist: nat, n: nat)
      requires Copied(o, dist, n)
      ensures put <= out.Length && 1 <= dist <= |o| && sent + out[..put] == Copy(o, dist, n)
    {
      hide Copy;
    }

    lemma GoesRange(c: Config, f: nat, d: Config)
      requires Goes(c, f, d) && InRange(c.st)
      ensures InRange(d.st)
    {
      hide StepIn, InRange;
      StepInRange(c, f);
    }

    /** The configuration that the fast loop has reached between two of its look-ups. */
    ghost predicate Between(c: Config, f: nat, e: Config)
      reads this`out, this`put, this`sent, this`st, r, out
    {
      r.Valid() && put <= out.Length && LeadsIn(c, f, e) && e.unread == r.Unread() && |e.unread| < |c.unread|
      && InRange(e.st) && e.st.out == sent + out[..put]
      && e.st.llens == st.llens && e.st.dlens == st.dlens && e.st.last == st.last
    }

    lemma BetweenHas(c: Config, f: nat, e: Config)
      requires Between(c, f, e)
      ensures r.Valid() && put <= out.Length && LeadsIn(c, f, e) && e.unread == r.Unread() && |e.unread| < |c.unread|
      ensures InRange(e.st) && e.st.out == sent + out[..put]
      ensures e.st.llens == st.llens && e.st.dlens == st.dlens && e.st.last == st.last
    {
      hide LeadsIn, InRange;
    }

    /** One more step. */
    lemma BetweenMore(c: Config, f: nat, e: Config, d: Config)
      requires LeadsIn(c, f, e) && InRange(e.st) && Goes(e, f, d) && |d.unread| < |c.unread|
      requires r.Valid() && put <= out.Length && d.unread == r.Unread() && d.st.out == sent + out[..put]
      requires d.st.llens == st.llens && d.st.dlens == st.dlens && d.st.last == st.last
      ensures Between(c, f, d)
    {
      hide *;
      GoesLeads(e, f, d);
      GoesRange(e, f, d);
      LeadsInTrans(c, f, e, d);
      BetweenIs(c, f, d);
    }

    lemma BetweenIs(c: Config, f: nat, e: Config)
      requires r.Valid() && put <= out.Length && LeadsIn(c, f, e) && e.unread == r.Unread() && |e.unread| < |c.unread|
      requires InRange(e.st) && e.st.out == sent + out[..put]
      requires e.st.llens == st.llens && e.st.dlens == st.dlens && e.st.last == st.last
      ensures Between(c, f, e)
    {
      hide LeadsIn, InRange;
    }

    /** The extra bits of a length. */
    method FastLength(base: nat, extra: nat, ghost c: Config, ghost f: nat, ghost e: Config)
        returns (len: nat, ghost d: Config)
      requires Between(c, f, e) && e.st.mode.LenExt? && e.st.length == base && e.st.extra == extra <= 5
      requires r.bits < extra ==> r.next < |r.input|
      modifies r`hold, r`bits, r`next
      ensures Between(c, f, d) && d.st.mode.Dist? && d.st.length == len && r.next <= |r.input|
      ensures r.next == old(r.next) + (if extra <= old(r.bits) then 0 else 1)
      ensures r.bits == old(r.bits) + 8 * (r.next - old(r.next)) - extra
    {
      hide *;
      BetweenHas(c, f, e);
      OnLenExt(e, f);
      NoField(e.unread);
      r.ReaderBits();
      r.HeldFirst();
      len := base;
      if extra != 0 {
        var v := r.TakeExtra(extra);
        len := len + v;
      }
      d := Config(e.st.(mode := Dist, length := len), r.Unread());
      BetweenMore(c, f, e, d);
    }

    /** The extra bits of a distance. */
    method FastDist(base: nat, extra: nat, ghost c: Config, ghost f: nat, ghost e: Config)
        returns (dist: nat, ghost d: Config)
      requires Between(c, f, e) && e.st.mode.DistExt? && e.st.offset == base && e.st.extra == extra <= 13
      requires (r.bits < extra ==> r.next < |r.input|) && (r.bits + 8 < extra ==> r.next + 2 <= |r.input|)
      modifies r`hold, r`bits, r`next
      ensures Between(c, f, d) && d.st.mode.Matching? && d.st.offset == dist && d.st.length == e.st.length
        && r.next <= |r.input|
    {
      hide *;
      BetweenHas(c, f, e);
      OnDistExt(e, f);
      r.ReaderBits();
      r.HeldFirst();
      var v := r.TakeExtra(extra);
      dist := base + v;
      d := Config(e.st.(mode := Matching, offset := dist), r.Unread());
      BetweenMore(c, f, e, d);
    }

    /** The bytes of a match, and back to the state the loop works in. */
    method FastBytes(dist: nat, len: nat, ghost c: Config, ghost f: nat, ghost e: Config)
        returns (ok: bool, ghost d: Config)
      requires Between(c, f, e) && e.st.mode.Matching? && e.st.offset == dist && e.st.length == len && f == Lowest()
      requires Base() && mode.Len? && put + 258 <= out.Length && 3 <= len <= 258
      modifies this`put, out
      ensures Between(c, f, d) && d.st.mode == (if ok then Len else Bad) && put <= out.Length
    {
      hide *;
      BetweenHas(c, f, e);
      BaseHas();
      WindowHas();
      MatchRange(e.st);
      r.ReaderBits();
      ghost var o := sent + out[..put];
      assert |o| == |sent| + put && |o| >= |sent|;
      ok := FastCopy(dist, len, o);
      r.ReaderBits();
      if ok {
        CopyLeads(e, f, len);
        d := Config(e.st.(mode := Len, length := 0, out := Copy(o, dist, len)), e.unread);
        LeadsInTrans(c, f, e, d);
        RangeFree(d.st);
        BetweenIs(c, f, d);
      } else {
        OnTooFar(e, f);
        d := Config(e.st.(mode := Bad), e.unread);
        BetweenMore(c, f, e, d);
      }
    }

    lemma FullLength(d: State)
      requires d.mode.DistExt? && InRange(d)
      ensures 3 <= d.length <= 258
    {
      hide Pow2;
    }

    lemma DistOps(c: Config, f: nat, e: Code)
      requires c.st.mode.Dist? && Means(DISTS, c.st.dlens, c.unread, e) && (e.op == 0 || Has(e.op, 16) || Has(e.op, 64))
      ensures Has(e.op, 64) <==> !Has(e.op, 16)
    {
      hide Find, DBASE;
    }

    /** A length code was read: the rest of the match. */
    method FastMatch(op: nat, val: nat, ghost c: Config, ghost f: nat, ghost e: Config)
        returns (ok: bool, ghost d: Config)
      requires Between(c, f, e) && e.st.mode.LenExt? && e.st.length == val && e.st.extra == op % 16 <= 5
        && f == Lowest()
      requires Base() && mode.Len? && put + 258 <= out.Length && DistTable(st.dlens)
      requires r.next + (if r.bits >= 1 then 4 else 5) <= |r.input|
      modifies this`put, out, r`hold, r`bits, r`next
      ensures Between(c, f, d) && d.st.mode == (if ok then Len else Bad) && Base() && put <= out.Length
    {
      hide *;
      BetweenHas(c, f, e);
      BaseHas();
      DistTableHas(st.dlens);
      var len;
      ghost var e1: Config;
      len, e1 := FastLength(val, op % 16, c, f, e);
      BetweenHas(c, f, e1);
      r.Refill();
      ghost var u := r.Unread();
      var dop, dval;
      ghost var l: nat;
      dop, dval, l := LookUpNow(r, distcode, distend, diststart, distbits, DISTS, st.dlens);
      OnDist(e1, f, Code(dop, l, dval));
      DistOps(e1, f, Code(dop, l, dval));
      if Has(dop, 16) {
        ghost var e2 := Config(e1.st.(mode := DistExt, offset := dval, extra := dop % 16), r.Unread());
        BetweenMore(c, f, e1, e2);
        var dist;
        ghost var e3: Config;
        BetweenHas(c, f, e2);
        FullLength(e2.st);
        dist, e3 := FastDist(dval, dop % 16, c, f, e2);
        BetweenHas(c, f, e3);
        BaseIs();
        ok, d := FastBytes(dist, len, c, f, e3);
        BetweenHas(c, f, d);
      } else {
        ok := false;
        d := Config(e1.st.(mode := Bad), r.Unread());
        BetweenMore(c, f, e1, d);
      }
      BaseIs();
    }

    lemma LenOps(c: Config, e: Code)
      requires c.st.mode.Len? && Means(LENS, c.st.llens, c.unread, e) && (e.op == 0 || Has(e.op, 16) || Has(e.op, 64))
      ensures e.op != 0 ==> (Has(e.op, 16) <==> !Has(e.op, 32) && !Has(e.op, 64))
    {
      hide Find, LBASE;
    }

    /** What was decoded becomes the state. */
    method FastSet(m: Mode, ghost c: Config, ghost f: nat, ghost d: Config)
      requires Between(c, f, d) && Base() && d.st.mode == m && mode.Len? && (m.Len? || m.Type? || m.Bad?)
      requires LenTable(LENS, st.llens) && DistTable(st.dlens)
      modifies this`st, this`mode
      ensures Inv() && put <= out.Length && r.next <= |r.input| && mode == m && LeadsIn(c, f, Cfg())
        && |Cfg().unread| < |c.unread|
    {
      hide *;
      BetweenHas(c, f, d);
      BaseHas();
      if m != Len {
        mode := m;
      }
      st := d.st;
      BaseIs();
      CfgIs();
      SameOut(d, sent + out[..put]);
      assert Cfg() == d;
      if mode.Len? {
        RangeFree(st);
        DecodingIs(mode);
        Body();
      } else {
        Plain();
      }
    }

    lemma SameOut(d: Config, o: seq<Byte>)
      requires d.st.out == o
      ensures Config(d.st.(out := o), d.unread) == d
    {
    }

    /** One literal or match. */
    method FastStep()
      requires Inv() && mode.Len? && r.next + 6 <= |r.input| && put + 258 <= out.Length
      modifies this`st, this`mode, this`put, out, r`hold, r`bits, r`next
      ensures Inv() && put <= out.Length && r.next <= |r.input| && (mode.Len? || mode.Type? || mode.Bad?)
      ensures LeadsIn(old(Cfg()), Lowest(), Cfg()) && |Cfg().unread| < |old(Cfg()).unread|
    {
      hide *;
      Parts();
      BaseOf();
      CfgIs();
      DecodingIs(mode);
      BodyHas();
      LenTableHas(LENS, st.llens);
      ghost var c, f, o := Cfg(), Lowest(), sent + out[..put];
      LeadsInRefl(c, f);
      RangeKept(st, o);
      r.Refill();
      var op, val;
      ghost var l: nat;
      op, val, l := LookUpNow(r, lencode, lenend, lenstart, lenbits, LENS, st.llens);
      OnLen(c, f, Code(op, l, val));
      LenOps(c, Code(op, l, val));
      var m := Len;
      ghost var d: Config;
      if op == 0 {
        d := FastLiteral(val, c, f);
      } else if Has(op, 16) {
        ghost var e := Config(c.st.(mode := LenExt, length := val, extra := op % 16), r.Unread());
        BetweenMore(c, f, c, e);
        BaseIs();
        var ok;
        ok, d := FastMatch(op, val, c, f, e);
        if !ok {
          m := Bad;
        }
      } else if Has(op, 32) {
        m := Type;
        d := Config(c.st.(mode := Type), r.Unread());
        BetweenMore(c, f, c, d);
      } else {
        m := Bad;
        d := Config(c.st.(mode := Bad), r.Unread());
        BetweenMore(c, f, c, d);
      }
      BetweenHas(c, f, d);
      BaseIs();
      FastSet(m, c, f, d);
    }

    /** A literal byte. */
    method FastLiteral(val: nat, ghost c: Config, ghost f: nat) returns (ghost d: Config)
      requires r.Valid() && put < out.Length && c.st.mode.Len? && InRange(c.st) && c.st.out == sent + out[..put]
        && val < 256
      requires r.next <= |r.input| && |r.Unread()| < |c.unread|
      requires Goes(c, f, Config(c.st.(mode := Lit, length := val), r.Unread()))
      requires c.st.llens == st.llens && c.st.dlens == st.dlens && c.st.last == st.last
      modifies this`put, out
      ensures Between(c, f, d) && d.st.mode.Len? && put <= out.Length
    {
      hide *;
      r.ReaderBits();
      LeadsInRefl(c, f);
      ghost var e := Config(c.st.(mode := Lit, length := val), r.Unread());
      GoesLeads(c, f, e);
      GoesRange(c, f, e);
      OnLit(e, f);
      PutByte(val);
      r.ReaderBits();
      d := Config(e.st.(mode := Len, out := e.st.out + [val]), r.Unread());
      BetweenMore(c, f, e, d);
    }

    /** Decode without asking for input or room while there is surely enough of both, then give back what was
        taken too much (inflate_fast). */
    method InflateFast()
      requires Inv() && Tight() && mode.Len? && |r.input| - r.next >= 6 && out.Length - put >= 258
      modifies this`st, this`mode, this`put, out, r`hold, r`bits, r`next
      ensures Inv() && Tight() && put <= out.Length && old(r.next) <= r.next <= |r.input| && r.bits < 8
      ensures mode.Len? || mode.Type? || mode.Bad?
      ensures LeadsIn(old(Cfg()), Lowest(), Cfg()) && |Cfg().unread| < |old(Cfg()).unread|
    {
      hide *;
      Parts();
      BaseOf();
      CfgIs();
      SoundNow();
      TightHas();
      r.ReaderBits();
      TailSuffix(ToBits(r.hold, r.bits), BytesToBits(r.input[r.next..]));
      ghost var c, f, n0, b0 := Cfg(), Lowest(), r.next, r.bits;
      LeadsInRefl(c, f);
      var more := true;
      while more
        invariant Inv() && put <= out.Length && r.next <= |r.input| && (mode.Len? || mode.Type? || mode.Bad?)
        invariant more ==> mode.Len? && r.next + 6 <= |r.input| && put + 258 <= out.Length
        invariant LeadsIn(c, f, Cfg()) && f == Lowest() && (Cfg() == c ==> more)
        invariant !more ==> |Cfg().unread| < |c.unread|
        invariant |Cfg().unread| <= |c.unread|
        decreases more, |Cfg().unread|
      {
        ghost var d := Cfg();
        FastStep();
        LeadsInTrans(c, f, d, Cfg());
        more := mode.Len? && r.next < |r.input| - 5 && put < out.Length - 257;
      }
      Parts();
      BaseOf();
      CfgIs();
      r.HeldFirst();
      FastLeft(c, f, Cfg(), b0, 8 * (|r.input| - n0));
      LeadsSuffix(c, f, Cfg());
      DecodingIs(mode);
      if mode.Len? {
        BodyHas();
      }
      r.ReturnBytes(c.unread, n0);
      BaseIs();
      CfgIs();
      if mode.Len? {
        Body();
      } else {
        Plain();
      }
      TightFew();
    }

    // ---------- a whole call ----------

    /** The object between two calls. */
    ghost predicate Rests()
      reads this, r, win, win.buf, lens, lencode, distcode, fixed, out
    {
      Inv() && put == 0 && r.next == |r.input| && Tight()
    }

    /** The states up to the codes of a block. */
    method DoBegin() returns (leave: bool)
      requires Inv() && Tight()
        && (mode.Type? || mode.Stored? || mode.Copying? || mode.Table? || mode.LenLens? || mode.CodeLens?)
      modifies this`st, this`mode, this`last, this`length, this`offset, this`extra, this`nlen, this`ndist, this`ncode,
        this`have, this`lencode, this`lenstart, this`lenbits, this`lenend, this`distcode, this`diststart,
        this`distbits, this`distend, this`put, out, lens, work, codes, r`hold, r`bits, r`next
      ensures Inv() && put <= out.Length && r.next <= |r.input| && LeadsIn(old(Cfg()), Lowest(), Cfg())
      ensures Tight()
      ensures leave ==> Stuck()
      ensures !leave ==>
        Nearer(|old(Cfg()).unread|, out.Length - old(put), old(mode), |Cfg().unread|, out.Length - put, mode)
    {
      hide *;
      Parts();
      match mode {
        case Type => leave := DoType();
        case Stored => leave := DoStored();
        case Copying => leave := DoCopy();
        case Table => leave := DoTable();
        case LenLens => leave := DoLenLens();
        case CodeLens => leave := DoCodeLens();
      }
      Parts();
    }

    /** The states within a block body. */
    method DoBody() returns (leave: bool)
      requires Inv() && Tight() && (mode.LenExt? || mode.Dist? || mode.DistExt? || mode.Matching? || mode.Lit?)
      modifies this`st, this`mode, this`last, this`length, this`offset, this`extra, this`nlen, this`ndist, this`ncode,
        this`have, this`lencode, this`lenstart, this`lenbits, this`lenend, this`distcode, this`diststart,
        this`distbits, this`distend, this`put, out, lens, work, codes, r`hold, r`bits, r`next
      ensures Inv() && put <= out.Length && r.next <= |r.input| && LeadsIn(old(Cfg()), Lowest(), Cfg())
      ensures Tight()
      ensures leave ==> Stuck()
      ensures !leave ==>
        Nearer(|old(Cfg()).unread|, out.Length - old(put), old(mode), |Cfg().unread|, out.Length - put, mode)
    {
      hide *;
      Parts();
      ghost var c, p, m := Cfg(), put, mode;
      match mode {
        case LenExt => leave := DoLenExt();
        case Dist => leave := DoDist();
        case DistExt => leave := DoDistExt();
        case Matching => leave := DoMatch();
        case Lit => leave := DoLit();
      }
      Parts();
      NearerIs(|c.unread|, out.Length - p, m, |Cfg().unread|, out.Length - put, mode);
    }

    /** One state of the machine. */
    method DoState() returns (leave: bool)
      requires Inv() && Tight()
      modifies this`st, this`mode, this`last, this`length, this`offset, this`extra, this`nlen, this`ndist, this`ncode,
        this`have, this`lencode, this`lenstart, this`lenbits, this`lenend, this`distcode, this`diststart,
        this`distbits, this`distend, this`put, out, lens, work, codes, r`hold, r`bits, r`next
      ensures Inv() && put <= out.Length && r.next <= |r.input| && LeadsIn(old(Cfg()), Lowest(), Cfg())
      ensures Tight()
      ensures leave ==> Stuck()
      ensures !leave ==>
        Nearer(|old(Cfg()).unread|, out.Length - old(put), old(mode), |Cfg().unread|, out.Length - put, mode)
    {
      hide *;
      Parts();
      if mode.Done? || mode.Bad? {
        BaseOf();
        CfgIs();
        LeadsInRefl(Cfg(), Lowest());
        OnStop(Cfg(), Lowest());
        StuckIs();
        leave := true;
      } else if mode.Len? {
        ghost var c, p := Cfg(), put;
        leave := DoLen();
        Parts();
        NearerIs(|c.unread|, out.Length - p, Len, |Cfg().unread|, out.Length - put, mode);
      } else if mode.LenExt? || mode.Dist? || mode.DistExt? || mode.Matching? || mode.Lit? {
        leave := DoBody();
      } else {
        leave := DoBegin();
      }
    }

    /** Take the input and the output space of a call. */
    method BeginCall(data: seq<Byte>, buf: array<Byte>)
      requires Rests() && buf != win.buf
      modifies this`out, r
      ensures Inv() && Tight() && put == 0 && out == buf && r.input == data && r.next == 0
      ensures put <= out.Length && Cfg() == With(old(Cfg()), BytesToBits(data))
    {
      hide *;
      RestsHas();
      BaseOf();
      BaseHas();
      CfgIs();
      FieldsHave();
      ghost var u, c := r.Unread(), Cfg();
      assert out[..put] == [];
      TightIs();
      HeldIs(r);
      r.Load(data);
      out := buf;
      LayoutIs();
      BaseIs();
      CfgIs();
      assert out[..put] == [];
      BytesAligned(u, BytesToBits(data), data);
      WithIs(c, BytesToBits(data));
      HeldIs(r);
      TightIs();
      Resume();
    }

    lemma RestsHas()
      requires Rests()
      ensures Inv() && put == 0 && r.next == |r.input| && put <= out.Length && Tight()
    {
      hide Inv;
    }

    lemma LayoutIs()
      requires lens.Length == 320 && work.Length == 288 && codes.Length == ENOUGH == fixed.Length
      requires lens != work && codes != fixed && out != win.buf
      ensures Layout()
    {
    }

    lemma FieldsHave()
      requires Inv()
      ensures lens.Length == 320 && work.Length == 288 && codes.Length == ENOUGH == fixed.Length
      ensures lens != work && codes != fixed
      ensures Tables() && Header() && Fields()
    {
      hide Pow2, Ring, Decodes, Acceptable, FixedLitLens, FixedDistLens, InRange;
    }

    /** New input and new output space leave the state as it was. */
    lemma Resume()
      requires Base() && Tables() && Header() && Fields()
      ensures Inv()
    {
      hide Pow2, Ring, Decodes, Acceptable, FixedLitLens, FixedDistLens, InRange;
    }

    /** Bring the window up to date. */
    method SaveOutput() returns (made: nat)
      requires Inv() && Tight()
      modifies this`put, this`sent, win, win.buf
      ensures Inv() && Tight() && put == 0 && made == old(put) <= out.Length && sent == old(sent) + out[..made]
      ensures r.next <= |r.input| && Cfg() == old(Cfg())
    {
      hide *;
      Parts();
      BaseOf();
      BaseHas();
      CfgIs();
      FieldsHave();
      TightIs();
      made := put;
      if win.wsize != 0 || (put != 0 && mode != Bad) {
        win.Update(out, put, put);
        assert out[put - put..put] == out[..put];
      } else {
        assert mode != Bad ==> out[..put] == [];
      }
      sent := sent + out[..put];
      put := 0;
      assert out[..put] == [] && sent + [] == sent;
      BaseIs();
      CfgIs();
      TightIs();
      Resume();
    }

    /** Leaving the call. */
    method EndCall() returns (used: nat, made: nat)
      requires Inv() && Tight()
      modifies this`put, this`sent, this`fed, r`input, win, win.buf
      ensures Rests() && used == r.next == old(r.next) <= |old(r.input)| && made == old(put) <= out.Length
      ensures sent == old(sent) + out[..made] && fed == old(fed) + old(r.input)[..used] && mode == old(mode)
      ensures old(Cfg()) == With(Cfg(), BytesToBits(old(r.input)[used..]))
    {
      hide *;
      Parts();
      made := SaveOutput();
      BaseOf();
      BaseHas();
      CfgIs();
      FieldsHave();
      used := r.next;
      ghost var data, d := r.input, Cfg();
      TightIs();
      HeldIs(r);
      fed := fed + r.input[..r.next];
      r.Unload();
      BaseIs();
      CfgIs();
      BytesAligned(r.Unread(), BytesToBits(data[used..]), data[used..]);
      WithIs(Cfg(), BytesToBits(data[used..]));
      HeldIs(r);
      TightIs();
      Resume();
      RestsIs();
    }

    lemma RestsIs()
      requires Inv() && put == 0 && r.next == |r.input| && put <= out.Length && Tight()
      ensures Rests()
    {
      hide Inv;
    }

    /** Decode as much of the input as there is room for, as far as it goes. */
    method Inflate(data: seq<Byte>, buf: array<Byte>) returns (ret: int, used: nat, made: nat)
      requires Rests() && buf != win.buf
      modifies this, r, win, win.buf, lens, work, codes, buf
      ensures Rests() && used <= |data| && made <= buf.Length
      ensures sent == old(sent) + buf[..made] && fed == old(fed) + data[..used]
      ensures LeadsIn(With(old(Cfg()), BytesToBits(data)), old(Lowest()), With(Cfg(), BytesToBits(data[used..])))
      ensures (Waits(With(Cfg(), BytesToBits(data[used..])), old(Lowest()))
               && (used == |data| || mode.Done? || mode.Bad?))
        || (made == buf.Length && (mode.Matching? || mode.Lit? || (mode.Copying? && length > 0)))
      ensures ret == if mode.Done? then Z_STREAM_END else if mode.Bad? then Z_DATA_ERROR
                     else if used == made == 0 then Z_BUF_ERROR else Z_OK
    {
      hide *;
      RestsHas();
      Parts();
      ghost var c0, f := Cfg(), Lowest();
      BeginCall(data, buf);
      ghost var c := Cfg();
      LeadsInRefl(c, f);
      var leave := false;
      while !leave
        invariant Inv() && put <= out.Length && r.next <= |r.input| && Tight() && out == buf && r.input == data
        invariant LeadsIn(c, f, Cfg()) && f == Lowest() && sent == old(sent) && fed == old(fed)
        invariant leave ==> Stuck()
        decreases !leave, |Cfg().unread|, out.Length - put, Order(mode)
      {
        ghost var d, p, m := Cfg(), put, mode;
        leave := DoState();
        LeadsInTrans(c, f, d, Cfg());
        if !leave {
          NearerHas(|d.unread|, out.Length - p, m, |Cfg().unread|, out.Length - put, mode);
        }
      }
      ghost var e := Cfg();
      StuckHas();
      used, made := EndCall();
      if mode.Done? {
        ret := Z_STREAM_END;
      } else if mode.Bad? {
        ret := Z_DATA_ERROR;
      } else {
        ret := Z_OK;
        if used == 0 && made == 0 {
          ret := Z_BUF_ERROR;
        }
      }
    }

    lemma StuckHas()
      requires put <= out.Length && r.next <= |r.input| && Stuck()
      ensures (Waits(Cfg(), Lowest()) && (r.next == |r.input| || mode.Done? || mode.Bad?))
        || (put == out.Length && (mode.Matching? || mode.Lit? || (mode.Copying? && length > 0)))
    {
      hide Waits;
    }
  }
}
