/** Whole sessions of inflate() calls: how input and output are split makes no difference, provided
    the window holds all that the stream refers to (inflate.c: inflate). */
module Chunking {
  import opened Bits
  import opened Canonical
  import opened Symbols
  import opened Lz77
  import opened Decoder
  import opened MoreInput
  import opened BlockFormat
  import opened BlockHeader
  import opened BlockStream
  import opened HistoryWindow
  import opened Windowed
  import opened InflateSteps
  import opened Inflate

  // ---------- sessions ----------

  /** After taking `fed`, the state is one that the machine given the whole stream passes through. */
  ghost predicate Along(c: Config, fed: seq<Byte>, stream: seq<Byte>)
  {
    fed <= stream && Leads(Config(InitState, BytesToBits(stream)), With(c, BytesToBits(stream[|fed|..])))
    && Sound(c.st)
  }

  /** Decoding the stream never goes back more than `far` bytes. */
  ghost predicate Nearby(stream: seq<Byte>, far: nat)
  {
    AllTame(Config(InitState, BytesToBits(stream)), far)
  }

  lemma AlongStart(stream: seq<Byte>)
    ensures Along(Config(InitState, []), [], stream)
  {
    hide Leads, BytesToBits;
    LeadsRefl(Config(InitState, BytesToBits(stream)));
    assert stream[0..] == stream;
    assert [] + BytesToBits(stream) == BytesToBits(stream);
  }

  /** What can be decoded from a part of the stream stays near as well. */
  lemma TameAlong(c: Config, fed: seq<Byte>, data: seq<Byte>, stream: seq<Byte>, far: nat)
    requires Along(c, fed, stream) && fed + data <= stream && Nearby(stream, far)
    ensures AllTame(With(c, BytesToBits(data)), far)
  {
    hide *;
    var rest := stream[|fed| + |data|..];
    var c1 := With(c, BytesToBits(data));
    AlongHas(c, fed, stream);
    WithHas(c, BytesToBits(data));
    WholeBytes(rest);
    Rejoin(c, data, rest);
    Pieces(stream, fed, data, 0);
    forall e | Leads(c1, e)
      ensures Tame(far, e)
    {
      LeadsExtends(c1, e, BytesToBits(rest));
      LeadsTrans(Config(InitState, BytesToBits(stream)), With(c1, BytesToBits(rest)), With(e, BytesToBits(rest)));
      NearbyHas(stream, far, With(e, BytesToBits(rest)));
      TameWith(far, e, BytesToBits(rest));
    }
    AllTameIs(c1, far);
  }

  lemma NearbyHas(stream: seq<Byte>, far: nat, e: Config)
    requires Nearby(stream, far) && Leads(Config(InitState, BytesToBits(stream)), e)
    ensures Tame(far, e)
  {
    hide Leads, Tame;
  }

  lemma TameWith(far: nat, e: Config, more: BitString)
    ensures Tame(far, With(e, more)) <==> Tame(far, e)
  {
  }

  lemma AllTameIs(c: Config, far: nat)
    requires forall e :: Leads(c, e) ==> Tame(far, e)
    ensures AllTame(c, far)
  {
    hide Leads, Tame;
  }

  /** One call, whatever part of the stream it is given and wherever it stops, stays along. */
  lemma CallAlong(c: Config, d: Config, fed: seq<Byte>, data: seq<Byte>, used: nat, n: nat, stream: seq<Byte>,
                  wsize: nat)
    requires Along(c, fed, stream) && fed + data <= stream && used <= |data| && (n <= |c.st.out| || c.st.mode.Bad?)
    requires Nearby(stream, wsize)
    requires LeadsIn(With(c, BytesToBits(data)), Floor(n, wsize), With(d, BytesToBits(data[used..])))
    ensures Along(d, fed + data[..used], stream)
  {
    hide *;
    var rest := stream[|fed| + |data|..];
    var c1, d1 := With(c, BytesToBits(data)), With(d, BytesToBits(data[used..]));
    AlongHas(c, fed, stream);
    WithHas(c, BytesToBits(data));
    WithHas(d, BytesToBits(data[used..]));
    TameAlong(c, fed, data, stream, wsize);
    CallLeads(c1, d1, n, wsize);
    WholeBytes(rest);
    LeadsExtends(c1, d1, BytesToBits(rest));
    Rejoin(c, data, rest);
    Rejoin(d, data[used..], rest);
    Pieces(stream, fed, data, used);
    LeadsTrans(Config(InitState, BytesToBits(stream)), With(c, BytesToBits(data + rest)),
               With(d, BytesToBits(data[used..] + rest)));
    AlongSet(d, fed + data[..used], stream);
  }

  lemma Pieces(stream: seq<Byte>, fed: seq<Byte>, data: seq<Byte>, used: nat)
    requires fed + data <= stream && used <= |data|
    ensures stream[|fed|..] == data + stream[|fed| + |data|..]
    ensures fed + data[..used] <= stream
    ensures stream[|fed + data[..used]|..] == data[used..] + stream[|fed| + |data|..]
  {
    assert stream[..|fed| + |data|] == fed + data;
    assert forall i :: 0 <= i < |data| ==> stream[|fed| + i] == data[i];
  }

  lemma CallLeads(c: Config, d: Config, n: nat, wsize: nat)
    requires AllTame(c, wsize) && (n <= |c.st.out| || c.st.mode.Bad?) && LeadsIn(c, Floor(n, wsize), d)
    ensures Leads(c, d)
  {
    hide Leads, LeadsIn, AllTame;
    if c.st.mode.Bad? {
      BadStays(c, Floor(n, wsize), d);
      LeadsRefl(c);
    } else {
      NearLeads(c, n, wsize, d);
    }
  }

  lemma WithHas(c: Config, more: BitString)
    ensures With(c, more).st == c.st
  {
  }

  lemma AlongHas(c: Config, fed: seq<Byte>, stream: seq<Byte>)
    requires Along(c, fed, stream)
    ensures fed <= stream && Leads(Config(InitState, BytesToBits(stream)), With(c, BytesToBits(stream[|fed|..])))
    ensures Sound(c.st)
  {
    hide Leads, Sound;
  }

  lemma AlongSet(c: Config, fed: seq<Byte>, stream: seq<Byte>)
    requires fed <= stream && Leads(Config(InitState, BytesToBits(stream)), With(c, BytesToBits(stream[|fed|..])))
    requires Sound(c.st)
    ensures Along(c, fed, stream)
  {
    hide Leads, Sound;
  }

  lemma BadStays(c: Config, f: nat, d: Config)
    requires c.st.mode.Bad? && LeadsIn(c, f, d)
    ensures d == c
  {
    var k: nat :| RunIn(c, f, k) == d;
    StuckIn(c, f, k);
  }

  lemma WholeBytes(s: seq<Byte>)
    ensures |BytesToBits(s)| % 8 == 0
  {
  }

  lemma Rejoin(c: Config, a: seq<Byte>, b: seq<Byte>)
    ensures With(With(c, BytesToBits(a)), BytesToBits(b)) == With(c, BytesToBits(a + b))
  {
    hide BytesToBits;
    BytesToBitsAppend(a, b);
    assert c.unread + BytesToBits(a) + BytesToBits(b) == c.unread + (BytesToBits(a) + BytesToBits(b));
  }

  /** The state needs room for output before it can go on. */
  predicate AwaitsRoom(st: State)
  {
    st.mode.Matching? || st.mode.Lit? || (st.mode.Copying? && st.length > 0)
  }

  lemma LengthKept(z: Inflater)
    requires z.Rests()
    ensures z.mode.Copying? ==> z.st.length == z.length
  {
    hide *;
    z.RestsHas();
    z.Parts();
    if z.mode.Copying? {
      CopyingLength(z);
    }
  }

  lemma CopyingLength(z: Inflater)
    requires z.Fields() && z.mode.Copying?
    ensures z.st.length == z.length
  {
    hide Pow2;
  }

  lemma AwaitsIs(st: State)
    ensures AwaitsRoom(st) <==> st.mode.Matching? || st.mode.Lit? || (st.mode.Copying? && st.length > 0)
  {
  }

  lemma WaitsIs(c: Config, f: nat)
    ensures Waits(c, f) <==> StepIn(c, f).None?
  {
    hide StepIn;
  }

  /** A call on an object whose window holds everything that the stream refers to. */
  method Continue(z: Inflater, data: seq<Byte>, buf: array<Byte>, ghost stream: seq<Byte>)
      returns (ret: int, used: nat, made: nat)
    requires z.Rests() && Nearby(stream, Pow2(z.win.wbits)) && buf != z.win.buf && z.fed + data <= stream
    requires Along(z.Cfg(), z.fed, stream)
    modifies z, z.r, z.win, z.win.buf, z.lens, z.work, z.codes, buf
    ensures z.Rests() && Along(z.Cfg(), z.fed, stream)
    ensures used <= |data| && z.fed == old(z.fed) + data[..used]
    ensures made <= buf.Length && z.sent == old(z.sent) + buf[..made] && z.Cfg().st.out == z.sent
    ensures (Step(With(z.Cfg(), BytesToBits(data[used..]))).None? && (used == |data| || z.mode.Done? || z.mode.Bad?))
      || (made == buf.Length && AwaitsRoom(z.Cfg().st))
    ensures ret == Z_STREAM_END <==> z.mode.Done?
    ensures ret == Z_DATA_ERROR <==> z.mode.Bad?
  {
    hide *;
    Resting(z);
    ghost var c, n, fed, wsize := z.Cfg(), |z.win.hist|, z.fed, Pow2(z.win.wbits);
    WithHas(c, BytesToBits(data));
    ret, used, made := z.Inflate(data, buf);
    Resting(z);
    LengthKept(z);
    AwaitsIs(z.Cfg().st);
    CallAlong(c, z.Cfg(), fed, data, used, n, stream, wsize);
    AlongHas(z.Cfg(), z.fed, stream);
    WithHas(z.Cfg(), BytesToBits(data[used..]));
    if Waits(With(z.Cfg(), BytesToBits(data[used..])), Floor(n, wsize)) {
      BadStaysBad(With(c, BytesToBits(data)), Floor(n, wsize), With(z.Cfg(), BytesToBits(data[used..])));
      PiecesFed(stream, fed, data, used);
      TameAlong(z.Cfg(), z.fed, data[used..], stream, wsize);
      StopsFull(With(z.Cfg(), BytesToBits(data[used..])), n, wsize);
    }
    ResultCodes();
  }

  lemma PiecesFed(stream: seq<Byte>, fed: seq<Byte>, data: seq<Byte>, used: nat)
    requires fed + data <= stream && used <= |data|
    ensures fed + data[..used] + data[used..] <= stream
  {
    assert fed + data[..used] + data[used..] == fed + data;
  }

  lemma ResultCodes()
    ensures Z_OK == 0 && Z_STREAM_END == 1 && Z_DATA_ERROR == -3 && Z_BUF_ERROR == -5
  {
  }

  lemma Resting(z: Inflater)
    requires z.Rests()
    ensures z.put == 0 && z.r.next == |z.r.input| && z.win.Valid() && z.put <= z.out.Length && z.st.mode == z.mode
    ensures z.Cfg().st == z.st.(out := z.sent) && z.Cfg().st.out == z.sent && z.Cfg().st.mode == z.mode
    ensures z.mode != Bad ==> z.win.hist == z.sent
    ensures z.Lowest() == Floor(|z.win.hist|, Pow2(z.win.wbits))
  {
    hide *;
    z.RestsHas();
    z.Parts();
    assert z.out[..z.put] == [];
    LowestIs(z);
  }

  lemma LowestIs(z: Inflater)
    ensures z.Lowest() == Floor(|z.win.hist|, Pow2(z.win.wbits))
  {
  }

  lemma BadStaysBad(c: Config, f: nat, d: Config)
    requires LeadsIn(c, f, d)
    ensures c.st.mode.Bad? ==> d.st.mode.Bad?
  {
    hide LeadsIn;
    if c.st.mode.Bad? {
      BadStays(c, f, d);
    }
  }

  /** A call that waits for input waits as the machine does. */
  lemma StopsFull(c: Config, n: nat, wsize: nat)
    requires AllTame(c, wsize) && (n <= |c.st.out| || c.st.mode.Bad?) && Waits(c, Floor(n, wsize))
    ensures Step(c).None?
  {
    hide Step, AllTame, Tame;
    if c.st.mode.Bad? {
      BadIs(c);
    } else {
      AllTameHere(c, wsize);
      NearStep(c, n, wsize);
    }
  }

  lemma BadIs(c: Config)
    requires c.st.mode.Bad?
    ensures Step(c).None?
  {
  }

  // ---------- chunking independence ----------

  /** Nothing more comes of the stream: all has been decoded, or an error found, or the input is short. */
  ghost predicate Finished(c: Config, fed: seq<Byte>, stream: seq<Byte>)
  {
    fed <= stream && Step(With(c, BytesToBits(stream[|fed|..]))).None?
  }

  /** However the stream and the room for output were split over the calls, what has come out is part of
      what any finished session gives. */
  lemma OutputIsPrefix(c: Config, fed: seq<Byte>, d: Config, fed': seq<Byte>, stream: seq<Byte>)
    requires Along(c, fed, stream) && Along(d, fed', stream) && Finished(d, fed', stream)
    ensures c.st.out <= d.st.out
  {
    hide *;
    AlongHas(c, fed, stream);
    AlongHas(d, fed', stream);
    FinishedHas(d, fed', stream);
    var c1, d1 := With(c, BytesToBits(stream[|fed|..])), With(d, BytesToBits(stream[|fed'|..]));
    Confluent(Config(InitState, BytesToBits(stream)), c1, d1);
    LeadsOut(c1, d1);
    WithHas(c, BytesToBits(stream[|fed|..]));
    WithHas(d, BytesToBits(stream[|fed'|..]));
  }

  /** Two finished sessions over the same stream agree on the output, on the verdict and on where decoding
      stopped. */
  lemma SplitsAgree(c: Config, fed: seq<Byte>, d: Config, fed': seq<Byte>, stream: seq<Byte>)
    requires Along(c, fed, stream) && Finished(c, fed, stream)
    requires Along(d, fed', stream) && Finished(d, fed', stream)
    ensures c.st == d.st
    ensures c.unread + BytesToBits(stream[|fed|..]) == d.unread + BytesToBits(stream[|fed'|..])
  {
    hide *;
    AlongHas(c, fed, stream);
    AlongHas(d, fed', stream);
    FinishedHas(c, fed, stream);
    FinishedHas(d, fed', stream);
    var c1, d1 := With(c, BytesToBits(stream[|fed|..])), With(d, BytesToBits(stream[|fed'|..]));
    Confluent(Config(InitState, BytesToBits(stream)), c1, d1);
    StuckLeads(c1, d1);
    WithParts(c, BytesToBits(stream[|fed|..]));
    WithParts(d, BytesToBits(stream[|fed'|..]));
  }

  lemma WithParts(c: Config, more: BitString)
    ensures With(c, more).st == c.st && With(c, more).unread == c.unread + more
  {
  }

  lemma FinishedHas(c: Config, fed: seq<Byte>, stream: seq<Byte>)
    requires Finished(c, fed, stream)
    ensures fed <= stream && Step(With(c, BytesToBits(stream[|fed|..]))).None?
  {
    hide Step;
  }

  lemma StuckLeads(c: Config, d: Config)
    requires Step(c).None? && Leads(c, d)
    ensures c == d
  {
    hide Step;
    var n: nat :| Run(c, n) == d;
    RunStuck(c, n);
  }

  lemma StepOut(c: Config)
    requires Step(c).Some?
    ensures c.st.out <= Step(c).value.st.out
  {
    hide Pow2, Find, LenBase, LenExtra, DistBase, DistExtra, Field, FromBits, Aligned, Acceptable, FixedLitLens,
      FixedDistLens, Permuted;
  }

  lemma {:induction false} RunOut(c: Config, n: nat)
    ensures c.st.out <= Run(c, n).st.out
    decreases n
  {
    hide Step;
    if n > 0 && Step(c).Some? {
      StepOut(c);
      RunOut(Step(c).value, n - 1);
    }
  }

  lemma LeadsOut(c: Config, d: Config)
    requires Leads(c, d)
    ensures c.st.out <= d.st.out
  {
    hide Run;
    var n: nat :| Run(c, n) == d;
    RunOut(c, n);
  }

  // ---------- which windows are large enough ----------

  /** Decoding any stream of whole bytes passes through this state. */
  ghost predicate Reachable(c: Config)
  {
    exists u: BitString :: |u| % 8 == 0 && Leads(Config(InitState, u), c)
  }

  lemma {:induction false} RunInRange(c: Config, n: nat)
    requires InRange(c.st)
    ensures InRange(Run(c, n).st)
    decreases n
  {
    hide Step, InRange;
    if n > 0 && Step(c).Some? {
      FullWindowStep(c, 0);
      StepInRange(c, Floor(0, 32768));
      RunInRange(Step(c).value, n - 1);
    }
  }

  lemma ReachableInRange(c: Config)
    requires Reachable(c)
    ensures InRange(c.st)
  {
    hide Run;
    var u: BitString :| |u| % 8 == 0 && Leads(Config(InitState, u), c);
    var n: nat :| Run(Config(InitState, u), n) == c;
    RunInRange(Config(InitState, u), n);
  }

  /** The full window is large enough for every stream. */
  lemma FullNearby(stream: seq<Byte>)
    ensures Nearby(stream, 32768)
  {
    hide Leads, BytesToBits, InRange;
    WholeBytes(stream);
    forall e | Leads(Config(InitState, BytesToBits(stream)), e)
      ensures Tame(32768, e)
    {
      assert Reachable(e);
      ReachableInRange(e);
      InRangeTame(e);
    }
  }

  lemma InRangeTame(e: Config)
    requires InRange(e.st)
    ensures Tame(32768, e)
  {
  }

  lemma NearbyMore(stream: seq<Byte>, near: nat, far: nat)
    requires Nearby(stream, near) && near <= far
    ensures Nearby(stream, far)
  {
    hide Leads, BytesToBits;
    forall e | Leads(Config(InitState, BytesToBits(stream)), e)
      ensures Tame(far, e)
    {
      assert Tame(near, e);
    }
  }

  /** A block of stored bytes, then a match that reaches back over all of them. */
  ghost function FarMatch(w: nat): (bs: seq<Block>)
  {
    [StoredBlock(seq(w + 1, _ => 0)), FixedBlock([Match(3, w + 1)])]
  }

  lemma FixedCoded(dist: nat)
    requires 1 <= dist <= 32768
    ensures AllCoded(FixedLitLens(), FixedDistLens(), [Match(3, dist)])
  {
    hide DistCode, LengthCode;
    LengthCodeRange(3);
    DistCodeRange(dist);
  }

  lemma FarMatchWritable(w: nat)
    requires w < 32768
    ensures AllWritable(FarMatch(w)) && StreamFits(0, FarMatch(w))
  {
    hide AllCoded, FixedLitLens, FixedDistLens;
    var bs := FarMatch(w);
    FixedCoded(w + 1);
    assert bs[1..] == [bs[1]] && bs[1..][1..] == [];
    assert StreamFits(w + 1 + TokenLen(Match(3, w + 1)), []);
    assert Expandable(w + 1 + 3, []);
    assert Expandable(w + 1, [Match(3, w + 1)]);
    assert BlockFits(w + 1, bs[1]);
    assert StreamFits(w + 1, [bs[1]]);
    assert BlockLen(bs[0]) == w + 1;
  }

  lemma FixedUse()
    ensures Usable(FixedLitLens(), FixedDistLens()) && Coded(FixedLitLens(), 256)
  {
    hide Complete, FixedLitLens, FixedDistLens;
    FixedLitComplete();
    FixedDistComplete();
    CompleteUsable(FixedLitLens(), FixedDistLens());
    FixedLitValid();
    EndIs();
  }

  lemma EndIs()
    ensures FixedLitLens()[256] == 7
  {
  }

  lemma BodyHead(w: nat) returns (tail: BitString)
    requires w < 32768 && AllCoded(FixedLitLens(), FixedDistLens(), [Match(3, w + 1)]) && Coded(FixedLitLens(), 256)
    ensures TokenCoded(FixedLitLens(), FixedDistLens(), Match(3, w + 1))
    ensures 257 + LengthCode(3) < |FixedLitLens()| && FixedLitLens()[257 + LengthCode(3)] <= 15
      && LenBase(LengthCode(3)) <= 3
    ensures DistCode(w + 1) < |FixedDistLens()| && FixedDistLens()[DistCode(w + 1)] <= 15
      && DistBase(DistCode(w + 1)) <= w + 1
    ensures BodyBits(FixedLitLens(), FixedDistLens(), [Match(3, w + 1)])
      == MatchHead(FixedLitLens(), 3) + (MatchTail(FixedDistLens(), w + 1) + tail)
  {
    hide FixedLitLens, FixedDistLens, MatchHead, MatchTail, LengthCode, DistCode, LenBase, DistBase, CodeBits;
    var ll, dl := FixedLitLens(), FixedDistLens();
    var ts := [Match(3, w + 1)];
    assert TokenCoded(ll, dl, ts[0]);
    LengthCodeRange(3);
    DistCodeRange(w + 1);
    tail := CodeBits(ll, 256);
    assert ts[1..] == [];
    assert TokensBits(ll, dl, ts[1..]) == [];
    assert TokensBits(ll, dl, ts) == TokenBits(ll, dl, Match(3, w + 1));
  }

  /** Decoding that stream reaches the match with all it refers to already put out. */
  lemma FarMatchReached(w: nat) returns (c: Config, u: BitString)
    requires w < 32768
    ensures |u| % 8 == 0 && Leads(Config(InitState, u), c)
    ensures c.st.mode.Matching? && c.st.offset == w + 1 && |c.st.out| == w + 1
    ensures AllWritable(FarMatch(w)) && u == StreamFrom(FarMatch(w), 0)
  {
    hide Leads, Via, StreamFits, StoredBits, BodyBits, TypeBits, FixedLitLens, FixedDistLens, AllCoded, Coded, Usable,
      Complete, MatchHead, MatchTail, LengthCode, DistCode, LenBase, DistBase, LenExtra, DistExtra, Field, ToBits,
      Pow2, TokenCoded;
    var ll, dl := FixedLitLens(), FixedDistLens();
    var bs := FarMatch(w);
    FarMatchWritable(w);
    FixedUse();
    u := StreamFrom(bs, 0);
    StreamWhole(bs, 0);
    var b0 := BlockBits(bs[0], false, 0);
    var rest := StreamFrom(bs[1..], |b0|);
    assert u == b0 + rest;
    var s := Config(InitState, u);
    var zeros := seq(w + 1, _ => 0);
    assert [] + zeros == zeros;
    var e := StoredDecodes(w + 1, s, zeros, false, 0, rest);
    var tail := BodyHead(w);
    var rest2 := SecondBlock(w, |b0|);
    var f := Config(e.st.(mode := Len, last := true, llens := ll, dlens := dl),
                    MatchHead(ll, 3) + (MatchTail(dl, w + 1) + tail) + rest2);
    FixedStart(e, BodyBits(ll, dl, [Match(3, w + 1)]) + rest2, f);
    assert f.unread == MatchHead(ll, 3) + (MatchTail(dl, w + 1) + (tail + rest2));
    TokenRanges(ll, dl, w + 1);
    var g := HeadDecodes(w + 1, f, ll, 3, MatchTail(dl, w + 1) + (tail + rest2));
    c := TailDecodes(w + 1, g, dl, w + 1, tail + rest2);
    ViaLeads(w + 1, s, e);
    ViaLeads(w + 1, f, g);
    ViaLeads(w + 1, g, c);
    LeadsTrans(s, e, f);
    LeadsTrans(s, f, g);
    LeadsTrans(s, g, c);
  }

  lemma TokenRanges(ll: seq<nat>, dl: seq<nat>, dist: nat)
    requires TokenCoded(ll, dl, Match(3, dist)) && Usable(ll, dl)
    ensures ValidLens(ll) && ValidLens(dl) && Kraft(ll) <= Pow2(15) && Kraft(dl) <= Pow2(15)
    ensures Coded(ll, 257 + LengthCode(3)) && Coded(dl, DistCode(dist))
    ensures LenBase(LengthCode(3)) <= 3 < LenBase(LengthCode(3)) + Pow2(LenExtra(LengthCode(3)))
    ensures DistBase(DistCode(dist)) <= dist < DistBase(DistCode(dist)) + Pow2(DistExtra(DistCode(dist)))
  {
    hide LengthCode, DistCode, LenBase, DistBase, LenExtra, DistExtra, Kraft, Pow2;
    LengthCodeRange(3);
    DistCodeRange(dist);
  }

  lemma FixedStart(e: Config, body: BitString, f: Config)
    requires e.st.mode.Type? && !e.st.last && e.unread == TypeBits(1, true) + body
    requires f == Config(e.st.(mode := Len, last := true, llens := FixedLitLens(), dlens := FixedDistLens()), body)
    ensures Leads(e, f)
  {
    hide Leads, TypeBits, Field, FixedLitLens, FixedDistLens;
    TypeBitsRead(1, true, body);
    assert Step(e) == Some(f);
    LeadsStep(e);
  }

  lemma SecondBlock(w: nat, pos: nat) returns (rest: BitString)
    requires w < 32768 && AllWritable(FarMatch(w)) && AllWritable(FarMatch(w)[1..])
    requires AllCoded(FixedLitLens(), FixedDistLens(), [Match(3, w + 1)]) && Coded(FixedLitLens(), 256)
    ensures StreamFrom(FarMatch(w)[1..], pos)
      == TypeBits(1, true) + (BodyBits(FixedLitLens(), FixedDistLens(), [Match(3, w + 1)]) + rest)
  {
    hide TypeBits, BodyBits, FixedLitLens, FixedDistLens, AllCoded, Coded, ToBits;
    var bs := FarMatch(w)[1..];
    assert bs[0] == FarMatch(w)[1] && |bs| == 1;
    var b := BlockBits(bs[0], true, pos);
    rest := StreamFrom(bs[1..], pos + |b|);
    assert StreamFrom(bs, pos) == b + rest;
  }

  lemma WindowSizes(wbits: nat)
    requires 8 <= wbits <= 15
    ensures Pow2(15) == 32768 && (wbits < 15 ==> Pow2(wbits) < 32768)
  {
    hide Pow2;
    Pow2Values();
    if wbits < 15 {
      Pow2Mono(wbits, 14);
    }
  }

  lemma FarMatchDecodes(w: nat, u: BitString) returns (d: Config)
    requires AllWritable(FarMatch(w)) && StreamFits(0, FarMatch(w)) && u == StreamFrom(FarMatch(w), 0)
    ensures Leads(Config(InitState, u), d) && d.st.mode.Done? && d.unread == []
  {
    hide Leads, Via, AllWritable, StreamFits, StreamFrom, StreamExpand;
    assert StreamFrom(FarMatch(w), 0) + [] == u;
    d := StreamDecodes(w + 1, Config(InitState, u), FarMatch(w), 0, []);
    ViaLeads(w + 1, Config(InitState, u), d);
  }
}
