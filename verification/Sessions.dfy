/** Sessions of inflate() calls, whatever the window: for which streams all ways of splitting them agree, and what
    happens to the others (inflate.c: inflate). */
module Sessions {
  import opened Bits
  import opened Canonical
  import opened Symbols
  import opened Lz77
  import opened Decoder
  import opened MoreInput
  import opened BlockStream
  import opened Windowed
  import opened InflateSteps
  import opened Inflate
  import opened Chunking

  // ---------- calls and sessions ----------

  /** The machine runs from c to d, with what the window holds of earlier output, and stops there at the end, at an
      error, or because more is needed and all the input is spent or the output has its full length. */
  ghost predicate RunsOn(c: Config, floor: nat, d: Config, spent: bool, full: nat)
  {
    LeadsIn(c, floor, d) && |d.st.out| <= full
    && ((Waits(d, floor) && (spent || d.st.mode.Done? || d.st.mode.Bad?)) || (|d.st.out| == full && AwaitsRoom(d.st)))
  }

  /** A call that starts in c with some input and some room, takes `used` bytes of the input and ends in d. */
  ghost predicate CallRuns(c: Config, data: seq<Byte>, room: nat, d: Config, used: nat, wsize: nat)
  {
    used <= |data|
    && RunsOn(With(c, BytesToBits(data)), Floor(|c.st.out|, wsize), With(d, BytesToBits(data[used..])),
              used == |data|, |c.st.out| + room)
  }

  /** A call: where it starts, what had been taken before, what it is given, and how much of that it takes. */
  datatype Call = Call(from: Config, fed: seq<Byte>, data: seq<Byte>, room: nat, used: nat)

  /** The calls, one after the other on the same stream, lead to c, and fed has then been taken. */
  ghost predicate Session(stream: seq<Byte>, wsize: nat, calls: seq<Call>, c: Config, fed: seq<Byte>)
    decreases |calls|
  {
    if calls == [] then c == Config(InitState, []) && fed == []
    else
      var k := calls[|calls| - 1];
      && Session(stream, wsize, calls[..|calls| - 1], k.from, k.fed)
      && k.fed + k.data <= stream
      && CallRuns(k.from, k.data, k.room, c, k.used, wsize)
      && fed == k.fed + k.data[..k.used]
  }

  /** All sessions that come to an end on the stream agree on the output and on how it ended. */
  ghost predicate SessionsAgree(stream: seq<Byte>, wsize: nat)
  {
    forall calls, c, fed, calls', c', fed' ::
      Session(stream, wsize, calls, c, fed) && Finished(c, fed, stream)
      && Session(stream, wsize, calls', c', fed') && Finished(c', fed', stream) ==>
        c.st.out == c'.st.out && c.st.mode == c'.st.mode
  }

  /** The calls of inflate() are such calls. */
  method MakeCall(z: Inflater, data: seq<Byte>, buf: array<Byte>) returns (ret: int, used: nat, made: nat)
    requires z.Rests() && buf != z.win.buf
    modifies z, z.r, z.win, z.win.buf, z.lens, z.work, z.codes, buf
    ensures z.Rests() && used <= |data| && made <= buf.Length && z.Cfg().st.out == z.sent && z.Cfg().st.mode == z.mode
    ensures CallRuns(old(z.Cfg()), data, buf.Length, z.Cfg(), used, Pow2(z.win.wbits))
    ensures z.fed == old(z.fed) + data[..used] && z.sent == old(z.sent) + buf[..made]
    ensures ret == if z.mode.Done? then Z_STREAM_END else if z.mode.Bad? then Z_DATA_ERROR
                   else if used == made == 0 then Z_BUF_ERROR else Z_OK
  {
    hide *;
    Resting(z);
    ghost var c, wsize, bad := z.Cfg(), Pow2(z.win.wbits), z.mode.Bad?;
    ghost var f := Floor(|z.win.hist|, wsize);
    ret, used, made := z.Inflate(data, buf);
    Resting(z);
    LengthKept(z);
    ghost var d := z.Cfg();
    AwaitsIs(d.st);
    WithHas(c, BytesToBits(data));
    WithHas(d, BytesToBits(data[used..]));
    if bad {
      BadRuns(With(c, BytesToBits(data)), With(d, BytesToBits(data[used..])), f, Floor(|c.st.out|, wsize));
    }
    RunsIs(With(c, BytesToBits(data)), Floor(|c.st.out|, wsize), With(d, BytesToBits(data[used..])), used == |data|,
           |c.st.out| + buf.Length);
    CallIs(c, data, buf.Length, d, used, wsize);
  }

  /** After an error, any call leaves everything as it is. */
  lemma BadRuns(c: Config, d: Config, f: nat, g: nat)
    requires c.st.mode.Bad? && LeadsIn(c, f, d)
    ensures d == c && LeadsIn(c, g, d) && Waits(d, g)
  {
    hide *;
    BadStays(c, f, d);
    LeadsInRefl(c, g);
    BadStops(c, g);
    WaitsIs(c, g);
  }

  lemma RunsIs(c: Config, f: nat, d: Config, spent: bool, full: nat)
    requires LeadsIn(c, f, d) && |d.st.out| <= full
    requires (Waits(d, f) && (spent || d.st.mode.Done? || d.st.mode.Bad?)) || (|d.st.out| == full && AwaitsRoom(d.st))
    ensures RunsOn(c, f, d, spent, full)
  {
    hide LeadsIn, Waits, AwaitsRoom;
  }

  lemma RunsHas(c: Config, f: nat, d: Config, spent: bool, full: nat)
    requires RunsOn(c, f, d, spent, full)
    ensures LeadsIn(c, f, d) && |d.st.out| <= full
    ensures (Waits(d, f) && (spent || d.st.mode.Done? || d.st.mode.Bad?)) || (|d.st.out| == full && AwaitsRoom(d.st))
  {
    hide LeadsIn, Waits, AwaitsRoom;
  }

  lemma CallIs(c: Config, data: seq<Byte>, room: nat, d: Config, used: nat, wsize: nat)
    requires used <= |data|
    ensures CallRuns(c, data, room, d, used, wsize)
      <==> RunsOn(With(c, BytesToBits(data)), Floor(|c.st.out|, wsize), With(d, BytesToBits(data[used..])),
                  used == |data|, |c.st.out| + room)
  {
    hide RunsOn, With, Floor, BytesToBits;
  }

  // ---------- streams that stay near ----------

  /** Where the stream never goes back beyond the window, every session passes along the one run of the whole stream. */
  lemma {:induction false} SessionAlong(stream: seq<Byte>, wsize: nat, calls: seq<Call>, c: Config, fed: seq<Byte>)
    requires Nearby(stream, wsize) && Session(stream, wsize, calls, c, fed)
    ensures Along(c, fed, stream)
    decreases |calls|
  {
    hide Along, Nearby, LeadsIn, StepIn, BytesToBits;
    if calls == [] {
      AlongStart(stream);
    } else {
      var k := calls[|calls| - 1];
      SessionAlong(stream, wsize, calls[..|calls| - 1], k.from, k.fed);
      CallAlong(k.from, c, k.fed, k.data, k.used, |k.from.st.out|, stream, wsize);
    }
  }

  lemma NearbyAgree(stream: seq<Byte>, wsize: nat)
    requires Nearby(stream, wsize)
    ensures SessionsAgree(stream, wsize)
  {
    hide Along, Nearby, Session, Finished;
    forall calls, c, fed, calls', c', fed' |
      Session(stream, wsize, calls, c, fed) && Finished(c, fed, stream)
      && Session(stream, wsize, calls', c', fed') && Finished(c', fed', stream)
      ensures c.st.out == c'.st.out && c.st.mode == c'.st.mode
    {
      SessionAlong(stream, wsize, calls, c, fed);
      SessionAlong(stream, wsize, calls', c', fed');
      SplitsAgree(c, fed, c', fed', stream);
    }
  }

  // ---------- every run stops ----------

  /** Steps that take no input lower this. */
  function Rank(st: State): (n: nat)
  {
    match st.mode
    case Done => 0
    case Bad => 0
    case Type => 1
    case Len => 1
    case Dist => 1
    case Stored => 1
    case Table => 1
    case Lit => 2
    case Copying => 2
    case CodeLens => 2
    case LenExt => 2
    case LenLens => 3
    case Matching => 2 + st.length
    case DistExt => 3 + st.length
  }

  ghost predicate Lower(c: Config, d: Config)
  {
    |d.unread| < |c.unread| || (|d.unread| <= |c.unread| && Rank(d.st) < Rank(c.st))
  }

  lemma StepBeginsLower(c: Config)
    requires Step(c).Some?
      && (c.st.mode.Type? || c.st.mode.Stored? || c.st.mode.Copying? || c.st.mode.Table? || c.st.mode.LenLens?)
    ensures Lower(c, Step(c).value)
  {
    hide Field, FromBits, Acceptable, Permuted, FixedLitLens, FixedDistLens, Pow2;
  }

  lemma StepCodeLower(c: Config)
    requires Step(c).Some? && c.st.mode.CodeLens?
    ensures Lower(c, Step(c).value)
  {
    hide Find, Field, Acceptable, Kraft;
  }

  lemma StepBodyLower(c: Config)
    requires Step(c).Some?
      && !(c.st.mode.Type? || c.st.mode.Stored? || c.st.mode.Copying? || c.st.mode.Table? || c.st.mode.LenLens?
                                || c.st.mode.CodeLens?)
    ensures Lower(c, Step(c).value)
  {
    hide Find, Field, FromBits, Kraft, LenBase, LenExtra, DistBase, DistExtra, Pow2;
  }

  /** Decoding comes to an end on any input. */
  lemma {:induction false} Stops(c: Config) returns (d: Config)
    ensures Leads(c, d) && Step(d).None?
    decreases |c.unread|, Rank(c.st)
  {
    hide Step, Leads;
    if Step(c).None? {
      d := c;
      LeadsRefl(c);
    } else {
      if c.st.mode.CodeLens? {
        StepCodeLower(c);
      } else if c.st.mode.Type? || c.st.mode.Stored? || c.st.mode.Copying? || c.st.mode.Table? || c.st.mode.LenLens? {
        StepBeginsLower(c);
      } else {
        StepBodyLower(c);
      }
      LeadsStep(c);
      d := Stops(Step(c).value);
      LeadsTrans(c, Step(c).value, d);
    }
  }

  // ---------- streams that go further back ----------

  /** In a first call the window makes no difference. */
  lemma FirstCallStep(c: Config)
    ensures StepIn(c, 0) == Step(c)
  {
    hide StepType, StepStored, StepCopying, StepTable, StepLenLens, StepCodeLens, StepLen, StepLenExt, StepDist,
      StepDistExt, StepLit;
  }

  lemma {:induction false} FirstCallRun(c: Config, n: nat)
    ensures RunIn(c, 0, n) == Run(c, n)
    decreases n
  {
    hide Step, StepIn;
    if n > 0 {
      FirstCallStep(c);
      if Step(c).Some? {
        FirstCallRun(Step(c).value, n - 1);
      }
    }
  }

  lemma FirstCallLeads(c: Config, d: Config)
    ensures LeadsIn(c, 0, d) <==> Leads(c, d)
  {
    hide Run, RunIn;
    forall n: nat
      ensures RunIn(c, 0, n) == Run(c, n)
    {
      FirstCallRun(c, n);
    }
  }

  /** A match that is under way and reaches back beyond the window, though not beyond the output. */
  ghost predicate Far(e: Config, wsize: nat)
  {
    e.st.mode.Matching? && wsize < e.st.offset <= |e.st.out|
  }

  lemma FarIs(e: Config, wsize: nat)
    ensures Far(e, wsize) <==> !Tame(wsize, e)
  {
  }

  lemma NotNearby(stream: seq<Byte>, wsize: nat) returns (e: Config)
    requires !Nearby(stream, wsize)
    ensures Leads(Config(InitState, BytesToBits(stream)), e) && Far(e, wsize)
  {
    hide Leads, Tame, BytesToBits, Far;
    e :| Leads(Config(InitState, BytesToBits(stream)), e) && !Tame(wsize, e);
    FarIs(e, wsize);
  }

  /** The machine that remembers everything writes on, the next call finds an error. */
  lemma FarSteps(e: Config, wsize: nat)
    requires Far(e, wsize)
    ensures Step(e).Some? && |Step(e).value.st.out| == |e.st.out| + 1
    ensures StepIn(e, Floor(|e.st.out|, wsize)) == Some(Config(e.st.(mode := Bad), e.unread))
  {
    hide StepType, StepStored, StepCopying, StepTable, StepLenLens, StepCodeLens, StepLen, StepLenExt, StepDist,
      StepDistExt, StepLit;
  }

  lemma WithNothing(c: Config)
    ensures With(c, BytesToBits([])) == c
  {
    assert c.unread + [] == c.unread;
  }

  lemma NothingLeft(stream: seq<Byte>)
    ensures stream[|stream|..] == [] && [] + stream == stream && stream[..|stream|] == stream
    ensures With(Config(InitState, []), BytesToBits(stream)) == Config(InitState, BytesToBits(stream))
  {
    hide BytesToBits;
    var bits := BytesToBits(stream);
    assert [] + bits == bits;
    TakeAll(stream);
  }

  lemma TakeAll(stream: seq<Byte>)
    ensures stream[|stream|..] == [] && [] + stream == stream && stream[..|stream|] == stream
  {
  }

  /** One call with all the input and room for all the output. */
  lemma OneCall(stream: seq<Byte>, wsize: nat, d: Config) returns (calls: seq<Call>)
    requires Leads(Config(InitState, BytesToBits(stream)), d) && Step(d).None?
    ensures Session(stream, wsize, calls, d, stream) && Finished(d, stream, stream)
  {
    hide Leads, LeadsIn, Step, StepIn, BytesToBits;
    var k := Call(Config(InitState, []), [], stream, |d.st.out|, |stream|);
    calls := [k];
    NothingLeft(stream);
    WithNothing(d);
    FirstCallLeads(Config(InitState, BytesToBits(stream)), d);
    FirstCallStep(d);
    assert CallRuns(k.from, stream, k.room, d, k.used, wsize);
    assert calls[..0] == [];
    assert Session(stream, wsize, calls[..0], k.from, []);
  }

  /** A first call with just the room up to the match, and then another call with room for one more byte. */
  lemma TwoCalls(stream: seq<Byte>, wsize: nat, e: Config) returns (calls: seq<Call>, b: Config)
    requires Leads(Config(InitState, BytesToBits(stream)), e) && Far(e, wsize)
    ensures Session(stream, wsize, calls, b, stream) && Finished(b, stream, stream) && b.st.mode.Bad?
      && b.st.out == e.st.out
  {
    hide Leads, LeadsIn, Step, StepIn, BytesToBits, Floor;
    var k := Call(Config(InitState, []), [], stream, |e.st.out|, |stream|);
    NothingLeft(stream);
    WithNothing(e);
    FirstCallLeads(Config(InitState, BytesToBits(stream)), e);
    FloorNone(wsize);
    assert CallRuns(k.from, stream, k.room, e, k.used, wsize);
    assert [k][..0] == [];
    assert Session(stream, wsize, [k][..0], k.from, []);
    assert Session(stream, wsize, [k], e, stream);
    var m := Call(e, stream, [], 1, 0);
    b := Config(e.st.(mode := Bad), e.unread);
    FarSteps(e, wsize);
    LeadsInStep(e, Floor(|e.st.out|, wsize));
    WithNothing(b);
    BadStops(b, Floor(|e.st.out|, wsize));
    NoData(m.data, stream);
    assert CallRuns(m.from, m.data, m.room, b, m.used, wsize);
    calls := [k, m];
    assert calls[..1] == [k];
  }

  lemma FloorNone(wsize: nat)
    ensures Floor(0, wsize) == 0
  {
  }

  lemma BadStops(b: Config, f: nat)
    requires b.st.mode.Bad?
    ensures Step(b).None? && StepIn(b, f).None?
  {
  }

  lemma NoData(data: seq<Byte>, stream: seq<Byte>)
    requires data == []
    ensures data[0..] == [] && data[..0] == [] && stream + data == stream
  {
  }

  lemma FarDiffer(stream: seq<Byte>, wsize: nat)
    requires !Nearby(stream, wsize)
    ensures !SessionsAgree(stream, wsize)
  {
    hide Leads, Step, StepIn, BytesToBits, Floor, Session, Finished, Nearby;
    var e := NotNearby(stream, wsize);
    var s := Config(InitState, BytesToBits(stream));
    var d := Stops(s);
    var one := OneCall(stream, wsize, d);
    var two, b := TwoCalls(stream, wsize, e);
    FarSteps(e, wsize);
    Confluent(s, e, d);
    FarBefore(e, d);
    assert d.st.out != b.st.out;
  }

  /** What comes after the match has more output than what comes before it. */
  lemma FarBefore(e: Config, d: Config)
    requires Leads(e, d) && Step(d).None? && Step(e).Some? && |Step(e).value.st.out| == |e.st.out| + 1
    ensures |d.st.out| > |e.st.out|
  {
    hide Leads, Step;
    LeadsStep(e);
    Confluent(e, Step(e).value, d);
    LeadsOut(Step(e).value, d);
  }

  /** All finished sessions over a stream agree on the output and on the verdict exactly if no match that the stream's
      decoding meets reaches back beyond the window. */
  lemma AgreeExactly(stream: seq<Byte>, wsize: nat)
    ensures SessionsAgree(stream, wsize) <==> Nearby(stream, wsize)
  {
    hide SessionsAgree, Nearby;
    if Nearby(stream, wsize) {
      NearbyAgree(stream, wsize);
    } else {
      FarDiffer(stream, wsize);
    }
  }

  // ---------- the same with inflate() itself ----------

  /** A call that is given the whole stream and room up to the match stops exactly there. */
  lemma StopsAtFar(stream: seq<Byte>, e: Config, f: Config, wsize: nat)
    requires Leads(Config(InitState, BytesToBits(stream)), e) && Far(e, wsize)
    requires Leads(Config(InitState, BytesToBits(stream)), f) && |f.st.out| <= |e.st.out|
    requires Step(f).None? || (|f.st.out| == |e.st.out| && AwaitsRoom(f.st))
    ensures f == e
  {
    hide Leads, Step, BytesToBits, Far;
    var s := Config(InitState, BytesToBits(stream));
    FarSteps(e, wsize);
    Ordered(s, e, f);
    if Leads(e, f) {
      if e != f {
        AfterFar(e, f);
      }
    } else {
      StepsOn(f, e);
      FarHas(e, wsize);
      GrowsOrBad(f);
      var g := Step(f).value;
      if g.st.mode.Bad? {
        BadLeads(g, e);
      } else {
        LeadsOut(g, e);
      }
    }
  }

  lemma FarHas(e: Config, wsize: nat)
    requires Far(e, wsize)
    ensures e.st.mode.Matching?
  {
  }

  /** Of two configurations on one run, one comes first. */
  lemma Ordered(s: Config, e: Config, f: Config)
    requires Leads(s, e) && Leads(s, f)
    ensures Leads(e, f) || Leads(f, e)
  {
    hide Run;
    var m: nat :| Run(s, m) == e;
    var n: nat :| Run(s, n) == f;
    if m <= n {
      RunRun(s, m, n - m);
      assert Run(e, n - m) == f;
    } else {
      RunRun(s, n, m - n);
      assert Run(f, m - n) == e;
    }
  }

  lemma AfterFar(e: Config, f: Config)
    requires Leads(e, f) && e != f && Step(e).Some? && |Step(e).value.st.out| == |e.st.out| + 1
    ensures |f.st.out| > |e.st.out|
  {
    hide Step;
    var n: nat :| Run(e, n) == f;
    if n > 0 {
      RunOut(Step(e).value, n - 1);
    }
  }

  lemma StepsOn(f: Config, e: Config)
    requires Leads(f, e) && !Leads(e, f)
    ensures Step(f).Some? && Leads(Step(f).value, e)
  {
    hide Step;
    var n: nat :| Run(f, n) == e;
    if n == 0 || Step(f).None? {
      RunNone(f, n);
      LeadsRefl(f);
    } else {
      assert Run(Step(f).value, n - 1) == e;
    }
  }

  lemma RunNone(f: Config, n: nat)
    requires n == 0 || Step(f).None?
    ensures Run(f, n) == f
  {
  }

  lemma GrowsOrBad(f: Config)
    requires Step(f).Some? && AwaitsRoom(f.st)
    ensures Step(f).value.st.mode.Bad? || |Step(f).value.st.out| > |f.st.out|
  {
    hide FromBits;
  }

  lemma BadLeads(g: Config, e: Config)
    requires g.st.mode.Bad? && Leads(g, e)
    ensures e == g
  {
    hide Step;
    BadStops(g, 0);
    var n: nat :| Run(g, n) == e;
    RunNone(g, n);
  }

  lemma DoneStays(d: Config)
    requires d.st.mode.Done? || d.st.mode.Bad?
    ensures Step(d).None?
  {
  }

  /** Decoding the stream comes to a match that reaches back beyond the window, after n bytes of output. */
  ghost predicate FarAt(stream: seq<Byte>, wsize: nat, n: nat)
  {
    exists e :: Leads(Config(InitState, BytesToBits(stream)), e) && Far(e, wsize) && |e.st.out| == n
  }

  lemma FarAtSet(stream: seq<Byte>, wsize: nat, e: Config)
    requires Leads(Config(InitState, BytesToBits(stream)), e) && Far(e, wsize)
    ensures FarAt(stream, wsize, |e.st.out|)
  {
    hide Leads, BytesToBits, Far;
  }

  lemma FarAtHas(stream: seq<Byte>, wsize: nat, n: nat) returns (e: Config)
    requires FarAt(stream, wsize, n)
    ensures Leads(Config(InitState, BytesToBits(stream)), e) && Far(e, wsize) && |e.st.out| == n
  {
    hide Leads, BytesToBits, Far;
    e :| Leads(Config(InitState, BytesToBits(stream)), e) && Far(e, wsize) && |e.st.out| == n;
  }

  /** The stream is complete, and the text is what it stands for. */
  ghost predicate DecodesTo(stream: seq<Byte>, text: seq<Byte>)
  {
    exists d :: Leads(Config(InitState, BytesToBits(stream)), d) && d.st.mode.Done? && d.st.out == text
  }

  lemma DecodesToHas(stream: seq<Byte>, text: seq<Byte>) returns (d: Config)
    requires DecodesTo(stream, text)
    ensures Leads(Config(InitState, BytesToBits(stream)), d) && d.st.mode.Done? && d.st.out == text && Step(d).None?
  {
    hide Leads, BytesToBits, Step;
    d :| Leads(Config(InitState, BytesToBits(stream)), d) && d.st.mode.Done? && d.st.out == text;
    DoneStays(d);
  }

  lemma CallHas(c: Config, data: seq<Byte>, room: nat, d: Config, used: nat, wsize: nat)
    requires CallRuns(c, data, room, d, used, wsize)
    ensures used <= |data| && |d.st.out| <= |c.st.out| + room
    ensures LeadsIn(With(c, BytesToBits(data)), Floor(|c.st.out|, wsize), With(d, BytesToBits(data[used..])))
    ensures Waits(With(d, BytesToBits(data[used..])), Floor(|c.st.out|, wsize))
      || (|d.st.out| == |c.st.out| + room && AwaitsRoom(d.st))
  {
    hide RunsOn, With, Floor, BytesToBits, LeadsIn, Waits, AwaitsRoom;
    RunsHas(With(c, BytesToBits(data)), Floor(|c.st.out|, wsize), With(d, BytesToBits(data[used..])), used == |data|,
            |c.st.out| + room);
    WithHas(d, BytesToBits(data[used..]));
  }

  /** The first call on a stream does what the machine does that remembers everything. */
  lemma FirstCall(stream: seq<Byte>, room: nat, d: Config, used: nat, wsize: nat)
    requires CallRuns(Config(InitState, []), stream, room, d, used, wsize)
    ensures used <= |stream| && |d.st.out| <= room
    ensures Leads(Config(InitState, BytesToBits(stream)), With(d, BytesToBits(stream[used..])))
    ensures Step(With(d, BytesToBits(stream[used..]))).None? || (|d.st.out| == room && AwaitsRoom(d.st))
  {
    hide *;
    CallHas(Config(InitState, []), stream, room, d, used, wsize);
    NothingLeft(stream);
    StartEmpty();
    FloorNone(wsize);
    var f := With(d, BytesToBits(stream[used..]));
    FirstCallLeads(Config(InitState, BytesToBits(stream)), f);
    FirstCallStep(f);
    WaitsIs(f, 0);
  }

  lemma StartEmpty()
    ensures InitState.out == []
  {
  }

  /** A call that starts at the far match and has some room finds an error at once. */
  lemma NextCallBad(c: Config, data: seq<Byte>, room: nat, d: Config, used: nat, wsize: nat)
    requires CallRuns(c, data, room, d, used, wsize) && Far(With(c, BytesToBits(data)), wsize) && room > 0
    ensures d.st.mode.Bad? && d.st.out == c.st.out
  {
    hide *;
    CallHas(c, data, room, d, used, wsize);
    var e, f, g := With(c, BytesToBits(data)), Floor(|c.st.out|, wsize), With(d, BytesToBits(data[used..]));
    WithHas(c, BytesToBits(data));
    WithHas(d, BytesToBits(data[used..]));
    FarSteps(e, wsize);
    WaitsIs(g, f);
    var b := StepIn(e, f).value;
    LeadsInOne(e, f, g);
    if e != g {
      BadStays(b, f, g);
    }
  }

  lemma LeadsInOne(e: Config, f: nat, g: Config)
    requires LeadsIn(e, f, g) && StepIn(e, f).Some?
    ensures g == e || LeadsIn(StepIn(e, f).value, f, g)
  {
    hide StepIn;
    var n: nat :| RunIn(e, f, n) == g;
    if n > 0 {
      assert RunIn(StepIn(e, f).value, f, n - 1) == g;
    }
  }

  /** A call that is given the whole stream and room for all it stands for decodes all of it. */
  lemma WholeCall(stream: seq<Byte>, room: nat, f: Config, d: Config)
    requires Leads(Config(InitState, BytesToBits(stream)), f) && |f.st.out| <= room
    requires Step(f).None? || (|f.st.out| == room && AwaitsRoom(f.st))
    requires Leads(Config(InitState, BytesToBits(stream)), d) && d.st.mode.Done? && Step(d).None? && |d.st.out| <= room
    ensures f == d
  {
    hide Leads, Step, BytesToBits;
    var s := Config(InitState, BytesToBits(stream));
    Confluent(s, f, d);
    if Step(f).None? {
      StuckLeads(f, d);
    } else {
      GrowsOrBad(f);
      LeadsStep(f);
      Confluent(f, Step(f).value, d);
      if Step(f).value.st.mode.Bad? {
        BadLeads(Step(f).value, d);
      } else {
        LeadsOut(Step(f).value, d);
      }
    }
  }

  /** Splitting such a stream over two calls loses it: the first is given room up to the match, the second finds an
      error there, while one call with room for everything decodes it. */
  method SplitLoses(stream: seq<Byte>, wbits: nat, room: nat, total: nat, ghost text: seq<Byte>)
      returns (ret: int, first: seq<Byte>, whole: int, output: seq<Byte>)
    requires 8 <= wbits <= 15 && FarAt(stream, Pow2(wbits), room) && DecodesTo(stream, text) && |text| <= total
    ensures ret == Z_DATA_ERROR && room < |text| && first == text[..room]
    ensures whole == Z_STREAM_END && output == text
  {
    hide *;
    ghost var e := FarAtHas(stream, Pow2(wbits), room);
    ghost var d := DecodesToHas(stream, text);
    ret, first := TwoRealCalls(stream, wbits, room, e);
    whole, output := OneRealCall(stream, wbits, total, d);
    FarSteps(e, Pow2(wbits));
    Confluent(Config(InitState, BytesToBits(stream)), e, d);
    FarBefore(e, d);
    LeadsOut(e, d);
  }

  method TwoRealCalls(stream: seq<Byte>, wbits: nat, room: nat, ghost e: Config) returns (ret: int, output: seq<Byte>)
    requires 8 <= wbits <= 15 && room == |e.st.out|
    requires Leads(Config(InitState, BytesToBits(stream)), e) && Far(e, Pow2(wbits))
    ensures ret == Z_DATA_ERROR && output == e.st.out
  {
    hide *;
    var z := new Inflater(wbits);
    StartsResting(z);
    var buf := new Byte[room];
    var used, made;
    ret, used, made := MakeCall(z, stream, buf);
    Resting(z);
    ghost var c := z.Cfg();
    FirstCall(stream, room, c, used, Pow2(wbits));
    WithHas(c, BytesToBits(stream[used..]));
    StopsAtFar(stream, e, With(c, BytesToBits(stream[used..])), Pow2(wbits));
    output := buf[..made];
    var rest, more := stream[used..], new Byte[1];
    ret, used, made := MakeCall(z, rest, more);
    Resting(z);
    NextCallBad(c, rest, 1, z.Cfg(), used, Pow2(wbits));
    output := output + more[..made];
    BadIsNot();
  }

  lemma BadIsNot()
    ensures Mode.Bad != Mode.Done
  {
  }

  method OneRealCall(stream: seq<Byte>, wbits: nat, room: nat, ghost d: Config) returns (ret: int, output: seq<Byte>)
    requires 8 <= wbits <= 15 && d.st.mode.Done? && Step(d).None? && |d.st.out| <= room
    requires Leads(Config(InitState, BytesToBits(stream)), d)
    ensures ret == Z_STREAM_END && output == d.st.out
  {
    hide *;
    var z := new Inflater(wbits);
    StartsResting(z);
    var buf := new Byte[room];
    var used, made;
    ret, used, made := MakeCall(z, stream, buf);
    Resting(z);
    ghost var c := z.Cfg();
    FirstCall(stream, room, c, used, Pow2(wbits));
    WithHas(c, BytesToBits(stream[used..]));
    WholeCall(stream, room, With(c, BytesToBits(stream[used..])), d);
    output := buf[..made];
  }

  /** Input and room must come together: calls that are given room and no input, and then the input and no room, put out
      nothing, though they offer the whole stream and room for all it stands for. */
  method RoomBeforeInput(stream: seq<Byte>, wbits: nat, room: nat) returns (output: seq<Byte>)
    requires 8 <= wbits <= 15
    ensures output == []
  {
    hide *;
    var z := new Inflater(wbits);
    StartsResting(z);
    var buf, none := new Byte[room], new Byte[0];
    var ret, used, made := MakeCall(z, [], buf);
    Resting(z);
    NoInputNoOutput(room, z.Cfg(), used, Pow2(wbits));
    output := buf[..made];
    ret, used, made := MakeCall(z, stream, none);
    output := output + none[..made];
  }

  lemma NoInputNoOutput(room: nat, d: Config, used: nat, wsize: nat)
    requires CallRuns(Config(InitState, []), [], room, d, used, wsize)
    ensures d.st.out == []
  {
    hide *;
    FirstCall([], room, d, used, wsize);
    StartStuck();
    StuckLeads(Config(InitState, BytesToBits([])), With(d, BytesToBits([][used..])));
    StartEmpty();
    WithHas(d, BytesToBits([][used..]));
  }

  lemma StartStuck()
    ensures Step(Config(InitState, BytesToBits([]))).None?
  {
  }

  /** One call that is given a whole stream and room for its text. */
  method WholeStreamCall(stream: seq<Byte>, wbits: nat, room: nat, ghost text: seq<Byte>)
      returns (ret: int, output: seq<Byte>)
    requires 8 <= wbits <= 15 && DecodesTo(stream, text) && |text| <= room
    ensures ret == Z_STREAM_END && output == text
  {
    hide *;
    ghost var d := DecodesToHas(stream, text);
    ret, output := OneRealCall(stream, wbits, room, d);
  }

  // ---------- which windows never lose anything ----------

  /** The bytes of a whole number of them in bits. */
  ghost function Packed(u: BitString): (s: seq<Byte>)
    requires |u| % 8 == 0
    ensures BytesToBits(s) == u
  {
    if u == [] then []
    else
      FromBitsBound(u[..8]);
      ToFromBits(u[..8]);
      assert Pow2(8) == 256 by { Pow2Values(); }
      var s: seq<Byte> := [FromBits(u[..8]) as Byte] + Packed(u[8..]);
      assert s[1..] == Packed(u[8..]);
      assert u[..8] + u[8..] == u;
      s
  }

  /** Every window but the largest loses some complete stream. */
  lemma SmallWindowLoses(wbits: nat) returns (stream: seq<Byte>, text: seq<Byte>)
    requires 8 <= wbits < 15
    ensures FarAt(stream, Pow2(wbits), Pow2(wbits) + 1) && DecodesTo(stream, text)
  {
    hide *;
    var w := Pow2(wbits);
    WindowSizes(wbits);
    var c, u := FarMatchReached(w);
    stream := Packed(u);
    FarIsMatch(c, w);
    FarAtSet(stream, w, c);
    FarMatchWritable(w);
    var d := FarMatchDecodes(w, u);
    text := d.st.out;
    DecodesToSet(stream, d);
  }

  lemma FarIsMatch(e: Config, w: nat)
    requires e.st.mode.Matching? && e.st.offset == w + 1 == |e.st.out|
    ensures Far(e, w)
  {
  }

  lemma DecodesToSet(stream: seq<Byte>, d: Config)
    requires Leads(Config(InitState, BytesToBits(stream)), d) && d.st.mode.Done?
    ensures DecodesTo(stream, d.st.out)
  {
    hide Leads, BytesToBits;
  }

  /** Sessions over all streams agree exactly if the window has its full size. */
  lemma AgreeAlways(wbits: nat)
    requires 8 <= wbits <= 15
    ensures (forall stream :: SessionsAgree(stream, Pow2(wbits))) <==> wbits == 15
  {
    hide *;
    WindowSizes(wbits);
    if wbits == 15 {
      forall stream: seq<Byte>
        ensures SessionsAgree(stream, Pow2(wbits))
      {
        FullNearby(stream);
        AgreeExactly(stream, Pow2(wbits));
      }
    } else {
      var stream, text := SmallWindowLoses(wbits);
      var e := FarAtHas(stream, Pow2(wbits), Pow2(wbits) + 1);
      NearbyNot(stream, Pow2(wbits), e);
      AgreeExactly(stream, Pow2(wbits));
    }
  }

  /** A stream stays near exactly if it never comes to such a match. */
  lemma FarExactly(stream: seq<Byte>, wsize: nat)
    ensures !Nearby(stream, wsize) <==> exists n :: FarAt(stream, wsize, n)
  {
    hide *;
    if !Nearby(stream, wsize) {
      var e := NotNearby(stream, wsize);
      FarAtSet(stream, wsize, e);
    } else if n: nat :| FarAt(stream, wsize, n) {
      var e := FarAtHas(stream, wsize, n);
      NearbyNot(stream, wsize, e);
    }
  }

  lemma NearbyNot(stream: seq<Byte>, wsize: nat, e: Config)
    requires Leads(Config(InitState, BytesToBits(stream)), e) && Far(e, wsize)
    ensures !Nearby(stream, wsize)
  {
    hide Leads, BytesToBits, Far, Tame, Nearby;
    FarIs(e, wsize);
    if Nearby(stream, wsize) {
      NearbyHas(stream, wsize, e);
    }
  }

  lemma StartsResting(i: Inflater)
    requires i.Inv() && i.put == 0 && i.r.next == |i.r.input| && i.r.bits == 0
    ensures i.Rests()
  {
    hide *;
    i.Parts();
    i.TightFew();
    i.RestsIs();
  }
}
