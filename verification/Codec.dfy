/** Compressor and decompressor together: what was compressed, in whatever way and however the calls were
    made, is what decompression gives back. */
module Codec {
  import opened Bits
  import opened Lz77
  import opened Decoder
  import opened MoreInput
  import opened BlockStream
  import opened Encoder
  import opened ShortestCode
  import opened TokenStory
  import opened Windowed
  import opened Inflate
  import opened Chunking
  import opened Sessions
  import opened Parsing
  import D = Deflater

  /** The symbols decided on so far stand for the bytes read, less the lookahead and less the one byte that may
      still be waiting for a better match. */
  lemma SymbolsExpand(z: D.Deflater)
    requires z.Valid() && !z.finished
    ensures z.lookahead + (if z.matchAvailable then 1 else 0) <= |z.read| && z.enc.Syms()
    ensures var from, upto := z.base + z.blockStart, |z.read| - z.lookahead - if z.matchAvailable then 1 else 0;
            0 <= from <= upto
            && AllWritable(z.blocks) && StreamFits(0, z.blocks) && StreamExpand([], z.blocks) == z.read[..from]
            && Expandable(from, z.enc.Tokens()) && Expand(z.read[..from], z.enc.Tokens()) == z.read[..upto]
  {
    hide *;
    z.ValidHas();
    z.RunningHas();
    z.SettledHas(z.Upto());
    z.StoryHas(z.Upto());
    z.HeldHas();
    z.UptoIs();
    ToldParts(z.wsize, z.blocks, z.enc.Tokens(), z.base + z.blockStart, z.Upto(), z.read);
  }

  /** The symbols emitted so far are what the strategy makes of the input: every decision is the one it calls for, made
      with enough of the input in sight, and they lead to the symbols of the blocks and those tallied. */
  lemma SymbolsParsed(z: D.Deflater)
    requires z.Valid()
    ensures Lawful(z.TheRules(), z.read, Marks(z.ends, z.starts), z.turns)
    ensures Replay(z.tuning.strategy, z.turns).tokens == z.tokens
    ensures z.finished ==> var p := Replay(z.tuning.strategy, z.turns); p.pos == |z.read| && !p.waits
    ensures z.finished ==> Accounted(z.blocks, z.made, z.tuning.fixed, z.tokens, [])
    ensures !z.finished ==>
              z.enc.Syms() && Accounted(z.blocks, z.made, z.tuning.fixed, z.tokens, z.enc.Tokens())
  {
    hide *;
    z.ValidHas();
    z.NowIs();
    if z.finished {
      z.OverHas();
      z.ClosedHas();
    } else {
      z.RunningHas();
      z.SettledHas(z.Upto());
      z.StoryHas(z.Upto());
    }
    z.ParsesHas();
    z.RulesIs();
    ParsedHas(z.TheRules(), z.read, Marks(z.ends, z.starts), z.turns, z.missed, z.Now());
  }

  /** Every block sent is the cheapest for its symbols, or the marker of a flush. */
  lemma BlocksCheapest(z: D.Deflater, i: nat)
    requires z.Valid() && i < |z.blocks|
    ensures |z.made| == |z.blocks|
    ensures var b, m := z.blocks[i], z.made[i];
            if m.Marker? then b == FixedBlock([]) || b == StoredBlock([])
            else BuiltFrom(m.dyn, m.lt, m.dt) && Cheapest(b, m.dyn, m.ts, m.buf, m.last, m.pos, z.tuning.fixed)
                 && (b.StoredBlock? ==> m.buf == Some(b.data)) && (!b.StoredBlock? ==> b.tokens == m.ts)
  {
    hide *;
    SymbolsParsed(z);
    AccountedHas(z.blocks, z.made, z.tuning.fixed, z.tokens, if z.finished then [] else z.enc.Tokens(), i);
    MadeFromHas(z.blocks[i], z.made[i], z.tuning.fixed);
  }

  lemma ToldParts(far: nat, bs: seq<Block>, ts: seq<Token>, from: nat, upto: nat, input: seq<Byte>)
    requires Told(far, bs, ts, from, upto, input)
    ensures from <= upto <= |input| && AllWritable(bs) && StreamFits(0, bs) && StreamExpand([], bs) == input[..from]
    ensures Expandable(from, ts) && Expand(input[..from], ts) == input[..upto] && NearBlocks(bs, far)
  {
    hide AllWritable, StreamFits, StreamExpand, Expand, Expandable, NearBlocks;
  }

  /** A closed stream decodes to the input, its last bit is the last bit read, and no match on the way reaches back
      beyond the compressor's window. */
  lemma StreamDecodesBack(far: nat, bs: seq<Block>, input: seq<Byte>) returns (d: Config)
    requires AllWritable(bs) && bs != [] && Told(far, bs, [], |input|, |input|, input)
    ensures Via(far, Config(InitState, TokenStory.Sent(bs, true)), d)
    ensures d.st.mode.Done? && d.st.out == input && d.unread == []
  {
    hide *;
    ToldParts(far, bs, [], |input|, |input|, input);
    SentStream(bs);
    Starting(StreamFrom(bs, 0));
    d := StreamDecodes(far, Config(InitState, StreamFrom(bs, 0)), bs, 0, []);
    assert input[..|input|] == input;
  }

  lemma Starting(u: BitString)
    ensures var c := Config(InitState, u); AtBlock(c, u + []) && c.st.out == []
  {
    assert u + [] == u;
  }

  /** Where a finished stream leads. */
  lemma Whole(z: D.Deflater) returns (d: Config)
    requires z.Valid() && z.finished
    ensures Via(z.wsize, Config(InitState, BytesToBits(z.enc.w.pending)), d)
    ensures d.st.mode.Done? && d.st.out == z.read && Step(d).None?
  {
    hide *;
    z.ValidHas();
    z.ClosedHas();
    d := StreamDecodesBack(z.wsize, z.blocks, z.read);
    DoneStays(d);
  }

  /** After a full flush decompression can start afresh: the bytes behind the last one are a complete stream by
      themselves, which stands for the input read since then. */
  lemma RestartDecodes(z: D.Deflater) returns (d: Config)
    requires z.Valid() && z.finished
    ensures z.anew.mark <= |z.enc.w.pending| && z.anew.since <= |z.read|
    ensures Via(z.wsize, Config(InitState, BytesToBits(z.enc.w.pending[z.anew.mark..])), d)
    ensures d.st.mode.Done? && d.st.out == z.read[z.anew.since..] && d.unread == []
  {
    hide *;
    z.ValidHas();
    z.ClosedHas();
    var a, bs := z.anew, z.blocks;
    AfreshHas(z.wsize, bs, [], |z.read|, |z.read|, z.read, z.enc.w.pending, a);
    RestIsStream(bs, a.cut, z.enc.w.pending, a.mark);
    assert bs[a.cut..] != [] && |z.read[a.since..]| == |z.read| - a.since;
    d := StreamDecodesBack(z.wsize, bs[a.cut..], z.read[a.since..]);
  }

  /** A decompressor whose window is no smaller than the compressor's holds everything the stream refers to. */
  lemma WindowSuffices(z: D.Deflater, wbits: nat)
    requires z.Valid() && z.finished && z.wbits <= wbits
    ensures Nearby(z.enc.w.pending, Pow2(wbits))
  {
    hide *;
    var d := Whole(z);
    var s := Config(InitState, BytesToBits(z.enc.w.pending));
    forall e | Leads(s, e)
      ensures Tame(z.wsize, e)
    {
      ViaAll(z.wsize, s, d, e);
    }
    NearbyIs(z.enc.w.pending, z.wsize);
    z.ValidHas();
    z.WindowIs();
    Pow2Mono(z.wbits, wbits);
    NearbyMore(z.enc.w.pending, z.wsize, Pow2(wbits));
  }

  lemma NearbyIs(stream: seq<Byte>, far: nat)
    requires forall e :: Leads(Config(InitState, BytesToBits(stream)), e) ==> Tame(far, e)
    ensures Nearby(stream, far)
  {
    hide Leads, Tame, BytesToBits;
  }

  /** Compressing and decompressing gives the input back: for every input, strategy and tuning, memory level and window
      size, however the input was split over calls of deflate and wherever it was flushed, and however the compressed
      bytes and the room for output are split over calls of inflate. */
  lemma RoundTrip(z: D.Deflater, c: Config, fed: seq<Byte>)
    requires z.Valid() && z.finished
    requires Along(c, fed, z.enc.w.pending) && Finished(c, fed, z.enc.w.pending)
    ensures c.st.mode.Done? && c.st.out == z.read
  {
    hide *;
    var bytes := z.enc.w.pending;
    var d := Whole(z);
    ViaLeads(z.wsize, Config(InitState, BytesToBits(bytes)), d);
    AlongHas(c, fed, bytes);
    FinishedHas(c, fed, bytes);
    var c1 := With(c, BytesToBits(bytes[|fed|..]));
    Confluent(Config(InitState, BytesToBits(bytes)), d, c1);
    StuckLeads(d, c1);
    WithHas(c, BytesToBits(bytes[|fed|..]));
  }

  /** Before the end, what has been decompressed is a beginning of the input, and no error is ever found. */
  lemma RoundTripSoFar(z: D.Deflater, c: Config, fed: seq<Byte>)
    requires z.Valid() && z.finished && Along(c, fed, z.enc.w.pending)
    ensures c.st.out <= z.read && !c.st.mode.Bad? && (c.st.mode.Done? ==> c.st.out == z.read)
  {
    hide *;
    var bytes := z.enc.w.pending;
    var d := Whole(z);
    ViaLeads(z.wsize, Config(InitState, BytesToBits(bytes)), d);
    AlongHas(c, fed, bytes);
    var c1 := With(c, BytesToBits(bytes[|fed|..]));
    Confluent(Config(InitState, BytesToBits(bytes)), c1, d);
    LeadsOut(c1, d);
    WithHas(c, BytesToBits(bytes[|fed|..]));
    if c.st.mode.Bad? || c.st.mode.Done? {
      DoneStays(c1);
      StuckLeads(c1, d);
    }
  }

  /** Whatever part of the stream is decoded, it yields a beginning of the text, and all of it at the end. */
  ghost predicate Restores(stream: seq<Byte>, text: seq<Byte>)
  {
    forall c, fed :: Along(c, fed, stream) ==>
      c.st.out <= text && !c.st.mode.Bad? && (c.st.mode.Done? ==> c.st.out == text)
  }

  lemma FinishedRestores(z: D.Deflater)
    requires z.Valid() && z.finished
    ensures Restores(z.enc.w.pending, z.read)
  {
    hide Along;
    forall c, fed | Along(c, fed, z.enc.w.pending)
      ensures c.st.out <= z.read && !c.st.mode.Bad? && (c.st.mode.Done? ==> c.st.out == z.read)
    {
      RoundTripSoFar(z, c, fed);
    }
  }

  lemma RestoresHas(stream: seq<Byte>, text: seq<Byte>, c: Config, fed: seq<Byte>)
    requires Restores(stream, text) && Along(c, fed, stream)
    ensures c.st.out <= text && !c.st.mode.Bad? && (c.st.mode.Done? ==> c.st.out == text)
  {
    hide Along;
  }

  // ---------- calls of deflate ----------

  /** What a call of deflate() is given. */
  datatype Piece = Piece(data: seq<Byte>, flush: D.Flush, room: nat)

  /** All the input of these calls. */
  function Given(pieces: seq<Piece>): (text: seq<Byte>)
  {
    if pieces == [] then [] else Given(pieces[..|pieces| - 1]) + pieces[|pieces| - 1].data
  }

  /** No input comes after the first call that asks for the end, and every call has some room. */
  predicate Proper(pieces: seq<Piece>)
  {
    (forall i :: 0 <= i < |pieces| ==> pieces[i].room > 0)
    && forall i, j :: 0 <= i < j < |pieces| && pieces[i].flush.Finish? ==> pieces[j].data == []
  }

  lemma GivenMore(pieces: seq<Piece>, n: nat)
    requires n < |pieces|
    ensures Given(pieces[..n + 1]) == Given(pieces[..n]) + pieces[n].data
  {
    assert pieces[..n + 1][..n] == pieces[..n];
  }

  lemma NothingGiven(pieces: seq<Piece>)
    ensures Given(pieces[..0]) == []
  {
  }

  /** The end has been asked for. */
  predicate Ending(pieces: seq<Piece>, n: nat)
  {
    exists i :: 0 <= i < n <= |pieces| && pieces[i].flush.Finish?
  }

  lemma EndingMore(pieces: seq<Piece>, n: nat)
    requires Proper(pieces) && n < |pieces|
    ensures pieces[n].room > 0 && (Ending(pieces, n) ==> pieces[n].data == [])
    ensures Ending(pieces, n + 1) <==> Ending(pieces, n) || pieces[n].flush.Finish?
  {
  }

  lemma NotEnding(pieces: seq<Piece>)
    ensures !Ending(pieces, 0)
  {
  }

  /** The input of the first calls comes to its end here in a call that asks for a flush of this kind. */
  ghost predicate EndOf(pieces: seq<Piece>, n: nat, full: bool, e: nat)
  {
    exists i :: 0 <= i < n <= |pieces| && e == |Given(pieces[..i + 1])|
                && (if full then pieces[i].flush.FullFlush? else !pieces[i].flush.NoFlush?)
  }

  /** The parse has taken the input to come to its end, and has forgotten the history, only where the calls say so. */
  ghost predicate MarkedBy(pieces: seq<Piece>, n: nat, marks: Marks)
  {
    (forall e :: e in marks.ends ==> EndOf(pieces, n, false, e))
    && forall o :: o in marks.starts && o != 0 ==> EndOf(pieces, n, true, o)
  }

  lemma NotMarked(pieces: seq<Piece>)
    ensures MarkedBy(pieces, 0, Marks({}, {0}))
  {
  }

  lemma MarkedMore(pieces: seq<Piece>, n: nat, marks: Marks, marks': Marks, e: nat)
    requires MarkedBy(pieces, n, marks) && n < |pieces| && e == |Given(pieces[..n + 1])|
    requires marks'.ends == marks.ends || (!pieces[n].flush.NoFlush? && marks'.ends == marks.ends + {e})
    requires marks'.starts == marks.starts || (pieces[n].flush.FullFlush? && marks'.starts == marks.starts + {e})
    ensures MarkedBy(pieces, n + 1, marks')
  {
    hide Given;
    forall x | x in marks'.ends ensures EndOf(pieces, n + 1, false, x) {
      if x in marks.ends {
        assert EndOf(pieces, n, false, x);
      }
    }
    forall o | o in marks'.starts && o != 0 ensures EndOf(pieces, n + 1, true, o) {
      if o in marks.starts {
        assert EndOf(pieces, n, true, o);
      }
    }
  }

  /** Compress with these calls of deflate(), up to the end of the stream. */
  method Compress(windowBits: nat, memLevel: nat, t: Tuning, pieces: seq<Piece>)
      returns (ret: int, z: D.Deflater, n: nat)
    requires 9 <= windowBits <= 15 && 1 <= memLevel <= 9 && Proper(pieces)
    ensures fresh(z) && z.Valid() && z.wbits == windowBits && n <= |pieces| && z.output <= z.enc.w.pending
    ensures z.read + z.nextIn == Given(pieces[..n])
    ensures z.TheRules() == Rules(t, memLevel + 7, Pow2(windowBits)) && MarkedBy(pieces, n, Marks(z.ends, z.starts))
    ensures ret == D.Z_STREAM_END ==> z.finished && z.output == z.enc.w.pending && z.read == Given(pieces[..n])
    ensures ret != D.Z_STREAM_END ==> n == |pieces|
    ensures ret == D.Z_OK && n > 0 ==> z.avail == 0 || (z.read == Given(pieces) && !pieces[n - 1].flush.Finish?)
    ensures ret == D.Z_OK && n > 0 && (pieces[n - 1].flush.SyncFlush? || pieces[n - 1].flush.FullFlush?) ==>
      z.avail == 0 || z.Flushed()
    ensures ret == D.Z_OK && n > 0 && pieces[n - 1].flush.PartialFlush? ==> z.avail == 0 || z.PartlyFlushed()
  {
    hide *;
    z := new D.Deflater(windowBits, memLevel, t);
    z.ReturnCodes();
    ret, n := D.Z_OK, 0;
    NothingGiven(pieces);
    NotEnding(pieces);
    NotMarked(pieces);
    z.ValidHas();
    z.WindowIs();
    z.RulesIs();
    while n < |pieces|
      invariant n <= |pieces| && fresh(z) && fresh(z.enc.Repr()) && fresh(z.window) && fresh(z.head) && fresh(z.prev)
      invariant z.Valid() && z.wbits == windowBits && z.output <= z.enc.w.pending
      invariant z.read + z.nextIn == Given(pieces[..n]) && (z.finished ==> Ending(pieces, n))
      invariant ret != D.Z_STREAM_END && MarkedBy(pieces, n, Marks(z.ends, z.starts))
      invariant ret == D.Z_OK && n > 0 ==> z.avail == 0 || (z.nextIn == [] && !pieces[n - 1].flush.Finish?)
      invariant ret == D.Z_OK && n > 0 && (pieces[n - 1].flush.SyncFlush? || pieces[n - 1].flush.FullFlush?) ==>
        z.avail == 0 || z.Flushed()
      invariant ret == D.Z_OK && n > 0 && pieces[n - 1].flush.PartialFlush? ==> z.avail == 0 || z.PartlyFlushed()
    {
      EndingMore(pieces, n);
      GivenMore(pieces, n);
      if z.Useless(pieces[n].data, pieces[n].flush) {
        UselessHas(z, pieces[n].data, pieces[n].flush);
      }
      ghost var marks := Marks(z.ends, z.starts);
      ret := z.Deflate(pieces[n].data, pieces[n].flush, pieces[n].room);
      Lengths(z.read, z.nextIn);
      MarkedMore(pieces, n, marks, Marks(z.ends, z.starts), |z.read| + |z.nextIn|);
      n := n + 1;
      if ret == D.Z_STREAM_END {
        z.ValidHas();
        return;
      }
    }
    assert pieces[..n] == pieces;
  }

  lemma Lengths(a: seq<Byte>, b: seq<Byte>)
    ensures |a + b| == |a| + |b| && (b == [] ==> a + b == a)
  {
  }

  lemma UselessHas(z: D.Deflater, data: seq<Byte>, flush: D.Flush)
    requires z.Useless(data, flush)
    ensures data == []
  {
  }

  /** However the calls of these sizes of input and output are stopped, by the one or by the other, they come to an end
      of `input` bytes to be taken or of `output` bytes to be put out. */
  predicate Enough(calls: seq<(nat, nat)>, input: int, output: int)
    decreases |calls|
  {
    calls != []
    && (input <= calls[0].0 || Enough(calls[1..], input - calls[0].0, output))
    && (output <= calls[0].1 || Enough(calls[1..], input, output - calls[0].1))
  }

  lemma {:induction false} EnoughLess(calls: seq<(nat, nat)>, input: int, output: int, input': int, output': int)
    requires Enough(calls, input, output) && input' <= input && output' <= output
    ensures Enough(calls, input', output')
    decreases |calls|
  {
    if input' > calls[0].0 {
      EnoughLess(calls[1..], input - calls[0].0, output, input' - calls[0].0, output');
    }
    if output' > calls[0].1 {
      EnoughLess(calls[1..], input, output - calls[0].1, input', output' - calls[0].1);
    }
  }

  /** All the room, and all the input, of a number of calls. */
  function Rooms(calls: seq<(nat, nat)>): (n: nat)
  {
    if calls == [] then 0 else calls[0].1 + Rooms(calls[1..])
  }

  function Inputs(calls: seq<(nat, nat)>): (n: nat)
  {
    if calls == [] then 0 else calls[0].0 + Inputs(calls[1..])
  }

  /** Calls that are all given what is left of the stream are enough if together they have room for the text. */
  lemma {:induction false} EnoughRoom(calls: seq<(nat, nat)>, input: int, output: int)
    requires calls != [] && (forall i :: 0 <= i < |calls| ==> input <= calls[i].0) && output <= Rooms(calls)
    ensures Enough(calls, input, output)
    decreases |calls|
  {
    if output > calls[0].1 {
      assert forall i :: 0 <= i < |calls[1..]| ==> calls[1..][i] == calls[i + 1];
      EnoughRoom(calls[1..], input, output - calls[0].1);
    }
  }

  /** Calls that all have room for the text are enough if together they are given the stream. */
  lemma {:induction false} EnoughInput(calls: seq<(nat, nat)>, input: int, output: int)
    requires calls != [] && (forall i :: 0 <= i < |calls| ==> output <= calls[i].1) && input <= Inputs(calls)
    ensures Enough(calls, input, output)
    decreases |calls|
  {
    if input > calls[0].0 {
      assert forall i :: 0 <= i < |calls[1..]| ==> calls[1..][i] == calls[i + 1];
      EnoughInput(calls[1..], input - calls[0].0, output);
    }
  }

  /** What a decompression has come to: nothing more can be done with the input up to pos, or room is needed. */
  lemma NotYet(z: D.Deflater, c: Config, pos: nat, waits: bool)
    requires z.Valid() && z.finished && pos <= |z.enc.w.pending| && Along(c, z.enc.w.pending[..pos], z.enc.w.pending)
    requires !c.st.mode.Done?
    requires if waits then Step(With(c, [])).None? else AwaitsRoom(c.st)
    ensures if waits then pos < |z.enc.w.pending| else |c.st.out| < |z.read|
  {
    hide *;
    var bytes := z.enc.w.pending;
    RoundTripSoFar(z, c, bytes[..pos]);
    if waits && pos == |bytes| {
      AllTaken(c, bytes);
      RoundTrip(z, c, bytes[..pos]);
    } else if !waits {
      var d := Whole(z);
      ViaLeads(z.wsize, Config(InitState, BytesToBits(bytes)), d);
      AlongHas(c, bytes[..pos], bytes);
      var c1 := With(c, BytesToBits(bytes[|bytes[..pos]|..]));
      WithHas(c, BytesToBits(bytes[|bytes[..pos]|..]));
      Confluent(Config(InitState, BytesToBits(bytes)), c1, d);
      RoomLeads(c1, d);
    }
  }

  lemma AllTaken(c: Config, bytes: seq<Byte>)
    requires Step(With(c, [])).None?
    ensures Finished(c, bytes[..|bytes|], bytes)
  {
    hide Step;
    assert bytes[|bytes|..] == [];
    assert bytes[..|bytes|] == bytes;
  }

  /** From where room is needed, the end is not reached without more output. */
  lemma RoomLeads(c: Config, d: Config)
    requires AwaitsRoom(c.st) && Leads(c, d) && d.st.mode.Done?
    ensures |c.st.out| < |d.st.out|
  {
    hide Leads, Step;
    AwaitsIs(c.st);
    DoneStays(d);
    if Step(c).None? {
      StuckLeads(c, d);
    } else {
      GrowsOrBad(c);
      LeadsStep(c);
      Confluent(c, Step(c).value, d);
      if Step(c).value.st.mode.Bad? {
        BadLeads(Step(c).value, d);
      } else {
        LeadsOut(Step(c).value, d);
      }
    }
  }

  /** After a call that has not come to the end, the calls that are left are enough if those from it on were. */
  lemma OneCallFewer(z: D.Deflater, c: Config, calls: seq<(nat, nat)>, pos: nat, end: nat, used: nat, sent: nat,
                     made: nat)
    requires z.Valid() && z.finished && pos + used <= end <= |z.enc.w.pending|
    requires Along(c, z.enc.w.pending[..pos + used], z.enc.w.pending) && !c.st.mode.Done?
    requires calls != [] && Enough(calls, |z.enc.w.pending| - pos, |z.read| - sent)
    requires (end == pos + calls[0].0 || end == |z.enc.w.pending|) && |c.st.out| == sent + made
    requires (Step(With(c, BytesToBits(z.enc.w.pending[pos..end][used..]))).None? && used == end - pos)
      || (made == calls[0].1 && AwaitsRoom(c.st))
    ensures Enough(calls[1..], |z.enc.w.pending| - pos - used, |z.read| - sent - made)
  {
    hide *;
    var bytes := z.enc.w.pending;
    EnoughHas(calls, |bytes| - pos, |z.read| - sent);
    if made == calls[0].1 && AwaitsRoom(c.st) {
      NotYet(z, c, pos + used, false);
      EnoughLess(calls[1..], |bytes| - pos, |z.read| - sent - made, |bytes| - pos - used, |z.read| - sent - made);
    } else {
      assert bytes[pos..end][used..] == [];
      NoBits();
      NotYet(z, c, pos + used, true);
      EnoughLess(calls[1..], |bytes| - pos - used, |z.read| - sent, |bytes| - pos - used, |z.read| - sent - made);
    }
  }

  lemma EnoughHas(calls: seq<(nat, nat)>, input: int, output: int)
    requires Enough(calls, input, output)
    ensures calls != []
    ensures input <= calls[0].0 || Enough(calls[1..], input - calls[0].0, output)
    ensures output <= calls[0].1 || Enough(calls[1..], input, output - calls[0].1)
  {
  }

  lemma EnoughSome(input: int, output: int)
    ensures !Enough([], input, output)
  {
  }

  lemma NoBits()
    ensures BytesToBits([]) == []
  {
  }

  /** Where the input of a call ends that is given some bytes from pos on. */
  function Until(stream: seq<Byte>, pos: nat, size: nat): (end: nat)
    requires pos <= |stream|
    ensures pos <= end <= |stream| && (end == pos + size || end == |stream|)
  {
    if pos + size <= |stream| then pos + size else |stream|
  }

  /** One of those calls. */
  method RestoreCall(i: Inflater, stream: seq<Byte>, pos: nat, size: nat, room: nat, ghost text: seq<Byte>)
      returns (ret: int, used: nat, piece: seq<Byte>)
    requires i.Rests() && pos <= |stream| && i.fed == stream[..pos]
    requires i.put <= i.out.Length && i.r.next <= |i.r.input|
    requires Nearby(stream, Pow2(i.win.wbits)) && Restores(stream, text) && Along(i.Cfg(), i.fed, stream)
    modifies i, i.r, i.win, i.win.buf, i.lens, i.work, i.codes
    ensures i.Rests() && i.put <= i.out.Length && i.r.next <= |i.r.input|
    ensures pos + used <= Until(stream, pos, size) && i.fed == stream[..pos + used] && Along(i.Cfg(), i.fed, stream)
    ensures i.sent == old(i.sent) + piece && i.Cfg().st.out == i.sent <= text
    ensures ret != Z_DATA_ERROR && (ret == Z_STREAM_END <==> i.Cfg().st.mode.Done?)
      && (ret == Z_STREAM_END ==> i.sent == text)
    ensures ret != Z_STREAM_END ==>
      (Step(With(i.Cfg(), BytesToBits(stream[pos..Until(stream, pos, size)][used..]))).None?
       && pos + used == Until(stream, pos, size))
      || (|piece| == room && AwaitsRoom(i.Cfg().st))
  {
    hide *;
    ResultCodes();
    var end := Until(stream, pos, size);
    var buf := new Byte[room];
    Offered(stream, pos, end);
    var made;
    ret, used, made := Continue(i, stream[pos..end], buf, stream);
    Taken(stream, pos, end, used);
    piece := buf[..made];
    Resting(i);
    RestoresHas(stream, text, i.Cfg(), i.fed);
  }

  /** Decompress a finished stream with calls of the given sizes of input and output, up to the end of the stream. */
  method Restore(z: D.Deflater, wbits: nat, calls: seq<(nat, nat)>) returns (ret: int, output: seq<Byte>)
    requires z.Valid() && z.finished && z.wbits <= wbits <= 15
    ensures output <= z.read
    ensures ret != Z_DATA_ERROR
    ensures ret == Z_STREAM_END ==> output == z.read
    ensures Enough(calls, |z.enc.w.pending|, |z.read|) ==> ret == Z_STREAM_END
  {
    hide *;
    var stream := z.enc.w.pending;
    ghost var text := z.read;
    z.ValidHas();
    z.ShapeHas();
    WindowSuffices(z, wbits);
    FinishedRestores(z);
    ResultCodes();
    var i := new Inflater(wbits);
    StartsResting(i);
    AlongStart(stream);
    ret, output := Z_OK, [];
    var pos: nat := 0;
    ghost var enough := Enough(calls, |stream|, |text|);
    assert calls[0..] == calls;
    for n := 0 to |calls|
      invariant pos <= |stream| && i.fed == stream[..pos] && i.Rests() && i.win.wbits == wbits
      invariant i.put <= i.out.Length && i.r.next <= |i.r.input|
      invariant Along(i.Cfg(), i.fed, stream) && output == i.sent && output <= text
      invariant ret != Z_DATA_ERROR && ret != Z_STREAM_END
      invariant enough ==> Enough(calls[n..], |stream| - pos, |text| - |output|)
      invariant fresh(i) && fresh(i.r) && fresh(i.win) && fresh(i.win.buf) && fresh(i.lens) && fresh(i.work)
        && fresh(i.codes)
    {
      ghost var from, sent := pos, |output|;
      var used, piece;
      ret, used, piece := RestoreCall(i, stream, pos, calls[n].0, calls[n].1, text);
      pos, output := pos + used, output + piece;
      if ret == Z_STREAM_END {
        return;
      }
      if enough {
        OneCallFewer(z, i.Cfg(), calls[n..], from, Until(stream, from, calls[n].0), used, sent, |piece|);
        assert calls[n..][1..] == calls[n + 1..];
      }
    }
    assert calls[|calls|..] == [];
    EnoughSome(|stream| - pos, |text| - |output|);
  }

  /** Compress with some calls of deflate(), and decompress what they have handed out with some calls of inflate(). */
  method CompressRestore(windowBits: nat, memLevel: nat, t: Tuning, pieces: seq<Piece>, wbits: nat,
                         calls: seq<(nat, nat)>)
      returns (packed: seq<Byte>, ended: bool, n: nat, ret: int, output: seq<Byte>)
    requires 9 <= windowBits <= wbits <= 15 && 1 <= memLevel <= 9 && Proper(pieces)
    ensures n <= |pieces| && ret != Z_DATA_ERROR
    ensures ended ==> output <= Given(pieces[..n]) && (ret == Z_STREAM_END ==> output == Given(pieces[..n]))
    ensures ended && Enough(calls, |packed|, |Given(pieces[..n])|) ==> ret == Z_STREAM_END
  {
    hide *;
    var end, z;
    end, z, n := Compress(windowBits, memLevel, t, pieces);
    ResultCodes();
    packed, ended, ret, output := z.output, end == D.Z_STREAM_END, Z_OK, [];
    if ended {
      ret, output := Restore(z, wbits, calls);
    }
  }

  lemma Offered(s: seq<Byte>, pos: nat, end: nat)
    requires pos <= end <= |s|
    ensures s[..pos] + s[pos..end] <= s
  {
  }

  lemma Taken(s: seq<Byte>, pos: nat, end: nat, used: nat)
    requires pos <= end <= |s| && used <= end - pos
    ensures s[..pos] + s[pos..end][..used] == s[..pos + used]
  {
  }
}
