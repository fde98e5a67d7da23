/** What a flush promises: all the input read so far can be decompressed from the output handed out so far
    (zlib.h: deflate). */
module Flushing {
  import opened Bits
  import opened Canonical
  import opened Symbols
  import opened Decoder
  import opened MoreInput
  import opened BlockFormat
  import opened BlockStream
  import opened BlockBody
  import opened Encoder
  import opened TokenStory
  import opened Windowed
  import opened Inflate
  import opened Chunking
  import opened Codec
  import opened Parsing
  import opened SyncSearch
  import D = Deflater

  // ---------- flushing to a byte boundary ----------

  /** Blocks with more to come are read as what they stand for. */
  lemma {:induction false} LeadingDecodes(far: nat, c: Config, bs: seq<Block>, pos: nat, rest: BitString)
      returns (d: Config)
    requires AllWritable(bs) && StreamFits(|c.st.out|, bs) && NearBlocks(bs, far)
    requires AtBlock(c, Leading(bs, pos) + rest) && (pos + |c.unread|) % 8 == 0
    ensures Via(far, c, d) && AtBlock(d, rest) && d.st.out == StreamExpand(c.st.out, bs)
    decreases |bs|
  {
    hide Via, BlockBits, Writable, BlockExpand, BlockFits, NearBlock;
    if bs == [] {
      assert [] + rest == rest;
      d := c;
      ViaRefl(far, c);
    } else {
      var b := BlockBits(bs[0], false, pos);
      var tail := Leading(bs[1..], pos + |b|) + rest;
      assert c.unread == b + tail;
      var e := BlockDecodes(far, c, bs[0], false, pos, tail);
      BlockExpandLen(c.st.out, bs[0]);
      d := LeadingDecodes(far, e, bs[1..], pos + |b|, rest);
      ViaTrans(far, c, e, d);
    }
  }

  /** The bits of an empty stored block end with the mark that inflateSync looks for. */
  lemma MarkOfFlush(pos: nat)
    ensures Writable(StoredBlock([]))
    ensures BlockBits(StoredBlock([]), false, pos)
         == TypeBits(0, false) + ToBits(0, Padding(pos + 3)) + BytesToBits(MARK)
  {
    hide *;
    StoredWritable([], false, pos);
    MarkBits();
    var t, z := TypeBits(0, false), ToBits(0, Padding(pos + 3));
    assert |BytesToBits([])| == 0;
    assert t + (z + ToBits(0, 16) + ToBits(65535, 16) + BytesToBits([])) == t + z + (ToBits(0, 16) + ToBits(65535, 16));
  }

  /** Length zero and its complement. */
  lemma MarkBits()
    ensures BytesToBits(MARK) == ToBits(0, 16) + ToBits(65535, 16)
  {
    hide *;
    MarkIs();
    PairBits(0, 0);
    PairBits(0xff, 0xff);
    BytesToBitsAppend([0, 0], [0xff, 0xff]);
  }

  lemma MarkIs()
    ensures MARK == [0, 0] + [0xff, 0xff]
  {
  }

  /** Two bytes are the bits of one 16-bit number. */
  lemma PairBits(a: Byte, b: Byte)
    ensures BytesToBits([a, b]) == ToBits(a + 256 * b, 16)
  {
    hide ToBits, Low, Shr, Pow2;
    Pow2Values();
    assert [a, b][1..] == [b] && [b][1..] == [];
    Join(a, 8, b);
    ToBitsSplit(a + 256 * b, 8, 8);
    ToBitsLow(a + 256 * b, 8, 8);
    assert BytesToBits([b]) == ToBits(b, 8) + [];
  }

  /** After a sync or full flush the output ends with the mark that inflateSync looks for. */
  lemma FlushedMark(z: D.Deflater)
    requires z.Flushed()
    ensures |z.output| >= 4 && z.output[|z.output| - 4..] == MARK
  {
    hide *;
    z.FlushedHas();
    z.MarkBehindHas();
    z.SentHas();
    var n := |z.blocks| - 1;
    var bs, u := z.blocks[..n], BytesToBits(z.output);
    assert z.blocks == bs + [StoredBlock([])];
    AllParts(z.blocks);
    TokenStory.SentMore(bs, StoredBlock([]), false);
    var v := Sent(bs, false);
    BlockSentIs(v, StoredBlock([]), false);
    MarkOfFlush(|v|);
    EndsInMark(z.output, v, TypeBits(0, false) + ToBits(0, Padding(|v| + 3)));
  }

  lemma EndsInMark(s: seq<Byte>, v: BitString, t: BitString)
    requires BytesToBits(s) == v + (t + BytesToBits(MARK))
    ensures |s| >= 4 && s[|s| - 4..] == MARK
  {
    hide *;
    MarkIs();
    assert |BytesToBits(MARK)| == 32;
    assert |BytesToBits(s)| == 8 * |s|;
    var k := |s| - 4;
    assert s == s[..k] + s[k..];
    BytesToBitsAppend(s[..k], s[k..]);
    assert BytesToBits(s) == (v + t) + BytesToBits(MARK);
    assert |BytesToBits(s[..k])| == |v + t|;
    assert BytesToBits(s[k..]) == BytesToBits(s)[8 * k..] == BytesToBits(MARK);
    SameBytes(s[k..], MARK);
  }

  lemma FlushedTold(z: D.Deflater)
    requires z.Flushed()
    ensures Told(z.wsize, z.blocks, [], |z.read|, |z.read|, z.read)
    ensures AllWritable(z.blocks) && BytesToBits(z.output) == Leading(z.blocks, 0)
  {
    hide *;
    z.FlushedHas();
    z.AllTold();
    SentLeading(z.blocks);
  }

  /** After a flush, the part of the stream that has been handed out decodes to all that the compressor has read. */
  lemma FlushedDecodes(z: D.Deflater) returns (d: Config)
    requires z.Flushed()
    ensures Via(z.wsize, Config(InitState, BytesToBits(z.output)), d)
    ensures AtBlock(d, []) && d.st.out == z.read && Step(d).None?
  {
    hide *;
    FlushedTold(z);
    ToldParts(z.wsize, z.blocks, [], |z.read|, |z.read|, z.read);
    var s := Config(InitState, BytesToBits(z.output));
    Starting(BytesToBits(z.output));
    WholeBytes(z.output);
    d := LeadingDecodes(z.wsize, s, z.blocks, 0, []);
    assert z.read[..|z.read|] == z.read;
    AtEndWaits(d);
  }

  lemma AtEndWaits(d: Config)
    requires AtBlock(d, [])
    ensures Step(d).None? && d.st.mode.Type? && d.unread == []
  {
  }

  /** All the input that was compressed before a flush can be had from the output of that flush: whatever sessions of
      calls decompress the output, once they can do no more, they have given back all that was read, and wait for
      more. */
  lemma FlushedRestores(z: D.Deflater, c: Config, fed: seq<Byte>)
    requires z.Flushed() && Along(c, fed, z.output) && Finished(c, fed, z.output)
    ensures c.st.out == z.read && c.st.mode.Type?
  {
    hide *;
    var d := FlushedDecodes(z);
    AtEndWaits(d);
    ViaLeads(z.wsize, Config(InitState, BytesToBits(z.output)), d);
    AlongHas(c, fed, z.output);
    FinishedHas(c, fed, z.output);
    var c1 := With(c, BytesToBits(z.output[|fed|..]));
    Confluent(Config(InitState, BytesToBits(z.output)), d, c1);
    StuckLeads(d, c1);
    WithHas(c, BytesToBits(z.output[|fed|..]));
  }

  // ---------- partial flushing ----------

  /** A beginning of an empty block, of which less than a byte is missing, puts nothing out. */
  lemma EmptyTail(c: Config, tail: BitString, more: BitString) returns (d: Config)
    requires AtBlock(c, tail) && |more| <= 7 && Coded(FixedLitLens(), 256)
    requires tail + more == TypeBits(1, false) + CodeBits(FixedLitLens(), 256)
    ensures Leads(c, d) && Step(d).None? && d.st.out == c.st.out && !d.st.mode.Done? && !d.st.mode.Bad?
  {
    hide *;
    FixedEnd();
    var code := CodeBits(FixedLitLens(), 256);
    TailBits(tail, more, code);
    var e := Config(c.st.(mode := Len, last := false, llens := FixedLitLens(), dlens := FixedDistLens()), tail[3..]);
    EmptyStarts(c, tail[3..], e);
    EndIs();
    FixedAcceptable();
    FixedUse();
    UsableHas(FixedLitLens(), FixedDistLens());
    if Find(FixedLitLens(), tail[3..]) == Wait {
      LenWaits(e);
      d := e;
    } else {
      FindStable(LENS, FixedLitLens(), tail[3..], more);
      FindCode(FixedLitLens(), 256, []);
      assert code + [] == code;
      d := Config(e.st.(mode := Type), tail[3..][7..]);
      LenEnds(e, d);
      TypeWaits(d);
      LeadsTrans(c, e, d);
    }
  }

  lemma FixedEnd()
    ensures |FixedLitLens()| > 256 && Coded(FixedLitLens(), 256) && FixedLitLens()[256] == 7
    ensures ValidLens(FixedLitLens()) && |CodeBits(FixedLitLens(), 256)| == 7
  {
    FixedLitValid();
  }

  lemma TailBits(tail: BitString, more: BitString, code: BitString)
    requires |more| <= 7 && |code| == 7 && tail + more == TypeBits(1, false) + code
    ensures |tail| >= 3 && tail == TypeBits(1, false) + tail[3..] && tail[3..] + more == code && |tail[3..]| <= 7
  {
    hide ToBits;
    var t := TypeBits(1, false);
    assert tail[..3] == (tail + more)[..3] == t;
    assert tail[3..] + more == (tail + more)[3..] == code;
  }

  lemma EmptyStarts(c: Config, rest: BitString, e: Config)
    requires AtBlock(c, TypeBits(1, false) + rest)
    requires e == Config(c.st.(mode := Len, last := false, llens := FixedLitLens(), dlens := FixedDistLens()), rest)
    ensures Leads(c, e)
  {
    hide Leads, TypeBits, Field, FixedLitLens, FixedDistLens;
    TypeBitsRead(1, false, rest);
    assert Step(c) == Some(e);
    LeadsStep(c);
  }

  lemma UsableHas(ll: seq<nat>, dl: seq<nat>)
    requires Usable(ll, dl)
    ensures Kraft(ll) <= Pow2(15)
  {
    hide Kraft, Pow2, ValidLens;
  }

  lemma LenWaits(e: Config)
    requires e.st.mode.Len? && Find(e.st.llens, e.unread) == Wait
    ensures Step(e).None?
  {
    hide Find;
  }

  lemma LenEnds(e: Config, d: Config)
    requires e.st.mode.Len? && Find(e.st.llens, e.unread) == Found(256) && |e.st.llens| > 256
    requires e.st.llens[256] <= |e.unread| && d == Config(e.st.(mode := Type), e.unread[e.st.llens[256]..])
    ensures Leads(e, d)
  {
    hide Find, Leads;
    assert Step(e) == Some(d);
    LeadsStep(e);
  }

  lemma TypeWaits(d: Config)
    requires d.st.mode.Type? && !d.st.last && |d.unread| < 3
    ensures Step(d).None?
  {
  }

  /** The stream of a partial flush: blocks for all the input, then an empty one of which less than a byte is held
      back. */
  lemma PartlyFlushedBits(z: D.Deflater) returns (bs: seq<Block>, tail: BitString, more: BitString)
    requires z.PartlyFlushed()
    ensures Told(z.wsize, bs, [], |z.read|, |z.read|, z.read) && AllWritable(bs) && Coded(FixedLitLens(), 256)
    ensures BytesToBits(z.output) == Leading(bs, 0) + tail && |more| <= 7
    ensures tail + more == TypeBits(1, false) + CodeBits(FixedLitLens(), 256)
  {
    hide *;
    z.PartlyFlushedHas();
    z.EmptyBehindHas();
    z.SentHas();
    var n := |z.blocks| - 1;
    bs := z.blocks[..n];
    assert bs + [FixedBlock([])] == z.blocks;
    ToldParts(z.wsize, bs, [], |z.read|, |z.read|, z.read);
    EmptyFixed(TokenStory.Sent(bs, false));
    TokenStory.SentMore(bs, FixedBlock([]), false);
    SentLeading(bs);
    more := z.enc.w.Held();
    var a, e := Leading(bs, 0), TypeBits(1, false) + CodeBits(FixedLitLens(), 256);
    EndIs();
    tail := CutTail(BytesToBits(z.output), more, a, e);
  }

  lemma CutTail(p: BitString, h: BitString, a: BitString, e: BitString) returns (tail: BitString)
    requires p + h == a + e && |h| <= |e|
    ensures p == a + tail && tail + h == e
  {
    tail := e[..|e| - |h|];
    assert |p| == |a| + |tail|;
    assert p == (p + h)[..|p|] == (a + e)[..|p|] == a + tail;
    assert h == (p + h)[|p|..] == (a + e)[|p|..] == e[|tail|..];
  }

  /** Even a partial flush, which leaves the stream within a byte, makes all the input read so far available. */
  lemma PartlyFlushedRestores(z: D.Deflater, c: Config, fed: seq<Byte>)
    requires z.PartlyFlushed() && Along(c, fed, z.output) && Finished(c, fed, z.output)
    ensures c.st.out == z.read && !c.st.mode.Done? && !c.st.mode.Bad?
  {
    hide *;
    var bs, tail, more := PartlyFlushedBits(z);
    ToldParts(z.wsize, bs, [], |z.read|, |z.read|, z.read);
    var s := Config(InitState, BytesToBits(z.output));
    Starting(BytesToBits(z.output));
    WholeBytes(z.output);
    AtStart(s, Leading(bs, 0) + tail);
    var e := LeadingDecodes(z.wsize, s, bs, 0, tail);
    assert z.read[..|z.read|] == z.read;
    ViaLeads(z.wsize, s, e);
    var d := EmptyTail(e, tail, more);
    LeadsTrans(s, e, d);
    AlongHas(c, fed, z.output);
    FinishedHas(c, fed, z.output);
    var c1 := With(c, BytesToBits(z.output[|fed|..]));
    Confluent(s, d, c1);
    StuckLeads(d, c1);
    WithHas(c, BytesToBits(z.output[|fed|..]));
  }

  lemma AtStart(s: Config, u: BitString)
    requires s == Config(InitState, u)
    ensures AtBlock(s, u)
  {
  }
}
