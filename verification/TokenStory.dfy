/** What the blocks sent and the symbols tallied so far say about the input (deflate.c, section 3.2 of
    RFC 1951). */
module TokenStory {
  import opened Bits
  import opened Lz77
  import opened Decoder
  import opened BlockFormat
  import opened BlockHeader
  import opened BlockStream
  import opened Encoder

  // ---------- the blocks of a stream, in the order they are sent ----------

  /** The bits of the blocks so far; closed when the last one was marked as such. */
  ghost function Sent(bs: seq<Block>, closed: bool): (u: BitString)
    requires AllWritable(bs)
    decreases |bs|
  {
    if bs == [] then [] else BlockSent(Sent(bs[..|bs| - 1], false), bs[|bs| - 1], closed)
  }

  lemma NoBlocks()
    ensures AllWritable([]) && Sent([], false) == []
  {
  }

  lemma SentMore(bs: seq<Block>, b: Block, closed: bool)
    requires AllWritable(bs) && Writable(b)
    ensures AllWritable(bs + [b]) && Sent(bs + [b], closed) == BlockSent(Sent(bs, false), b, closed)
  {
    hide BlockSent, Writable;
    assert (bs + [b])[..|bs + [b]| - 1] == bs;
  }

  /** Blocks in front of a stream. */
  ghost function Leading(bs: seq<Block>, pos: nat): (u: BitString)
    requires AllWritable(bs)
    decreases |bs|
  {
    if bs == [] then []
    else
      var b := BlockBits(bs[0], false, pos);
      b + Leading(bs[1..], pos + |b|)
  }

  lemma {:induction false} LeadingMore(bs: seq<Block>, b: Block, pos: nat)
    requires AllWritable(bs) && Writable(b)
    ensures AllWritable(bs + [b])
    ensures Leading(bs + [b], pos) == Leading(bs, pos) + BlockBits(b, false, pos + |Leading(bs, pos)|)
    decreases |bs|
  {
    hide BlockBits, Writable;
    if bs == [] {
      assert bs + [b] == [b];
      assert [b][1..] == [];
    } else {
      var f := BlockBits(bs[0], false, pos);
      LeadingMore(bs[1..], b, pos + |f|);
      assert (bs + [b])[1..] == bs[1..] + [b];
    }
  }

  lemma {:induction false} SentLeading(bs: seq<Block>)
    requires AllWritable(bs)
    ensures Sent(bs, false) == Leading(bs, 0)
    decreases |bs|
  {
    hide BlockBits, Writable, AllWritable;
    if bs != [] {
      var n := |bs| - 1;
      AllParts(bs);
      SentLeading(bs[..n]);
      LeadingMore(bs[..n], bs[n], 0);
      assert bs[..n] + [bs[n]] == bs;
    }
  }

  lemma AllParts(bs: seq<Block>)
    requires AllWritable(bs) && bs != []
    ensures AllWritable(bs[..|bs| - 1]) && Writable(bs[|bs| - 1])
  {
    hide Writable;
  }

  lemma {:induction false} LeadingStream(bs: seq<Block>, b: Block, pos: nat)
    requires AllWritable(bs) && Writable(b)
    ensures AllWritable(bs + [b])
    ensures StreamFrom(bs + [b], pos) == Leading(bs, pos) + LastBlock(b, pos + |Leading(bs, pos)|)
    decreases |bs|
  {
    hide BlockBits, Writable, ToBits, LastBlock;
    if bs == [] {
      assert bs + [b] == [b];
      OnlyBlock(b, pos);
    } else {
      var f := BlockBits(bs[0], false, pos);
      LeadingStream(bs[1..], b, pos + |f|);
      assert (bs + [b])[1..] == bs[1..] + [b];
      var l := Leading(bs[1..], pos + |f|);
      assert f + (l + LastBlock(b, pos + |f| + |l|)) == f + l + LastBlock(b, pos + |f| + |l|);
    }
  }

  /** A last block and the padding behind it. */
  ghost function LastBlock(b: Block, at: nat): (u: BitString)
    requires Writable(b)
  {
    BlockBits(b, true, at) + ToBits(0, Padding(at + |BlockBits(b, true, at)|))
  }

  lemma LastIs(b: Block, at: nat)
    requires Writable(b)
    ensures LastBlock(b, at) == BlockBits(b, true, at) + ToBits(0, Padding(at + |BlockBits(b, true, at)|))
  {
    hide BlockBits, Writable, ToBits, Padding;
  }

  lemma OnlyBlock(b: Block, pos: nat)
    requires Writable(b)
    ensures AllWritable([b]) && StreamFrom([b], pos) == LastBlock(b, pos)
  {
    hide BlockBits, Writable, ToBits, Padding;
    assert [b][1..] == [];
  }

  /** The bits of a closed stream are those of a complete deflate stream. */
  lemma SentStream(bs: seq<Block>)
    requires AllWritable(bs) && bs != []
    ensures Sent(bs, true) == StreamFrom(bs, 0)
  {
    hide *;
    var n := |bs| - 1;
    AllParts(bs);
    SentLeading(bs[..n]);
    LeadingStream(bs[..n], bs[n], 0);
    SentMore(bs[..n], bs[n], true);
    BlockSentIs(Sent(bs[..n], false), bs[n], true);
    LastIs(bs[n], |Sent(bs[..n], false)|);
    assert bs[..n] + [bs[n]] == bs;
    var u, v := Sent(bs[..n], false), BlockBits(bs[n], true, |Sent(bs[..n], false)|);
    assert |u + v| == 0 + |u| + |v|;
    assert u + v + ToBits(0, Padding(|u + v|)) == u + (v + ToBits(0, Padding(|u + v|)));
  }

  lemma {:induction false} FitsMore(n: nat, bs: seq<Block>, b: Block)
    requires StreamFits(n, bs) && BlockFits(n + BlocksLen(bs), b)
    ensures StreamFits(n, bs + [b])
    decreases |bs|
  {
    hide BlockFits;
    if bs == [] {
      assert (bs + [b])[1..] == [];
    } else {
      FitsMore(n + BlockLen(bs[0]), bs[1..], b);
      assert (bs + [b])[1..] == bs[1..] + [b];
    }
  }

  function BlocksLen(bs: seq<Block>): (n: nat)
  {
    if bs == [] then 0 else BlockLen(bs[0]) + BlocksLen(bs[1..])
  }

  lemma {:induction false} ExpandMore(hist: seq<Byte>, bs: seq<Block>, b: Block)
    requires StreamFits(|hist|, bs) && BlockFits(|StreamExpand(hist, bs)|, b)
    ensures StreamFits(|hist|, bs + [b]) && StreamExpand(hist, bs + [b]) == BlockExpand(StreamExpand(hist, bs), b)
    decreases |bs|
  {
    hide BlockFits, BlockExpand;
    if bs == [] {
      assert bs + [b] == [b] && [b][1..] == [];
      assert StreamFits(|hist| + BlockLen(b), [b][1..]);
    } else {
      BlockExpandLen(hist, bs[0]);
      ExpandMore(BlockExpand(hist, bs[0]), bs[1..], b);
      assert (bs + [b])[1..] == bs[1..] + [b];
    }
  }

  // ---------- the story so far ----------

  /** The blocks stand for the input up to `from`, the tallied symbols for the input from there up to `upto`, and no
      match reaches back more than `far` bytes. */
  ghost predicate Told(far: nat, bs: seq<Block>, ts: seq<Token>, from: nat, upto: nat, input: seq<Byte>)
  {
    from <= upto <= |input| && AllWritable(bs) && StreamFits(0, bs) && StreamExpand([], bs) == input[..from]
    && Expandable(from, ts) && Expand(input[..from], ts) == input[..upto] && NearBlocks(bs, far) && NearTokens(ts, far)
  }

  lemma ToldNothing(far: nat)
    ensures Told(far, [], [], 0, 0, [])
  {
  }

  lemma ToldHas(far: nat, bs: seq<Block>, ts: seq<Token>, from: nat, upto: nat, input: seq<Byte>)
    requires Told(far, bs, ts, from, upto, input)
    ensures from <= upto <= |input| && AllWritable(bs)
  {
    hide AllWritable, StreamFits, StreamExpand, Expand, Expandable;
  }

  lemma ToldMore(far: nat, bs: seq<Block>, ts: seq<Token>, from: nat, upto: nat, input: seq<Byte>, more: seq<Byte>)
    requires Told(far, bs, ts, from, upto, input)
    ensures Told(far, bs, ts, from, upto, input + more)
  {
    hide AllWritable, StreamFits, StreamExpand, Expand, Expandable;
    assert (input + more)[..from] == input[..from] && (input + more)[..upto] == input[..upto];
  }

  lemma ToldToken(far: nat, bs: seq<Block>, ts: seq<Token>, from: nat, upto: nat, input: seq<Byte>, t: Token)
    requires Told(far, bs, ts, from, upto, input) && Reaches(upto, t) && upto + TokenLen(t) <= |input|
      && NearToken(t, far)
    requires Apply(input[..upto], t) == input[..upto + TokenLen(t)]
    ensures Told(far, bs, ts + [t], from, upto + TokenLen(t), input)
  {
    hide AllWritable, StreamFits, StreamExpand, Apply;
    ExpandOne(input[..upto], t);
    ExpandAppend(input[..from], ts, [t]);
  }

  lemma ExpandOne(hist: seq<Byte>, t: Token)
    requires Reaches(|hist|, t)
    ensures Expandable(|hist|, [t]) && Expand(hist, [t]) == Apply(hist, t)
  {
    hide Apply;
    assert [t][1..] == [];
    assert Expandable(|hist| + TokenLen(t), []);
    assert Expand(Apply(hist, t), []) == Apply(hist, t);
  }

  lemma ToldLiteral(far: nat, bs: seq<Block>, ts: seq<Token>, from: nat, upto: nat, input: seq<Byte>)
    requires Told(far, bs, ts, from, upto, input) && upto < |input|
    ensures Told(far, bs, ts + [Literal(input[upto])], from, upto + 1, input)
  {
    hide Told;
    assert input[..upto + 1] == input[..upto] + [input[upto]];
    ToldToken(far, bs, ts, from, upto, input, Literal(input[upto]));
  }

  /** The input at pos repeats for len bytes what is dist bytes before. */
  ghost predicate Repeats(input: seq<Byte>, pos: nat, dist: int, len: nat)
  {
    1 <= dist <= pos && pos + len <= |input| && forall i :: pos <= i < pos + len ==> input[i] == input[i - dist]
  }

  lemma ToldMatch(far: nat, bs: seq<Block>, ts: seq<Token>, from: nat, upto: nat, input: seq<Byte>, dist: nat, len: nat)
    requires Told(far, bs, ts, from, upto, input) && Repeats(input, upto, dist, len) && dist <= far
    ensures Told(far, bs, ts + [Match(len, dist)], from, upto + len, input)
  {
    hide Told;
    var text := input[..upto + len];
    forall i | |text| - len <= i < |text| ensures text[i] == text[i - dist] {
      assert input[i] == input[i - dist];
    }
    CopyUnique(text, dist, len);
    assert text[..|text| - len] == input[..upto];
    ToldToken(far, bs, ts, from, upto, input, Match(len, dist));
  }

  /** Flushing turns the symbols into a block. */
  lemma ToldFlush(far: nat, bs: seq<Block>, ts: seq<Token>, from: nat, upto: nat, input: seq<Byte>, blk: Block,
                  dyn: Block, buf: Option<seq<Byte>>, last: bool, pos: nat, fixed: bool)
    requires Told(far, bs, ts, from, upto, input) && Chosen(blk, dyn, ts, buf, last, pos, true, fixed)
    requires buf.Some? ==> buf.value == input[from..upto]
    ensures Told(far, bs + [blk], [], upto, upto, input) && Writable(blk)
  {
    hide Writable, BlockBits, StreamFits, StreamExpand, Expand, Expandable, Cheapest;
    var h := input[..from];
    assert BlockFits(|h|, blk);
    assert input[..from] + input[from..upto] == input[..upto];
    assert BlockExpand(h, blk) == input[..upto];
    ExpandMore([], bs, blk);
    NoTokens(upto, input[..upto]);
  }

  /** An empty block changes nothing. */
  lemma ToldEmpty(far: nat, bs: seq<Block>, at: nat, input: seq<Byte>, b: Block)
    requires Told(far, bs, [], at, at, input) && Writable(b) && (b == FixedBlock([]) || b == StoredBlock([]))
    ensures Told(far, bs + [b], [], at, at, input)
  {
    hide Writable, StreamFits, StreamExpand;
    var h := input[..at];
    NoTokens(|h|, h);
    assert BlockFits(|h|, b);
    assert h + [] == h;
    ExpandMore([], bs, b);
  }

  /** Without symbols nothing has happened since the last block. */
  lemma ToldNone(far: nat, bs: seq<Block>, from: nat, upto: nat, input: seq<Byte>)
    requires Told(far, bs, [], from, upto, input)
    ensures from == upto
  {
    hide AllWritable, StreamFits, StreamExpand;
    NoTokens(from, input[..from]);
    assert |input[..from]| == |input[..upto]|;
  }

  lemma NoTokens(n: nat, hist: seq<Byte>)
    ensures Expandable(n, []) && (n == |hist| ==> Expand(hist, []) == hist)
  {
  }

  // ---------- the story since the history was last forgotten ----------

  /** Where the history was last forgotten: the position in the input, the number of blocks before, and the number of
      bytes that they are. */
  datatype Anew = Anew(since: nat, cut: nat, mark: nat)

  /** The blocks behind the cut tell the input from there on without any history, and they start on a byte. */
  ghost predicate Afresh(far: nat, bs: seq<Block>, ts: seq<Token>, from: nat, upto: nat, input: seq<Byte>,
                         pending: seq<Byte>, a: Anew)
  {
    a.since <= from <= upto && a.since <= |input| && a.cut <= |bs| && a.mark <= |pending|
    && AllWritable(bs[..a.cut]) && Sent(bs[..a.cut], false) == BytesToBits(pending[..a.mark])
    && Told(far, bs[a.cut..], ts, from - a.since, upto - a.since, input[a.since..])
  }

  lemma AfreshNothing(far: nat)
    ensures Afresh(far, [], [], 0, 0, [], [], Anew(0, 0, 0))
  {
    ToldNothing(far);
    NoBlocks();
    var none: seq<Block>, nothing: seq<Byte> := [], [];
    assert none[..0] == [] && none[0..] == [] && nothing[..0] == [] && nothing[0..] == [];
  }

  lemma AfreshHas(far: nat, bs: seq<Block>, ts: seq<Token>, from: nat, upto: nat, input: seq<Byte>,
                  pending: seq<Byte>, a: Anew)
    requires Afresh(far, bs, ts, from, upto, input, pending, a)
    ensures a.since <= from <= upto && a.since <= |input| && a.cut <= |bs| && a.mark <= |pending|
    ensures AllWritable(bs[..a.cut]) && Sent(bs[..a.cut], false) == BytesToBits(pending[..a.mark])
    ensures Told(far, bs[a.cut..], ts, from - a.since, upto - a.since, input[a.since..])
  {
    hide Told, Sent, BytesToBits, AllWritable;
  }

  lemma AfreshMore(far: nat, bs: seq<Block>, ts: seq<Token>, from: nat, upto: nat, input: seq<Byte>,
                   pending: seq<Byte>, a: Anew, more: seq<Byte>)
    requires Afresh(far, bs, ts, from, upto, input, pending, a)
    ensures Afresh(far, bs, ts, from, upto, input + more, pending, a)
  {
    hide Told, Sent, BytesToBits, AllWritable;
    ToldMore(far, bs[a.cut..], ts, from - a.since, upto - a.since, input[a.since..], more);
    assert (input + more)[a.since..] == input[a.since..] + more;
  }

  /** Bytes put out later do not matter. */
  lemma AfreshPending(far: nat, bs: seq<Block>, ts: seq<Token>, from: nat, upto: nat, input: seq<Byte>,
                      pending: seq<Byte>, a: Anew, longer: seq<Byte>)
    requires Afresh(far, bs, ts, from, upto, input, pending, a) && pending <= longer
    ensures Afresh(far, bs, ts, from, upto, input, longer, a)
  {
    hide Told, Sent, BytesToBits, AllWritable;
    assert longer[..a.mark] == pending[..a.mark];
  }

  lemma AfreshLiteral(far: nat, bs: seq<Block>, ts: seq<Token>, from: nat, upto: nat, input: seq<Byte>,
                      pending: seq<Byte>, a: Anew)
    requires Afresh(far, bs, ts, from, upto, input, pending, a) && upto < |input|
    ensures Afresh(far, bs, ts + [Literal(input[upto])], from, upto + 1, input, pending, a)
  {
    hide Told, Sent, BytesToBits, AllWritable;
    ToldLiteral(far, bs[a.cut..], ts, from - a.since, upto - a.since, input[a.since..]);
    assert input[a.since..][upto - a.since] == input[upto];
  }

  lemma AfreshMatch(far: nat, bs: seq<Block>, ts: seq<Token>, from: nat, upto: nat, input: seq<Byte>,
                    pending: seq<Byte>, a: Anew, dist: nat, len: nat)
    requires Afresh(far, bs, ts, from, upto, input, pending, a)
    requires Repeats(input, upto, dist, len) && dist <= far && a.since + dist <= upto
    ensures Afresh(far, bs, ts + [Match(len, dist)], from, upto + len, input, pending, a)
  {
    hide Told, Sent, BytesToBits, AllWritable;
    var rest, at := input[a.since..], upto - a.since;
    forall i | at <= i < at + len ensures rest[i] == rest[i - dist] {
      assert input[i + a.since] == input[i + a.since - dist];
    }
    ToldMatch(far, bs[a.cut..], ts, from - a.since, at, rest, dist, len);
  }

  lemma AfreshFlush(far: nat, bs: seq<Block>, ts: seq<Token>, from: nat, upto: nat, input: seq<Byte>,
                    pending: seq<Byte>, a: Anew, blk: Block, dyn: Block, buf: Option<seq<Byte>>, last: bool, pos: nat,
                    fixed: bool)
    requires Afresh(far, bs, ts, from, upto, input, pending, a) && Chosen(blk, dyn, ts, buf, last, pos, true, fixed)
    requires upto <= |input| && (buf.Some? ==> buf.value == input[from..upto])
    ensures Afresh(far, bs + [blk], [], upto, upto, input, pending, a)
  {
    hide Told, Sent, BytesToBits, AllWritable, Chosen;
    var rest := input[a.since..];
    assert rest[from - a.since..upto - a.since] == input[from..upto];
    ToldFlush(far, bs[a.cut..], ts, from - a.since, upto - a.since, rest, blk, dyn, buf, last, pos, fixed);
    BehindCut(bs, blk, a.cut);
  }

  lemma BehindCut(bs: seq<Block>, b: Block, cut: nat)
    requires cut <= |bs|
    ensures (bs + [b])[..cut] == bs[..cut] && (bs + [b])[cut..] == bs[cut..] + [b]
  {
  }

  lemma AfreshEmpty(far: nat, bs: seq<Block>, at: nat, input: seq<Byte>, pending: seq<Byte>, a: Anew, b: Block)
    requires Afresh(far, bs, [], at, at, input, pending, a)
    requires Writable(b) && (b == FixedBlock([]) || b == StoredBlock([]))
    ensures Afresh(far, bs + [b], [], at, at, input, pending, a)
  {
    hide Told, Sent, BytesToBits, AllWritable, Writable;
    ToldEmpty(far, bs[a.cut..], at - a.since, input[a.since..], b);
    BehindCut(bs, b, a.cut);
  }

  /** The history is forgotten here. */
  lemma AfreshHere(far: nat, bs: seq<Block>, input: seq<Byte>, pending: seq<Byte>)
    requires AllWritable(bs) && Sent(bs, false) == BytesToBits(pending)
    ensures Afresh(far, bs, [], |input|, |input|, input, pending, Anew(|input|, |bs|, |pending|))
  {
    hide Sent, BytesToBits, AllWritable;
    ToldNothing(far);
    assert bs[..|bs|] == bs && bs[|bs|..] == [] && pending[..|pending|] == pending && input[|input|..] == [];
  }

  // ---------- a stream in two parts ----------

  lemma {:induction false} StreamParts(a: seq<Block>, b: seq<Block>, pos: nat)
    requires AllWritable(a) && AllWritable(b) && b != []
    ensures AllWritable(a + b) && StreamFrom(a + b, pos) == Leading(a, pos) + StreamFrom(b, pos + |Leading(a, pos)|)
    decreases |a|
  {
    hide BlockBits, Writable, ToBits;
    if a == [] {
      assert a + b == b;
    } else {
      var f := BlockBits(a[0], false, pos);
      StreamParts(a[1..], b, pos + |f|);
      assert (a + b)[1..] == a[1..] + b;
    }
  }

  /** What a block is written as depends on its place in a byte only. */
  lemma BlockAnywhere(b: Block, last: bool, pos: nat, pos': nat)
    requires Writable(b) && pos % 8 == pos' % 8
    ensures BlockBits(b, last, pos) == BlockBits(b, last, pos')
  {
    hide ToBits, BytesToBits, TypeBits, HeaderBits, BodyBits, Sendable, AllCoded;
    SameByte(pos, pos', 3);
    SamePadding(pos + 3, pos' + 3);
  }

  lemma SamePadding(a: nat, b: nat)
    requires a % 8 == b % 8
    ensures Padding(a) == Padding(b)
  {
  }

  lemma SameByte(a: nat, b: nat, n: nat)
    requires a % 8 == b % 8
    ensures (a + n) % 8 == (b + n) % 8
  {
  }

  lemma {:induction false} StreamAnywhere(bs: seq<Block>, pos: nat, pos': nat)
    requires AllWritable(bs) && pos % 8 == pos' % 8
    ensures StreamFrom(bs, pos) == StreamFrom(bs, pos')
    decreases |bs|
  {
    hide BlockBits, Writable, ToBits, Padding;
    if bs == [] {
      SamePadding(pos, pos');
    } else {
      BlockAnywhere(bs[0], |bs| == 1, pos, pos');
      var n := |BlockBits(bs[0], |bs| == 1, pos)|;
      SameByte(pos, pos', n);
      StreamAnywhere(bs[1..], pos + n, pos' + n);
    }
  }

  /** What a closed stream holds behind the cut is a complete stream by itself. */
  lemma RestIsStream(bs: seq<Block>, cut: nat, pending: seq<Byte>, mark: nat)
    requires AllWritable(bs) && cut < |bs| && mark <= |pending|
    requires Sent(bs, true) == BytesToBits(pending)
    requires AllWritable(bs[..cut]) && Sent(bs[..cut], false) == BytesToBits(pending[..mark])
    ensures AllWritable(bs[cut..]) && Sent(bs[cut..], true) == BytesToBits(pending[mark..])
  {
    hide *;
    PartsWritable(bs, cut);
    var a, b := bs[..cut], bs[cut..];
    assert a + b == bs && b != [];
    SentStream(bs);
    StreamParts(a, b, 0);
    SentLeading(a);
    SentStream(b);
    var u := BytesToBits(pending[..mark]);
    OnByteAgain(|u|, mark);
    StreamAnywhere(b, 0 + |u|, 0);
    BytesToBitsAppend(pending[..mark], pending[mark..]);
    assert pending[..mark] + pending[mark..] == pending;
    SameTail(u, StreamFrom(b, 0), BytesToBits(pending[mark..]));
  }

  lemma OnByteAgain(n: nat, k: nat)
    requires n == 8 * k
    ensures (0 + n) % 8 == 0 % 8
  {
  }

  lemma PartsWritable(bs: seq<Block>, cut: nat)
    requires AllWritable(bs) && cut <= |bs|
    ensures AllWritable(bs[..cut]) && AllWritable(bs[cut..])
  {
    hide Writable;
  }

  lemma SameTail(u: BitString, v: BitString, w: BitString)
    requires u + v == u + w
    ensures v == w
  {
    assert v == (u + v)[|u|..] && w == (u + w)[|u|..];
  }
}
