/** Whole blocks and sequences of blocks: their bits, and how the decoder machine reads them back
    (sections 3.2.3 to 3.2.6 of RFC 1951). */
module BlockStream {
  import opened Bits
  import opened Canonical
  import opened Symbols
  import opened Lz77
  import opened Decoder
  import opened MoreInput
  import opened BlockFormat
  import opened BlockHeader

  datatype Block =
    | StoredBlock(data: seq<Byte>)
    | FixedBlock(tokens: seq<Token>)
    | DynamicBlock(tokens: seq<Token>, cl: seq<nat>, ncl: nat, ll: seq<nat>, dl: seq<nat>)

  /** The block can be written. */
  ghost predicate Writable(b: Block)
  {
    match b
    case StoredBlock(data) => |data| <= 65535
    case FixedBlock(ts) => AllCoded(FixedLitLens(), FixedDistLens(), ts)
    case DynamicBlock(ts, cl, ncl, ll, dl) => Sendable(cl, ncl, ll, dl) && AllCoded(ll, dl, ts)
  }

  function StoredBits(data: seq<Byte>, pos: nat): (u: BitString)
    requires |data| <= 65535
  {
    ToBits(0, Padding(pos)) + ToBits(|data|, 16) + ToBits(65535 - |data|, 16) + BytesToBits(data)
  }

  /** Tokens and the end-of-block code. */
  ghost function BodyBits(ll: seq<nat>, dl: seq<nat>, ts: seq<Token>): (u: BitString)
    requires AllCoded(ll, dl, ts) && Coded(ll, 256)
  {
    TokensBits(ll, dl, ts) + CodeBits(ll, 256)
  }

  function TypeBits(kind: nat, last: bool): (u: BitString)
    ensures |u| == 3
  {
    ToBits(2 * kind + if last then 1 else 0, 3)
  }

  /** The bits of a block written at bit position pos of the stream. */
  ghost function BlockBits(b: Block, last: bool, pos: nat): (u: BitString)
    requires Writable(b)
  {
    match b
    case StoredBlock(data) => TypeBits(0, last) + StoredBits(data, pos + 3)
    case FixedBlock(ts) =>
      FixedLitValid();
      TypeBits(1, last) + BodyBits(FixedLitLens(), FixedDistLens(), ts)
    case DynamicBlock(ts, cl, ncl, ll, dl) =>
      TypeBits(2, last) + HeaderBits(cl, ncl, ll, dl) + BodyBits(ll, dl, ts)
  }

  ghost predicate BlockFits(n: nat, b: Block)
  {
    match b
    case StoredBlock(data) => true
    case FixedBlock(ts) => Expandable(n, ts)
    case DynamicBlock(ts, _, _, _, _) => Expandable(n, ts)
  }

  /** The history after the block. */
  ghost function BlockExpand(hist: seq<Byte>, b: Block): (r: seq<Byte>)
    requires BlockFits(|hist|, b)
  {
    match b
    case StoredBlock(data) => hist + data
    case FixedBlock(ts) => Expand(hist, ts)
    case DynamicBlock(ts, _, _, _, _) => Expand(hist, ts)
  }

  // ---------- one block ----------

  lemma TypeBitsRead(kind: nat, last: bool, rest: BitString)
    requires kind < 3
    ensures var u := TypeBits(kind, last) + rest;
            u[0] == last && Field(u, 1, 2) == kind && u[3..] == rest
  {
    var v := 2 * kind + if last then 1 else 0;
    var u := TypeBits(kind, last) + rest;
    assert ToBits(v, 3) == [v % 2 == 1] + ToBits(v / 2, 2);
    assert u[1..1 + 2] == ToBits(kind, 2);
    FromToBits(kind, 2);
    assert Pow2(2) == 4;
    LowSmall(kind, 2);
  }

  /** The decoder is between blocks, not at the end. */
  ghost predicate AtBlock(c: Config, u: BitString)
  {
    c.st.mode.Type? && !c.st.last && c.unread == u
  }

  lemma CopyingStarts(c: Config, b: Byte, tail: BitString)
    requires c.st.mode.Copying? && c.st.length > 0 && c.unread == ToBits(b, 8) + tail
    ensures Step(c) == Some(Config(c.st.(length := c.st.length - 1, out := c.st.out + [b]), tail))
  {
    hide Step, ToBits, Low, FromBits, Pow2;
    StepBegins(c);
    Pow2Values();
    FieldOfBits(b, 8, tail);
    assert c.unread[..8] == c.unread[0..0 + 8];
  }

  lemma CopyingEnds(c: Config)
    requires c.st.mode.Copying? && c.st.length == 0
    ensures Step(c) == Some(Config(c.st.(mode := Type), c.unread))
  {
    hide Step;
    StepBegins(c);
  }

  lemma {:induction false} CopyingDecodes(far: nat, c: Config, data: seq<Byte>, rest: BitString) returns (d: Config)
    requires c.st.mode.Copying? && c.st.length == |data| && c.unread == BytesToBits(data) + rest
    ensures Via(far, c, d) && d == Config(c.st.(mode := Type, length := 0, out := c.st.out + data), rest)
    decreases |data|
  {
    hide Via, ToBits, Step;
    if data == [] {
      assert BytesToBits(data) + rest == rest;
      assert c.st.out + data == c.st.out;
      CopyingEnds(c);
      d := Config(c.st.(mode := Type, length := 0), rest);
      ViaStep(far, c);
    } else {
      var tail := BytesToBits(data[1..]) + rest;
      assert c.unread == ToBits(data[0], 8) + tail;
      CopyingStarts(c, data[0], tail);
      var e := Config(c.st.(length := |data| - 1, out := c.st.out + [data[0]]), tail);
      ViaStep(far, c);
      d := CopyingDecodes(far, e, data[1..], rest);
      assert c.st.out + [data[0]] + data[1..] == c.st.out + data;
      ViaTrans(far, c, e, d);
    }
  }

  lemma SizeFields(n: nat, tail: BitString)
    requires n <= 65535
    ensures var u := ToBits(n, 16) + ToBits(65535 - n, 16) + tail;
            Field(u, 0, 16) == n && Field(u, 16, 16) == 65535 - n && u[32..] == tail
  {
    hide ToBits, Field, Pow2, Low;
    Pow2Values();
    var a, b := ToBits(n, 16), ToBits(65535 - n, 16);
    assert a + b + tail == a + (b + tail);
    FieldOfBits(n, 16, b + tail);
    FieldOfBits(65535 - n, 16, tail);
    FieldOfExtendedAt(a, b + tail, 16);
  }

  /** The bits of a stored block in the order they are read. */
  lemma StoredRegroup(head: BitString, data: seq<Byte>, pos: nat, rest: BitString)
    requires |data| <= 65535
    ensures head + StoredBits(data, pos) + rest
         == head + (ToBits(0, Padding(pos))
                    + (ToBits(|data|, 16) + ToBits(65535 - |data|, 16) + (BytesToBits(data) + rest)))
  {
    hide ToBits, BytesToBits, Padding;
    var p, a, b, u := ToBits(0, Padding(pos)), ToBits(|data|, 16), ToBits(65535 - |data|, 16), BytesToBits(data);
    Regroup(head, p + a + b + u, rest);
    Regroup(p + a + b, u, rest);
    Regroup(p + a, b, u + rest);
    Regroup(p, a, b + (u + rest));
    Regroup(a, b, u + rest);
  }

  lemma Regroup(a: BitString, b: BitString, c: BitString)
    ensures a + b + c == a + (b + c)
  {
  }

  lemma AlignedBehind(pad: BitString, body: BitString)
    requires |pad + body| % 8 == |pad|
    ensures Aligned(pad + body) == body
  {
  }

  lemma PaddingLeft(head: BitString, pad: BitString, body: BitString, pos: nat)
    requires |head| == 3 && |pad| == Padding(pos + 3) && (pos + |head + (pad + body)|) % 8 == 0
    ensures |pad + body| % 8 == |pad|
  {
  }

  lemma StoredStarts(c: Config, last: bool, pad: BitString, body: BitString)
    requires AtBlock(c, TypeBits(0, last) + (pad + body)) && |pad + body| % 8 == |pad|
    ensures Step(c) == Some(Config(c.st.(mode := Stored, last := last), body))
  {
    hide Step, Field, TypeBits, Aligned;
    StepBegins(c);
    TypeBitsRead(0, last, pad + body);
    AlignedBehind(pad, body);
  }

  lemma StoredSizes(c: Config, n: nat, tail: BitString)
    requires n <= 65535 && c.st.mode.Stored? && c.unread == ToBits(n, 16) + ToBits(65535 - n, 16) + tail
    ensures Step(c) == Some(Config(c.st.(mode := Copying, length := n), tail))
  {
    hide Step, Field, ToBits;
    StepBegins(c);
    SizeFields(n, tail);
  }

  lemma StoredDecodes(far: nat, c: Config, data: seq<Byte>, last: bool, pos: nat, rest: BitString) returns (d: Config)
    requires |data| <= 65535 && (pos + |c.unread|) % 8 == 0
    requires AtBlock(c, TypeBits(0, last) + StoredBits(data, pos + 3) + rest)
    ensures Via(far, c, d) && d == Config(c.st.(mode := Type, last := last, length := 0, out := c.st.out + data), rest)
  {
    hide Via, ToBits, TypeBits, Step, StoredBits, BytesToBits, Padding;
    var pad, tail := ToBits(0, Padding(pos + 3)), BytesToBits(data) + rest;
    var body := ToBits(|data|, 16) + ToBits(65535 - |data|, 16) + tail;
    StoredRegroup(TypeBits(0, last), data, pos + 3, rest);
    PaddingLeft(TypeBits(0, last), pad, body, pos);
    StoredStarts(c, last, pad, body);
    var e := Config(c.st.(mode := Stored, last := last), body);
    StoredSizes(e, |data|, tail);
    var f := Config(e.st.(mode := Copying, length := |data|), tail);
    d := CopyingDecodes(far, f, data, rest);
    ViaStep(far, c);
    ViaStep(far, e);
    ViaTrans(far, c, e, f);
    ViaTrans(far, c, f, d);
  }

  lemma BodyDecodes(far: nat, c: Config, ll: seq<nat>, dl: seq<nat>, ts: seq<Token>, rest: BitString)
      returns (d: Config)
    requires Usable(ll, dl) && AllCoded(ll, dl, ts) && Coded(ll, 256) && Expandable(|c.st.out|, ts)
      && NearTokens(ts, far)
    requires AtSymbol(c, ll, dl, c.st.out, BodyBits(ll, dl, ts) + rest)
    ensures Via(far, c, d)
    ensures d.st.mode.Type? && d.st.last == c.st.last && d.st.out == Expand(c.st.out, ts) && d.unread == rest
  {
    hide Via, Usable, AllCoded, CodeBits, Expand, Expandable, TokensBits;
    var tail := CodeBits(ll, 256) + rest;
    assert c.unread == TokensBits(ll, dl, ts) + tail;
    var e := TokensDecode(far, c, ll, dl, ts, tail);
    d := EndDecodes(far, e, ll, dl, rest);
    ViaTrans(far, c, e, d);
  }

  lemma CompleteUsable(ll: seq<nat>, dl: seq<nat>)
    requires Complete(ll) && Complete(dl)
    ensures Usable(ll, dl)
  {
  }

  lemma FixedDecodes(far: nat, c: Config, ts: seq<Token>, last: bool, rest: BitString) returns (d: Config)
    requires AllCoded(FixedLitLens(), FixedDistLens(), ts) && Expandable(|c.st.out|, ts) && NearTokens(ts, far)
    requires Coded(FixedLitLens(), 256)
    requires AtBlock(c, TypeBits(1, last) + BodyBits(FixedLitLens(), FixedDistLens(), ts) + rest)
    ensures Via(far, c, d)
    ensures d.st.mode.Type? && d.st.last == last && d.st.out == Expand(c.st.out, ts) && d.unread == rest
  {
    hide Via, TypeBits, BodyBits, FixedLitLens, FixedDistLens, Complete, Usable, AllCoded, Expand, Expandable, Field;
    var ll, dl := FixedLitLens(), FixedDistLens();
    var tail := BodyBits(ll, dl, ts) + rest;
    assert c.unread == TypeBits(1, last) + tail;
    TypeBitsRead(1, last, tail);
    var e := Config(c.st.(mode := Len, last := last, llens := ll, dlens := dl), tail);
    assert Step(c) == Some(e);
    FixedLitComplete();
    FixedDistComplete();
    CompleteUsable(ll, dl);
    ViaStep(far, c);
    d := BodyDecodes(far, e, ll, dl, ts, rest);
    ViaTrans(far, c, e, d);
  }

  lemma DynamicDecodes(far: nat, c: Config, b: Block, last: bool, rest: BitString) returns (d: Config)
    requires b.DynamicBlock? && Writable(b) && Expandable(|c.st.out|, b.tokens) && NearTokens(b.tokens, far)
    requires Coded(b.ll, 256)
    requires AtBlock(c, TypeBits(2, last) + HeaderBits(b.cl, b.ncl, b.ll, b.dl) + BodyBits(b.ll, b.dl, b.tokens) + rest)
    ensures Via(far, c, d)
    ensures d.st.mode.Type? && d.st.last == last && d.st.out == Expand(c.st.out, b.tokens) && d.unread == rest
  {
    hide Via, TypeBits, BodyBits, HeaderBits, Complete, Usable, AllCoded, Expand, Expandable, Field, AllOpsCoded;
    var body := BodyBits(b.ll, b.dl, b.tokens) + rest;
    var tail := HeaderBits(b.cl, b.ncl, b.ll, b.dl) + body;
    assert c.unread == TypeBits(2, last) + tail;
    TypeBitsRead(2, last, tail);
    var e := Config(c.st.(mode := Table, last := last), tail);
    assert Step(c) == Some(e);
    ViaStep(far, c);
    var f := HeaderDecodes(far, e, b.cl, b.ncl, b.ll, b.dl, body);
    CompleteUsable(b.ll, b.dl);
    d := BodyDecodes(far, f, b.ll, b.dl, b.tokens, rest);
    ViaTrans(far, c, e, f);
    ViaTrans(far, c, f, d);
  }

  /** No match of the block reaches back more than `far` bytes. */
  ghost predicate NearBlock(b: Block, far: nat)
  {
    match b
    case StoredBlock(_) => true
    case FixedBlock(ts) => NearTokens(ts, far)
    case DynamicBlock(ts, _, _, _, _) => NearTokens(ts, far)
  }

  ghost predicate NearBlocks(bs: seq<Block>, far: nat)
  {
    forall i :: 0 <= i < |bs| ==> NearBlock(bs[i], far)
  }

  lemma SendableEnd(b: Block)
    requires b.DynamicBlock? && Writable(b)
    ensures Coded(b.ll, 256)
  {
  }

  /** The decoder reads any block as what it stands for, and stops reading at its end. */
  lemma BlockDecodes(far: nat, c: Config, b: Block, last: bool, pos: nat, rest: BitString) returns (d: Config)
    requires Writable(b) && BlockFits(|c.st.out|, b) && NearBlock(b, far) && (pos + |c.unread|) % 8 == 0
    requires AtBlock(c, BlockBits(b, last, pos) + rest)
    ensures Via(far, c, d)
    ensures d.st.mode.Type? && d.st.last == last && d.st.out == BlockExpand(c.st.out, b) && d.unread == rest
  {
    hide Via, TypeBits, BodyBits, HeaderBits, StoredBits, FixedLitLens, FixedDistLens, AllCoded, Sendable, Expand,
      Expandable;
    match b
    case StoredBlock(data) => d := StoredDecodes(far, c, data, last, pos, rest);
    case FixedBlock(ts) =>
      FixedLitValid();
      d := FixedDecodes(far, c, ts, last, rest);
    case DynamicBlock(_, _, _, _, _) =>
      SendableEnd(b);
      d := DynamicDecodes(far, c, b, last, rest);
  }

  // ---------- a stream of blocks ----------

  ghost predicate AllWritable(bs: seq<Block>)
  {
    forall i :: 0 <= i < |bs| ==> Writable(bs[i])
  }

  /** Blocks from index i on, the last of them marked, then padding to a byte. */
  ghost function StreamFrom(bs: seq<Block>, pos: nat): (u: BitString)
    requires AllWritable(bs)
    decreases |bs|
  {
    if bs == [] then ToBits(0, Padding(pos))
    else
      var b := BlockBits(bs[0], |bs| == 1, pos);
      b + StreamFrom(bs[1..], pos + |b|)
  }

  lemma {:induction false} StreamWhole(bs: seq<Block>, pos: nat)
    requires AllWritable(bs)
    ensures (pos + |StreamFrom(bs, pos)|) % 8 == 0
    decreases |bs|
  {
    hide BlockBits, Writable, ToBits;
    if bs != [] {
      StreamWhole(bs[1..], pos + |BlockBits(bs[0], |bs| == 1, pos)|);
    }
  }

  ghost predicate StreamFits(n: nat, bs: seq<Block>)
    decreases |bs|
  {
    bs == [] || (BlockFits(n, bs[0]) && StreamFits(n + BlockLen(bs[0]), bs[1..]))
  }

  function BlockLen(b: Block): (n: nat)
  {
    match b
    case StoredBlock(data) => |data|
    case FixedBlock(ts) => TokensLen(ts)
    case DynamicBlock(ts, _, _, _, _) => TokensLen(ts)
  }

  lemma BlockExpandLen(hist: seq<Byte>, b: Block)
    requires BlockFits(|hist|, b)
    ensures |BlockExpand(hist, b)| == |hist| + BlockLen(b)
  {
    match b
    case StoredBlock(data) =>
    case FixedBlock(ts) => ExpandLength(hist, ts);
    case DynamicBlock(ts, _, _, _, _) => ExpandLength(hist, ts);
  }

  ghost function StreamExpand(hist: seq<Byte>, bs: seq<Block>): (r: seq<Byte>)
    requires StreamFits(|hist|, bs)
    decreases |bs|
  {
    if bs == [] then hist
    else
      BlockExpandLen(hist, bs[0]);
      StreamExpand(BlockExpand(hist, bs[0]), bs[1..])
  }

  /** A stream of blocks decodes to its expansion, and decoding ends with it. */
  lemma {:induction false} StreamDecodes(far: nat, c: Config, bs: seq<Block>, pos: nat, rest: BitString)
      returns (d: Config)
    requires bs != [] && AllWritable(bs) && StreamFits(|c.st.out|, bs) && NearBlocks(bs, far)
    requires AtBlock(c, StreamFrom(bs, pos) + rest) && |rest| % 8 == 0
    ensures Via(far, c, d)
    ensures d.st.mode.Done? && d.st.out == StreamExpand(c.st.out, bs) && d.unread == rest
    decreases |bs|
  {
    hide Via, BlockBits, Writable, BlockExpand, BlockFits, ToBits, NearBlock;
    var last := |bs| == 1;
    var b := BlockBits(bs[0], last, pos);
    var tail := StreamFrom(bs[1..], pos + |b|) + rest;
    assert c.unread == b + tail;
    StreamWhole(bs, pos);
    var e := BlockDecodes(far, c, bs[0], last, pos, tail);
    BlockExpandLen(c.st.out, bs[0]);
    if last {
      assert bs[1..] == [];
      d := Config(e.st.(mode := Done), rest);
      StreamWhole([], pos + |b|);
      assert |tail| % 8 == Padding(pos + |b|);
      assert Aligned(tail) == rest;
      assert Step(e) == Some(d);
      ViaStep(far, e);
    } else {
      d := StreamDecodes(far, e, bs[1..], pos + |b|, rest);
    }
    ViaTrans(far, c, e, d);
  }
}
