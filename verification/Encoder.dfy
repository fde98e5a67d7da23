/** The block writer of the compressor (trees.c): tally symbols, build the trees, choose the
    cheapest of the three block types and send it. */
module Encoder {
  import opened Bits
  import opened Canonical
  import opened Symbols
  import opened Lz77
  import opened CodeLengths
  import opened Decoder
  import opened MoreInput
  import opened BlockFormat
  import opened BlockHeader
  import opened BlockStream
  import opened BitWriter
  import opened Optimality
  import opened MergeTheory
  import opened TreeDepths
  import opened TreeKinds
  import opened UsedSymbols
  import opened BitLengths
  import opened MergedTree
  import opened BuildTree
  import opened StaticTrees
  import opened TreeScan
  import opened TreeSend
  import opened Tally
  import opened TreeFacts
  import opened BlockBody
  import opened ShortestCode

  // ---------- what the built trees have to satisfy, on snapshots ----------

  /** A literal/length or distance tree fit for sending the symbols counted in freqs. */
  ghost predicate Fit(fc: seq<nat>, dl: seq<nat>, mc: nat, freqs: seq<nat>)
  {
    |fc| == |dl| && mc < |freqs| < |dl| && Covers(dl, freqs)
    && (forall x :: mc < x < |freqs| ==> dl[x] == 0) && dl[mc] != 0
    && CodeTable(fc, dl, dl[..mc + 1])
  }

  lemma FitBuilt(fc: seq<nat>, dl: seq<nat>, mc: nat, f0: seq<nat>, freqs: seq<nat>, max: nat)
    requires |fc| == |dl| && mc < |freqs| < |dl| && |freqs| <= |f0| && f0[..|freqs|] == freqs && max <= 15
    requires forall x :: 0 <= x < |freqs| ==> dl[x] <= max && (f0[x] != 0 ==> dl[x] != 0)
    requires (forall x :: mc < x < |freqs| ==> dl[x] == 0) && dl[mc] != 0 && Complete(dl[..mc + 1])
    requires forall s :: 0 <= s <= mc && dl[s] != 0 ==> fc[s] == CodeVal(dl[..mc + 1], s)
    ensures Fit(fc, dl, mc, freqs)
  {
    hide Complete, CodeVal;
    assert forall x :: 0 <= x < |freqs| ==> freqs[x] == f0[x];
    BuiltTable(fc, dl, mc, mc + 1);
  }

  /** The guard behind the last length does not disturb the code. */
  lemma FitGuarded(fc: seq<nat>, dl: seq<nat>, mc: nat, freqs: seq<nat>)
    requires Fit(fc, dl, mc, freqs)
    ensures var g := dl[mc + 1 := GUARD];
            CodeTable(fc, g, g[..mc + 1]) && g[..mc + 1] == dl[..mc + 1]
            && forall x :: 0 <= x <= mc ==> g[x] <= 15
  {
    hide Complete, CodeVal;
    var g := dl[mc + 1 := GUARD];
    assert g[..mc + 1] == dl[..mc + 1];
  }

  /** The tree built from the arrays belongs to the frequencies of the symbols. */
  lemma MergedFrom(t: Tree, f0: seq<nat>, ls0: seq<nat>, n: nat, max: nat)
    requires n <= |f0| == |ls0|
    requires forall s: Tree :: Leaves(s) == Leaves(t) ==> Cost(t) <= Cost(s)
    requires var used := Used(f0, n);
             |used| >= 2 ==>
               && Leaves(t) == multiset(At(used, f0))
               && (Height(t) <= max ==>
                     DepthsOf(t, 0) == multiset(Pairs(used, f0, ls0)) && Sum(At(used, CostSeq(ls0, f0))) == Cost(t))
    requires |Used(f0, n)| < 2 ==> forall x :: 0 <= x < n ==> ls0[x] <= 1
    requires Height(t) > max ==> |Used(f0, n)| >= max + 2
    ensures MergedFor(t, f0[..n], ls0[..n], max)
  {
    hide Used, Leaves, Cost, Height, DepthsOf, Sum, CostSeq;
    var f, ls, used := f0[..n], ls0[..n], Used(f0, n);
    SameUsed(f0, f, n);
    if |used| >= 2 {
      assert At(used, f) == At(used, f0) && Pairs(used, f, ls) == Pairs(used, f0, ls0);
      forall i | 0 <= i < |used| ensures At(used, CostSeq(ls, f))[i] == At(used, CostSeq(ls0, f0))[i] {
        CostSeqIs(ls, f, used[i]);
        CostSeqIs(ls0, f0, used[i]);
      }
      assert At(used, CostSeq(ls, f)) == At(used, CostSeq(ls0, f0));
    }
  }

  /** The lengths sent are all there are. */
  lemma PaddedFit(fc: seq<nat>, dl: seq<nat>, mc: nat, freqs: seq<nat>)
    requires Fit(fc, dl, mc, freqs)
    ensures Pad(dl[..mc + 1], |freqs|) == dl[..|freqs|]
  {
    hide CodeTable, Covers;
  }

  lemma BuiltFromIs(b: Block, lt: Tree, dt: Tree, ls: seq<nat>, ds: seq<nat>)
    requires b.DynamicBlock? && Writable(b) && Pad(b.ll, 286) == ls && Pad(b.dl, 30) == ds
    requires MergedFor(lt, LitFreqs(b.tokens), ls, 15) && MergedFor(dt, DistFreqs(b.tokens), ds, 15)
    ensures BuiltFrom(b, lt, dt)
  {
    hide MergedFor, Writable, Pad, LitFreqs, DistFreqs;
  }

  /** Costs over the whole arrays, restricted to the symbols of the tree. */
  lemma CostPrefix(kind: Kind, f: seq<nat>, ls: seq<nat>)
    requires |f| == |ls| >= Elems(kind)
    ensures BitCost(kind, f, ls)[..Elems(kind)] == BitCost(kind, f[..Elems(kind)], ls[..Elems(kind)])
    ensures StaticCost(kind, f)[..Elems(kind)] == StaticCost(kind, f[..Elems(kind)])
  {
    hide Xbits, StaticLen;
  }

  lemma LevelSize(memLevel: nat)
    requires 1 <= memLevel <= 9
    ensures 128 <= Pow2(memLevel + 6) <= 32768
  {
    Pow2Values();
    Pow2Mono(7, memLevel + 6);
    Pow2Mono(memLevel + 6, 15);
  }

  /** What the fixed codes cost. */
  lemma StaticIsFixed(ts: seq<Token>)
    requires AllEncodable(ts)
    ensures AllCoded(FixedLitLens(), FixedDistLens(), ts) && Coded(FixedLitLens(), 256)
    ensures Sum(StaticCost(LitTree, LitFreqs(ts))) + Sum(StaticCost(DistTree, DistFreqs(ts)))
         == |BodyBits(FixedLitLens(), FixedDistLens(), ts)|
  {
    hide Sum, BitCost, StaticCost, LitFreqs, DistFreqs, TokensBits;
    var ls, ds := FixedLitLens()[..286], FixedDistLens()[..30];
    FixedCodesAll(ts);
    BodyCost(ls, ds, FixedLitLens(), FixedDistLens(), ts);
    StaticAsBitCost(LitTree, LitFreqs(ts), ls);
    StaticAsBitCost(DistTree, DistFreqs(ts), ds);
  }

  lemma StaticAsBitCost(kind: Kind, f: seq<nat>, ls: seq<nat>)
    requires kind != BlTree && |f| == |ls| == Elems(kind) && forall x :: 0 <= x < |ls| ==> ls[x] == StaticLen(kind, x)
    ensures StaticCost(kind, f) == BitCost(kind, f, ls)
  {
    hide Xbits, StaticLen;
  }

  lemma FixedCodesAll(ts: seq<Token>)
    requires AllEncodable(ts)
    ensures AllCoded(FixedLitLens(), FixedDistLens(), ts) && Coded(FixedLitLens(), 256)
  {
    hide LengthCode, DistCode;
    forall i | 0 <= i < |ts| ensures TokenCoded(FixedLitLens(), FixedDistLens(), ts[i]) {
      assert Encodable(ts[i]);
    }
  }

  /** The bit length tree has no fixed code. */
  lemma NoStaticBl(f: seq<nat>)
    ensures Sum(StaticCost(BlTree, f)) == 0
  {
    hide Sum;
    SumZero(StaticCost(BlTree, f));
  }

  /** The counted run-length symbols after both scans. */
  lemma BothScanned(f: seq<nat>, a: seq<Op>, c: seq<Op>)
    requires |f| >= 19 && forall s :: 0 <= s < 19 ==> f[s] == OpFreq(a, s) + OpFreq(c, s)
    ensures f[..19] == OpFreqs(a + c)
  {
    hide OpFreq;
    forall s: nat ensures OpFreq(a + c, s) == OpFreq(a, s) + OpFreq(c, s) {
      OpFreqAppend(a, c, s);
    }
  }

  lemma OpsFew(ll: seq<nat>, ds: seq<nat>)
    requires forall i :: 0 <= i < |ll| ==> ll[i] <= 15
    requires forall i :: 0 <= i < |ds| ==> ds[i] <= 15
    ensures Sum(OpFreqs(Rle(ll) + Rle(ds))) <= |ll| + |ds|
  {
    hide OpFreqs, Sum, RleFrom, ValidOp;
    RleShort(ll, 0, -1, 0);
    RleShort(ds, 0, -1, 0);
    RleValid(ll, 0, -1, 0);
    RleValid(ds, 0, -1, 0);
    forall op | op in Rle(ll) + Rle(ds) ensures op.sym < 19 {
      ValidSym(op);
    }
    OpTotals(Rle(ll) + Rle(ds));
  }

  lemma ValidSym(op: Op)
    ensures ValidOp(op) ==> op.sym < 19
  {
  }

  /** The bit length tree fits the lengths it is to send. */
  ghost predicate BlFit(cl: seq<nat>, ll: seq<nat>, ds: seq<nat>, n: nat)
  {
    |cl| == 19 && 4 <= n <= 19 && (forall s :: 0 <= s < 19 ==> cl[s] < 8)
    && (forall i :: n <= i < 19 ==> cl[BlOrder(i)] == 0)
    && Complete(cl) && AllOpsCoded(cl, Rle(ll)) && AllOpsCoded(cl, Rle(ds))
  }

  lemma BlBuilt(cl: seq<nat>, ll: seq<nat>, ds: seq<nat>, k: nat) returns (r: nat)
    requires |cl| == 19 && Covers(cl, OpFreqs(Rle(ll) + Rle(ds)))
    requires forall i :: 0 <= i < |ll| ==> ll[i] <= 15
    requires forall i :: 0 <= i < |ds| ==> ds[i] <= 15
    requires k < |ll| && ll[k] != 0
    ensures AllOpsCoded(cl, Rle(ll)) && AllOpsCoded(cl, Rle(ds))
    ensures Sum(BitCost(BlTree, OpFreqs(Rle(ll) + Rle(ds)), cl)) == |OpsBits(cl, Rle(ll))| + |OpsBits(cl, Rle(ds))|
    ensures 4 <= r <= 18 && cl[BlOrder(r)] != 0
  {
    hide OpFreqs, Rle, OpBits, OpCoded, Sum, BitCost, BlOrder, BlRank;
    CoversSum(cl, Rle(ll), Rle(ds));
    OpsCoded(cl, ll, Rle(ll));
    OpsCoded(cl, ds, Rle(ds));
    OpsBitsAppend(cl, Rle(ll), Rle(ds));
    OpsCost(cl, Rle(ll) + Rle(ds));
    var s := SomeLengthSent(ll, k);
    LateInOrder(s);
    r := BlRank(s);
  }

  lemma FitSize(fc: seq<nat>, dl: seq<nat>, mc: nat, freqs: seq<nat>)
    requires Fit(fc, dl, mc, freqs)
    ensures mc < |freqs| < |dl| && forall i :: 0 <= i <= mc ==> dl[i] <= 15
  {
  }

  lemma EndUsed(dl: seq<nat>, mc: nat, freqs: seq<nat>, fc: seq<nat>)
    requires Fit(fc, dl, mc, freqs) && |freqs| == 286 && freqs[256] != 0
    ensures 256 <= mc && dl[256] != 0
  {
  }

  lemma CoversTree(f: seq<nat>, dl: seq<nat>, freqs: seq<nat>, max: nat)
    requires |freqs| <= |f| && |freqs| <= |dl| && f[..|freqs|] == freqs && max <= 15
    requires forall x :: 0 <= x < |freqs| ==> dl[x] <= max && (f[x] != 0 ==> dl[x] != 0)
    ensures Covers(dl[..|freqs|], freqs)
  {
    assert forall x :: 0 <= x < |freqs| ==> freqs[x] == f[x];
  }

  lemma BlFitIs(bfc: seq<nat>, bdl: seq<nat>, ll: seq<nat>, ds: seq<nat>, n: nat)
    requires 19 <= |bdl| && CodeTable(bfc, bdl, bdl[..19]) && 4 <= n <= 19
    requires forall x :: 0 <= x < 19 ==> bdl[x] <= 7
    requires forall i :: n <= i < 19 ==> bdl[BlOrder(i)] == 0
    requires AllOpsCoded(bdl[..19], Rle(ll)) && AllOpsCoded(bdl[..19], Rle(ds))
    ensures BlFit(bdl[..19], ll, ds, n)
  {
    hide Rle, Complete, AllOpsCoded, BlOrder;
    assert forall x :: 0 <= x < 19 ==> bdl[..19][x] == bdl[x];
  }

  /** The built trees make a block that can be written. */
  lemma Assemble(ts: seq<Token>, lfc: seq<nat>, ldl: seq<nat>, lm: nat, dfc: seq<nat>, ddl: seq<nat>, dm: nat,
                 cl: seq<nat>, n: nat)
    requires AllEncodable(ts) && Fit(lfc, ldl, lm, LitFreqs(ts)) && Fit(dfc, ddl, dm, DistFreqs(ts))
    requires BlFit(cl, ldl[..lm + 1], ddl[..dm + 1], n)
    ensures Writable(DynamicBlock(ts, cl, n, ldl[..lm + 1], ddl[..dm + 1]))
  {
    hide LitFreqs, DistFreqs, Kraft, Rle, AllOpsCoded, AllCoded, Covers, CodeVal, BlOrder, Pow2;
    TokensCoded(ldl, ddl, lm, dm, ts);
    EndCounted(ts);
    EndUsed(ldl, lm, LitFreqs(ts), lfc);
  }

  /** The totals kept while building are the bits of the header and the body. */
  lemma AssembledCost(ts: seq<Token>, lfc: seq<nat>, ldl: seq<nat>, lm: nat, dfc: seq<nat>, ddl: seq<nat>, dm: nat,
                      cl: seq<nat>, n: nat)
    requires AllEncodable(ts) && Fit(lfc, ldl, lm, LitFreqs(ts)) && Fit(dfc, ddl, dm, DistFreqs(ts))
    requires BlFit(cl, ldl[..lm + 1], ddl[..dm + 1], n)
    ensures var ll, ds := ldl[..lm + 1], ddl[..dm + 1];
            Sendable(cl, n, ll, ds) && AllCoded(ll, ds, ts) && Coded(ll, 256)
            && |HeaderBits(cl, n, ll, ds)| == 5 + 5 + 4 + 3 * n + |OpsBits(cl, Rle(ll))| + |OpsBits(cl, Rle(ds))|
            && |BodyBits(ll, ds, ts)| == Sum(BitCost(LitTree, LitFreqs(ts), ldl[..286]))
                                       + Sum(BitCost(DistTree, DistFreqs(ts), ddl[..30]))
  {
    hide LitFreqs, DistFreqs, Kraft, Rle, OpsBits, TokensBits, Covers, CodeVal, BlOrder, Pow2, ToBits, ClensBits, Sum,
      BitCost, Complete, AllOpsCoded;
    Assemble(ts, lfc, ldl, lm, dfc, ddl, dm, cl, n);
    TokensCoded(ldl, ddl, lm, dm, ts);
    BodyCost(ldl[..286], ddl[..30], ldl[..lm + 1], ddl[..dm + 1], ts);
  }

  // ---------- sending a block ----------

  /** Send a stored block. */
  method SendStored(w: Writer, data: seq<Byte>, last: bool)
    requires w.Valid() && |data| <= 65535
    modifies w
    ensures w.Valid() && old(w.pending) <= w.pending
    ensures w.Stream() == old(w.Stream()) + BlockBits(StoredBlock(data), last, |old(w.Stream())|)
    ensures w.Stream() == BytesToBits(w.pending)
  {
    hide *;
    ghost var s0 := w.Stream();
    SendType(w, 0, last);
    ghost var s1 := w.Stream();
    w.BiWindup();
    w.PutShort(|data|);
    w.PutShort(65535 - |data|);
    ghost var p := w.pending;
    w.pending := w.pending + data;
    BytesToBitsAppend(p, data);
    OnByte(w);
    StoredIs(s0, s1, data, last);
  }

  /** Send the three bits that start a block. */
  method SendType(w: Writer, kind: nat, last: bool)
    requires w.Valid() && kind < 3
    modifies w
    ensures w.Valid() && w.Stream() == old(w.Stream()) + TypeBits(kind, last)
    ensures old(w.pending) <= w.pending && (|w.pending| - |old(w.pending)|) % 2 == 0
  {
    hide Pow2, ToBits;
    Pow2Values();
    w.SendBits(2 * kind + if last then 1 else 0, 3);
  }

  lemma OnByte(w: Writer)
    requires w.biValid == 0
    ensures w.Stream() == BytesToBits(w.pending)
  {
    NoBits(w.biBuf);
  }

  lemma StoredIs(s0: BitString, s1: BitString, data: seq<Byte>, last: bool)
    requires |data| <= 65535 && s1 == s0 + TypeBits(0, last)
    ensures s1 + ToBits(0, Padding(|s1|)) + ToBits(|data|, 16) + ToBits(65535 - |data|, 16) + BytesToBits(data)
         == s0 + BlockBits(StoredBlock(data), last, |s0|)
  {
    hide *;
    StoredWritable(data, last, |s0|);
    Regroup(s0, TypeBits(0, last), ToBits(0, Padding(|s1|)), ToBits(|data|, 16), ToBits(65535 - |data|, 16),
            BytesToBits(data));
  }

  lemma StoredWritable(data: seq<Byte>, last: bool, pos: nat)
    requires |data| <= 65535
    ensures Writable(StoredBlock(data)) && |TypeBits(0, last)| == 3
    ensures BlockBits(StoredBlock(data), last, pos)
      == TypeBits(0, last)
          + (ToBits(0, Padding(pos + 3)) + ToBits(|data|, 16) + ToBits(65535 - |data|, 16) + BytesToBits(data))
  {
    hide TypeBits, ToBits, BytesToBits, Padding;
  }

  lemma Regroup(a: BitString, t: BitString, b: BitString, c: BitString, d: BitString, e: BitString)
    ensures a + t + b + c + d + e == a + (t + (b + c + d + e))
  {
  }

  lemma SymIs(dist: nat, lc: Byte)
    requires dist <= 32768
    ensures var t := if dist == 0 then Literal(lc) else Match(lc + 3, dist);
            LitSym(t) == (if dist == 0 then lc else 257 + LengthCode(lc + 3)) && Encodable(t)
  {
    hide LengthCode;
  }

  lemma MoreEncodable(ts: seq<Token>, t: Token)
    requires AllEncodable(ts) && Encodable(t)
    ensures AllEncodable(ts + [t])
  {
  }

  lemma TallyMore(lf: seq<nat>, lf': seq<nat>, df: seq<nat>, df': seq<nat>, ts: seq<Token>, t: Token)
    requires |lf| == |lf'| >= 286 && |df| == |df'| >= 30 && lf[..286] == LitFreqs(ts) && df[..30] == DistFreqs(ts)
    requires lf' == lf[LitSym(t) := lf[LitSym(t)] + 1]
    requires t.Literal? ==> df' == df
    requires t.Match? ==> df' == df[DistCode(t.dist) := df[DistCode(t.dist)] + 1]
    ensures lf'[..286] == LitFreqs(ts + [t]) && df'[..30] == DistFreqs(ts + [t])
  {
    hide LitFreqs, DistFreqs, LitSym, DistCode;
    LitFreqsMore(ts, t);
    DistFreqsMore(ts, t);
    var s := LitSym(t);
    assert lf'[..286] == lf[..286][s := lf[..286][s] + 1];
    if t.Match? {
      var c := DistCode(t.dist);
      assert df'[..30] == df[..30][c := df[..30][c] + 1];
    }
  }

  // ---------- the choice ----------

  /** The bytes a block takes from position pos on. */
  ghost function Bytes(b: Block, last: bool, pos: nat): (n: nat)
    requires Writable(b)
  {
    (|BlockBits(b, last, pos)| + 7) / 8
  }

  /** The cheapest block, in bytes, of the dynamic block dyn, the fixed block and the raw bytes with their two counts,
      if those are there.  At a draw the raw bytes go before the fixed block and the fixed block before dyn; under
      the fixed strategy dyn does not take part. */
  ghost predicate Cheapest(blk: Block, dyn: Block, ts: seq<Token>, buf: Option<seq<Byte>>, last: bool, pos: nat,
                           fixed: bool)
  {
    Writable(blk) && Writable(FixedBlock(ts)) && Writable(dyn) && dyn.DynamicBlock? && dyn.tokens == ts
    && var f, d := Bytes(FixedBlock(ts), last, pos), Bytes(dyn, last, pos);
       (blk.DynamicBlock? <==> !fixed && d < f && (buf.None? || d < |buf.value| + 4))
       && (blk.StoredBlock? <==> buf.Some? && |buf.value| + 4 <= f && (fixed || |buf.value| + 4 <= d))
       && (!blk.StoredBlock? ==>
             Bytes(blk, last, pos) <= f && (fixed || Bytes(blk, last, pos) <= d)
             && (buf.Some? ==> Bytes(blk, last, pos) < |buf.value| + 4))
  }

  /** The block is one of the three that stand for the tokens or the raw bytes; with compression it is the cheapest
      and costs at most 42 bits more than the raw bytes, if those are there. */
  ghost predicate Chosen(blk: Block, dyn: Block, ts: seq<Token>, buf: Option<seq<Byte>>, last: bool, pos: nat,
                         compress: bool, fixed: bool)
  {
    Writable(blk) && Writable(FixedBlock(ts))
    && (match blk
        case StoredBlock(data) => buf == Some(data)
        case FixedBlock(us) => us == ts
        case DynamicBlock(us, _, _, _, _) => us == ts && blk == dyn)
    && (!compress ==> blk.StoredBlock?)
    && (compress ==> Cheapest(blk, dyn, ts, buf, last, pos, fixed))
    && (compress && buf.Some? ==> |BlockBits(blk, last, pos)| <= 8 * |buf.value| + 42)
  }

  /** The sizes of the two blocks of symbols, as the totals of the trees give them. */
  ghost predicate Sized(dyn: Block, ts: seq<Token>, staticLen: int, optLen: int)
  {
    dyn.DynamicBlock? && Writable(dyn) && Coded(dyn.ll, 256) && dyn.tokens == ts
    && AllCoded(FixedLitLens(), FixedDistLens(), ts) && Coded(FixedLitLens(), 256)
    && staticLen == |BodyBits(FixedLitLens(), FixedDistLens(), ts)|
    && optLen == |HeaderBits(dyn.cl, dyn.ncl, dyn.ll, dyn.dl)| + |BodyBits(dyn.ll, dyn.dl, ts)|
  }

  lemma SizedIs(dyn: Block, ts: seq<Token>, staticLen: int, optLen: int, last: bool, pos: nat)
    requires Sized(dyn, ts, staticLen, optLen)
    ensures Writable(dyn) && Writable(FixedBlock(ts)) && Coded(dyn.ll, 256)
    ensures Sendable(dyn.cl, dyn.ncl, dyn.ll, dyn.dl) && AllCoded(dyn.ll, dyn.dl, ts)
    ensures AllCoded(FixedLitLens(), FixedDistLens(), ts) && Coded(FixedLitLens(), 256)
    ensures BlockBits(FixedBlock(ts), last, pos) == TypeBits(1, last) + BodyBits(FixedLitLens(), FixedDistLens(), ts)
    ensures BlockBits(dyn, last, pos)
         == TypeBits(2, last) + HeaderBits(dyn.cl, dyn.ncl, dyn.ll, dyn.dl) + BodyBits(dyn.ll, dyn.dl, ts)
    ensures |BlockBits(FixedBlock(ts), last, pos)| == 3 + staticLen && |BlockBits(dyn, last, pos)| == 3 + optLen
  {
    hide BodyBits, HeaderBits, AllCoded, FixedLitLens, FixedDistLens, Sendable;
  }

  lemma SizedAs(dyn: Block, ts: seq<Token>, staticLen: int, optLen: int)
    requires dyn.DynamicBlock? && Writable(dyn) && Coded(dyn.ll, 256) && dyn.tokens == ts
    requires AllCoded(FixedLitLens(), FixedDistLens(), ts) && Coded(FixedLitLens(), 256)
    requires staticLen == |BodyBits(FixedLitLens(), FixedDistLens(), ts)|
    requires optLen == |HeaderBits(dyn.cl, dyn.ncl, dyn.ll, dyn.dl)| + |BodyBits(dyn.ll, dyn.dl, ts)|
    ensures Sized(dyn, ts, staticLen, optLen)
  {
    hide BodyBits, HeaderBits, AllCoded, FixedLitLens, FixedDistLens, Sendable;
  }

  lemma BytesIs(b: Block, last: bool, pos: nat)
    requires Writable(b)
    ensures Bytes(b, last, pos) == (|BlockBits(b, last, pos)| + 7) / 8
  {
    hide Writable, BlockBits;
  }

  lemma StoredOnly(dyn: Block, ts: seq<Token>, data: seq<Byte>, last: bool, pos: nat, fixed: bool)
    requires |data| <= 65535 && AllEncodable(ts)
    ensures Chosen(StoredBlock(data), dyn, ts, Some(data), last, pos, false, fixed)
  {
    hide AllCoded, BlockBits;
    FixedCodesAll(ts);
  }

  lemma StoredSize(data: seq<Byte>, last: bool, pos: nat)
    requires |data| <= 65535
    ensures Writable(StoredBlock(data)) && |BlockBits(StoredBlock(data), last, pos)| <= 8 * |data| + 42
  {
    hide ToBits, BytesToBits;
  }

  lemma StoredChosen(dyn: Block, ts: seq<Token>, data: seq<Byte>, last: bool, pos: nat, fixed: bool, staticLen: int,
                     optLen: int)
    requires |data| <= 65535 && Sized(dyn, ts, staticLen, optLen)
    requires |data| + 4 <= (staticLen + 3 + 7) / 8 && (fixed || |data| + 4 <= (optLen + 3 + 7) / 8)
    ensures Chosen(StoredBlock(data), dyn, ts, Some(data), last, pos, true, fixed)
  {
    hide Writable, BlockBits, Sized, Bytes;
    StoredSize(data, last, pos);
    SizedIs(dyn, ts, staticLen, optLen, last, pos);
    SizedKind(dyn, ts, staticLen, optLen);
    BytesIs(FixedBlock(ts), last, pos);
    BytesIs(dyn, last, pos);
  }

  lemma SizedKind(dyn: Block, ts: seq<Token>, staticLen: int, optLen: int)
    requires Sized(dyn, ts, staticLen, optLen)
    ensures dyn.DynamicBlock? && dyn.tokens == ts
  {
    hide Writable, AllCoded, BodyBits, HeaderBits;
  }

  lemma FixedChosen(dyn: Block, ts: seq<Token>, buf: Option<seq<Byte>>, last: bool, pos: nat, fixed: bool,
                    staticLen: int, optLen: int)
    requires Sized(dyn, ts, staticLen, optLen)
    requires buf.Some? ==> |buf.value| + 4 > (staticLen + 3 + 7) / 8
    requires fixed || (staticLen + 3 + 7) / 8 <= (optLen + 3 + 7) / 8
    ensures Chosen(FixedBlock(ts), dyn, ts, buf, last, pos, true, fixed)
  {
    hide Writable, BlockBits, Sized, Bytes;
    SizedIs(dyn, ts, staticLen, optLen, last, pos);
    SizedKind(dyn, ts, staticLen, optLen);
    BytesIs(FixedBlock(ts), last, pos);
    BytesIs(dyn, last, pos);
  }

  lemma DynamicChosen(dyn: Block, ts: seq<Token>, buf: Option<seq<Byte>>, last: bool, pos: nat, staticLen: int,
                      optLen: int)
    requires Sized(dyn, ts, staticLen, optLen)
    requires buf.Some? ==> |buf.value| + 4 > (optLen + 3 + 7) / 8
    requires (optLen + 3 + 7) / 8 < (staticLen + 3 + 7) / 8
    ensures Chosen(dyn, dyn, ts, buf, last, pos, true, false)
  {
    hide Writable, BlockBits, Sized, Bytes;
    SizedIs(dyn, ts, staticLen, optLen, last, pos);
    SizedKind(dyn, ts, staticLen, optLen);
    BytesIs(FixedBlock(ts), last, pos);
    BytesIs(dyn, last, pos);
  }

  lemma WritableDynamic(dyn: Block)
    requires dyn.DynamicBlock? && Writable(dyn)
    ensures Sendable(dyn.cl, dyn.ncl, dyn.ll, dyn.dl) && AllCoded(dyn.ll, dyn.dl, dyn.tokens)
    ensures forall i :: 0 <= i < |dyn.ll| ==> dyn.ll[i] <= 15
    ensures forall i :: 0 <= i < |dyn.dl| ==> dyn.dl[i] <= 15
  {
    hide AllCoded, AllOpsCoded, Kraft, Pow2;
  }

  lemma ChosenWritable(blk: Block, dyn: Block, ts: seq<Token>, buf: Option<seq<Byte>>, last: bool, pos: nat,
                       compress: bool, fixed: bool)
    requires Chosen(blk, dyn, ts, buf, last, pos, compress, fixed)
    ensures Writable(blk) && (blk.FixedBlock? ==> blk.tokens == ts && AllCoded(FixedLitLens(), FixedDistLens(), ts))
  {
    hide BlockBits, AllCoded, FixedLitLens, FixedDistLens, Sendable, Cheapest;
  }

  /** The stream after a block; the last block is followed by padding to a whole byte. */
  ghost function BlockSent(stream: BitString, blk: Block, last: bool): (r: BitString)
    requires Writable(blk)
  {
    var s := stream + BlockBits(blk, last, |stream|);
    if last then s + ToBits(0, Padding(|s|)) else s
  }

  lemma EmptyFixed(stream: BitString)
    ensures Writable(FixedBlock([])) && Coded(FixedLitLens(), 256) && FixedLitLens()[256] == 7
    ensures BlockSent(stream, FixedBlock([]), false) == stream + (TypeBits(1, false) + CodeBits(FixedLitLens(), 256))
  {
    hide CodeBits, ToBits;
  }

  lemma BlockSentIs(stream: BitString, blk: Block, last: bool)
    requires Writable(blk)
    ensures var s := stream + BlockBits(blk, last, |stream|);
            BlockSent(stream, blk, last) == if last then s + ToBits(0, Padding(|s|)) else s
  {
    hide BlockBits, Writable, ToBits;
  }

  /** What was put out after each symbol of a block of fixed codes. */
  ghost predicate FixedMarks(marks: seq<seq<Byte>>, pending: seq<Byte>, p0: nat, s0: BitString, ts: seq<Token>,
                             last: bool)
  {
    AllCoded(FixedLitLens(), FixedDistLens(), ts) && Within(marks, pending)
    && Marks(marks, p0, s0 + TypeBits(1, last), FixedLitLens(), FixedDistLens(), ts, |ts|)
  }

  lemma FixedMarksIs(marks: seq<seq<Byte>>, pending: seq<Byte>, p0: nat, s0: BitString, ts: seq<Token>, last: bool)
    requires AllCoded(FixedLitLens(), FixedDistLens(), ts) && Within(marks, pending)
    requires Marks(marks, p0, s0 + TypeBits(1, last), FixedLitLens(), FixedDistLens(), ts, |ts|)
    ensures FixedMarks(marks, pending, p0, s0, ts, last)
  {
    hide AllCoded, Within, Marks, TypeBits, FixedLitLens, FixedDistLens;
  }

  lemma FixedMarksMore(marks: seq<seq<Byte>>, pending: seq<Byte>, more: seq<Byte>, p0: nat, s0: BitString,
                       ts: seq<Token>, last: bool)
    requires FixedMarks(marks, pending, p0, s0, ts, last) && pending <= more
    ensures FixedMarks(marks, more, p0, s0, ts, last)
  {
    hide AllCoded, Within, Marks, TypeBits, FixedLitLens, FixedDistLens;
    WithinMore(marks, pending, more);
  }

  class Encoder {
    const w: Writer
    const b: Builder
    const lfc: array<nat>    // frequencies, then codes, of the literal/length tree
    const ldl: array<nat>    // fathers, then lengths
    const dfc: array<nat>    // the distance tree
    const ddl: array<nat>
    const bfc: array<nat>    // the bit length tree
    const bdl: array<nat>
    const slfc: array<nat>   // the fixed trees
    const sldl: array<nat>
    const sdfc: array<nat>
    const sddl: array<nat>
    const litBufsize: nat
    const symBuf: array<nat>
    var symNext: nat
    var lMax: nat
    var dMax: nat

    /** A writer for a new stream, with room for 2^(memLevel + 6) symbols less one. */
    constructor (memLevel: nat)
      requires 1 <= memLevel <= 9
      ensures Valid() && Tokens() == [] && w.Stream() == [] && symNext == 0 && fresh(Repr())
      ensures litBufsize == Pow2(memLevel + 6)
    {
      hide *;
      LevelSize(memLevel);
      var size := Pow2(memLevel + 6);
      w := new Writer();
      b := new Builder();
      var t := NewTrees();
      var st := NewFixed();
      lfc, ldl, dfc, ddl, bfc, bdl := t.0, t.1, t.2, t.3, t.4, t.5;
      slfc, sldl, sdfc, sddl := st.0, st.1, st.2, st.3;
      litBufsize := size;
      symBuf := new nat[3 * (size - 1)];
      symNext, lMax, dMax := 0, 0, 0;
      new;
      LayoutIs();
      ReprIs();
      TrInit();
    }

    /** Room for the three trees of a dynamic block. */
    static method NewTrees()
        returns (t: (array<nat>, array<nat>, array<nat>, array<nat>, array<nat>, array<nat>))
      ensures fresh(t.0) && fresh(t.1) && fresh(t.2) && fresh(t.3) && fresh(t.4) && fresh(t.5)
      ensures t.0.Length == t.1.Length == HEAP_SIZE && t.2.Length == t.3.Length == 61 && t.4.Length == t.5.Length == 39
      ensures t.0 != t.1 && t.2 != t.3 && t.4 != t.5
    {
      var lfc, ldl := new nat[HEAP_SIZE], new nat[HEAP_SIZE];
      var dfc, ddl := new nat[61], new nat[61];
      var bfc, bdl := new nat[39], new nat[39];
      t := (lfc, ldl, dfc, ddl, bfc, bdl);
    }

    /** Room for the two fixed trees. */
    static method NewFixed() returns (t: (array<nat>, array<nat>, array<nat>, array<nat>))
      ensures fresh(t.0) && fresh(t.1) && fresh(t.2) && fresh(t.3)
      ensures t.0.Length == t.1.Length == 288 && t.2.Length == t.3.Length == 30 && t.0 != t.1 && t.2 != t.3
    {
      var slfc, sldl := new nat[288], new nat[288];
      var sdfc, sddl := new nat[30], new nat[30];
      t := (slfc, sldl, sdfc, sddl);
    }

    lemma ReprIs()
      ensures Repr()
        == {this, w, b, b.heap, b.depth, b.blCount, lfc, ldl, dfc, ddl, bfc, bdl, slfc, sldl, sdfc, sddl, symBuf}
    {
    }

    /** Set up the fixed trees and the first block. */
    method TrInit()
      requires Layout() && w.Valid()
      modifies this`symNext, b`optLen, b`staticLen, lfc, dfc, bfc, slfc, sldl, sdfc, sddl
      ensures Valid() && Tokens() == [] && symNext == 0
    {
      hide *;
      Apart();
      StaticLitInit(slfc, sldl);
      StaticDistInit(sdfc, sddl);
      StaticIs();
      InitBlock();
      ValidIs();
    }

    lemma LayoutIs()
      requires b.Sizes() && lfc.Length == ldl.Length == HEAP_SIZE && dfc.Length == ddl.Length == 61
      requires bfc.Length == bdl.Length == 39 && slfc.Length == sldl.Length == 288 && sdfc.Length == sddl.Length == 30
      requires 128 <= litBufsize <= 32768 && symBuf.Length == 3 * (litBufsize - 1)
      requires lfc != ldl && lfc != b.heap && lfc != b.depth && ldl != b.heap && ldl != b.depth
      requires dfc != ddl && bfc != bdl && slfc != sldl && sdfc != sddl
      requires symBuf != lfc && symBuf != ldl && symBuf != b.heap && symBuf != b.depth
      ensures Layout()
    {
    }

    lemma ValidIs()
      requires Tallied() && w.Valid() && Static()
      ensures Valid()
    {
      hide CodeTable, Tallied;
    }

    lemma StaticIs()
      requires CodeTable(slfc[..], sldl[..], FixedLitLens()) && CodeTable(sdfc[..], sddl[..], FixedDistLens())
      ensures Static()
    {
      hide CodeTable;
    }

    /** Start a new block: no symbols, only the end of the block counted. */
    method InitBlock()
      requires Layout()
      modifies this`symNext, b`optLen, b`staticLen, lfc, dfc, bfc
      ensures Tallied() && Tokens() == [] && symNext == 0
    {
      hide LitFreqs, DistFreqs, BitCost;
      for n := 0 to 286
        invariant forall i :: 0 <= i < n ==> lfc[i] == 0
      {
        lfc[n] := 0;
      }
      for n := 0 to 30
        invariant forall i :: 0 <= i < 286 ==> lfc[i] == 0
        invariant forall i :: 0 <= i < n ==> dfc[i] == 0
      {
        dfc[n] := 0;
      }
      for n := 0 to 19
        invariant forall i :: 0 <= i < 286 ==> lfc[i] == 0
        invariant forall i :: 0 <= i < 30 ==> dfc[i] == 0
        invariant forall i :: 0 <= i < n ==> bfc[i] == 0
      {
        bfc[n] := 0;
      }
      lfc[END_BLOCK] := 1;
      b.optLen, b.staticLen := 0, 0;
      symNext := 0;
      NoTokens();
      assert symBuf[..0] == [];
      assert lfc[..286] == LitFreqs([]) && dfc[..30] == DistFreqs([]);
    }

    /** The objects that belong to the encoder. */
    ghost function Repr(): (r: set<object>)
    {
      {this, w, b, b.heap, b.depth, b.blCount, lfc, ldl, dfc, ddl, bfc, bdl, slfc, sldl, sdfc, sddl, symBuf}
    }

    ghost predicate Layout()
    {
      b.Sizes() && lfc.Length == ldl.Length == HEAP_SIZE && dfc.Length == ddl.Length == 61
      && bfc.Length == bdl.Length == 39 && slfc.Length == sldl.Length == 288 && sdfc.Length == sddl.Length == 30
      && 128 <= litBufsize <= 32768 && symBuf.Length == 3 * (litBufsize - 1)
      && lfc != ldl && lfc != b.heap && lfc != b.depth && ldl != b.heap && ldl != b.depth
      && dfc != ddl && bfc != bdl && slfc != sldl && sdfc != sddl
      && symBuf != lfc && symBuf != ldl && symBuf != b.heap && symBuf != b.depth
    }

    ghost predicate Syms()
      reads this`symNext, symBuf
    {
      symNext <= symBuf.Length && SymBytes(symBuf[..symNext])
    }

    /** The tokens of the block so far. */
    ghost function Tokens(): (ts: seq<Token>)
      reads this`symNext, symBuf
      requires Syms()
    {
      TokensOf(symBuf[..symNext])
    }

    /** The frequencies are those of the tokens; nothing is built yet. */
    ghost predicate Tallied()
      reads this`symNext, symBuf, lfc, dfc, bfc, b`optLen, b`staticLen
    {
      Layout() && Syms() && AllEncodable(Tokens())
      && lfc[..286] == LitFreqs(Tokens()) && dfc[..30] == DistFreqs(Tokens())
      && (forall s :: 0 <= s < 19 ==> bfc[s] == 0) && b.optLen == b.staticLen == 0
    }

    ghost predicate Static()
      reads slfc, sldl, sdfc, sddl
    {
      CodeTable(slfc[..], sldl[..], FixedLitLens()) && CodeTable(sdfc[..], sddl[..], FixedDistLens())
    }

    ghost predicate Valid()
      reads this, symBuf, lfc, dfc, bfc, b, w, slfc, sldl, sdfc, sddl
    {
      Tallied() && Static() && w.Valid()
    }

    lemma Sizes()
      requires Layout()
      ensures Elems(LitTree) == 286 && Elems(DistTree) == 30 && Elems(BlTree) == 19
      ensures MaxLength(LitTree) == 15 && MaxLength(DistTree) == 15 && MaxLength(BlTree) == 7
      ensures b.Fits(lfc, ldl, Elems(LitTree)) && b.Fits(dfc, ddl, Elems(DistTree)) && b.Fits(bfc, bdl, Elems(BlTree))
    {
    }

    /** Building a tree touches none of the arrays of the others. */
    lemma Apart()
      requires Layout()
      ensures lfc.Length == ldl.Length == HEAP_SIZE == 573 && dfc.Length == ddl.Length == 61
      ensures bfc.Length == bdl.Length == 39 && slfc.Length == sldl.Length == 288 && sdfc.Length == sddl.Length == 30
      ensures slfc != sldl && sdfc != sddl
      ensures lfc !in {slfc, sldl, sdfc, sddl} && dfc !in {slfc, sldl, sdfc, sddl}
      ensures ldl !in {slfc, sldl, sdfc, sddl} && ddl !in {slfc, sldl, sdfc, sddl}
      ensures bfc !in {slfc, sldl, sdfc, sddl} && bdl !in {slfc, sldl, sdfc, sddl}
      ensures symBuf !in {slfc, sldl, sdfc, sddl}
      ensures b.heap !in {slfc, sldl, sdfc, sddl} && b.depth !in {slfc, sldl, sdfc, sddl}
      ensures b.blCount !in {slfc, sldl, sdfc, sddl}
      ensures lfc !in {dfc, ddl, bfc, bdl, b.heap, b.depth, b.blCount}
      ensures ldl !in {dfc, ddl, bfc, bdl, b.heap, b.depth, b.blCount}
      ensures dfc !in {lfc, ldl, bfc, bdl, b.heap, b.depth, b.blCount}
      ensures ddl !in {lfc, ldl, bfc, bdl, b.heap, b.depth, b.blCount}
      ensures bfc !in {lfc, ldl, dfc, ddl, b.heap, b.depth, b.blCount} && bfc != bdl
      ensures symBuf !in {lfc, ldl, dfc, ddl, bfc, bdl, b.heap, b.depth, b.blCount}
    {
    }

    lemma TalliedIs()
      requires Tallied()
      ensures Layout() && Syms() && AllEncodable(Tokens())
      ensures lfc[..286] == LitFreqs(Tokens()) && dfc[..30] == DistFreqs(Tokens())
      ensures (forall s :: 0 <= s < 19 ==> bfc[s] == 0) && b.optLen == b.staticLen == 0
    {
    }

    lemma TokensFew()
      requires Layout() && Syms()
      ensures Sum(LitFreqs(Tokens())) <= 65533 && Sum(DistFreqs(Tokens())) <= 65533
    {
      hide LitFreqs, DistFreqs, Sum, TokensOf;
      FreqTotals(Tokens());
    }

    /** Build the literal/length tree and the distance tree. */
    method BuildSymbols() returns (ghost lt: Tree, ghost dt: Tree)
      requires Tallied()
      modifies this`lMax, this`dMax, b, b.heap, b.depth, b.blCount, lfc, ldl, dfc, ddl
      ensures Layout() && Syms() && Tokens() == old(Tokens())
      ensures Fit(lfc[..], ldl[..], lMax, LitFreqs(Tokens())) && Fit(dfc[..], ddl[..], dMax, DistFreqs(Tokens()))
      ensures b.optLen == Sum(BitCost(LitTree, LitFreqs(Tokens()), ldl[..286]))
                        + Sum(BitCost(DistTree, DistFreqs(Tokens()), ddl[..30]))
      ensures b.staticLen
        == Sum(StaticCost(LitTree, LitFreqs(Tokens()))) + Sum(StaticCost(DistTree, DistFreqs(Tokens())))
      ensures MergedFor(lt, LitFreqs(Tokens()), ldl[..286], 15) && MergedFor(dt, DistFreqs(Tokens()), ddl[..30], 15)
    {
      hide *;
      TalliedIs();
      ghost var ts := Tokens();
      ghost var lf, df := lfc[..], dfc[..];
      Sizes();
      Apart();
      TokensFew();
      assert lfc[..][..286] == lfc[..286] && dfc[..][..30] == dfc[..30];
      lMax, lt := b.BuildTree(lfc, ldl, LitTree);
      MergedFrom(lt, lf, ldl[..], 286, 15);
      assert ldl[..][..286] == ldl[..286];
      FitBuilt(lfc[..], ldl[..], lMax, lf, LitFreqs(ts), 15);
      CostPrefix(LitTree, lf, ldl[..]);
      dMax, dt := b.BuildTree(dfc, ddl, DistTree);
      MergedFrom(dt, df, ddl[..], 30, 15);
      assert ddl[..][..30] == ddl[..30];
      FitBuilt(dfc[..], ddl[..], dMax, df, DistFreqs(ts), 15);
      CostPrefix(DistTree, df, ddl[..]);
    }

    /** Build the tree for the lengths of the other two. */
    method BuildBlTree(ghost lf: seq<nat>, ghost df: seq<nat>) returns (maxBlindex: nat)
      requires Layout() && |lf| == 286 && |df| == 30 && lf[256] != 0
      requires Fit(lfc[..], ldl[..], lMax, lf) && Fit(dfc[..], ddl[..], dMax, df)
      requires forall s :: 0 <= s < 19 ==> bfc[s] == 0
      modifies b, b.heap, b.depth, b.blCount, ldl, ddl, bfc, bdl
      ensures lMax + 1 < ldl.Length && ldl[..] == old(ldl[..])[lMax + 1 := GUARD]
      ensures dMax + 1 < ddl.Length && ddl[..] == old(ddl[..])[dMax + 1 := GUARD]
      ensures CodeTable(bfc[..], bdl[..], bdl[..19])
      ensures BlFit(bdl[..19], ldl[..lMax + 1], ddl[..dMax + 1], maxBlindex + 1)
      ensures b.optLen == old(b.optLen) + 3 * (maxBlindex + 1) + 5 + 5 + 4
                        + |OpsBits(bdl[..19], Rle(ldl[..lMax + 1]))| + |OpsBits(bdl[..19], Rle(ddl[..dMax + 1]))|
      ensures b.staticLen == old(b.staticLen)
    {
      hide *;
      Sizes();
      Apart();
      FitSize(lfc[..], ldl[..], lMax, lf);
      FitSize(dfc[..], ddl[..], dMax, df);
      ghost var ll, ds := ldl[..lMax + 1], ddl[..dMax + 1];
      FitGuarded(lfc[..], ldl[..], lMax, lf);
      FitGuarded(dfc[..], ddl[..], dMax, df);
      EndUsed(ldl[..], lMax, lf, lfc[..]);
      ScanTree(ldl, lMax, bfc);
      ScanTree(ddl, dMax, bfc);
      BothScanned(bfc[..], Rle(ll), Rle(ds));
      OpsFew(ll, ds);
      ghost var f := bfc[..];
      assert f[..19] == bfc[..][..19];
      ghost var tree;
      var maxCode: nat;
      maxCode, tree := b.BuildTree(bfc, bdl, BlTree);
      ghost var cl := bdl[..19];
      BuiltTable(bfc[..], bdl[..], maxCode, 19);
      CoversTree(f, bdl[..], OpFreqs(Rle(ll) + Rle(ds)), 7);
      ghost var r := BlBuilt(cl, ll, ds, 256);
      CostPrefix(BlTree, f, bdl[..]);
      CostPrefix(BlTree, f, f);
      NoStaticBl(f[..19]);
      maxBlindex := 18;
      while maxBlindex >= 3 && bdl[BlOrder(maxBlindex)] == 0
        invariant r <= maxBlindex <= 18
        invariant forall i :: maxBlindex < i < 19 ==> bdl[BlOrder(i)] == 0
      {
        maxBlindex := maxBlindex - 1;
      }
      b.optLen := b.optLen + 3 * (maxBlindex + 1) + 5 + 5 + 4;
      BlFitIs(bfc[..], bdl[..], ll, ds, maxBlindex + 1);
    }

    /** Build all three trees: a dynamic block ready to be sent, and its size and that of the
        fixed block, both without the three bits of the block type. */
    method BuildTrees() returns (maxBlindex: nat, ghost dyn: Block, ghost lt: Tree, ghost dt: Tree)
      requires Tallied()
      modifies this`lMax, this`dMax, b, b.heap, b.depth, b.blCount, lfc, ldl, dfc, ddl, bfc, bdl
      ensures Layout() && Syms() && Tokens() == old(Tokens())
      ensures lMax + 1 < ldl.Length && ldl[lMax + 1] == GUARD && dMax + 1 < ddl.Length && ddl[dMax + 1] == GUARD
      ensures dyn == DynamicBlock(Tokens(), bdl[..19], maxBlindex + 1, ldl[..lMax + 1], ddl[..dMax + 1])
      ensures Writable(dyn) && Coded(dyn.ll, 256)
      ensures CodeTable(lfc[..], ldl[..], dyn.ll) && CodeTable(dfc[..], ddl[..], dyn.dl)
        && CodeTable(bfc[..], bdl[..], dyn.cl)
      ensures Sized(dyn, Tokens(), b.staticLen, b.optLen) && BuiltFrom(dyn, lt, dt)
    {
      hide *;
      TalliedIs();
      Apart();
      ghost var ts := Tokens();
      lt, dt := BuildSymbols();
      ghost var l0, d0, lf, df := ldl[..], ddl[..], LitFreqs(ts), DistFreqs(ts);
      EndCounted(ts);
      FitSize(lfc[..], l0, lMax, lf);
      FitSize(dfc[..], d0, dMax, df);
      maxBlindex := BuildBlTree(lf, df);
      FitGuarded(lfc[..], l0, lMax, lf);
      FitGuarded(dfc[..], d0, dMax, df);
      dyn := DynamicBlock(ts, bdl[..19], maxBlindex + 1, ldl[..lMax + 1], ddl[..dMax + 1]);
      Assemble(ts, lfc[..], l0, lMax, dfc[..], d0, dMax, bdl[..19], maxBlindex + 1);
      AssembledCost(ts, lfc[..], l0, lMax, dfc[..], d0, dMax, bdl[..19], maxBlindex + 1);
      StaticIsFixed(ts);
      SizedAs(dyn, ts, b.staticLen, b.optLen);
      PaddedFit(lfc[..], l0, lMax, lf);
      PaddedFit(dfc[..], d0, dMax, df);
      BuiltFromIs(dyn, lt, dt, l0[..286], d0[..30]);
    }

    lemma ReprOld()
      ensures forall o :: o in Repr() ==> allocated(o)
    {
    }

    lemma ReprHas()
      ensures this in Repr() && w in Repr() && b in Repr() && b.heap in Repr() && b.depth in Repr()
        && b.blCount in Repr()
      ensures lfc in Repr() && ldl in Repr() && dfc in Repr() && ddl in Repr() && bfc in Repr() && bdl in Repr()
      ensures slfc in Repr() && sldl in Repr() && sdfc in Repr() && sddl in Repr() && symBuf in Repr()
    {
    }

    lemma ValidParts()
      requires Valid()
      ensures Tallied() && Static() && w.Valid() && symNext % 3 == 0
      ensures Layout() && Syms() && symNext <= symBuf.Length == 3 * (litBufsize - 1)
      ensures SymBytes(symBuf[..symNext]) && Tokens() == TokensOf(symBuf[..symNext])
    {
      hide CodeTable, LitFreqs, DistFreqs, TokensOf;
    }

    lemma NothingTallied()
      requires Syms() && symNext == 0
      ensures Tokens() == []
    {
      NoTokens();
      assert symBuf[..0] == [];
    }

    lemma TalliedAgain(ts: seq<Token>)
      requires Layout() && Syms() && Tokens() == ts
      requires AllEncodable(ts) && lfc[..286] == LitFreqs(ts) && dfc[..30] == DistFreqs(ts)
      requires (forall s :: 0 <= s < 19 ==> bfc[s] == 0) && b.optLen == b.staticLen == 0
      ensures Tallied() && Tokens() == ts
    {
      hide LitFreqs, DistFreqs, TokensOf, AllEncodable;
    }

    /** Save a literal (dist 0) or a match of length lc + 3; true when the block must be flushed. */
    method TrTally(dist: nat, lc: Byte) returns (full: bool)
      requires Valid() && dist <= 32768 && symNext < 3 * (litBufsize - 1)
      modifies this`symNext, symBuf, lfc, dfc
      ensures Valid() && Tokens() == old(Tokens()) + [if dist == 0 then Literal(lc) else Match(lc + 3, dist)]
      ensures symNext == old(symNext) + 3
      ensures full <==> symNext == 3 * (litBufsize - 1)
    {
      hide *;
      ValidParts();
      TalliedIs();
      Apart();
      ghost var s, ts, lf, df := symBuf[..symNext], Tokens(), lfc[..], dfc[..];
      ghost var t := if dist == 0 then Literal(lc) else Match(lc + 3, dist);
      PushSymbol(dist, lc);
      SymIs(dist, lc);
      Constants();
      if dist == 0 {
        lfc[lc] := lfc[lc] + 1;
      } else {
        var code, dcode := LengthCode(lc + 3), DistCode(dist);
        lfc[code + LITERALS + 1] := lfc[code + LITERALS + 1] + 1;
        dfc[dcode] := dfc[dcode] + 1;
      }
      TallyMore(lf, lfc[..], df, dfc[..], ts, t);
      assert lfc[..][..286] == lfc[..286] && dfc[..][..30] == dfc[..30];
      MoreEncodable(ts, t);
      TalliedAgain(ts + [t]);
      ValidIs();
      full := symNext == 3 * (litBufsize - 1);
    }

    method PushSymbol(dist: nat, lc: Byte)
      requires Layout() && Syms() && dist <= 32768 && symNext + 3 <= symBuf.Length
      modifies this`symNext, symBuf
      ensures symNext == old(symNext) + 3 && Syms()
      ensures Tokens() == old(Tokens()) + [if dist == 0 then Literal(lc) else Match(lc + 3, dist)]
    {
      hide Low, Shr, TokensOf, TokenOf;
      ghost var s := symBuf[..symNext];
      TokenSplit(dist, lc);
      symBuf[symNext] := Low(dist, 8);
      symBuf[symNext + 1] := Low(Shr(dist, 8), 8);
      symBuf[symNext + 2] := lc;
      symNext := symNext + 3;
      assert symBuf[..symNext] == s + [Low(dist, 8), Low(Shr(dist, 8), 8), lc];
      TokensOfMore(s, Low(dist, 8), Low(Shr(dist, 8), 8), lc);
    }

    /** Send the symbols as a fixed block. */
    method SendFixed(last: bool) returns (ghost marks: seq<seq<Byte>>)
      requires Layout() && Syms() && Static() && w.Valid()
      requires AllCoded(FixedLitLens(), FixedDistLens(), Tokens()) && Coded(FixedLitLens(), 256)
      modifies w
      ensures w.Valid()
      ensures w.Stream() == old(w.Stream()) + (TypeBits(1, last) + BodyBits(FixedLitLens(), FixedDistLens(), Tokens()))
      ensures Marks(marks, |old(w.pending)|, old(w.Stream()) + TypeBits(1, last), FixedLitLens(), FixedDistLens(),
                    Tokens(),
                    |Tokens()|)
      ensures Within(marks, w.pending) && old(w.pending) <= w.pending
    {
      hide *;
      Apart();
      StaticHas();
      ghost var s0 := w.Stream();
      ghost var p0 := |w.pending|;
      SendType(w, 1, last);
      ghost var p1, s1 := |w.pending|, w.Stream();
      marks := CompressBlock(w, symBuf, symNext, slfc, sldl, sdfc, sddl, FixedLitLens(), FixedDistLens());
      MarksFrom(marks, p0, p1, s1, FixedLitLens(), FixedDistLens(), Tokens());
      Appended(s0, TypeBits(1, last), BodyBits(FixedLitLens(), FixedDistLens(), Tokens()), [], []);
    }

    lemma StaticHas()
      requires Static() && Syms()
      ensures CodeTable(slfc[..], sldl[..], FixedLitLens()) && CodeTable(sdfc[..], sddl[..], FixedDistLens())
      ensures symNext <= symBuf.Length && SymBytes(symBuf[..symNext]) && Tokens() == TokensOf(symBuf[..symNext])
    {
      hide CodeTable, TokensOf;
    }

    /** Send the symbols as a dynamic block with the built trees. */
    method SendDynamic(last: bool, maxBlindex: nat, ghost dyn: Block)
      requires Layout() && Syms() && w.Valid()
      requires lMax + 1 < ldl.Length && ldl[lMax + 1] == GUARD && dMax + 1 < ddl.Length && ddl[dMax + 1] == GUARD
      requires dyn == DynamicBlock(Tokens(), bdl[..19], maxBlindex + 1, ldl[..lMax + 1], ddl[..dMax + 1])
      requires Writable(dyn) && Coded(dyn.ll, 256)
      requires CodeTable(lfc[..], ldl[..], dyn.ll) && CodeTable(dfc[..], ddl[..], dyn.dl)
        && CodeTable(bfc[..], bdl[..], dyn.cl)
      modifies w
      ensures w.Valid() && old(w.pending) <= w.pending
      ensures w.Stream() == old(w.Stream())
        + (TypeBits(2, last) + HeaderBits(dyn.cl, dyn.ncl, dyn.ll, dyn.dl) + BodyBits(dyn.ll, dyn.dl, Tokens()))
    {
      hide *;
      Apart();
      ghost var s0 := w.Stream();
      WritableDynamic(dyn);
      SymsHas();
      SendType(w, 2, last);
      SendAllTrees(w, ldl, ddl, bfc, bdl, lMax + 1, dMax + 1, maxBlindex + 1, bdl[..19]);
      ghost var marks := CompressBlock(w, symBuf, symNext, lfc, ldl, dfc, ddl, dyn.ll, dyn.dl);
      Appended(s0, TypeBits(2, last), HeaderBits(dyn.cl, dyn.ncl, dyn.ll, dyn.dl), BodyBits(dyn.ll, dyn.dl, Tokens()),
               []);
    }

    lemma SymsHas()
      requires Syms()
      ensures symNext <= symBuf.Length && SymBytes(symBuf[..symNext]) && Tokens() == TokensOf(symBuf[..symNext])
    {
      hide TokensOf;
    }

    /** Send the symbols, or the bytes they stand for, as a block of the cheapest type. */
    method SendCheapest(buf: Option<seq<Byte>>, storedLen: nat, last: bool, compress: bool, fixed: bool)
        returns (ghost blk: Block, ghost marks: seq<seq<Byte>>, ghost dyn: Block, ghost lt: Tree, ghost dt: Tree)
      requires Valid()
      requires buf.Some? ==> |buf.value| == storedLen <= 65535
      requires !compress ==> buf.Some?
      modifies this`lMax, this`dMax, w, b, b.heap, b.depth, b.blCount, lfc, ldl, dfc, ddl, bfc, bdl
      ensures Layout() && w.Valid() && old(w.pending) <= w.pending
      ensures Chosen(blk, dyn, old(Tokens()), buf, last, |old(w.Stream())|, compress, fixed)
      ensures compress ==> BuiltFrom(dyn, lt, dt)
      ensures Writable(blk) && w.Stream() == old(w.Stream()) + BlockBits(blk, last, |old(w.Stream())|)
      ensures blk.FixedBlock? ==> FixedMarks(marks, w.pending, |old(w.pending)|, old(w.Stream()), old(Tokens()), last)
    {
      hide *;
      ValidParts();
      TalliedIs();
      Apart();
      ghost var s0, p0, ts := w.Stream(), |w.pending|, Tokens();
      var maxBlindex := 0;
      dyn, lt, dt := StoredBlock([]), Leaf(0), Leaf(0);
      var optLenb, staticLenb;
      if compress {
        maxBlindex, dyn, lt, dt := BuildTrees();
        SizedIs(dyn, ts, b.staticLen, b.optLen, last, |s0|);
        optLenb := (b.optLen + 3 + 7) / 8;
        staticLenb := (b.staticLen + 3 + 7) / 8;
        if staticLenb <= optLenb || fixed {
          optLenb := staticLenb;
        }
      } else {
        optLenb := storedLen + 5;
        staticLenb := optLenb;
      }
      marks := [];
      if storedLen + 4 <= optLenb && buf.Some? {
        SendStored(w, buf.value, last);
        blk := StoredBlock(buf.value);
        if compress {
          StoredChosen(dyn, ts, buf.value, last, |s0|, fixed, b.staticLen, b.optLen);
        } else {
          StoredOnly(dyn, ts, buf.value, last, |s0|, fixed);
        }
      } else if staticLenb == optLenb {
        marks := SendFixed(last);
        blk := FixedBlock(ts);
        FixedChosen(dyn, ts, buf, last, |s0|, fixed, b.staticLen, b.optLen);
        FixedMarksIs(marks, w.pending, p0, s0, ts, last);
      } else {
        SendDynamic(last, maxBlindex, dyn);
        blk := dyn;
        DynamicChosen(dyn, ts, buf, last, |s0|, b.staticLen, b.optLen);
      }
      ChosenWritable(blk, dyn, ts, buf, last, |s0|, compress, fixed);
    }

    /** Choose the block type and send the block; buf is the input the block stands for, if it is
        still there, and storedLen its length.  The block sent is blk, and dyn the dynamic block it was
        chosen over, built from the trees lt and dt. */
    method TrFlushBlock(buf: Option<seq<Byte>>, storedLen: nat, last: bool, compress: bool, fixed: bool)
        returns (ghost blk: Block, ghost marks: seq<seq<Byte>>, ghost dyn: Block, ghost lt: Tree, ghost dt: Tree)
      requires Valid()
      requires buf.Some? ==> |buf.value| == storedLen <= 65535
      requires !compress ==> buf.Some?
      modifies this, w, b, b.heap, b.depth, b.blCount, lfc, ldl, dfc, ddl, bfc, bdl
      ensures Valid() && Tokens() == [] && symNext == 0 && old(w.pending) <= w.pending
      ensures Chosen(blk, dyn, old(Tokens()), buf, last, |old(w.Stream())|, compress, fixed)
      ensures compress ==> BuiltFrom(dyn, lt, dt)
      ensures w.Stream() == BlockSent(old(w.Stream()), blk, last) && (last ==> w.Stream() == BytesToBits(w.pending))
      ensures blk.FixedBlock? ==> FixedMarks(marks, w.pending, |old(w.pending)|, old(w.Stream()), old(Tokens()), last)
    {
      hide *;
      ValidParts();
      Apart();
      ghost var s0, p0, ts := w.Stream(), |w.pending|, Tokens();
      blk, marks, dyn, lt, dt := SendCheapest(buf, storedLen, last, compress, fixed);
      InitBlock();
      if last {
        ghost var p := w.pending;
        w.BiWindup();
        if blk.FixedBlock? {
          FixedMarksMore(marks, p, w.pending, p0, s0, ts, last);
        }
      }
      BlockSentIs(s0, blk, last);
      ValidIs();
    }

    /** Send a stored block in the midst of a stream (_tr_stored_block). */
    method TrStoredBlock(data: seq<Byte>)
      requires Valid() && |data| <= 65535
      modifies w
      ensures Valid() && Tokens() == old(Tokens()) && old(w.pending) <= w.pending
        && w.Stream() == BytesToBits(w.pending)
      ensures Writable(StoredBlock(data)) && w.Stream() == BlockSent(old(w.Stream()), StoredBlock(data), false)
    {
      hide *;
      ValidParts();
      Apart();
      ghost var s0 := w.Stream();
      SendStored(w, data, false);
      StoredWritable(data, false, |s0|);
      BlockSentIs(s0, StoredBlock(data), false);
      ValidIs();
    }

    /** Send an empty fixed block and write out whole bytes. */
    method TrAlign()
      requires Valid()
      modifies w
      ensures Valid() && Tokens() == old(Tokens()) && old(w.pending) <= w.pending && w.biValid <= 7
      ensures Writable(FixedBlock([])) && w.Stream() == BlockSent(old(w.Stream()), FixedBlock([]), false)
    {
      hide *;
      ValidParts();
      StaticHas();
      Apart();
      ghost var s0 := w.Stream();
      SendType(w, 1, false);
      Constants();
      EmptyFixed(s0);
      SendCode(w, END_BLOCK, slfc, sldl, FixedLitLens());
      w.BiFlush();
      Appended(s0, TypeBits(1, false), CodeBits(FixedLitLens(), 256), [], []);
      ValidIs();
    }
  }
}
