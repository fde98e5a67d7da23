/** Sending codes and run-length coded trees (trees.c: send_code, send_tree, send_all_trees). */
module TreeSend {
  import opened Bits
  import opened Canonical
  import opened CodeLengths
  import opened Decoder
  import opened BlockFormat
  import opened BlockHeader
  import opened BitWriter
  import opened TreeScan

  /** The two arrays of a tree hold the canonical code given by lens. */
  ghost predicate CodeTable(fc: seq<nat>, dl: seq<nat>, lens: seq<nat>)
  {
    |fc| == |dl| && Complete(lens)
    && forall s :: 0 <= s < |lens| && s < |fc| ==> dl[s] == lens[s] && (lens[s] != 0 ==> fc[s] == CodeVal(lens, s))
  }

  lemma CodeKnown(fc: seq<nat>, dl: seq<nat>, lens: seq<nat>, s: nat)
    requires CodeTable(fc, dl, lens) && Coded(lens, s) && s < |fc|
    ensures |dl| == |fc| && 1 <= dl[s] <= 15 && fc[s] < Pow2(dl[s])
    ensures CodeBits(lens, s) == ToBits(fc[s], dl[s])
  {
    hide CodeVal, Kraft, Pow2, ToBits;
    CodeFits(lens, s);
    assert dl[s] == lens[s];
  }

  method SendCode(w: Writer, c: nat, fc: array<nat>, dl: array<nat>, ghost lens: seq<nat>)
    requires w.Valid() && CodeTable(fc[..], dl[..], lens) && Coded(lens, c) && c < fc.Length
    modifies w
    ensures w.Valid() && w.Stream() == old(w.Stream()) + CodeBits(lens, c)
    ensures old(w.pending) <= w.pending && (|w.pending| - |old(w.pending)|) % 2 == 0 && w.biValid >= 1
  {
    hide CodeTable, CodeBits, Coded, Pow2, ToBits;
    CodeKnown(fc[..], dl[..], lens, c);
    w.SendBits(fc[c], dl[c]);
  }

  // ---------- one tree ----------

  /** What has been sent and what is still to be sent make up the goal. */
  ghost predicate Sending(stream: BitString, goal: BitString, cl: seq<nat>, rest: seq<Op>)
  {
    AllOpsCoded(cl, rest) && stream + OpsBits(cl, rest) == goal
  }

  lemma SendingFirst(stream: BitString, goal: BitString, cl: seq<nat>, op: Op, rest: seq<Op>)
    requires Sending(stream, goal, cl, [op] + rest)
    ensures OpCoded(cl, op) && Sending(stream + OpBits(cl, op), goal, cl, rest)
  {
    hide OpBits;
    assert ([op] + rest)[0] == op && ([op] + rest)[1..] == rest;
    assert AllOpsCoded(cl, rest) by {
      forall i | 0 <= i < |rest| ensures OpCoded(cl, rest[i]) {
        assert ([op] + rest)[i + 1] == rest[i];
      }
    }
    assert stream + (OpBits(cl, op) + OpsBits(cl, rest)) == stream + OpBits(cl, op) + OpsBits(cl, rest);
  }

  lemma OpIs(cl: seq<nat>, op: Op)
    requires OpCoded(cl, op)
    ensures op.sym < 19 && Coded(cl, op.sym) && op.extra < Pow2(OpExtra(op.sym))
    ensures OpBits(cl, op) == CodeBits(cl, op.sym) + ToBits(op.extra, OpExtra(op.sym))
    ensures OpExtra(op.sym) == 0 ==> OpBits(cl, op) == CodeBits(cl, op.sym)
  {
  }

  /** Send one symbol of the code length alphabet with its extra bits, if it has any. */
  method SendOp(w: Writer, sym: nat, extra: nat, bfc: array<nat>, bdl: array<nat>, ghost cl: seq<nat>,
                ghost goal: BitString, ghost rest: seq<Op>)
    requires w.Valid() && CodeTable(bfc[..], bdl[..], cl) && bfc.Length >= 19
    requires Sending(w.Stream(), goal, cl, [Op(sym, extra)] + rest)
    modifies w
    ensures w.Valid() && Sending(w.Stream(), goal, cl, rest)
    ensures old(w.pending) <= w.pending
  {
    hide CodeTable, CodeBits, Coded, Pow2, ToBits, Sending, OpCoded, OpBits, OpExtra;
    ghost var stream := w.Stream();
    SendingFirst(stream, goal, cl, Op(sym, extra), rest);
    OpIs(cl, Op(sym, extra));
    SendCode(w, sym, bfc, bdl, cl);
    var n := OpExtra(sym);
    if n > 0 {
      FewExtra(sym);
      w.SendBits(extra, n);
      assert w.Stream() == stream + OpBits(cl, Op(sym, extra));
    }
  }

  lemma FewExtra(sym: nat)
    ensures OpExtra(sym) <= 7
  {
  }

  lemma RunOpsShape(prev: int, cur: nat, count: nat, rest: seq<Op>)
    requires 1 <= count <= MaxCount(prev, cur)
    ensures count < MinCount(prev, cur) ==> RunOps(prev, cur, count) == seq(count, _ => Op(cur, 0))
    ensures count >= MinCount(prev, cur) && cur != 0 && cur != prev ==>
      (count >= 4 && RunOps(prev, cur, count) + rest == [Op(cur, 0)] + ([Op(16, count - 4)] + rest))
    ensures count >= MinCount(prev, cur) && cur != 0 && cur == prev ==>
      (count >= 3 && RunOps(prev, cur, count) + rest == [Op(16, count - 3)] + rest)
    ensures count >= MinCount(prev, cur) && cur == 0 && count <= 10 ==>
      (count >= 3 && RunOps(prev, cur, count) + rest == [Op(17, count - 3)] + rest)
    ensures count >= MinCount(prev, cur) && cur == 0 && count > 10 ==>
      (RunOps(prev, cur, count) + rest == [Op(18, count - 11)] + rest)
  {
  }

  /** Send one finished run. */
  method SendRun(w: Writer, prevLen: int, curLen: nat, count0: nat, minCount: nat, bfc: array<nat>, bdl: array<nat>,
                 ghost cl: seq<nat>, ghost goal: BitString, ghost rest: seq<Op>)
    requires w.Valid() && CodeTable(bfc[..], bdl[..], cl) && bfc.Length >= 19
    requires 1 <= count0 <= MaxCount(prevLen, curLen) && minCount == MinCount(prevLen, curLen)
    requires Sending(w.Stream(), goal, cl, RunOps(prevLen, curLen, count0) + rest)
    modifies w
    ensures w.Valid() && Sending(w.Stream(), goal, cl, rest)
    ensures old(w.pending) <= w.pending
  {
    hide CodeTable, Sending, RunOps, MaxCount, MinCount;
    var count := count0;
    RunOpsShape(prevLen, curLen, count, rest);
    if count < minCount {
      while count != 0
        invariant w.Valid() && Sending(w.Stream(), goal, cl, seq(count, _ => Op(curLen, 0)) + rest)
        invariant old(w.pending) <= w.pending
        decreases count
      {
        assert seq(count, _ => Op(curLen, 0)) + rest == [Op(curLen, 0)] + (seq(count - 1, _ => Op(curLen, 0)) + rest);
        SendOp(w, curLen, 0, bfc, bdl, cl, goal, seq(count - 1, _ => Op(curLen, 0)) + rest);
        count := count - 1;
      }
      assert seq(0, _ => Op(curLen, 0)) + rest == rest;
    } else if curLen != 0 {
      if curLen != prevLen {
        SendOp(w, curLen, 0, bfc, bdl, cl, goal, [Op(16, count - 4)] + rest);
        count := count - 1;
      }
      SendOp(w, 16, count - 3, bfc, bdl, cl, goal, rest);
    } else if count <= 10 {
      SendOp(w, 17, count - 3, bfc, bdl, cl, goal, rest);
    } else {
      SendOp(w, 18, count - 11, bfc, bdl, cl, goal, rest);
    }
  }

  /** Send the lengths of a tree, run-length coded. */
  method SendTree(w: Writer, dl: array<nat>, maxCode: nat, bfc: array<nat>, bdl: array<nat>, ghost cl: seq<nat>)
    requires w.Valid() && CodeTable(bfc[..], bdl[..], cl) && bfc.Length >= 19
    requires maxCode + 1 < dl.Length && dl[maxCode + 1] == GUARD
    requires forall i :: 0 <= i <= maxCode ==> dl[i] <= 15
    requires AllOpsCoded(cl, Rle(dl[..maxCode + 1]))
    modifies w
    ensures w.Valid()
    ensures w.Stream() == old(w.Stream()) + OpsBits(cl, Rle(dl[..maxCode + 1]))
    ensures old(w.pending) <= w.pending
  {
    hide CodeTable, ScanState, RleFrom, Sending, RunOps, MaxCount, MinCount, AllOpsCoded, Rle;
    ghost var lens := dl[..maxCode + 1];
    ghost var goal := w.Stream() + OpsBits(cl, Rle(lens));
    var prevLen: int := -1;
    var nextLen := dl[0];
    var count := 0;
    var maxCount, minCount := 7, 4;
    if nextLen == 0 {
      maxCount, minCount := 138, 3;
    }
    ScanStart(lens);
    RleIs(lens);
    assert Sending(w.Stream(), goal, cl, Rle(lens)) by { SendingStart(w.Stream(), cl, Rle(lens)); }
    for n := 0 to maxCode + 1
      invariant w.Valid() && old(w.pending) <= w.pending
      invariant ScanState(lens, n, prevLen, count, nextLen, maxCount, minCount)
      invariant ScanFits(lens, n, prevLen, count)
      invariant Sending(w.Stream(), goal, cl, RleFrom(lens, n, prevLen, count))
    {
      var curLen := nextLen;
      nextLen := dl[n + 1];
      count := count + 1;
      assert n + 1 < |lens| ==> dl[n + 1] == lens[n + 1];
      if count < maxCount && curLen == nextLen {
        ScanMore(lens, n, prevLen, count - 1, curLen, maxCount, minCount, nextLen);
        ScanFit(lens, n + 1, prevLen, count, nextLen, maxCount, minCount);
        continue;
      }
      ScanRun(lens, n, prevLen, count - 1, curLen, maxCount, minCount, nextLen);
      SendRun(w, prevLen, curLen, count, minCount, bfc, bdl, cl, goal, RleFrom(lens, n + 1, curLen, 0));
      count := 0;
      prevLen := curLen;
      if nextLen == 0 {
        maxCount, minCount := 138, 3;
      } else if curLen == nextLen {
        maxCount, minCount := 6, 3;
      } else {
        maxCount, minCount := 7, 4;
      }
      ScanFit(lens, n + 1, prevLen, count, nextLen, maxCount, minCount);
    }
    SendingEnd(w.Stream(), goal, cl, lens, prevLen, count);
  }

  lemma SendingStart(stream: BitString, cl: seq<nat>, ops: seq<Op>)
    requires AllOpsCoded(cl, ops)
    ensures Sending(stream, stream + OpsBits(cl, ops), cl, ops)
  {
  }

  lemma SendingEnd(stream: BitString, goal: BitString, cl: seq<nat>, lens: seq<nat>, prev: int, count: nat)
    requires ScanFits(lens, |lens|, prev, count) && Sending(stream, goal, cl, RleFrom(lens, |lens|, prev, count))
    ensures stream == goal
  {
    assert stream + [] == stream;
  }

  // ---------- the whole header ----------

  lemma SizesFit(nl: nat, nd: nat, n: nat)
    requires 257 <= nl <= 286 && 1 <= nd <= 30 && 4 <= n <= 19
    ensures nl - 257 < Pow2(5) && nd - 1 < Pow2(5) && n - 4 < Pow2(4)
  {
    Pow2Values();
  }

  lemma SendableFacts(cl: seq<nat>, n: nat, ll: seq<nat>, dl: seq<nat>)
    requires Sendable(cl, n, ll, dl)
    ensures |cl| == 19 && 4 <= n <= 19 && (forall s :: 0 <= s < 19 ==> cl[s] < 8)
    ensures 257 <= |ll| <= 286 && 1 <= |dl| <= 30
    ensures AllOpsCoded(cl, Rle(ll)) && AllOpsCoded(cl, Rle(dl))
    ensures HeaderBits(cl, n, ll, dl)
         == SizesBits(|ll|, |dl|, n) + ClensBits(cl, n) + OpsBits(cl, Rle(ll)) + OpsBits(cl, Rle(dl))
  {
    hide Rle, AllOpsCoded, Complete, ClensBits, SizesBits;
  }

  /** Send the header of a dynamic block. */
  method SendAllTrees(w: Writer, ldl: array<nat>, ddl: array<nat>, bfc: array<nat>, bdl: array<nat>,
                      lcodes: nat, dcodes: nat, blcodes: nat, ghost cl: seq<nat>)
    requires w.Valid() && CodeTable(bfc[..], bdl[..], cl) && bfc.Length >= 19
    requires 1 <= lcodes < ldl.Length && 1 <= dcodes < ddl.Length && ldl[lcodes] == GUARD == ddl[dcodes]
    requires forall i :: 0 <= i < lcodes ==> ldl[i] <= 15
    requires forall i :: 0 <= i < dcodes ==> ddl[i] <= 15
    requires Sendable(cl, blcodes, ldl[..lcodes], ddl[..dcodes])
    modifies w
    ensures w.Valid()
    ensures w.Stream() == old(w.Stream()) + HeaderBits(cl, blcodes, ldl[..lcodes], ddl[..dcodes])
    ensures old(w.pending) <= w.pending
  {
    hide *;
    ghost var ll, ds, s0 := ldl[..lcodes], ddl[..dcodes], w.Stream();
    SendableFacts(cl, blcodes, ll, ds);
    SendSizes(w, lcodes, dcodes, blcodes);
    SendClens(w, bfc, bdl, blcodes, cl);
    assert ldl[..lcodes - 1 + 1] == ll && ddl[..dcodes - 1 + 1] == ds;
    SendTree(w, ldl, lcodes - 1, bfc, bdl, cl);
    SendTree(w, ddl, dcodes - 1, bfc, bdl, cl);
  }

  method SendSizes(w: Writer, lcodes: nat, dcodes: nat, blcodes: nat)
    requires w.Valid() && 257 <= lcodes <= 286 && 1 <= dcodes <= 30 && 4 <= blcodes <= 19
    modifies w
    ensures w.Valid() && w.Stream() == old(w.Stream()) + SizesBits(lcodes, dcodes, blcodes)
    ensures old(w.pending) <= w.pending
  {
    hide Pow2, ToBits;
    SizesFit(lcodes, dcodes, blcodes);
    w.SendBits(lcodes - 257, 5);
    w.SendBits(dcodes - 1, 5);
    w.SendBits(blcodes - 4, 4);
    assert w.Stream() == old(w.Stream()) + SizesBits(lcodes, dcodes, blcodes);
  }

  method SendClens(w: Writer, bfc: array<nat>, bdl: array<nat>, blcodes: nat, ghost cl: seq<nat>)
    requires w.Valid() && CodeTable(bfc[..], bdl[..], cl) && bfc.Length >= 19 && |cl| == 19 && blcodes <= 19
    requires forall s :: 0 <= s < 19 ==> cl[s] < 8
    modifies w
    ensures w.Valid() && w.Stream() == old(w.Stream()) + ClensBits(cl, blcodes)
    ensures old(w.pending) <= w.pending
  {
    hide CodeTable, Pow2, ToBits, ClensBits, BlOrder;
    ClensNone(cl);
    TableLens(bfc[..], bdl[..], cl);
    for rank := 0 to blcodes
      invariant w.Valid() && w.Stream() == old(w.Stream()) + ClensBits(cl, rank)
      invariant old(w.pending) <= w.pending
    {
      ClensStep(cl, rank);
      w.SendBits(bdl[BlOrder(rank)], 3);
    }
  }

  lemma ClensStep(cl: seq<nat>, rank: nat)
    requires |cl| == 19 && rank < 19
    ensures ClensBits(cl, rank + 1) == ClensBits(cl, rank) + ToBits(cl[BlOrder(rank)], 3)
    ensures Pow2(3) == 8
  {
    hide BlOrder, ToBits;
  }

  lemma TableLens(fc: seq<nat>, dl: seq<nat>, lens: seq<nat>)
    requires CodeTable(fc, dl, lens) && |lens| <= |fc|
    ensures |lens| <= |dl| && forall s :: 0 <= s < |lens| ==> dl[s] == lens[s]
  {
  }
}
