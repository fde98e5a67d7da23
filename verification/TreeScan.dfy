/** Counting and sending the run-length symbols of a code (trees.c: scan_tree, send_tree). */
module TreeScan {
  import opened Bits
  import opened Canonical
  import opened CodeLengths
  import opened BlockHeader
  import opened BitWriter

  // ---------- the scan both loops make ----------

  /** Scanning has reached index n with count pending lengths; `next` is the length looked ahead to. */
  ghost predicate ScanState(lens: seq<nat>, n: nat, prev: int, count: nat, next: nat, max: nat, min: nat)
  {
    n <= |lens| && (forall i :: 0 <= i < |lens| ==> lens[i] <= 15)
    && next == (if n < |lens| then lens[n] else GUARD)
    && (n < |lens| ==> count < max && max == MaxCount(prev, next) && min == MinCount(prev, next))
    && (count > 0 ==> n > 0 && n < |lens| && lens[n - 1] == lens[n])
  }

  lemma ScanStart(lens: seq<nat>)
    requires lens != [] && forall i :: 0 <= i < |lens| ==> lens[i] <= 15
    ensures ScanState(lens, 0, -1, 0, lens[0], if lens[0] == 0 then 138 else 7, if lens[0] == 0 then 3 else 4)
  {
  }

  /** The run goes on. */
  lemma ScanMore(lens: seq<nat>, n: nat, prev: int, count: nat, next: nat, max: nat, min: nat, after: nat)
    requires ScanState(lens, n, prev, count, next, max, min) && n < |lens|
    requires after == (if n + 1 < |lens| then lens[n + 1] else GUARD)
    requires count + 1 < max && next == after
    ensures ScanState(lens, n + 1, prev, count + 1, after, max, min)
    ensures RleFrom(lens, n, prev, count) == RleFrom(lens, n + 1, prev, count + 1)
  {
  }

  /** The run ends. */
  lemma ScanRun(lens: seq<nat>, n: nat, prev: int, count: nat, next: nat, max: nat, min: nat, after: nat)
    requires ScanState(lens, n, prev, count, next, max, min) && n < |lens|
    requires after == (if n + 1 < |lens| then lens[n + 1] else GUARD)
    requires !(count + 1 < max && next == after)
    ensures next <= 15 && 1 <= count + 1 <= MaxCount(prev, next) && min == MinCount(prev, next)
    ensures RleFrom(lens, n, prev, count) == RunOps(prev, next, count + 1) + RleFrom(lens, n + 1, next, 0)
    ensures ScanState(lens, n + 1, next, 0, after,
                      if after == 0 then 138 else if next == after then 6 else 7,
                      if after == 0 then 3 else if next == after then 3 else 4)
  {
    hide RunOps;
  }

  // ---------- counting ----------

  /** What is already counted and what is still to come make up the whole. */
  ghost predicate Counting(f: seq<nat>, f0: seq<nat>, ops: seq<Op>, rest: seq<Op>)
  {
    |f| == |f0| >= 19 && (forall s :: 0 <= s < 19 ==> f[s] + OpFreq(rest, s) == f0[s] + OpFreq(ops, s))
    && forall s :: 19 <= s < |f| ==> f[s] == f0[s]
  }

  lemma {:induction false} SpelledFreq(cur: nat, count: nat, s: nat)
    ensures OpFreq(seq(count, _ => Op(cur, 0)), s) == if s == cur then count else 0
    decreases count
  {
    if count > 0 {
      var ops := seq(count, _ => Op(cur, 0));
      assert ops[1..] == seq(count - 1, _ => Op(cur, 0));
      SpelledFreq(cur, count - 1, s);
    }
  }

  lemma OneFreq(op: Op, s: nat)
    ensures OpFreq([op], s) == if op.sym == s then 1 else 0
  {
    assert [op][1..] == [];
  }

  lemma TwoFreq(a: Op, b: Op, s: nat)
    ensures OpFreq([a, b], s) == (if a.sym == s then 1 else 0) + if b.sym == s then 1 else 0
  {
    OneFreq(b, s);
    assert [a, b][1..] == [b];
  }

  /** How often the run sends symbol s. */
  lemma RunOpsFreq(prev: int, cur: nat, count: nat, s: nat)
    requires 1 <= count <= MaxCount(prev, cur)
    ensures OpFreq(RunOps(prev, cur, count), s) ==
      if count < MinCount(prev, cur) then (if s == cur then count else 0)
      else if cur != 0 then
        (if cur != prev && s == cur then 1 else 0) + if s == 16 then 1 else 0
      else if count <= 10 then (if s == 17 then 1 else 0)
      else if s == 18 then 1 else 0
  {
    hide OpFreq;
    if count < MinCount(prev, cur) {
      SpelledFreq(cur, count, s);
    } else if cur != 0 && cur != prev {
      TwoFreq(Op(cur, 0), Op(16, count - 4), s);
    } else {
      OneFreq(RunOps(prev, cur, count)[0], s);
    }
  }

  /** The counters the run adds to. */
  function RunCounted(f: seq<nat>, prev: int, cur: nat, count: nat): (g: seq<nat>)
    requires |f| >= 19 && cur <= 15
    ensures |g| == |f|
  {
    if count < MinCount(prev, cur) then f[cur := f[cur] + count]
    else if cur != 0 then
      var g := if cur != prev then f[cur := f[cur] + 1] else f;
      g[16 := g[16] + 1]
    else if count <= 10 then f[17 := f[17] + 1]
    else f[18 := f[18] + 1]
  }

  lemma RunFreq(f: seq<nat>, prev: int, cur: nat, count: nat, s: nat)
    requires |f| >= 19 && cur <= 15 && 1 <= count <= MaxCount(prev, cur) && s < |f|
    ensures RunCounted(f, prev, cur, count)[s] == f[s] + OpFreq(RunOps(prev, cur, count), s)
    ensures s >= 19 ==> OpFreq(RunOps(prev, cur, count), s) == 0
  {
    hide OpFreq, RunOps;
    RunOpsFreq(prev, cur, count, s);
  }

  lemma CountingStep(f: seq<nat>, f0: seq<nat>, ops: seq<Op>, prev: int, cur: nat, count: nat, rest: seq<Op>)
    requires cur <= 15 && 1 <= count <= MaxCount(prev, cur)
    requires Counting(f, f0, ops, RunOps(prev, cur, count) + rest)
    ensures Counting(RunCounted(f, prev, cur, count), f0, ops, rest)
  {
    hide OpFreq, RunCounted, RunOps;
    forall s | 0 <= s < |f|
      ensures RunCounted(f, prev, cur, count)[s] == f[s] + OpFreq(RunOps(prev, cur, count), s)
      ensures s >= 19 ==> OpFreq(RunOps(prev, cur, count), s) == 0
    {
      RunFreq(f, prev, cur, count, s);
    }
    forall s: nat
      ensures OpFreq(RunOps(prev, cur, count) + rest, s) == OpFreq(RunOps(prev, cur, count), s) + OpFreq(rest, s)
    {
      OpFreqAppend(RunOps(prev, cur, count), rest, s);
    }
  }

  /** Count the code length symbols a code needs. */
  method ScanTree(dl: array<nat>, maxCode: nat, bfc: array<nat>)
    requires dl != bfc && maxCode + 1 < dl.Length && bfc.Length >= 19
    requires forall i :: 0 <= i <= maxCode ==> dl[i] <= 15
    modifies dl, bfc
    ensures forall s :: 0 <= s < 19 ==> bfc[s] == old(bfc[s]) + OpFreq(Rle(old(dl[..maxCode + 1])), s)
    ensures forall s :: 19 <= s < bfc.Length ==> bfc[s] == old(bfc[s])
    ensures dl[..] == old(dl[..])[maxCode + 1 := GUARD]
  {
    hide ScanState, RleFrom, Counting, RunOps, OpFreq, MaxCount, MinCount;
    ghost var lens := dl[..maxCode + 1];
    ghost var f0 := bfc[..];
    ghost var ops := Rle(lens);
    var prevLen: int := -1;
    var nextLen := dl[0];
    var count := 0;
    var maxCount, minCount := 7, 4;
    if nextLen == 0 {
      maxCount, minCount := 138, 3;
    }
    dl[maxCode + 1] := GUARD;
    assert dl[..maxCode + 1] == lens;
    ScanStart(lens);
    RleIs(lens);
    assert Counting(f0, f0, ops, ops) by { CountingStart(f0, ops); }
    for n := 0 to maxCode + 1
      invariant dl[..] == old(dl[..])[maxCode + 1 := GUARD] && dl[..maxCode + 1] == lens
      invariant ScanState(lens, n, prevLen, count, nextLen, maxCount, minCount)
      invariant ScanFits(lens, n, prevLen, count)
      invariant Counting(bfc[..], f0, ops, RleFrom(lens, n, prevLen, count))
    {
      var curLen := nextLen;
      nextLen := dl[n + 1];
      count := count + 1;
      assert n + 1 < |lens| ==> dl[n + 1] == lens[n + 1];
      if count < maxCount && curLen == nextLen {
        ScanMore(lens, n, prevLen, count - 1, curLen, maxCount, minCount, nextLen);
        ScanFit(lens, n + 1, prevLen, count, nextLen, maxCount, minCount);
        continue;
      }
      ScanRun(lens, n, prevLen, count - 1, curLen, maxCount, minCount, nextLen);
      CountingStep(bfc[..], f0, ops, prevLen, curLen, count, RleFrom(lens, n + 1, curLen, 0));
      ghost var f := bfc[..];
      RunCountedIs(f, prevLen, curLen, count);
      CountingSize(f, f0, ops, RleFrom(lens, n, prevLen, count - 1));
      if count < minCount {
        bfc[curLen] := bfc[curLen] + count;
      } else if curLen != 0 {
        if curLen != prevLen {
          bfc[curLen] := bfc[curLen] + 1;
        }
        bfc[16] := bfc[16] + 1;
      } else if count <= 10 {
        bfc[17] := bfc[17] + 1;
      } else {
        bfc[18] := bfc[18] + 1;
      }
      assert bfc[..] == RunCounted(f, prevLen, curLen, count);
      count := 0;
      prevLen := curLen;
      if nextLen == 0 {
        maxCount, minCount := 138, 3;
      } else if curLen == nextLen {
        maxCount, minCount := 6, 3;
      } else {
        maxCount, minCount := 7, 4;
      }
      ScanFit(lens, n + 1, prevLen, count, nextLen, maxCount, minCount);
    }
    CountingEnd(bfc[..], f0, ops, lens, prevLen, count);
  }

  /** RleFrom may be asked at this point of the scan. */
  ghost predicate ScanFits(lens: seq<nat>, n: nat, prev: int, count: nat)
  {
    n <= |lens| && (n < |lens| ==> count < MaxCount(prev, lens[n]))
  }

  lemma ScanFit(lens: seq<nat>, n: nat, prev: int, count: nat, next: nat, max: nat, min: nat)
    requires ScanState(lens, n, prev, count, next, max, min)
    ensures ScanFits(lens, n, prev, count)
  {
  }

  lemma RleIs(lens: seq<nat>)
    ensures ScanFits(lens, 0, -1, 0) && Rle(lens) == RleFrom(lens, 0, -1, 0)
  {
  }

  lemma CountingStart(f: seq<nat>, ops: seq<Op>)
    requires |f| >= 19
    ensures Counting(f, f, ops, ops)
  {
  }

  lemma CountingSize(f: seq<nat>, f0: seq<nat>, ops: seq<Op>, rest: seq<Op>)
    requires Counting(f, f0, ops, rest)
    ensures |f| == |f0| >= 19
  {
  }

  lemma RunCountedIs(f: seq<nat>, prev: int, cur: nat, count: nat)
    requires |f| >= 19 && cur <= 15
    ensures RunCounted(f, prev, cur, count) ==
      if count < MinCount(prev, cur) then f[cur := f[cur] + count]
      else if cur != 0 then
        var g := if cur != prev then f[cur := f[cur] + 1] else f;
        g[16 := g[16] + 1]
      else if count <= 10 then f[17 := f[17] + 1]
      else f[18 := f[18] + 1]
  {
  }

  lemma CountingEnd(f: seq<nat>, f0: seq<nat>, ops: seq<Op>, lens: seq<nat>, prev: int, count: nat)
    requires ScanFits(lens, |lens|, prev, count) && Counting(f, f0, ops, RleFrom(lens, |lens|, prev, count))
    ensures |f| == |f0| && forall s :: 0 <= s < 19 <= |f| ==> f[s] == f0[s] + OpFreq(ops, s)
    ensures forall s :: 19 <= s < |f| ==> f[s] == f0[s]
  {
  }
}
