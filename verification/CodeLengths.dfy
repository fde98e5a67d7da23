/** Run-length coding of code lengths (trees.c: scan_tree, send_tree; section 3.2.7 of RFC 1951). */
module CodeLengths {
  import opened Bits

  /** A symbol of the code length alphabet with the value of its extra bits. */
  datatype Op = Op(sym: nat, extra: nat)

  function OpExtra(sym: nat): (n: nat)
  {
    if sym == 16 then 2 else if sym == 17 then 3 else if sym == 18 then 7 else 0
  }

  /** The symbol exists and its extra value fits its field. */
  ghost predicate ValidOp(op: Op)
  {
    op.sym < 19 && op.extra < Pow2(OpExtra(op.sym))
  }

  // ---------- meaning ----------

  /** How many lengths an op stands for. */
  function OpTimes(op: Op): (n: nat)
  {
    if op.sym < 16 then 1 else (if op.sym == 18 then 11 else 3) + op.extra
  }

  function ApplyOp(got: seq<nat>, op: Op): (r: seq<nat>)
  {
    if op.sym < 16 then got + [op.sym]
    else if op.sym == 16 then
      if got == [] then got else got + seq(OpTimes(op), _ => got[|got| - 1])
    else got + seq(OpTimes(op), _ => 0)
  }

  function ExpandOps(got: seq<nat>, ops: seq<Op>): (r: seq<nat>)
    decreases |ops|
  {
    if ops == [] then got else ExpandOps(ApplyOp(got, ops[0]), ops[1..])
  }

  lemma {:induction false} ExpandOpsAppend(got: seq<nat>, a: seq<Op>, b: seq<Op>)
    ensures ExpandOps(got, a + b) == ExpandOps(ExpandOps(got, a), b)
    decreases |a|
  {
    if a == [] {
      assert a + b == b;
    } else {
      assert (a + b)[1..] == a[1..] + b;
      ExpandOpsAppend(ApplyOp(got, a[0]), a[1..], b);
    }
  }

  /** No repeat-previous op comes before there is a previous length. */
  ghost predicate Applicable(got: seq<nat>, ops: seq<Op>)
    decreases |ops|
  {
    ops == [] || ((ops[0].sym == 16 ==> got != []) && Applicable(ApplyOp(got, ops[0]), ops[1..]))
  }

  lemma {:induction false} ApplicableAppend(got: seq<nat>, a: seq<Op>, b: seq<Op>)
    requires Applicable(got, a) && Applicable(ExpandOps(got, a), b)
    ensures Applicable(got, a + b)
    decreases |a|
  {
    if a == [] {
      assert a + b == b;
    } else {
      assert (a + b)[1..] == a[1..] + b;
      ApplicableAppend(ApplyOp(got, a[0]), a[1..], b);
    }
  }

  /** Ops only ever add lengths. */
  lemma {:induction false} ExpandOpsGrows(got: seq<nat>, ops: seq<Op>)
    ensures got <= ExpandOps(got, ops)
    decreases |ops|
  {
    if ops != [] {
      ExpandOpsGrows(ApplyOp(got, ops[0]), ops[1..]);
    }
  }

  // ---------- what the encoder chooses ----------

  const GUARD: nat := 65535

  /** The run under way ends at max_count, and is spelled out below min_count. */
  function MaxCount(prev: int, cur: nat): (n: nat)
    ensures n >= 6
  {
    if cur == 0 then 138 else if cur == prev then 6 else 7
  }

  function MinCount(prev: int, cur: nat): (n: nat)
  {
    if cur == 0 then 3 else if cur == prev then 3 else 4
  }

  /** The ops for a finished run of count equal lengths. */
  function RunOps(prev: int, cur: nat, count: nat): (ops: seq<Op>)
    requires 1 <= count <= MaxCount(prev, cur)
  {
    if count < MinCount(prev, cur) then seq(count, _ => Op(cur, 0))
    else if cur != 0 then
      if cur != prev then [Op(cur, 0), Op(16, count - 4)] else [Op(16, count - 3)]
    else if count <= 10 then [Op(17, count - 3)]
    else [Op(18, count - 11)]
  }

  function NextLen(lens: seq<nat>, n: nat): (l: nat)
    requires n < |lens|
  {
    if n + 1 < |lens| then lens[n + 1] else GUARD
  }

  /** The scan of send_tree from index n on, with count lengths of the current run pending. */
  function RleFrom(lens: seq<nat>, n: nat, prev: int, count: nat): (ops: seq<Op>)
    requires n <= |lens|
    requires n < |lens| ==> count < MaxCount(prev, lens[n])
    decreases |lens| - n
  {
    if n == |lens| then []
    else
      var cur, next := lens[n], NextLen(lens, n);
      if count + 1 < MaxCount(prev, cur) && cur == next && n + 1 < |lens| then
        RleFrom(lens, n + 1, prev, count + 1)
      else
        RunOps(prev, cur, count + 1) + RleFrom(lens, n + 1, cur, 0)
  }

  /** The ops send_tree sends for a vector of lengths. */
  function Rle(lens: seq<nat>): (ops: seq<Op>)
  {
    RleFrom(lens, 0, -1, 0)
  }

  // ---------- round trip ----------

  lemma RunExpands(got: seq<nat>, prev: int, cur: nat, count: nat)
    requires 1 <= count <= MaxCount(prev, cur) && cur <= 15
    requires prev == -1 || (got != [] && got[|got| - 1] == prev)
    ensures ExpandOps(got, RunOps(prev, cur, count)) == got + seq(count, _ => cur)
    ensures Applicable(got, RunOps(prev, cur, count))
  {
    if count < MinCount(prev, cur) {
      SpelledExpands(got, cur, count);
    } else if cur != 0 && cur != prev {
      var one := got + [cur];
      var ops := [Op(cur, 0), Op(16, count - 4)];
      assert ops[1..] == [Op(16, count - 4)];
      assert ApplyOp(got, ops[0]) == one;
      SingleOp(one, Op(16, count - 4));
      assert Applicable(one, ops[1..]);
      assert one + seq(count - 1, _ => cur) == got + seq(count, _ => cur);
    } else {
      SingleOp(got, RunOps(prev, cur, count)[0]);
    }
  }

  lemma SingleOp(got: seq<nat>, op: Op)
    ensures ExpandOps(got, [op]) == ApplyOp(got, op)
    ensures Applicable(got, [op]) <==> (op.sym == 16 ==> got != [])
  {
    assert [op][1..] == [];
  }

  lemma {:induction false} SpelledExpands(got: seq<nat>, cur: nat, count: nat)
    requires cur <= 15
    ensures ExpandOps(got, seq(count, _ => Op(cur, 0))) == got + seq(count, _ => cur)
    ensures Applicable(got, seq(count, _ => Op(cur, 0)))
    decreases count
  {
    if count > 0 {
      var ops := seq(count, _ => Op(cur, 0));
      assert ops[1..] == seq(count - 1, _ => Op(cur, 0));
      SpelledExpands(got + [cur], cur, count - 1);
      assert got + [cur] + seq(count - 1, _ => cur) == got + seq(count, _ => cur);
    } else {
      assert got + seq(0, _ => cur) == got;
    }
  }

  /** The lengths from n - count on are still to be produced, the pending run is uniform, and the
      last length produced is prev. */
  ghost predicate Scanning(lens: seq<nat>, n: nat, prev: int, count: nat)
  {
    count <= n <= |lens|
    && (n == |lens| ==> count == 0)
    && (n < |lens| ==>
          (count < MaxCount(prev, lens[n]) && forall i :: n - count <= i < n ==> lens[i] == lens[n]))
    && (prev == -1 || (n - count > 0 && lens[n - count - 1] == prev))
  }

  lemma {:induction false} RleExpands(pre: seq<nat>, lens: seq<nat>, n: nat, prev: int, count: nat)
    requires Scanning(lens, n, prev, count)
    requires forall i :: 0 <= i < |lens| ==> lens[i] <= 15
    ensures ExpandOps(pre + lens[..n - count], RleFrom(lens, n, prev, count)) == pre + lens
    ensures Applicable(pre + lens[..n - count], RleFrom(lens, n, prev, count))
    decreases |lens| - n
  {
    hide MaxCount, MinCount, RunOps, ApplyOp;
    if n == |lens| {
      assert lens[..n - count] == lens;
    } else {
      var cur, next := lens[n], NextLen(lens, n);
      if count + 1 < MaxCount(prev, cur) && cur == next && n + 1 < |lens| {
        RleExpands(pre, lens, n + 1, prev, count + 1);
      } else {
        var got := pre + lens[..n - count];
        RunExpands(got, prev, cur, count + 1);
        assert got + seq(count + 1, _ => cur) == pre + lens[..n + 1];
        ExpandOpsAppend(got, RunOps(prev, cur, count + 1), RleFrom(lens, n + 1, cur, 0));
        RleExpands(pre, lens, n + 1, cur, 0);
        ApplicableAppend(got, RunOps(prev, cur, count + 1), RleFrom(lens, n + 1, cur, 0));
      }
    }
  }

  /** Expanding what the encoder sends gives the lengths back, whatever was read before. */
  lemma RleRoundTrip(pre: seq<nat>, lens: seq<nat>)
    requires forall i :: 0 <= i < |lens| ==> lens[i] <= 15
    ensures ExpandOps(pre, Rle(lens)) == pre + lens
    ensures Applicable(pre, Rle(lens))
  {
    RleExpands(pre, lens, 0, -1, 0);
    assert pre + lens[..0] == pre;
  }

  // ---------- the ops are well formed ----------

  lemma RunOpsValid(prev: int, cur: nat, count: nat)
    requires 1 <= count <= MaxCount(prev, cur) && cur <= 15
    ensures forall op :: op in RunOps(prev, cur, count) ==> ValidOp(op)
  {
    Pow2Values();
    hide Pow2;
  }

  /** Every symbol exists and every repeat count fits its 2, 3 or 7 bit field. */
  lemma {:induction false} RleValid(lens: seq<nat>, n: nat, prev: int, count: nat)
    requires n <= |lens| && (n < |lens| ==> count < MaxCount(prev, lens[n]))
    requires forall i :: 0 <= i < |lens| ==> lens[i] <= 15
    ensures forall op :: op in RleFrom(lens, n, prev, count) ==> ValidOp(op)
    decreases |lens| - n
  {
    hide MaxCount, RunOps, ValidOp;
    if n < |lens| {
      var cur, next := lens[n], NextLen(lens, n);
      if count + 1 < MaxCount(prev, cur) && cur == next && n + 1 < |lens| {
        RleValid(lens, n + 1, prev, count + 1);
      } else {
        RunOpsValid(prev, cur, count + 1);
        RleValid(lens, n + 1, cur, 0);
      }
    }
  }

  // ---------- frequencies ----------

  function OpFreq(ops: seq<Op>, s: nat): (n: nat)
  {
    if ops == [] then 0 else (if ops[0].sym == s then 1 else 0) + OpFreq(ops[1..], s)
  }

  lemma {:induction false} OpFreqAppend(a: seq<Op>, b: seq<Op>, s: nat)
    ensures OpFreq(a + b, s) == OpFreq(a, s) + OpFreq(b, s)
    decreases |a|
  {
    if a == [] {
      assert a + b == b;
    } else {
      assert (a + b)[1..] == a[1..] + b;
      OpFreqAppend(a[1..], b, s);
    }
  }

  lemma {:induction false} OpFreqPositive(ops: seq<Op>, i: nat)
    requires i < |ops|
    ensures OpFreq(ops, ops[i].sym) >= 1
  {
    if i > 0 {
      OpFreqPositive(ops[1..], i - 1);
    }
  }
}
