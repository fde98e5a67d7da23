/** From finished trees to a block that can be sent: everything that is used has a code, and the
    totals kept while building are the bits that will be sent. */
module TreeFacts {
  import opened Bits
  import opened Canonical
  import opened Symbols
  import opened Lz77
  import opened CodeLengths
  import opened Decoder
  import opened MoreInput
  import opened BlockFormat
  import opened BlockHeader
  import opened BlockStream
  import opened MergeTheory
  import opened TreeKinds
  import opened TreeDepths
  import opened BitLengths
  import opened TreeSend
  import opened Tally

  // ---------- zero lengths at the end change no code ----------

  lemma {:induction false} SameFirstPos(a: seq<nat>, b: seq<nat>, n: nat)
    requires n <= 16 && forall i :: 1 <= i < n ==> Count(a, i) == Count(b, i)
    ensures FirstPos(a, n) == FirstPos(b, n)
    decreases n
  {
    hide Count, Width;
    if n > 1 {
      SameFirstPos(a, b, n - 1);
    }
  }

  lemma ZerosAppended(dl: seq<nat>, m: nat, n: nat)
    requires m <= n <= |dl| && forall x :: m <= x < n ==> dl[x] == 0
    requires Complete(dl[..m])
    ensures Complete(dl[..n])
    ensures forall s :: 0 <= s < m && dl[s] != 0 ==> CodeVal(dl[..n], s) == CodeVal(dl[..m], s)
  {
    hide Count, Pow2, FirstPos, Rev;
    var a, b := dl[..m], dl[..n];
    forall i | 1 <= i <= 15 ensures Count(b, i) == Count(a, i) {
      assert b == a + dl[m..n];
      CountAppend(a, dl[m..n], i);
      CountConstant(dl[m..n], 0, i);
    }
    forall i | 0 <= i <= 16 ensures FirstPos(b, i) == FirstPos(a, i) {
      SameFirstPos(a, b, i);
    }
    forall s | 0 <= s < m && dl[s] != 0 ensures CodeVal(b, s) == CodeVal(a, s) {
      assert b[..s] == a[..s] && b[s] == a[s];
    }
  }

  /** The arrays of a built tree as a code over the first n symbols. */
  lemma BuiltTable(fc: seq<nat>, dl: seq<nat>, mc: nat, n: nat)
    requires |fc| == |dl| && mc < n <= |dl| && (forall x :: mc < x < n ==> dl[x] == 0)
    requires Complete(dl[..mc + 1])
    requires forall s :: 0 <= s <= mc && dl[s] != 0 ==> fc[s] == CodeVal(dl[..mc + 1], s)
    ensures CodeTable(fc, dl, dl[..n])
  {
    hide Complete, CodeVal;
    ZerosAppended(dl, mc + 1, n);
  }

  // ---------- what is used has a code ----------

  lemma {:induction false} TokenCounted(ts: seq<Token>, i: nat)
    requires i < |ts|
    ensures LitFreqs(ts)[LitSym(ts[i])] != 0
    ensures ts[i].Match? ==> DistFreqs(ts)[DistCode(ts[i].dist)] != 0
    decreases |ts|
  {
    hide LitSym, DistCode;
    var n := |ts| - 1;
    if i < n {
      TokenCounted(ts[..n], i);
    }
  }

  ghost predicate Covers(ls: seq<nat>, f: seq<nat>)
  {
    |f| <= |ls| && forall x :: 0 <= x < |f| ==> ls[x] <= 15 && (f[x] != 0 ==> ls[x] != 0)
  }

  ghost predicate AllEncodable(ts: seq<Token>)
  {
    forall i :: 0 <= i < |ts| ==> Encodable(ts[i])
  }

  lemma TokensCoded(ls: seq<nat>, ds: seq<nat>, lm: nat, dm: nat, ts: seq<Token>)
    requires AllEncodable(ts) && Covers(ls, LitFreqs(ts)) && Covers(ds, DistFreqs(ts))
    requires lm < |ls| && dm < |ds|
    requires forall x :: lm < x < 286 ==> ls[x] == 0
    requires forall x :: dm < x < 30 ==> ds[x] == 0
    ensures AllCoded(ls[..lm + 1], ds[..dm + 1], ts) && Coded(ls[..lm + 1], 256)
  {
    hide LitFreqs, DistFreqs, LengthCode, DistCode;
    EndCounted(ts);
    forall i | 0 <= i < |ts| ensures TokenCoded(ls[..lm + 1], ds[..dm + 1], ts[i]) {
      TokenCounted(ts, i);
    }
  }

  lemma EndCounted(ts: seq<Token>)
    ensures LitFreqs(ts)[256] != 0
  {
    hide LitFreq;
  }

  lemma OpsCoded(cl: seq<nat>, lens: seq<nat>, ops: seq<Op>)
    requires |cl| == 19 && (forall i :: 0 <= i < |lens| ==> lens[i] <= 15) && Covers(cl, OpFreqs(ops))
    requires ops == Rle(lens)
    ensures AllOpsCoded(cl, ops)
  {
    hide OpFreqs, RleFrom, ValidOp;
    RleValid(lens, 0, -1, 0);
    forall i | 0 <= i < |ops| ensures OpCoded(cl, ops[i]) {
      assert ops[i] in ops;
      OpCounted(ops, i);
    }
  }

  lemma OpCounted(ops: seq<Op>, i: nat)
    requires i < |ops| && ValidOp(ops[i])
    ensures ops[i].sym < 19 && OpFreqs(ops)[ops[i].sym] != 0
  {
    hide OpFreq;
    OpFreqPositive(ops, i);
  }

  lemma CoversSum(cl: seq<nat>, a: seq<Op>, b: seq<Op>)
    requires Covers(cl, OpFreqs(a + b))
    ensures Covers(cl, OpFreqs(a)) && Covers(cl, OpFreqs(b))
  {
    hide OpFreq;
    forall x: nat ensures OpFreq(a + b, x) == OpFreq(a, x) + OpFreq(b, x) {
      OpFreqAppend(a, b, x);
    }
  }

  /** Repeat symbols alone spell out nothing but zeros. */
  lemma {:induction false} OnlyRepeats(got: seq<nat>, ops: seq<Op>)
    requires Applicable(got, ops) && (forall i :: 0 <= i < |got| ==> got[i] == 0)
    requires forall i :: 0 <= i < |ops| ==> ops[i].sym == 0 || ops[i].sym >= 16
    ensures forall i :: 0 <= i < |ExpandOps(got, ops)| ==> ExpandOps(got, ops)[i] == 0
    decreases |ops|
  {
    if ops != [] {
      OnlyRepeats(ApplyOp(got, ops[0]), ops[1..]);
    }
  }

  lemma RepeatsSpellZeros(lens: seq<nat>)
    requires forall i :: 0 <= i < |lens| ==> lens[i] <= 15
    ensures (forall i :: 0 <= i < |Rle(lens)| ==> Rle(lens)[i].sym == 0 || Rle(lens)[i].sym >= 16)
        ==> forall i :: 0 <= i < |lens| ==> lens[i] == 0
  {
    hide Rle, ExpandOps, Applicable;
    var ops := Rle(lens);
    RleRoundTrip([], lens);
    assert [] + lens == lens;
    if forall i :: 0 <= i < |ops| ==> ops[i].sym == 0 || ops[i].sym >= 16 {
      OnlyRepeats([], ops);
    }
  }

  /** Some length between 1 and 15 is sent as itself. */
  lemma SomeLengthSent(lens: seq<nat>, k: nat) returns (s: nat)
    requires (forall i :: 0 <= i < |lens| ==> lens[i] <= 15) && k < |lens| && lens[k] != 0
    ensures 1 <= s <= 15 && OpFreqs(Rle(lens))[s] != 0
  {
    hide OpFreqs, Rle;
    var ops := Rle(lens);
    RepeatsSpellZeros(lens);
    var i :| 0 <= i < |ops| && !(ops[i].sym == 0 || ops[i].sym >= 16);
    s := ops[i].sym;
    OpCountedAt(ops, i);
  }

  lemma OpCountedAt(ops: seq<Op>, i: nat)
    requires i < |ops| && ops[i].sym < 19
    ensures OpFreqs(ops)[ops[i].sym] != 0
  {
    hide OpFreq;
    OpFreqPositive(ops, i);
  }

  /** The symbols 1 to 15 come late in the order, so at least four lengths are sent. */
  lemma LateInOrder(s: nat)
    requires 1 <= s <= 15
    ensures 4 <= BlRank(s) <= 18
  {
  }
}
