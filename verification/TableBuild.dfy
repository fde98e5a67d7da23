/** What inflate_table keeps while it enters one code after the other, on snapshots of the table
    (inftrees.c). */
module TableBuild {
  import opened Bits
  import opened Canonical
  import opened Decoder
  import opened MoreInput
  import opened SortedCodes
  import opened DecodeTable
  import opened TableFill
  import opened TableSize

  /** What is fixed while one table is built. */
  datatype Job = Job(kind: CodeKind, lens: seq<nat>, work: seq<nat>, start: nat, root: nat)

  /** The table being filled: its offset, its index bits, the bits dropped, the root index that
      leads to it (-1 for the root table itself). */
  datatype Sub = Sub(next: nat, curr: nat, drop: nat, low: int)

  ghost predicate Workable(j: Job)
  {
    Fillable(j.kind, j.lens) && IsSorted(j.work, j.lens) && 1 <= j.root <= 15
  }

  /** The slot of a point among the 2^root equal parts of the line. */
  function Slot(p: nat, root: nat): (k: nat)
    requires root <= 15
  {
    Shr(p, 15 - root)
  }

  function FirstBits(lens: seq<nat>, root: nat, s: nat): (r: nat)
    requires s < |lens| && lens[s] <= 15
  {
    Low(CodeVal(lens, s), root)
  }

  lemma PosFits(lens: seq<nat>, s: nat)
    requires Coded(lens, s) && Kraft(lens) <= Pow2(15)
    ensures Pos(lens, s) < Pow2(15)
  {
    hide Pow2, Pos, Kraft;
    PosBound(lens, s);
    WidthPositive(lens[s]);
  }

  /** The first bits of two codes agree exactly when the codes lie in the same slot. */
  lemma SlotIsFirstBits(lens: seq<nat>, root: nat, s: nat, t: nat)
    requires Coded(lens, s) && Coded(lens, t) && Kraft(lens) <= Pow2(15) && root <= 15
    ensures FirstBits(lens, root, s) == FirstBits(lens, root, t) <==>
      Slot(Pos(lens, s), root) == Slot(Pos(lens, t), root)
  {
    hide Pow2, Pos, Kraft, Shr, Low, Rev;
    SlotOf(lens, root, s);
    SlotOf(lens, root, t);
  }

  lemma SlotOf(lens: seq<nat>, root: nat, s: nat)
    requires Coded(lens, s) && Kraft(lens) <= Pow2(15) && root <= 15
    ensures Slot(Pos(lens, s), root) == Rev(root, FirstBits(lens, root, s))
    ensures Rev(root, Slot(Pos(lens, s), root)) == FirstBits(lens, root, s)
  {
    hide Pow2, Pos, Kraft, Shr, Low, Rev;
    var p := Pos(lens, s);
    PosFits(lens, s);
    RevRev(15, p);
    LowSmall(p, 15);
    var c := Rev(15, p);
    assert root + (15 - root) == 15;
    RevTop(root, 15 - root, c);
    RevLow(root, c, root);
    RevRev(root, c);
  }

  /** Points of the same slot lie before its end. */
  lemma SlotEnd(p: nat, q: nat, root: nat, k: nat)
    requires root <= 15 && p == Width(root) * k && q >= p
    ensures Slot(q, root) == Slot(p, root) <==> q < p + Width(root)
  {
    hide Pow2, Shr, Low;
    var n := 15 - root;
    PowNonzero(n);
    Join(0, n, k);
    Split(q, n);
    LowBound(q, n);
    BlockIff(Pow2(n), Shr(q, n), Low(q, n), k);
  }

  lemma PowNonzero(n: nat)
    ensures 0 < Pow2(n)
  {
  }

  /** Ranks order positions. */
  lemma {:induction false} PosMono(lens: seq<nat>, work: seq<nat>, a: nat, b: nat)
    requires IsSorted(work, lens) && a <= b < Codes(lens)
    ensures Coded(lens, work[a]) && Coded(lens, work[b])
    ensures lens[work[a]] <= lens[work[b]] && Pos(lens, work[a]) <= Pos(lens, work[b])
    ensures a < b ==> Pos(lens, work[a]) + Width(lens[work[a]]) <= Pos(lens, work[b])
    decreases b - a
  {
    hide Pow2, Pos, IsSorted, Rank, Codes, Width;
    SortedSteps(work, lens, a);
    SortedSteps(work, lens, b);
    if a < b {
      PosMono(lens, work, a, b - 1);
      NextPos(lens, work[b - 1], work[b]);
    }
  }

  lemma PlacedInner(t: seq<Code>, start: nat, root: nat, used: nat, kind: CodeKind, lens: seq<nat>, s: nat)
    requires SymbolsFit(kind, lens) && Coded(lens, s) && Placed(t, start, root, used, kind, lens, s)
    ensures start + used <= |t| && Pow2(root) <= used && FirstBits(lens, root, s) < Pow2(root)
    ensures lens[s] <= root ==> PlacedAt(t, start, root, 0, kind, lens, s)
    ensures lens[s] > root ==>
      (var e := t[start + FirstBits(lens, root, s)];
       IsLink(e) && e.bits == root && lens[s] <= root + e.op <= 15 && Pow2(root) <= e.val && e.val + Pow2(e.op) <= used
       && PlacedAt(t, start + e.val, e.op, root, kind, lens, s))
  {
    hide CodeVal, Pow2, Low, PlacedAt;
    LowBound(CodeVal(lens, s), root);
  }

  lemma PlacedOuter(t: seq<Code>, start: nat, root: nat, used: nat, kind: CodeKind, lens: seq<nat>, s: nat)
    requires SymbolsFit(kind, lens) && Coded(lens, s) && FirstBits(lens, root, s) < Pow2(root) <= used
    requires start + used <= |t|
    requires lens[s] <= root ==> PlacedAt(t, start, root, 0, kind, lens, s)
    requires lens[s] > root ==>
      (var e := t[start + FirstBits(lens, root, s)];
       IsLink(e) && e.bits == root && lens[s] <= root + e.op <= 15 && Pow2(root) <= e.val && e.val + Pow2(e.op) <= used
       && PlacedAt(t, start + e.val, e.op, root, kind, lens, s))
    ensures Placed(t, start, root, used, kind, lens, s)
  {
    hide CodeVal, Pow2, Low, PlacedAt;
    LowBound(CodeVal(lens, s), root);
  }

  // ---------- the invariant ----------

  /** The symbol of rank k is in place. */
  ghost predicate InPlace(j: Job, t: seq<Code>, k: nat, used: nat)
    requires Workable(j) && k < Codes(j.lens)
  {
    Placed(t, j.start, j.root, used, j.kind, j.lens, j.work[k])
  }

  /** The first i symbols in order are in place. */
  ghost predicate Entered(j: Job, t: seq<Code>, i: nat, used: nat)
    requires Workable(j)
  {
    i <= Codes(j.lens) && j.start + used <= |t| && forall k :: 0 <= k < i ==> InPlace(j, t, k, used)
  }

  /** The root table is being filled: no code so far is longer than root. */
  ghost predicate AtRoot(j: Job, i: nat, s: Sub)
    requires Workable(j)
  {
    i <= Codes(j.lens) && s == Sub(0, j.root, 0, -1) && forall k :: 0 <= k < i ==> j.lens[j.work[k]] <= j.root
  }

  /** Ranks from..done-1 are the codes of one slot: they share their first bits, and the last and
      longest of them has all curr bits of the sub-table. */
  ghost predicate Group(j: Job, from: nat, done: nat, low: nat, curr: nat)
    requires Workable(j)
  {
    from < done <= Codes(j.lens) && Kraft(j.lens) == Pow2(15) && j.root + curr <= 15
    && (forall k :: from <= k < done ==>
          FirstBits(j.lens, j.root, j.work[k]) == low && j.root < j.lens[j.work[k]] <= j.root + curr)
    && (forall k :: 0 <= k < Codes(j.lens) && !(from <= k < done) ==> FirstBits(j.lens, j.root, j.work[k]) != low)
    && j.lens[j.work[done - 1]] == j.root + curr
    && Pos(j.lens, j.work[done - 1]) + Width(j.root + curr)
      == Width(j.root) * (Slot(Pos(j.lens, j.work[from]), j.root) + 1)
  }

  /** A sub-table is being filled, behind all others. */
  ghost predicate AtSub(j: Job, t: seq<Code>, i: nat, s: Sub, from: nat, done: nat)
    requires Workable(j)
  {
    s.drop == j.root && 1 <= s.curr && Pow2(j.root) <= s.next && 0 <= s.low < Pow2(j.root)
    && j.start + s.next + Pow2(s.curr) <= |t| && t[j.start + s.low] == Code(s.curr, j.root, s.next)
    && from <= i <= done && Group(j, from, done, s.low, s.curr)
    && forall k :: 0 <= k < from ==> LinkBefore(j, t, k, s.next)
  }

  /** The sub-table of rank k, if it needs one, ends before `next`. */
  ghost predicate LinkBefore(j: Job, t: seq<Code>, k: nat, next: nat)
    requires Workable(j) && k < Codes(j.lens)
  {
    j.lens[j.work[k]] > j.root ==>
      (var p := j.start + FirstBits(j.lens, j.root, j.work[k]);
       p < |t| && t[p].val + Pow2(t[p].op) <= next)
  }

  lemma RankCoded(j: Job, k: nat)
    requires Workable(j) && k < Codes(j.lens)
    ensures k < |j.work| && Coded(j.lens, j.work[k]) && Rank(j.lens, j.work[k]) == k
  {
    hide Rank, Codes, Fillable;
  }

  lemma FillableFits(kind: CodeKind, lens: seq<nat>)
    requires Fillable(kind, lens)
    ensures SymbolsFit(kind, lens) && Kraft(lens) <= Pow2(15)
  {
  }

  lemma FilledLen(t: seq<Code>, u: seq<Code>, base: nat, n: nat, d: nat, h: nat, here: Code)
    requires Filled(t, u, base, n, d, h, here)
    ensures |u| == |t| && base + Pow2(n) <= |t|
    ensures forall p :: 0 <= p < |t| && !(base <= p < base + Pow2(n)) ==> u[p] == t[p]
  {
    hide Pow2, Ends;
  }

  lemma FirstBitsBound(lens: seq<nat>, root: nat, s: nat)
    requires s < |lens| && lens[s] <= 15
    ensures FirstBits(lens, root, s) == Low(CodeVal(lens, s), root) < Pow2(root)
  {
    LowBound(CodeVal(lens, s), root);
  }

  lemma LowNone(v: nat)
    ensures Low(v, 0) == 0 && Pow2(0) == 1
  {
  }

  /** u is t with the entry of rank i filled into the table s. */
  ghost predicate FilledIn(j: Job, t: seq<Code>, u: seq<Code>, i: nat, s: Sub)
    requires Workable(j) && i < Codes(j.lens)
  {
    var w := j.work[i];
    s.drop <= j.lens[w] <= s.drop + s.curr
    && Filled(t, u, j.start + s.next, s.curr, j.lens[w] - s.drop, Shr(CodeVal(j.lens, w), s.drop),
              Entry(j.kind, w, j.lens[w] - s.drop))
  }

  lemma FilledInFrame(j: Job, t: seq<Code>, u: seq<Code>, i: nat, s: Sub)
    requires Workable(j) && i < Codes(j.lens) && FilledIn(j, t, u, i, s)
    ensures |u| == |t| && j.start + s.next + Pow2(s.curr) <= |t|
    ensures forall p :: 0 <= p < |t| && !(j.start + s.next <= p < j.start + s.next + Pow2(s.curr)) ==> u[p] == t[p]
  {
    hide Pow2, Filled, Entry, Shr, CodeVal;
    var w := j.work[i];
    FilledLen(t, u, j.start + s.next, s.curr, j.lens[w] - s.drop, Shr(CodeVal(j.lens, w), s.drop),
              Entry(j.kind, w, j.lens[w] - s.drop));
  }

  lemma OtherRank(j: Job, i: nat, k: nat)
    requires Workable(j) && k < i < Codes(j.lens)
    ensures i < |j.work| && Coded(j.lens, j.work[i]) && Coded(j.lens, j.work[k]) && j.work[i] != j.work[k]
  {
    hide Rank, Fillable;
  }

  /** The root entry of rank i leads to the sub-table s. */
  ghost predicate Linked(j: Job, t: seq<Code>, i: nat, s: Sub)
    requires Workable(j) && i < Codes(j.lens)
  {
    s.drop == j.root < j.lens[j.work[i]] && 1 <= s.curr <= 15 - j.root && Pow2(j.root) <= s.next
    && s.low == FirstBits(j.lens, j.root, j.work[i])
    && j.start + s.low < |t| && t[j.start + s.low] == Code(s.curr, j.root, s.next)
  }

  /** The code just filled in is in place. */
  lemma FilledNow(j: Job, t: seq<Code>, u: seq<Code>, i: nat, s: Sub, used: nat)
    requires Workable(j) && i < Codes(j.lens) && FilledIn(j, t, u, i, s)
    requires Pow2(j.root) <= used && j.start + used <= |t| && s.next + Pow2(s.curr) <= used
    requires (s == Sub(0, j.root, 0, -1) && j.lens[j.work[i]] <= j.root) || Linked(j, t, i, s)
    ensures InPlace(j, u, i, used)
  {
    hide Rank, Codes, Fillable, IsSorted, Placed, Filled, Pow2, Shr, CodeVal, Entry, Low, PlacedAt, FirstBits;
    RankCoded(j, i);
    var w := j.work[i];
    FillableFits(j.kind, j.lens);
    FilledInFrame(j, t, u, i, s);
    FirstBitsBound(j.lens, j.root, w);
    FillPlaces(t, u, j.start + s.next, s.curr, s.drop, j.kind, j.lens, w);
    PlacedOuter(u, j.start, j.root, used, j.kind, j.lens, w);
  }

  /** Filling the root table leaves the earlier codes in place. */
  lemma KeptInRoot(j: Job, t: seq<Code>, u: seq<Code>, i: nat, s: Sub, k: nat)
    requires Workable(j) && k < i < Codes(j.lens) && s == Sub(0, j.root, 0, -1) && FilledIn(j, t, u, i, s)
    requires InPlace(j, t, k, Pow2(j.root)) && j.lens[j.work[k]] <= j.root
    ensures InPlace(j, u, k, Pow2(j.root))
  {
    hide Rank, Codes, Fillable, IsSorted, Placed, Filled, Pow2, Shr, CodeVal, Entry, Low, PlacedAt, FirstBits;
    OtherRank(j, i, k);
    var w, r := j.work[i], j.work[k];
    FillableFits(j.kind, j.lens);
    FilledInFrame(j, t, u, i, s);
    PlacedInner(t, j.start, j.root, Pow2(j.root), j.kind, j.lens, r);
    LowNone(CodeVal(j.lens, w));
    LowNone(CodeVal(j.lens, r));
    FillKeeps(t, u, j.start, j.root, 0, 0, j.kind, j.lens, w, r, Entry(j.kind, w, j.lens[w] - 0));
    PlacedOuter(u, j.start, j.root, Pow2(j.root), j.kind, j.lens, r);
  }

  /** Entering a code into the root table. */
  lemma EnterRoot(j: Job, t: seq<Code>, u: seq<Code>, i: nat, s: Sub)
    requires Workable(j) && i < Codes(j.lens) && AtRoot(j, i, s) && Entered(j, t, i, Pow2(j.root))
    requires j.lens[j.work[i]] <= j.root && FilledIn(j, t, u, i, s)
    ensures AtRoot(j, i + 1, s) && Entered(j, u, i + 1, Pow2(j.root))
  {
    hide Codes, Fillable, IsSorted, Pow2, InPlace, FilledIn;
    FilledInFrame(j, t, u, i, s);
    RankCoded(j, i);
    FilledNow(j, t, u, i, s, Pow2(j.root));
    forall k | 0 <= k < i ensures InPlace(j, u, k, Pow2(j.root)) {
      RankCoded(j, k);
      KeptInRoot(j, t, u, i, s, k);
    }
  }

  /** Filling a sub-table leaves the earlier codes in place. */
  lemma KeptInSub(j: Job, t: seq<Code>, u: seq<Code>, i: nat, s: Sub, k: nat, used: nat)
    requires Workable(j) && k < i < Codes(j.lens) && FilledIn(j, t, u, i, s) && InPlace(j, t, k, used)
    requires Linked(j, t, i, s)
    requires LinkBefore(j, t, k, s.next) || FirstBits(j.lens, j.root, j.work[k]) == s.low
    ensures InPlace(j, u, k, used)
  {
    hide Rank, Codes, Fillable, IsSorted, Placed, Filled, Pow2, Shr, CodeVal, Entry, Low, PlacedAt, FirstBits;
    OtherRank(j, i, k);
    var w, r := j.work[i], j.work[k];
    FillableFits(j.kind, j.lens);
    FilledInFrame(j, t, u, i, s);
    PlacedInner(t, j.start, j.root, used, j.kind, j.lens, r);
    FirstBitsBound(j.lens, j.root, r);
    FirstBitsBound(j.lens, j.root, w);
    if j.lens[r] <= j.root {
      PlacedAtKept(t, u, j.start, j.root, 0, j.kind, j.lens, r);
    } else if FirstBits(j.lens, j.root, r) == s.low {
      FillKeeps(t, u, j.start + s.next, s.curr, j.root, s.low, j.kind, j.lens, w, r,
                Entry(j.kind, w, j.lens[w] - j.root));
    } else {
      var e := t[j.start + FirstBits(j.lens, j.root, r)];
      PlacedAtKept(t, u, j.start + e.val, e.op, j.root, j.kind, j.lens, r);
    }
    PlacedOuter(u, j.start, j.root, used, j.kind, j.lens, r);
  }

  /** Entering a code into the current sub-table. */
  lemma EnterSub(j: Job, t: seq<Code>, u: seq<Code>, i: nat, s: Sub, from: nat, done: nat)
    requires Workable(j) && i < done && AtSub(j, t, i, s, from, done) && Entered(j, t, i, s.next + Pow2(s.curr))
    requires i < Codes(j.lens) && FilledIn(j, t, u, i, s)
    ensures AtSub(j, u, i + 1, s, from, done) && Entered(j, u, i + 1, s.next + Pow2(s.curr))
  {
    hide Codes, Fillable, IsSorted, Pow2, InPlace, FilledIn, FirstBits, Kraft, LinkBefore;
    var used := s.next + Pow2(s.curr);
    FilledInFrame(j, t, u, i, s);
    RankCoded(j, i);
    FilledNow(j, t, u, i, s, used);
    forall k | 0 <= k < i ensures InPlace(j, u, k, used) {
      RankCoded(j, k);
      KeptInSub(j, t, u, i, s, k, used);
    }
    forall k | 0 <= k < from ensures LinkBefore(j, u, k, s.next) {
      LinkKept(j, t, u, k, s.next);
    }
  }

  lemma LinkKept(j: Job, t: seq<Code>, u: seq<Code>, k: nat, next: nat)
    requires Workable(j) && k < Codes(j.lens) && LinkBefore(j, t, k, next) && |u| == |t|
    requires forall p :: j.start <= p < j.start + Pow2(j.root) && p < |t| ==> u[p] == t[p]
    ensures LinkBefore(j, u, k, next)
  {
    hide Codes, Fillable, IsSorted, Pow2, FirstBits;
    RankCoded(j, k);
    FirstBitsBound(j.lens, j.root, j.work[k]);
  }

  // ---------- opening a sub-table ----------

  lemma SlotBefore(p: nat, q: nat, root: nat, k: nat)
    requires root <= 15 && p == Width(root) * k && q < p
    ensures Slot(p, root) == k && Slot(q, root) < k
  {
    hide Pow2, Shr, Low;
    var n := 15 - root;
    PowNonzero(n);
    Join(0, n, k);
    Split(q, n);
    if Shr(q, n) >= k {
      MulMono(Pow2(n), k, Shr(q, n));
    }
  }

  lemma SlotAligned(p: nat, root: nat, k: nat)
    requires root <= 15 && p == Width(root) * k
    ensures Slot(p, root) == k
  {
    hide Pow2, Shr, Low;
    PowNonzero(15 - root);
    Join(0, 15 - root, k);
  }

  /** The codes that fill one slot. */
  lemma GroupIs(j: Job, i: nat, curr: nat, end: nat, done: nat, k: nat)
    requires Workable(j) && i < Codes(j.lens) && Kraft(j.lens) == Pow2(15) && Coded(j.lens, j.work[i])
    requires Sized(j.lens, j.work, i, j.root, curr, end, done)
    requires Pos(j.lens, j.work[i]) == Width(j.root) * k && end == Pos(j.lens, j.work[i]) + Width(j.root)
    ensures Group(j, i, done, FirstBits(j.lens, j.root, j.work[i]), curr)
  {
    hide Pow2, Pos, Kraft, IsSorted, Rank, Codes, Slot, FirstBits, Width, Slack, Sized;
    FillableFits(j.kind, j.lens);
    SizedLast(j.lens, j.work, i, j.root, curr, end, done);
    RankCoded(j, i);
    Distribute(Width(j.root), k, 1);
    SlotAligned(Pos(j.lens, j.work[i]), j.root, k);
    forall r | 0 <= r < Codes(j.lens)
      ensures r < |j.work| && Coded(j.lens, j.work[r])
      ensures i <= r < done <==> FirstBits(j.lens, j.root, j.work[r]) == FirstBits(j.lens, j.root, j.work[i])
      ensures i <= r < done ==> j.lens[j.work[i]] <= j.lens[j.work[r]] <= j.root + curr
    {
      RankCoded(j, r);
      InSlot(j.lens, j.work, j.root, i, j.root + curr, end, done, k, r);
    }
  }

  lemma SizedLast(lens: seq<nat>, work: seq<nat>, i: nat, root: nat, curr: nat, end: nat, done: nat)
    requires Sized(lens, work, i, root, curr, end, done)
    ensures root + curr <= 15 && i < done <= Codes(lens) && IsSorted(work, lens)
    ensures root < lens[work[i]] && Coded(lens, work[done - 1]) && lens[work[done - 1]] == root + curr
    ensures Pos(lens, work[done - 1]) + Width(root + curr) == end
  {
    hide Slack, Pos, Codes, Rank;
  }

  /** Which ranks lie in the slot that starts with rank i and ends after rank done - 1. */
  lemma InSlot(lens: seq<nat>, work: seq<nat>, root: nat, i: nat, last: nat, end: nat, done: nat, k: nat, r: nat)
    requires IsSorted(work, lens) && Kraft(lens) <= Pow2(15) && i < done <= Codes(lens) && r < Codes(lens) && root <= 15
    requires Coded(lens, work[done - 1]) && lens[work[done - 1]] == last <= 15
    requires Pos(lens, work[done - 1]) + Width(last) == end
    requires Coded(lens, work[i]) && Pos(lens, work[i]) == Width(root) * k && end == Pos(lens, work[i]) + Width(root)
    requires Coded(lens, work[r])
    ensures i <= r < done <==> FirstBits(lens, root, work[r]) == FirstBits(lens, root, work[i])
    ensures i <= r < done ==> lens[work[i]] <= lens[work[r]] <= last
  {
    hide Pow2, Pos, Kraft, IsSorted, Rank, Codes, Slot, FirstBits, Width;
    SortedSteps(work, lens, i);
    SortedSteps(work, lens, r);
    var p := Pos(lens, work[i]);
    SlotIsFirstBits(lens, root, work[r], work[i]);
    WidthPositive(lens[work[r]]);
    if r < i {
      PosMono(lens, work, r, i);
      SlotBefore(p, Pos(lens, work[r]), root, k);
    } else {
      PosMono(lens, work, i, r);
      SlotEnd(p, Pos(lens, work[r]), root, k);
      WidthPositive(last);
      if r < done {
        PosMono(lens, work, r, done - 1);
      } else {
        PosMono(lens, work, done - 1, r);
      }
    }
  }

  /** A new root entry where no earlier code ends leaves the earlier codes in place. */
  lemma KeptByLink(j: Job, t: seq<Code>, i: nat, k: nat, used: nat, used': nat, e: Code)
    requires Workable(j) && k < i < Codes(j.lens) && InPlace(j, t, k, used) && used <= used' && j.start + used' <= |t|
    requires j.lens[j.work[i]] > j.root && FirstBits(j.lens, j.root, j.work[k]) != FirstBits(j.lens, j.root, j.work[i])
    ensures j.start + FirstBits(j.lens, j.root, j.work[i]) < |t|
    ensures var u := t[j.start + FirstBits(j.lens, j.root, j.work[i]) := e];
            InPlace(j, u, k, used') && LinkBefore(j, u, k, used)
  {
    hide Rank, Codes, Fillable, IsSorted, Placed, Filled, Pow2, Shr, CodeVal, Entry, Low, PlacedAt, FirstBits;
    OtherRank(j, i, k);
    var w, r := j.work[i], j.work[k];
    FillableFits(j.kind, j.lens);
    PlacedInner(t, j.start, j.root, used, j.kind, j.lens, r);
    FirstBitsBound(j.lens, j.root, r);
    FirstBitsBound(j.lens, j.root, w);
    var low := FirstBits(j.lens, j.root, w);
    var u := t[j.start + low := e];
    if j.lens[r] <= j.root {
      LowLow(CodeVal(j.lens, w), j.lens[r], j.root);
      WholeCode(j.lens, w);
      NoClash(j.lens, w, r, CodeVal(j.lens, w));
      PlacedAtBut(t, j.start, j.root, j.start + low, e, j.kind, j.lens, r);
    } else {
      var f := t[j.start + FirstBits(j.lens, j.root, r)];
      PlacedAtKept(t, u, j.start + f.val, f.op, j.root, j.kind, j.lens, r);
    }
    PlacedOuter(u, j.start, j.root, used', j.kind, j.lens, r);
  }

  lemma WholeCode(lens: seq<nat>, s: nat)
    requires Coded(lens, s) && Kraft(lens) <= Pow2(15)
    ensures Low(CodeVal(lens, s), lens[s]) == CodeVal(lens, s)
  {
    hide CodeVal, Kraft, Pow2, Low, Rev;
    CodeValIsReversedCode(lens, s);
    LowSmall(CodeVal(lens, s), lens[s]);
  }

  /** Start a sub-table for the slot of rank i. */
  lemma OpenSub(j: Job, t: seq<Code>, i: nat, used: nat, curr: nat, end: nat, done: nat, k: nat)
    requires Workable(j) && i < Codes(j.lens) && Kraft(j.lens) == Pow2(15) && Entered(j, t, i, used)
    requires Pow2(j.root) <= used && j.start + used + Pow2(curr) <= |t|
    requires Coded(j.lens, j.work[i]) && j.lens[j.work[i]] > j.root
    requires Sized(j.lens, j.work, i, j.root, curr, end, done)
    requires Pos(j.lens, j.work[i]) == Width(j.root) * k && end == Pos(j.lens, j.work[i]) + Width(j.root)
    ensures j.start + FirstBits(j.lens, j.root, j.work[i]) < |t|
    ensures var low := FirstBits(j.lens, j.root, j.work[i]);
            var u := t[j.start + low := Code(curr, j.root, used)];
            AtSub(j, u, i, Sub(used, curr, j.root, low), i, done) && Entered(j, u, i, used + Pow2(curr))
  {
    hide Rank, Codes, Fillable, IsSorted, InPlace, Pow2, CodeVal, Entry, FirstBits, LinkBefore, Kraft, Pos, Width,
      Slot, Slack;
    RankCoded(j, i);
    var low := FirstBits(j.lens, j.root, j.work[i]);
    FirstBitsBound(j.lens, j.root, j.work[i]);
    GroupIs(j, i, curr, end, done, k);
    var u := t[j.start + low := Code(curr, j.root, used)];
    var used' := used + Pow2(curr);
    forall r | 0 <= r < i ensures InPlace(j, u, r, used') && LinkBefore(j, u, r, used) {
      RankCoded(j, r);
      KeptByLink(j, t, i, r, used, used', Code(curr, j.root, used));
    }
    assert Entered(j, u, i, used');
  }

  /** The first long code starts a slot. */
  lemma FirstLongAligned(j: Job, i: nat) returns (k: nat)
    requires Workable(j) && 0 < i < Codes(j.lens) && j.lens[j.work[i - 1]] <= j.root
    ensures Coded(j.lens, j.work[i]) && Pos(j.lens, j.work[i]) == Width(j.root) * k
  {
    hide Pow2, Pos, Kraft, IsSorted, Rank, Codes, Width, Fillable;
    RankCoded(j, i - 1);
    RankCoded(j, i);
    var s := j.work[i - 1];
    NextPos(j.lens, s, j.work[i]);
    var c := PosAligned(j.lens, s);
    WidthMultiple(j.lens[s], j.root);
    var m := Pow2(j.root - j.lens[s]);
    Regroup(Width(j.root), m, c);
    k := m * (c + 1);
  }

  lemma WidthMultiple(a: nat, b: nat)
    requires a <= b <= 15
    ensures Width(a) == Width(b) * Pow2(b - a)
  {
    Pow2Add(15 - b, b - a);
    assert 15 - b + (b - a) == 15 - a;
  }

  lemma Regroup(w: nat, m: nat, c: nat)
    ensures (w * m) * c + w * m == w * (m * (c + 1))
  {
  }

  /** The code after a full slot starts the next slot. */
  lemma NextGroupAligned(j: Job, from: nat, done: nat, low: nat, curr: nat) returns (k: nat)
    requires Workable(j) && Group(j, from, done, low, curr) && done < Codes(j.lens)
    ensures Coded(j.lens, j.work[done]) && Pos(j.lens, j.work[done]) == Width(j.root) * k
    ensures j.lens[j.work[done]] >= j.root + curr
  {
    hide Pow2, Pos, Kraft, IsSorted, Rank, Codes, Width, Fillable, Slot, FirstBits;
    RankCoded(j, done - 1);
    RankCoded(j, done);
    RankCoded(j, from);
    NextPos(j.lens, j.work[done - 1], j.work[done]);
    k := Slot(Pos(j.lens, j.work[from]), j.root) + 1;
  }

  // ---------- the finished table ----------

  lemma RootEntry(j: Job, t: seq<Code>, used: nat, v: nat) returns (k: nat)
    requires Workable(j) && Rev(15, v) < Kraft(j.lens) && Entered(j, t, Codes(j.lens), used)
    ensures k < Codes(j.lens) && k < |j.work| && Coded(j.lens, j.work[k])
      && Low(v, j.lens[j.work[k]]) == CodeVal(j.lens, j.work[k])
    ensures InPlace(j, t, k, used) && Owns(j.lens, j.work[k], Rev(15, v))
  {
    hide Pow2, Pos, Kraft, IsSorted, Codes, Rank, Low, CodeVal, Rev, Fillable, InPlace, Owns;
    FillableFits(j.kind, j.lens);
    KraftIs(j.lens);
    var s := OwnerExists(j.lens, Rev(15, v), 16);
    OwnerCoded(j.lens, s, Rev(15, v));
    SortedAt(j.work, j.lens, s);
    MatchOwns(j.lens, s, v);
    k := Rank(j.lens, s);
    RankCoded(j, k);
  }

  lemma OwnerCoded(lens: seq<nat>, s: nat, x: nat)
    requires Owns(lens, s, x)
    ensures Coded(lens, s)
  {
  }

  /** No code needs a sub-table. */
  ghost predicate AllShort(j: Job)
    requires Workable(j)
  {
    forall k :: 0 <= k < Codes(j.lens) ==> j.lens[j.work[k]] <= j.root
  }

  /** Root entries link only into the table. */
  lemma LinksInside(j: Job, t: seq<Code>, used: nat, p: nat)
    requires Workable(j) && Kraft(j.lens) == Pow2(15) && Entered(j, t, Codes(j.lens), used)
    requires j.start <= p < j.start + Pow2(j.root) && Pow2(j.root) <= used
    ensures p < |t|
    ensures IsLink(t[p]) ==> t[p].bits == j.root && j.root + t[p].op <= 15 && t[p].val + Pow2(t[p].op) <= used
    ensures AllShort(j) ==> !IsLink(t[p])
  {
    hide Pow2, Pos, Kraft, Codes, Rank, Low, CodeVal, Rev, Fillable, InPlace, Owns, Entry, Shr;
    var v := p - j.start;
    RevBound(15, v);
    var k := RootEntry(j, t, used, v);
    RankCoded(j, k);
    FillableFits(j.kind, j.lens);
    InPlaceIs(j, t, k, used);
    var s := j.work[k];
    PlacedInner(t, j.start, j.root, used, j.kind, j.lens, s);
    if j.lens[s] <= j.root {
      ShrNone(CodeVal(j.lens, s));
      EntryIsNoLink(j.kind, s, j.lens[s] - 0);
      assert t[p] == Entry(j.kind, s, j.lens[s] - 0);
    } else {
      LowLow(v, j.root, j.lens[s]);
      LowSmall(v, j.root);
      FirstBitsBound(j.lens, j.root, s);
    }
  }

  lemma InPlaceIs(j: Job, t: seq<Code>, k: nat, used: nat)
    requires Workable(j) && k < Codes(j.lens) && InPlace(j, t, k, used)
    ensures k < |j.work| && Coded(j.lens, j.work[k]) && SymbolsFit(j.kind, j.lens)
    ensures Placed(t, j.start, j.root, used, j.kind, j.lens, j.work[k])
  {
    hide Placed, Codes, Rank;
  }

  /** With all codes in place, the table reads as the code. */
  lemma TableFinished(j: Job, t: seq<Code>, used: nat)
    requires Workable(j) && Kraft(j.lens) == Pow2(15) && Entered(j, t, Codes(j.lens), used) && Pow2(j.root) <= used
    ensures Decodes(t, j.start, j.root, j.kind, j.lens)
    ensures AllShort(j) ==> Flat(t, j.start, j.root)
  {
    hide Pow2, Pos, Kraft, Codes, Rank, Low, CodeVal, Rev, Fillable, InPlace, Owns, Entry, Shr, IsSorted, Placed,
      ReadsAs;
    FillableFits(j.kind, j.lens);
    forall p | j.start <= p < j.start + Pow2(j.root)
      ensures p < |t|
      ensures AllShort(j) ==> !IsLink(t[p])
    {
      LinksInside(j, t, used, p);
    }
    forall p | j.start <= p < j.start + Pow2(j.root) && IsLink(t[p])
      ensures t[p].bits == j.root && j.root + t[p].op <= 15 && j.start + t[p].val + Pow2(t[p].op) <= |t|
    {
      LinksInside(j, t, used, p);
    }
    forall v: nat ensures ReadsAs(t, j.start, j.root, j.kind, j.lens, v) {
      RevBound(15, v);
      FinishedReads(j, t, used, v);
    }
  }

  lemma FinishedReads(j: Job, t: seq<Code>, used: nat, v: nat)
    requires Workable(j) && Rev(15, v) < Kraft(j.lens) && Entered(j, t, Codes(j.lens), used)
    requires Readable(t, j.start, j.root) && SymbolsFit(j.kind, j.lens)
    ensures ReadsAs(t, j.start, j.root, j.kind, j.lens, v)
  {
    hide Pow2, Pos, Kraft, Codes, Rank, Low, CodeVal, Rev, Fillable, InPlace, Entry, Shr, IsSorted, Placed, Owns, Read;
    var k := RootEntry(j, t, used, v);
    var s := j.work[k];
    InPlaceIs(j, t, k, used);
    FillableFits(j.kind, j.lens);
    PlacedReads(t, j.start, j.root, used, j.kind, j.lens, s, v);
    forall r: nat | Owns(j.lens, r, Rev(15, v)) ensures r == s {
      OwnerUnique(j.lens, s, r, Rev(15, v));
    }
    assert Owned(j.lens, Rev(15, v));
  }

  lemma UnownedReads(t: seq<Code>, start: nat, root: nat, kind: CodeKind, lens: seq<nat>, v: nat)
    requires SymbolsFit(kind, lens) && Readable(t, start, root) && Rev(15, v) >= Kraft(lens)
    requires start + Low(v, root) < |t| && t[start + Low(v, root)] == INVALID
    ensures ReadsAs(t, start, root, kind, lens, v)
  {
    hide Low, Rev, Kraft, Owned, Owns;
    OwnedIff(lens, Rev(15, v));
    NotOwnedAtAll(lens, Rev(15, v));
  }

  lemma NotOwnedAtAll(lens: seq<nat>, x: nat)
    requires !Owned(lens, x)
    ensures forall s: nat :: !Owns(lens, s, x)
  {
    hide Owns;
  }

  /** A single code of one bit: its entry for 0, an invalid marker for 1. */
  lemma SingleFinished(j: Job, t: seq<Code>)
    requires Workable(j) && Kraft(j.lens) == Pow2(14) && j.root == 1 && Entered(j, t, Codes(j.lens), 2)
    requires forall k :: 0 <= k < Codes(j.lens) ==> j.lens[j.work[k]] == 1
    requires j.start + 2 <= |t| && t[j.start + 1] == INVALID
    ensures Decodes(t, j.start, 1, j.kind, j.lens)
  {
    hide Pos, Kraft, Codes, Rank, Low, CodeVal, Rev, Fillable, InPlace, Owns, Entry, Shr, IsSorted, Placed, ReadsAs,
      Pow2;
    FillableFits(j.kind, j.lens);
    Pow2Values();
    RootZero(j, t);
    forall v: nat ensures ReadsAs(t, j.start, j.root, j.kind, j.lens, v) {
      FirstBitHalf(v);
      LowOne(v);
      if v % 2 == 0 {
        FinishedReads(j, t, 2, v);
      } else {
        UnownedReads(t, j.start, 1, j.kind, j.lens, v);
      }
    }
  }

  lemma LowOne(v: nat)
    ensures Low(v, 1) == v % 2
  {
    assert Low(v / 2, 0) == 0;
  }

  lemma RootZero(j: Job, t: seq<Code>)
    requires Workable(j) && Kraft(j.lens) == Pow2(14) && j.root == 1 && Entered(j, t, Codes(j.lens), 2)
    requires forall k :: 0 <= k < Codes(j.lens) ==> j.lens[j.work[k]] == 1
    ensures j.start + 2 <= |t| && !IsLink(t[j.start])
  {
    hide Pos, Kraft, Codes, Rank, Low, CodeVal, Rev, Fillable, InPlace, Owns, Entry, Shr, IsSorted, Pow2;
    FirstBitHalf(0);
    var k := RootEntry(j, t, 2, 0);
    RankCoded(j, k);
    InPlaceIs(j, t, k, 2);
    var s := j.work[k];
    PlacedInner(t, j.start, 1, 2, j.kind, j.lens, s);
    ShrNone(CodeVal(j.lens, s));
    EntryIsNoLink(j.kind, s, 1 - 0);
    Pow2Values();
    assert t[j.start] == Entry(j.kind, s, 1 - 0);
  }

  /** No codes at all: two invalid markers. */
  lemma NoneFinished(t: seq<Code>, start: nat, kind: CodeKind, lens: seq<nat>)
    requires SymbolsFit(kind, lens) && Kraft(lens) == 0
    requires start + 2 <= |t| && t[start] == t[start + 1] == INVALID
    ensures Decodes(t, start, 1, kind, lens)
  {
    hide Kraft, Low, ReadsAs, Rev, Pow2;
    Pow2Values();
    forall v: nat ensures ReadsAs(t, start, 1, kind, lens, v) {
      LowOne(v);
      UnownedReads(t, start, 1, kind, lens, v);
    }
  }

  /** What is in place stays so when the array is cut off behind it. */
  lemma EnteredPrefix(j: Job, t: seq<Code>, i: nat, used: nat)
    requires Workable(j) && Entered(j, t, i, used)
    ensures Entered(j, t[..j.start + used], i, used)
  {
    hide Pow2, Codes, Rank, InPlace, Fillable, IsSorted;
    var u := t[..j.start + used];
    forall k | 0 <= k < i ensures InPlace(j, u, k, used) {
      InPlacePrefix(j, t, k, used);
    }
  }

  lemma InPlacePrefix(j: Job, t: seq<Code>, k: nat, used: nat)
    requires Workable(j) && k < Codes(j.lens) && j.start + used <= |t| && InPlace(j, t, k, used)
    ensures InPlace(j, t[..j.start + used], k, used)
  {
    hide Rank, Codes, Fillable, IsSorted, Placed, Pow2, Shr, CodeVal, Entry, Low, FirstBits;
    var u := t[..j.start + used];
    RankCoded(j, k);
    InPlaceIs(j, t, k, used);
    var s := j.work[k];
    PlacedInner(t, j.start, j.root, used, j.kind, j.lens, s);
    FirstBitsBound(j.lens, j.root, s);
    PlacedOuter(u, j.start, j.root, used, j.kind, j.lens, s);
  }
}
