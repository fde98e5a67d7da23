/** What the two passes of gen_bitlen keep, on snapshots of the arrays. */
module BitLengths {
  import opened Bits
  import opened Canonical
  import opened MergeTheory
  import opened LengthLimit
  import opened TreeDepths
  import opened TreeKinds
  import opened UsedSymbols

  // ---------- the leaves among the placed nodes ----------

  function LeavesOf(s: seq<nat>, maxCode: nat): (r: seq<nat>)
    ensures |r| <= |s|
    ensures forall i :: 0 <= i < |r| ==> r[i] <= maxCode && r[i] in s
  {
    if s == [] then []
    else LeavesOf(s[..|s| - 1], maxCode) + if s[|s| - 1] <= maxCode then [s[|s| - 1]] else []
  }

  lemma {:induction false} LeavesOfAppend(a: seq<nat>, b: seq<nat>, mc: nat)
    ensures LeavesOf(a + b, mc) == LeavesOf(a, mc) + LeavesOf(b, mc)
    decreases |b|
  {
    if b == [] {
      assert a + b == a;
    } else {
      assert (a + b)[..|a + b| - 1] == a + b[..|b| - 1];
      LeavesOfAppend(a, b[..|b| - 1], mc);
    }
  }

  lemma LeavesOfOne(x: nat, mc: nat)
    ensures LeavesOf([x], mc) == if x <= mc then [x] else []
  {
    assert [x][..0] == [];
  }

  lemma {:induction false} LeavesOfCount(s: seq<nat>, mc: nat, x: nat)
    ensures multiset(LeavesOf(s, mc))[x] == if x <= mc then multiset(s)[x] else 0
    decreases |s|
  {
    if s != [] {
      var n := |s| - 1;
      assert s == s[..n] + [s[n]];
      LeavesOfCount(s[..n], mc, x);
      var last := if s[n] <= mc then [s[n]] else [];
      assert multiset(LeavesOf(s, mc)) == multiset(LeavesOf(s[..n], mc)) + multiset(last);
    }
  }

  /** The used symbols all lie at or below maxCode, the internal nodes above it. */
  ghost predicate Separates(leaves: seq<nat>, elems: nat, mc: nat)
  {
    mc < elems && forall i :: 0 <= i < |leaves| ==> leaves[i] <= mc
  }

  /** The leaves among all placed nodes are the leaves of the tree; the root is none of them. */
  lemma AllLeaves(h: seq<nat>, mx: nat, leaves: seq<nat>, elems: nat, mc: nat)
    requires TreeOrder(h, mx, leaves, elems) && Separates(leaves, elems, mc)
    ensures multiset(LeavesOf(h[mx..], mc)) == multiset(leaves)
    ensures |LeavesOf(h[mx..], mc)| == |leaves|
    ensures LeavesOf(h[mx + 1..], mc) == LeavesOf(h[mx..], mc)
  {
    hide LeavesOf;
    forall x: nat ensures multiset(LeavesOf(h[mx..], mc))[x] == multiset(leaves)[x] {
      LeavesOfCount(h[mx..], mc, x);
      RangeCount(elems, elems + |leaves| - 1, x);
      assert x in multiset(leaves) ==> x in leaves;
    }
    assert multiset(LeavesOf(h[mx..], mc)) == multiset(leaves);
    assert |multiset(LeavesOf(h[mx..], mc))| == |multiset(leaves)|;
    assert h[mx..] == [h[mx]] + h[mx + 1..];
    LeavesOfAppend([h[mx]], h[mx + 1..], mc);
    LeavesOfOne(h[mx], mc);
  }

  lemma PlacedOnce(h: seq<nat>, mx: nat, leaves: seq<nat>, elems: nat, p: nat, q: nat)
    requires TreeOrder(h, mx, leaves, elems) && mx <= p < q < HEAP_SIZE
    ensures h[p] != h[q]
  {
    hide LeafList;
    var s: seq<nat> := h[mx..];
    var none: seq<nat> := [];
    forall x: nat ensures multiset(s)[x] <= 1 {
      assert Conserved(none, s, leaves, elems, elems + |leaves| - 1);
      CountOnce(none, s, leaves, elems, elems + |leaves| - 1, x);
    }
    CountTwice(s, p - mx, q - mx);
  }

  // ---------- first pass ----------

  /** Positions up to p carry clamped depths, the rest still name their fathers. */
  ghost predicate PassState(h: seq<nat>, mx: nat, p: nat, dl: seq<nat>, leaves: seq<nat>, elems: nat, max: nat)
  {
    TreeOrder(h, mx, leaves, elems) && mx < p <= HEAP_SIZE
    && elems + |leaves| - 1 <= |dl|
    && (forall q :: mx <= q < HEAP_SIZE ==> h[q] < |dl|)
    && (forall q :: mx < q < HEAP_SIZE ==> FatherAt(elems, q) < |dl|)
    && dl[h[mx]] == 0
    && (forall q :: mx < q < p ==>
          dl[h[q]] == if dl[FatherAt(elems, q)] + 1 > max then max else dl[FatherAt(elems, q)] + 1)
    && forall q :: p <= q < HEAP_SIZE ==> dl[h[q]] == FatherAt(elems, q)
  }

  lemma PassStart(h: seq<nat>, mx: nat, dl: seq<nat>, leaves: seq<nat>, elems: nat, max: nat)
    requires TreeOrder(h, mx, leaves, elems) && elems + |leaves| - 1 <= |dl|
    requires Fathers(h, mx + 1, dl, elems)
    ensures h[mx] < |dl| && PassState(h, mx, mx + 1, dl[h[mx] := 0], leaves, elems, max)
  {
    hide LeafList;
    TreeSize(h, mx, leaves, elems);
    PlacedBelow(h, mx, leaves, elems, |dl|);
    var e := dl[h[mx] := 0];
    forall q | mx + 1 <= q < HEAP_SIZE ensures e[h[q]] == FatherAt(elems, q) && FatherAt(elems, q) < |dl| {
      PlacedOnce(h, mx, leaves, elems, mx, q);
      FatherRange(mx, leaves, elems, q);
    }
  }

  /** A node placed at p is no father of a node placed at p or before. */
  lemma NoFatherBefore(h: seq<nat>, mx: nat, leaves: seq<nat>, elems: nat, q: nat, p: nat)
    requires TreeOrder(h, mx, leaves, elems) && mx < q <= p < HEAP_SIZE
    ensures FatherAt(elems, q) != h[p]
  {
    hide LeafList;
    assert (572 - p) / 2 <= (572 - q) / 2;
  }

  lemma PassStep(h: seq<nat>, mx: nat, p: nat, dl: seq<nat>, leaves: seq<nat>, elems: nat, max: nat)
    requires PassState(h, mx, p, dl, leaves, elems, max) && p < HEAP_SIZE
    ensures h[p] < |dl| && dl[h[p]] < |dl|
    ensures var b := dl[dl[h[p]]] + 1;
            PassState(h, mx, p + 1, dl[h[p] := if b > max then max else b], leaves, elems, max)
  {
    hide TreeOrder;
    TreeSize(h, mx, leaves, elems);
    var b := dl[dl[h[p]]] + 1;
    var e := dl[h[p] := if b > max then max else b];
    forall q | mx <= q < HEAP_SIZE && q != p ensures h[q] != h[p] {
      if q < p {
        PlacedOnce(h, mx, leaves, elems, q, p);
      } else {
        PlacedOnce(h, mx, leaves, elems, p, q);
      }
    }
    forall q | mx < q <= p ensures FatherAt(elems, q) != h[p] {
      NoFatherBefore(h, mx, leaves, elems, q, p);
    }
  }

  lemma PassEnd(h: seq<nat>, mx: nat, dl: seq<nat>, leaves: seq<nat>, elems: nat, max: nat)
    requires PassState(h, mx, HEAP_SIZE, dl, leaves, elems, max)
    ensures Depths(h, mx, dl, elems, max) && TreeOrder(h, mx, leaves, elems) && elems + |leaves| - 1 <= |dl|
  {
    hide TreeOrder;
  }

  // ---------- the totals of the first pass ----------

  function Product(a: nat, b: nat): (p: nat)
  {
    a * b
  }

  /** Bits a symbol contributes with the lengths ls. */
  function BitCost(kind: Kind, f: seq<nat>, ls: seq<nat>): (v: seq<nat>)
    requires |ls| == |f|
    ensures |v| == |f|
  {
    seq(|f|, x requires 0 <= x < |f| => if x < Elems(kind) then Product(f[x], ls[x] + Xbits(kind, x)) else 0)
  }

  /** Bits a symbol contributes with the fixed code; none where there is no fixed code. */
  function StaticCost(kind: Kind, f: seq<nat>): (v: seq<nat>)
    ensures |v| == |f|
  {
    seq(|f|, x requires 0 <= x < |f| =>
      if x < Elems(kind) && kind != BlTree then Product(f[x], StaticLen(kind, x) + Xbits(kind, x)) else 0)
  }

  ghost predicate PassTotals(kind: Kind, h: seq<nat>, mx: nat, p: nat, dl: seq<nat>, f: seq<nat>, mc: nat, max: nat,
                             bc: seq<nat>, overflow: nat, opt: int, stat: int)
  {
    |h| == HEAP_SIZE && mx < p <= HEAP_SIZE && |dl| == |f|
    && (forall q :: mx <= q < HEAP_SIZE ==> h[q] < |dl|)
    && (forall q :: mx < q < HEAP_SIZE ==> FatherAt(Elems(kind), q) < |dl|)
    && var done := LeavesOf(h[mx + 1..p], mc);
    (forall i :: 0 <= i < |done| ==> done[i] < |dl|)
    && bc == Counts(At(done, dl))
    && overflow == Sum(OverflowSeq(dl, Elems(kind), mx, max)[..p - 1 - mx])
    && opt == Sum(At(done, BitCost(kind, f, dl)))
    && stat == Sum(At(done, StaticCost(kind, f)))
  }

  lemma TotalsStart(kind: Kind, h: seq<nat>, mx: nat, dl: seq<nat>, f: seq<nat>, mc: nat, max: nat, bc: seq<nat>)
    requires |h| == HEAP_SIZE && mx + 1 < HEAP_SIZE && |dl| == |f|
    requires forall q :: mx <= q < HEAP_SIZE ==> h[q] < |dl|
    requires forall q :: mx < q < HEAP_SIZE ==> FatherAt(Elems(kind), q) < |dl|
    requires |bc| == 16 && forall b :: 0 <= b < 16 ==> bc[b] == 0
    ensures PassTotals(kind, h, mx, mx + 1, dl, f, mc, max, bc, 0, 0, 0)
  {
    assert h[mx + 1..mx + 1] == [];
    assert LeavesOf([], mc) == [];
    var none: seq<nat> := [];
    assert At(none, dl) == [];
    CountsNone();
    assert bc == Counts(At(none, dl));
    assert OverflowSeq(dl, Elems(kind), mx, max)[..0] == [];
  }

  lemma DoneBelow(s: seq<nat>, mc: nat, n: nat)
    requires forall q :: 0 <= q < |s| ==> s[q] < n
    ensures forall i :: 0 <= i < |LeavesOf(s, mc)| ==> LeavesOf(s, mc)[i] < n
  {
    hide LeavesOf;
    forall i | 0 <= i < |LeavesOf(s, mc)| ensures LeavesOf(s, mc)[i] < n {
      var j :| 0 <= j < |s| && s[j] == LeavesOf(s, mc)[i];
    }
  }

  lemma DoneStep(h: seq<nat>, mx: nat, p: nat, mc: nat)
    requires |h| == HEAP_SIZE && mx < p < HEAP_SIZE
    ensures LeavesOf(h[mx + 1..p + 1], mc) == LeavesOf(h[mx + 1..p], mc) + if h[p] <= mc then [h[p]] else []
  {
    assert h[mx + 1..p + 1] == h[mx + 1..p] + [h[p]];
    LeavesOfAppend(h[mx + 1..p], [h[p]], mc);
    LeavesOfOne(h[p], mc);
  }

  lemma NotDone(h: seq<nat>, mx: nat, p: nat, mc: nat, leaves: seq<nat>, elems: nat)
    requires TreeOrder(h, mx, leaves, elems) && mx < p < HEAP_SIZE
    ensures h[p] !in LeavesOf(h[mx + 1..p], mc)
  {
    hide LeavesOf, TreeOrder;
    TreeSize(h, mx, leaves, elems);
    var s := h[mx + 1..p];
    if h[p] in LeavesOf(s, mc) {
      assert h[p] in s;
      var j :| 0 <= j < |s| && s[j] == h[p];
      PlacedOnce(h, mx, leaves, elems, mx + 1 + j, p);
    }
  }

  lemma AtUnchanged(s: seq<nat>, v: seq<nat>, w: seq<nat>, n: nat)
    requires |w| == |v| && n !in s && forall i :: 0 <= i < |s| ==> s[i] < |v|
    requires forall x :: 0 <= x < |v| && x != n ==> w[x] == v[x]
    ensures At(s, w) == At(s, v)
  {
  }

  lemma CountsLast(xs: seq<nat>, b: nat)
    requires b < 16
    ensures Counts(xs + [b]) == Counts(xs)[b := Counts(xs)[b] + 1]
  {
    hide Count;
    forall c: nat ensures Count(xs + [b], c) == Count(xs, c) + if b == c then 1 else 0 {
      CountLast(xs, b, c);
    }
  }

  lemma OverflowKept(dl: seq<nat>, dl': seq<nat>, h: seq<nat>, mx: nat, p: nat, leaves: seq<nat>, elems: nat, max: nat)
    requires TreeOrder(h, mx, leaves, elems) && mx < p < HEAP_SIZE
    requires forall q :: mx < q < HEAP_SIZE ==> FatherAt(elems, q) < |dl|
    requires h[p] < |dl| == |dl'| && forall x :: 0 <= x < |dl| && x != h[p] ==> dl'[x] == dl[x]
    ensures OverflowSeq(dl', elems, mx, max)[..p - mx]
         == OverflowSeq(dl, elems, mx, max)[..p - 1 - mx] + [if dl[FatherAt(elems, p)] + 1 > max then 1 else 0]
  {
    hide TreeOrder;
    TreeSize(h, mx, leaves, elems);
    forall q | mx < q <= p ensures FatherAt(elems, q) != h[p] {
      NoFatherBefore(h, mx, leaves, elems, q, p);
    }
  }

  /** One placed node: the counts and totals after it. */
  lemma TotalsStep(kind: Kind, h: seq<nat>, mx: nat, p: nat, dl: seq<nat>, dl': seq<nat>, f: seq<nat>,
                   leaves: seq<nat>, mc: nat, max: nat, bc: seq<nat>, overflow: nat, opt: int, stat: int)
    requires TreeOrder(h, mx, leaves, Elems(kind)) && mc < Elems(kind) && max <= 15 && p < HEAP_SIZE
    requires PassTotals(kind, h, mx, p, dl, f, mc, max, bc, overflow, opt, stat)
    requires var b := dl[FatherAt(Elems(kind), p)] + 1; dl' == dl[h[p] := if b > max then max else b]
    ensures var over := dl[FatherAt(Elems(kind), p)] + 1 > max;
            var b := if over then max else dl[FatherAt(Elems(kind), p)] + 1;
            |bc| == 16 && b < 16 &&
            if h[p] <= mc then
              PassTotals(kind, h, mx, p + 1, dl', f, mc, max, bc[b := bc[b] + 1], overflow + if over then 1 else 0,
                         opt + BitCost(kind, f, dl')[h[p]], stat + StaticCost(kind, f)[h[p]])
            else
              PassTotals(kind, h, mx, p + 1, dl', f, mc, max, bc, overflow + if over then 1 else 0, opt, stat)
  {
    hide TreeOrder, LeavesOf, Counts, BitCost, StaticCost, Sum, OverflowSeq;
    var n := h[p];
    var done := LeavesOf(h[mx + 1..p], mc);
    NotDone(h, mx, p, mc, leaves, Elems(kind));
    DoneStep(h, mx, p, mc);
    DoneBelow(h[mx + 1..p + 1], mc, |dl|);
    OverflowKept(dl, dl', h, mx, p, leaves, Elems(kind), max);
    SumAppend(OverflowSeq(dl, Elems(kind), mx, max)[..p - 1 - mx],
              [if dl[FatherAt(Elems(kind), p)] + 1 > max then 1 else 0]);
    SumOne(if dl[FatherAt(Elems(kind), p)] + 1 > max then 1 else 0);
    AtUnchanged(done, dl, dl', n);
    CostUnchanged(kind, f, dl, dl', n);
    AtUnchanged(done, BitCost(kind, f, dl), BitCost(kind, f, dl'), n);
    if n <= mc {
      AtMore(done, n, dl');
      CountsLast(At(done, dl'), dl'[n]);
      AtMore(done, n, BitCost(kind, f, dl'));
      AtMore(done, n, StaticCost(kind, f));
      assert |Counts(At(done, dl))| == 16;
    } else {
      assert LeavesOf(h[mx + 1..p + 1], mc) == done;
      assert |Counts(At(done, dl))| == 16;
    }
  }

  lemma CostUnchanged(kind: Kind, f: seq<nat>, dl: seq<nat>, dl': seq<nat>, n: nat)
    requires |dl| == |f| == |dl'| && forall x :: 0 <= x < |dl| && x != n ==> dl'[x] == dl[x]
    ensures forall x :: 0 <= x < |dl| && x != n ==> BitCost(kind, f, dl')[x] == BitCost(kind, f, dl)[x]
  {
    hide Xbits, Elems;
  }

  lemma AtMore(s: seq<nat>, n: nat, v: seq<nat>)
    requires n < |v| && forall i :: 0 <= i < |s| ==> s[i] < |v|
    ensures At(s + [n], v) == At(s, v) + [v[n]]
    ensures Sum(At(s + [n], v)) == Sum(At(s, v)) + v[n]
  {
    hide Sum;
    assert At(s + [n], v) == At(s, v) + [v[n]];
    SumAppend(At(s, v), [v[n]]);
    SumOne(v[n]);
  }

  // ---------- what the first pass has established ----------

  lemma {:induction false} UnitsAt(s: seq<nat>, ls: seq<nat>, max: nat)
    requires forall i :: 0 <= i < |s| ==> s[i] < |ls|
    ensures At(s, UnitSeq(ls, max)) == PowSeq(At(s, ls), max)
    ensures Sum(At(s, FullSeq(ls, max))) == Count(At(s, ls), max)
    decreases |s|
  {
    hide Pow2;
    if s == [] {
      SumNone();
      assert At(s, FullSeq(ls, max)) == [] && At(s, ls) == [];
    } else {
      var n := |s| - 1;
      assert s == s[..n] + [s[n]];
      UnitsAt(s[..n], ls, max);
      AtMore(s[..n], s[n], FullSeq(ls, max));
      AtMore(s[..n], s[n], ls);
      CountLast(At(s[..n], ls), ls[s[n]], max);
    }
  }

  lemma {:induction false} CountZero(s: seq<nat>, b: nat)
    requires forall i :: 0 <= i < |s| ==> s[i] != b
    ensures Count(s, b) == 0
    decreases |s|
  {
    if s != [] {
      CountZero(s[..|s| - 1], b);
    }
  }

  /** Every leaf sits below the root, at a clamped depth between 1 and max. */
  lemma LeafDepths(h: seq<nat>, mx: nat, ls: seq<nat>, leaves: seq<nat>, elems: nat, max: nat)
    requires TreeOrder(h, mx, leaves, elems) && Depths(h, mx, ls, elems, max) && max >= 1
    ensures forall i :: 0 <= i < |leaves| ==> leaves[i] < |ls| && 1 <= ls[leaves[i]] <= max
  {
    hide LeafList;
    TreeSize(h, mx, leaves, elems);
    forall i | 0 <= i < |leaves| ensures leaves[i] < |ls| && 1 <= ls[leaves[i]] <= max {
      assert leaves[i] in multiset(h[mx..]);
      var j :| 0 <= j < |h[mx..]| && h[mx..][j] == leaves[i];
      assert h[mx + j] == leaves[i];
    }
  }

  /** The clamped lengths of the leaves, tabulated. */
  ghost predicate Tabulated(leaves: seq<nat>, dl: seq<nat>, bc: seq<nat>, max: nat)
  {
    |bc| == 16 && 1 <= max <= 15
    && (forall i :: 0 <= i < |leaves| ==> leaves[i] < |dl| && 1 <= dl[leaves[i]] <= max)
    && bc == Counts(At(leaves, dl))
  }

  lemma TabulatedZero(leaves: seq<nat>, dl: seq<nat>, bc: seq<nat>, max: nat)
    requires Tabulated(leaves, dl, bc, max)
    ensures bc[0] == 0 && forall b :: max < b < 16 ==> bc[b] == 0
    ensures Total(bc, max) == |leaves|
    ensures Units(bc, max) == Sum(At(leaves, UnitSeq(dl, max)))
    ensures bc[max] == Sum(At(leaves, FullSeq(dl, max)))
  {
    hide Sum, Units, Total, Pow2, Count;
    CountsSum(At(leaves, dl), max);
    UnitsAt(leaves, dl, max);
    CountZero(At(leaves, dl), 0);
    forall b | max < b < 16 ensures bc[b] == 0 {
      CountZero(At(leaves, dl), b);
    }
  }

  lemma CountsPermuted(s: seq<nat>, t: seq<nat>, dl: seq<nat>)
    requires multiset(s) == multiset(t) && forall i :: 0 <= i < |s| ==> s[i] < |dl|
    ensures forall i :: 0 <= i < |t| ==> t[i] < |dl|
    ensures Counts(At(s, dl)) == Counts(At(t, dl))
  {
    hide Count, At;
    AtPerm(s, t, dl);
    forall b: nat ensures Count(At(s, dl), b) == Count(At(t, dl), b) {
      CountPermuted(s, t, dl, b);
    }
  }

  /** After the first pass: the table of the clamped lengths, the overflow, and the totals. */
  lemma PassResult(kind: Kind, h: seq<nat>, mx: nat, dl: seq<nat>, f: seq<nat>, leaves: seq<nat>, mc: nat,
                   bc: seq<nat>, overflow: nat, opt: int, stat: int)
    requires PassState(h, mx, HEAP_SIZE, dl, leaves, Elems(kind), MaxLength(kind))
    requires PassTotals(kind, h, mx, HEAP_SIZE, dl, f, mc, MaxLength(kind), bc, overflow, opt, stat)
    requires Separates(leaves, Elems(kind), mc)
    requires Weighed(h, mx, f, Elems(kind), Elems(kind) + |leaves| - 1)
    requires |leaves| <= Pow2(MaxLength(kind))
    ensures Tabulated(leaves, dl, bc, MaxLength(kind))
    ensures overflow % 2 == 0 && Overfull(bc, MaxLength(kind), overflow / 2)
    ensures |f| == |dl|
    ensures opt == Sum(At(leaves, BitCost(kind, f, dl))) && stat == Sum(At(leaves, StaticCost(kind, f)))
    ensures Elems(kind) + |leaves| - 1 <= |f|
    ensures overflow == 0 ==> Sum(At(leaves, CostSeq(dl, f))) == Sum(f[Elems(kind)..Elems(kind) + |leaves| - 1])
  {
    hide PassState, TreeOrder, LeavesOf, Counts, BitCost, StaticCost, Sum, OverflowSeq, Weighed, Depths, At, Pow2,
      CostSeq, UnitSeq, FullSeq, AtLimit, NearLimit, Units, Total;
    var elems, max := Elems(kind), MaxLength(kind);
    var done := LeavesOf(h[mx + 1..HEAP_SIZE], mc);
    PassEnd(h, mx, dl, leaves, elems, max);
    AllLeaves(h, mx, leaves, elems, mc);
    assert h[mx + 1..HEAP_SIZE] == h[mx + 1..];
    LeafDepths(h, mx, dl, leaves, elems, max);
    CountsPermuted(done, leaves, dl);
    AtPerm(done, leaves, BitCost(kind, f, dl));
    SumPerm(At(done, BitCost(kind, f, dl)), At(leaves, BitCost(kind, f, dl)));
    AtPerm(done, leaves, StaticCost(kind, f));
    SumPerm(At(done, StaticCost(kind, f)), At(leaves, StaticCost(kind, f)));
    OverflowIsTwice(h, mx, leaves, elems, dl, max);
    WholeTake(OverflowSeq(dl, elems, mx, max), HEAP_SIZE - 1 - mx);
    ClampedKraft(h, mx, leaves, elems, dl, max);
    TabulatedZero(leaves, dl, bc, max);
    if overflow > 0 {
      FullLengthSpare(h, mx, leaves, elems, dl, max);
    } else {
      UnclampedCost(h, mx, leaves, elems, dl, f, max);
    }
  }

  lemma WholeTake(s: seq<nat>, n: nat)
    requires n == |s|
    ensures s[..n] == s
  {
  }

  // ---------- reassigning the lengths ----------

  /** Lengths above `bits` have been handed out to the lightest leaves, which sit at the end of the
      heap array; n codes of length `bits` are still to be given. */
  ghost predicate Assigning(h: seq<nat>, mx: nat, pos: nat, dl: seq<nat>, leaves: seq<nat>, elems: nat, mc: nat,
                            bc: seq<nat>, bits: nat, n: nat)
  {
    TreeOrder(h, mx, leaves, elems) && Separates(leaves, elems, mc)
    && mx <= pos <= HEAP_SIZE && |bc| == 16 && bits < 16
    && elems + |leaves| - 1 <= |dl|
    && var tail := LeavesOf(h[pos..], mc);
    (forall i :: 0 <= i < |tail| ==> tail[i] < |dl| && dl[tail[i]] <= 15)
    && (bits >= 1 ==> |tail| + Total(bc, bits - 1) + n == |leaves|)
    && (bits == 0 ==> |tail| == |leaves|)
    && (forall b :: bits < b < 16 ==> Count(At(tail, dl), b) == bc[b])
    && Count(At(tail, dl), bits) + n == bc[bits]
    && forall b :: 0 <= b < bits ==> Count(At(tail, dl), b) == 0
  }

  lemma AssignStart(h: seq<nat>, mx: nat, dl: seq<nat>, leaves: seq<nat>, elems: nat, mc: nat, bc: seq<nat>, max: nat)
    requires TreeOrder(h, mx, leaves, elems) && Separates(leaves, elems, mc) && elems + |leaves| - 1 <= |dl|
    requires |bc| == 16 && 1 <= max <= 15 && Total(bc, max) == |leaves| && forall b :: max < b < 16 ==> bc[b] == 0
    ensures Assigning(h, mx, HEAP_SIZE, dl, leaves, elems, mc, bc, max, bc[max])
  {
    hide LeafList;
    TreeSize(h, mx, leaves, elems);
    assert h[HEAP_SIZE..] == [];
    var none: seq<nat> := [];
    assert At(none, dl) == [];
  }

  /** All codes of one length are out: go on to the next shorter one. */
  lemma AssignNext(h: seq<nat>, mx: nat, pos: nat, dl: seq<nat>, leaves: seq<nat>, elems: nat, mc: nat, bc: seq<nat>,
                   bits: nat)
    requires Assigning(h, mx, pos, dl, leaves, elems, mc, bc, bits, 0) && bits >= 1 && bc[0] == 0
    ensures Assigning(h, mx, pos, dl, leaves, elems, mc, bc, bits - 1, bc[bits - 1])
  {
    hide TreeOrder, LeavesOf, Count;
  }

  lemma MoreLeaves(h: seq<nat>, mx: nat, pos: nat, dl: seq<nat>, leaves: seq<nat>, elems: nat, mc: nat, bc: seq<nat>,
                   bits: nat, n: nat)
    requires Assigning(h, mx, pos, dl, leaves, elems, mc, bc, bits, n) && bits >= 1 && n > 0
    ensures mx < pos
  {
    hide TreeOrder, LeavesOf, Count;
    AllLeaves(h, mx, leaves, elems, mc);
  }

  lemma TailStep(h: seq<nat>, pos: nat, mc: nat)
    requires 0 < pos <= |h|
    ensures LeavesOf(h[pos - 1..], mc) == (if h[pos - 1] <= mc then [h[pos - 1]] else []) + LeavesOf(h[pos..], mc)
  {
    assert h[pos - 1..] == [h[pos - 1]] + h[pos..];
    LeavesOfAppend([h[pos - 1]], h[pos..], mc);
    LeavesOfOne(h[pos - 1], mc);
  }

  lemma PlacedLeaf(h: seq<nat>, mx: nat, leaves: seq<nat>, elems: nat, mc: nat, p: nat)
    requires TreeOrder(h, mx, leaves, elems) && Separates(leaves, elems, mc) && mx <= p < HEAP_SIZE
    ensures h[p] <= mc ==> h[p] in leaves
    ensures h[p] !in LeavesOf(h[p + 1..], mc)
  {
    hide LeafList, LeavesOf;
    TreeSize(h, mx, leaves, elems);
    assert h[mx..][p - mx] == h[p];
    assert h[p] in multiset(leaves) + multiset(Range(elems, elems + |leaves| - 1));
    if h[p] in LeavesOf(h[p + 1..], mc) {
      var j :| 0 <= j < |h[p + 1..]| && h[p + 1..][j] == h[p];
      PlacedOnce(h, mx, leaves, elems, p, p + 1 + j);
    }
  }

  lemma CountFirst(x: nat, s: seq<nat>, b: nat)
    ensures Count([x] + s, b) == Count(s, b) + if x == b then 1 else 0
  {
    CountIsMultiset([x] + s, b);
    CountIsMultiset(s, b);
  }

  /** Give the next lighter leaf the length `bits`. */
  lemma AssignStep(h: seq<nat>, mx: nat, pos: nat, dl: seq<nat>, leaves: seq<nat>, elems: nat, mc: nat, bc: seq<nat>,
                   bits: nat, n: nat)
    requires Assigning(h, mx, pos, dl, leaves, elems, mc, bc, bits, n) && bits >= 1 && n > 0 && mx < pos
    ensures |h| == HEAP_SIZE
    ensures h[pos - 1] > mc ==> Assigning(h, mx, pos - 1, dl, leaves, elems, mc, bc, bits, n)
    ensures h[pos - 1] <= mc ==>
      h[pos - 1] < |dl| && h[pos - 1] in leaves
      && Assigning(h, mx, pos - 1, dl[h[pos - 1] := bits], leaves, elems, mc, bc, bits, n - 1)
  {
    hide TreeOrder, LeavesOf, Count, Total;
    TreeSize(h, mx, leaves, elems);
    var m, tail := h[pos - 1], LeavesOf(h[pos..], mc);
    TailStep(h, pos, mc);
    PlacedLeaf(h, mx, leaves, elems, mc, pos - 1);
    if m > mc {
      assert LeavesOf(h[pos - 1..], mc) == tail;
    } else {
      var dl' := dl[m := bits];
      AtUnchanged(tail, dl, dl', m);
      assert At([m] + tail, dl') == [bits] + At(tail, dl);
      forall b: nat ensures Count(At([m] + tail, dl'), b) == Count(At(tail, dl), b) + if b == bits then 1 else 0 {
        CountFirst(bits, At(tail, dl), b);
      }
    }
  }

  /** When all lengths are out, the table describes the lengths of all leaves. */
  lemma AssignEnd(h: seq<nat>, mx: nat, pos: nat, dl: seq<nat>, leaves: seq<nat>, elems: nat, mc: nat, bc: seq<nat>)
    requires Assigning(h, mx, pos, dl, leaves, elems, mc, bc, 0, 0)
    ensures forall i :: 0 <= i < |leaves| ==> leaves[i] < |dl| && dl[leaves[i]] <= 15
    ensures bc == Counts(At(leaves, dl))
  {
    hide TreeOrder, LeavesOf, Total, Count;
    TreeSize(h, mx, leaves, elems);
    AllLeaves(h, mx, leaves, elems, mc);
    var tail := LeavesOf(h[pos..], mc);
    assert h[mx..] == h[mx..pos] + h[pos..];
    LeavesOfAppend(h[mx..pos], h[pos..], mc);
    assert LeavesOf(h[mx..pos], mc) == [];
    assert LeavesOf(h[mx..], mc) == tail;
    CountsPermuted(tail, leaves, dl);
    forall i | 0 <= i < |leaves| ensures dl[leaves[i]] <= 15 {
      assert leaves[i] in multiset(tail);
      assert leaves[i] in tail;
    }
  }

  /** Changing the length of one leaf changes the total by its frequency times the difference. */
  lemma CostChanged(kind: Kind, f: seq<nat>, dl: seq<nat>, leaves: seq<nat>, m: nat, bits: nat)
    requires |dl| == |f| && Distinct(leaves) && m in leaves
    requires forall i :: 0 <= i < |leaves| ==> leaves[i] < Elems(kind) && leaves[i] < |f|
    ensures Sum(At(leaves, BitCost(kind, f, dl[m := bits])))
         == Sum(At(leaves, BitCost(kind, f, dl))) + f[m] * (bits as int - dl[m])
  {
    hide Sum, BitCost, At;
    var j :| 0 <= j < |leaves| && leaves[j] == m;
    var a, b := leaves[..j], leaves[j + 1..];
    var v, w := BitCost(kind, f, dl), BitCost(kind, f, dl[m := bits]);
    assert leaves == a + [m] + b;
    assert m !in a && m !in b;
    CostUnchanged(kind, f, dl, dl[m := bits], m);
    AtUnchanged(a, v, w, m);
    AtUnchanged(b, v, w, m);
    SumThree(a, m, b, v);
    SumThree(a, m, b, w);
    CostAt(kind, f, dl, m);
    CostAt(kind, f, dl[m := bits], m);
    Differ(f[m], bits + Xbits(kind, m), dl[m] + Xbits(kind, m));
  }

  lemma Differ(x: nat, a: int, b: int)
    ensures x * a - x * b == x * (a - b)
  {
  }

  lemma CostAt(kind: Kind, f: seq<nat>, dl: seq<nat>, m: nat)
    requires |dl| == |f| && m < |f| && m < Elems(kind)
    ensures BitCost(kind, f, dl)[m] == f[m] * (dl[m] + Xbits(kind, m))
  {
  }

  lemma SumThree(a: seq<nat>, m: nat, b: seq<nat>, v: seq<nat>)
    requires m < |v| && (forall i :: 0 <= i < |a| ==> a[i] < |v|) && forall i :: 0 <= i < |b| ==> b[i] < |v|
    ensures forall i :: 0 <= i < |a + [m] + b| ==> (a + [m] + b)[i] < |v|
    ensures Sum(At(a + [m] + b, v)) == Sum(At(a, v)) + v[m] + Sum(At(b, v))
  {
    hide Sum, At;
    AtMore(a, m, v);
    AtAppend(a + [m], b, v);
    SumAppend(At(a + [m], v), At(b, v));
  }
}
