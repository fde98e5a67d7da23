/** The tree that the merging loop has built, read from the arrays, and what its height has to do with clamping
    (trees.c: build_tree, gen_bitlen). */
module MergedTree {
  import opened Optimality
  import opened MergeTheory
  import opened LengthLimit
  import opened TreeDepths
  import opened BitLengths

  // ---------- the tree ----------

  /** The sons of every internal node come before it. */
  ghost predicate Downward(h: seq<nat>, f: seq<nat>, elems: nat, n: nat)
  {
    |h| == HEAP_SIZE && 2 * n <= 572 && elems + n <= |f|
    && forall t :: 0 <= t < n ==> h[571 - 2 * t] < elems + t && h[572 - 2 * t] < elems + t
  }

  /** The tree below node x. */
  ghost function TreeAt(h: seq<nat>, f: seq<nat>, elems: nat, n: nat, x: nat): (r: Tree)
    requires Downward(h, f, elems, n) && x < elems + n
    decreases x
  {
    if x < elems then Leaf(f[x])
    else
      Node(TreeAt(h, f, elems, n, h[571 - 2 * (x - elems)]), TreeAt(h, f, elems, n, h[572 - 2 * (x - elems)]))
  }

  /** The whole tree. */
  ghost function WholeTree(h: seq<nat>, f: seq<nat>, leaves: seq<nat>, elems: nat): (r: Tree)
    requires |leaves| >= 2 && Downward(h, f, elems, |leaves| - 1)
  {
    TreeAt(h, f, elems, |leaves| - 1, elems + |leaves| - 2)
  }

  /** Every leaf's weight with its depth. */
  function DepthsOf(t: Tree, d: nat): (m: multiset<(nat, nat)>)
  {
    match t case Leaf(w) => multiset{(w, d)} case Node(l, r) => DepthsOf(l, d + 1) + DepthsOf(r, d + 1)
  }

  /** The frequencies of some symbols with their lengths. */
  function Pairs(s: seq<nat>, f: seq<nat>, ls: seq<nat>): (r: seq<(nat, nat)>)
    requires forall i :: 0 <= i < |s| ==> s[i] < |f| && s[i] < |ls|
    ensures |r| == |s|
  {
    seq(|s|, i requires 0 <= i < |s| => (f[s[i]], ls[s[i]]))
  }

  lemma DownwardOf(h: seq<nat>, mx: nat, leaves: seq<nat>, elems: nat, f: seq<nat>)
    requires TreeOrder(h, mx, leaves, elems) && elems + |leaves| - 1 <= |f|
    ensures |leaves| >= 2 && Downward(h, f, elems, |leaves| - 1)
  {
    TreeSize(h, mx, leaves, elems);
    forall t | 0 <= t < |leaves| - 1
      ensures h[571 - 2 * t] < elems + t && h[572 - 2 * t] < elems + t
    {
      assert mx < 571 - 2 * t;
      assert FatherAt(elems, 571 - 2 * t) == elems + t && FatherAt(elems, 572 - 2 * t) == elems + t;
    }
  }

  // ---------- what passes unchanged from sons to fathers ----------

  lemma {:induction false} SumZeros(n: nat)
    ensures Sum(seq(n, _ => 0)) == 0
    decreases n
  {
    if n > 0 {
      assert seq(n, _ => 0)[..n - 1] == seq(n - 1, _ => 0);
      SumZeros(n - 1);
    }
  }

  lemma Passed(h: seq<nat>, mx: nat, leaves: seq<nat>, elems: nat, v: seq<nat>)
    requires TreeOrder(h, mx, leaves, elems) && |v| == elems + |leaves| - 1
    requires Downward(h, v, elems, |leaves| - 1)
    requires forall t :: 0 <= t < |leaves| - 1 ==> v[h[571 - 2 * t]] + v[h[572 - 2 * t]] == v[elems + t]
    ensures forall i :: 0 <= i < |leaves| ==> leaves[i] < |v|
    ensures Sum(At(leaves, v)) == v[elems + |leaves| - 2]
  {
    hide TreeOrder, Sum, At;
    TreeSize(h, mx, leaves, elems);
    var d := seq(|leaves| - 1, _ => 0);
    SumZeros(|leaves| - 1);
    Telescope(h, mx, leaves, elems, v, d);
  }

  /** How often a value occurs is the sum of ones for its occurrences. */
  lemma {:induction false} CountSum<T>(s: seq<T>, v: seq<nat>, a: T)
    requires |v| == |s| && forall i :: 0 <= i < |s| ==> v[i] == if s[i] == a then 1 else 0
    ensures multiset(s)[a] == Sum(v)
    decreases |s|
  {
    if s != [] {
      var n := |s| - 1;
      CountSum(s[..n], v[..n], a);
      assert s == s[..n] + [s[n]];
    }
  }

  // ---------- leaves, cost and depths ----------

  lemma SonsOf(h: seq<nat>, f: seq<nat>, elems: nat, n: nat, t: nat)
    requires Downward(h, f, elems, n) && t < n
    ensures h[571 - 2 * t] < elems + t && h[572 - 2 * t] < elems + t
    ensures TreeAt(h, f, elems, n, elems + t)
         == Node(TreeAt(h, f, elems, n, h[571 - 2 * t]), TreeAt(h, f, elems, n, h[572 - 2 * t]))
  {
  }

  lemma LeafAt(h: seq<nat>, f: seq<nat>, elems: nat, n: nat, x: nat)
    requires Downward(h, f, elems, n) && x < elems && x < elems + n
    ensures TreeAt(h, f, elems, n, x) == Leaf(f[x])
  {
  }

  /** Only the weights of the leaves matter. */
  lemma {:induction false} SameTree(h: seq<nat>, f: seq<nat>, g: seq<nat>, elems: nat, n: nat, x: nat)
    requires Downward(h, f, elems, n) && x < elems + n && |g| == |f| && forall y :: 0 <= y < elems ==> g[y] == f[y]
    ensures Downward(h, g, elems, n) && TreeAt(h, g, elems, n, x) == TreeAt(h, f, elems, n, x)
    decreases x
  {
    if x >= elems {
      var t := x - elems;
      SameTree(h, f, g, elems, n, h[571 - 2 * t]);
      SameTree(h, f, g, elems, n, h[572 - 2 * t]);
    }
  }

  lemma MergedLeaves(h: seq<nat>, mx: nat, leaves: seq<nat>, elems: nat, f: seq<nat>)
    requires TreeOrder(h, mx, leaves, elems) && elems + |leaves| - 1 <= |f|
    requires |leaves| >= 2 && Downward(h, f, elems, |leaves| - 1)
    ensures forall i :: 0 <= i < |leaves| ==> leaves[i] < |f|
    ensures Leaves(WholeTree(h, f, leaves, elems)) == multiset(At(leaves, f))
  {
    hide TreeOrder, TreeAt, Sum, At, Downward;
    TreeSize(h, mx, leaves, elems);
    var n := |leaves| - 1;
    forall w: nat
      ensures Leaves(WholeTree(h, f, leaves, elems))[w] == multiset(At(leaves, f))[w]
    {
      var v := seq(elems + n, x requires 0 <= x < elems + n => Leaves(TreeAt(h, f, elems, n, x))[w]);
      forall t | 0 <= t < n
        ensures h[571 - 2 * t] < elems + t && h[572 - 2 * t] < elems + t
        ensures v[h[571 - 2 * t]] + v[h[572 - 2 * t]] == v[elems + t]
      {
        SonsOf(h, f, elems, n, t);
      }
      DownwardIs(h, v, elems, n);
      Passed(h, mx, leaves, elems, v);
      forall i | 0 <= i < |leaves|
        ensures v[leaves[i]] == if f[leaves[i]] == w then 1 else 0
      {
        LeafAt(h, f, elems, n, leaves[i]);
      }
      OnesAt(leaves, f, v, w);
    }
  }

  lemma DownwardIs(h: seq<nat>, v: seq<nat>, elems: nat, n: nat)
    requires |h| == HEAP_SIZE && 2 * n <= 572 && elems + n <= |v|
    requires forall t :: 0 <= t < n ==> h[571 - 2 * t] < elems + t && h[572 - 2 * t] < elems + t
    ensures Downward(h, v, elems, n)
  {
  }

  lemma OnesAt(s: seq<nat>, f: seq<nat>, v: seq<nat>, w: nat)
    requires forall i :: 0 <= i < |s| ==> s[i] < |f| && s[i] < |v| && v[s[i]] == if f[s[i]] == w then 1 else 0
    ensures multiset(At(s, f))[w] == Sum(At(s, v))
  {
    hide Sum;
    CountSum(At(s, f), At(s, v), w);
  }

  /** Depths that are not clamped: every son is one deeper than its father. */
  ghost predicate Deepening(h: seq<nat>, d: seq<nat>, elems: nat, n: nat)
    requires Downward(h, d, elems, n)
  {
    (n >= 1 ==> d[elems + n - 1] == 0)
    && forall t :: 0 <= t < n ==> d[h[571 - 2 * t]] == d[elems + t] + 1 == d[h[572 - 2 * t]]
  }

  lemma MergedDepths(h: seq<nat>, mx: nat, leaves: seq<nat>, elems: nat, f: seq<nat>, d: seq<nat>)
    requires TreeOrder(h, mx, leaves, elems) && elems + |leaves| - 1 <= |f| && elems + |leaves| - 1 <= |d|
    requires |leaves| >= 2 && Downward(h, f, elems, |leaves| - 1) && Downward(h, d, elems, |leaves| - 1)
    requires Deepening(h, d, elems, |leaves| - 1)
    ensures forall i :: 0 <= i < |leaves| ==> leaves[i] < |f| && leaves[i] < |d|
    ensures DepthsOf(WholeTree(h, f, leaves, elems), 0) == multiset(Pairs(leaves, f, d))
  {
    hide TreeOrder, TreeAt, Sum, At, Downward;
    TreeSize(h, mx, leaves, elems);
    var n := |leaves| - 1;
    forall w: (nat, nat)
      ensures DepthsOf(WholeTree(h, f, leaves, elems), 0)[w] == multiset(Pairs(leaves, f, d))[w]
    {
      var v := seq(elems + n, x requires 0 <= x < elems + n => DepthsOf(TreeAt(h, f, elems, n, x), d[x])[w]);
      forall t | 0 <= t < n
        ensures h[571 - 2 * t] < elems + t && h[572 - 2 * t] < elems + t
        ensures v[h[571 - 2 * t]] + v[h[572 - 2 * t]] == v[elems + t]
      {
        SonsOf(h, f, elems, n, t);
      }
      DownwardIs(h, v, elems, n);
      Passed(h, mx, leaves, elems, v);
      forall i | 0 <= i < |leaves|
        ensures v[leaves[i]] == if (f[leaves[i]], d[leaves[i]]) == w then 1 else 0
      {
        LeafAt(h, f, elems, n, leaves[i]);
      }
      AtIs(leaves, v);
      CountSum(Pairs(leaves, f, d), At(leaves, v), w);
    }
  }

  lemma AtIs(s: seq<nat>, v: seq<nat>)
    requires forall i :: 0 <= i < |s| ==> s[i] < |v|
    ensures forall i :: 0 <= i < |s| ==> At(s, v)[i] == v[s[i]]
  {
  }

  lemma {:induction false} MergedWeight(h: seq<nat>, mx: nat, f: seq<nat>, elems: nat, n: nat, x: nat)
    requires Downward(h, f, elems, n) && x < elems + n && Weighed(h, mx, f, elems, elems + n)
    ensures Weight(TreeAt(h, f, elems, n, x)) == f[x]
    decreases x
  {
    if x >= elems {
      var t := x - elems;
      MergedWeight(h, mx, f, elems, n, h[571 - 2 * t]);
      MergedWeight(h, mx, f, elems, n, h[572 - 2 * t]);
    }
  }

  lemma CostPasses(a: nat, b: nat, x: nat, y: nat, k: nat)
    ensures (a + (k + 1) * x) + (b + (k + 1) * y) == (a + b + x + y) + k * (x + y)
  {
  }

  lemma MergedCost(h: seq<nat>, mx: nat, leaves: seq<nat>, elems: nat, f: seq<nat>, d: seq<nat>)
    requires TreeOrder(h, mx, leaves, elems) && elems + |leaves| - 1 <= |f| == |d|
    requires |leaves| >= 2 && Downward(h, f, elems, |leaves| - 1) && Downward(h, d, elems, |leaves| - 1)
    requires Deepening(h, d, elems, |leaves| - 1) && Weighed(h, mx, f, elems, elems + |leaves| - 1)
    ensures forall i :: 0 <= i < |leaves| ==> leaves[i] < |f|
    ensures Cost(WholeTree(h, f, leaves, elems)) == Sum(At(leaves, CostSeq(d, f)))
  {
    hide TreeOrder, TreeAt, Sum, At, Downward, Weighed, Weight, Cost;
    TreeSize(h, mx, leaves, elems);
    var n := |leaves| - 1;
    var v := seq(elems + n, x requires 0 <= x < elems + n => Cost(TreeAt(h, f, elems, n, x)) + d[x] * f[x]);
    forall t | 0 <= t < n
      ensures h[571 - 2 * t] < elems + t && h[572 - 2 * t] < elems + t
      ensures v[h[571 - 2 * t]] + v[h[572 - 2 * t]] == v[elems + t]
    {
      SonsOf(h, f, elems, n, t);
      var a, b := h[571 - 2 * t], h[572 - 2 * t];
      var l, r := TreeAt(h, f, elems, n, a), TreeAt(h, f, elems, n, b);
      MergedWeight(h, mx, f, elems, n, a);
      MergedWeight(h, mx, f, elems, n, b);
      MergedWeight(h, mx, f, elems, n, elems + t);
      NodeCost(l, r);
      CostPasses(Cost(l), Cost(r), f[a], f[b], d[elems + t]);
    }
    DownwardIs(h, v, elems, n);
    Passed(h, mx, leaves, elems, v);
    forall i | 0 <= i < |leaves|
      ensures v[leaves[i]] == CostSeq(d, f)[leaves[i]]
    {
      LeafAt(h, f, elems, n, leaves[i]);
      NoCost(f[leaves[i]]);
    }
    AtIs(leaves, v);
    AtIs(leaves, CostSeq(d, f));
    assert At(leaves, v) == At(leaves, CostSeq(d, f));
  }

  lemma NodeCost(l: Tree, r: Tree)
    ensures Cost(Node(l, r)) == Cost(l) + Cost(r) + Weight(l) + Weight(r) && Weight(Node(l, r)) == Weight(l) + Weight(r)
  {
  }

  lemma NoCost(w: nat)
    ensures Cost(Leaf(w)) == 0
  {
  }

  // ---------- depths ----------

  /** An internal node is no deeper than the number of internal nodes above it. */
  lemma {:induction false} DepthBound(h: seq<nat>, mx: nat, leaves: seq<nat>, elems: nat, ls: seq<nat>, max: nat,
                                      t: nat)
    requires TreeOrder(h, mx, leaves, elems) && Depths(h, mx, ls, elems, max) && max >= 1
    requires t < |leaves| - 1
    ensures elems + t < |ls| && ls[elems + t] <= |leaves| - 2 - t
    decreases |leaves| - t
  {
    hide TreeOrder;
    TreeSize(h, mx, leaves, elems);
    var p := InternalDepth(h, mx, leaves, elems, ls, max, t);
    if p > mx {
      FatherRange(mx, leaves, elems, p);
      DepthBound(h, mx, leaves, elems, ls, max, FatherAt(elems, p) - elems);
    }
  }

  /** The depths as they would be without a limit. */
  lemma TrueDepths(h: seq<nat>, mx: nat, dad: seq<nat>, leaves: seq<nat>, elems: nat) returns (d: seq<nat>)
    requires TreeOrder(h, mx, leaves, elems) && elems + |leaves| - 1 <= |dad| && Fathers(h, mx + 1, dad, elems)
    ensures |d| == |dad| && |leaves| >= 2 && Downward(h, d, elems, |leaves| - 1) && Deepening(h, d, elems, |leaves| - 1)
    ensures mx < HEAP_SIZE && Depths(h, mx, d, elems, HEAP_SIZE)
  {
    hide TreeOrder, Fathers, PassState, Depths, Downward;
    TreeSize(h, mx, leaves, elems);
    PassStart(h, mx, dad, leaves, elems, HEAP_SIZE);
    d := dad[h[mx] := 0];
    var p := mx + 1;
    while p < HEAP_SIZE
      invariant mx < p <= HEAP_SIZE && |d| == |dad| && PassState(h, mx, p, d, leaves, elems, HEAP_SIZE)
    {
      PassStep(h, mx, p, d, leaves, elems, HEAP_SIZE);
      var b := d[d[h[p]]] + 1;
      d := d[h[p] := if b > HEAP_SIZE then HEAP_SIZE else b];
      p := p + 1;
    }
    PassEnd(h, mx, d, leaves, elems, HEAP_SIZE);
    DownwardOf(h, mx, leaves, elems, d);
    RootDepth(h, mx, leaves, elems, d);
    forall t | 0 <= t < |leaves| - 1
      ensures h[571 - 2 * t] < elems + t && h[572 - 2 * t] < elems + t
      ensures d[h[571 - 2 * t]] == d[elems + t] + 1 == d[h[572 - 2 * t]]
    {
      DepthBound(h, mx, leaves, elems, d, HEAP_SIZE, t);
      SonDepth(h, mx, leaves, elems, d, HEAP_SIZE, t);
      SonsOf(h, d, elems, |leaves| - 1, t);
    }
  }

  lemma RootDepth(h: seq<nat>, mx: nat, leaves: seq<nat>, elems: nat, d: seq<nat>)
    requires TreeOrder(h, mx, leaves, elems) && mx < HEAP_SIZE && Depths(h, mx, d, elems, HEAP_SIZE)
    ensures elems + |leaves| - 2 < |d| && d[elems + |leaves| - 2] == 0
  {
    TreeSize(h, mx, leaves, elems);
  }

  /** Clamping cuts the depths of the internal nodes at the limit. */
  lemma {:induction false} ClampedIs(h: seq<nat>, mx: nat, leaves: seq<nat>, elems: nat, ls: seq<nat>, max: nat,
                                     d: seq<nat>, t: nat)
    requires TreeOrder(h, mx, leaves, elems) && Depths(h, mx, ls, elems, max) && Depths(h, mx, d, elems, HEAP_SIZE)
    requires 1 <= max <= HEAP_SIZE && t < |leaves| - 1
    ensures elems + t < |ls| && elems + t < |d|
    ensures ls[elems + t] == if d[elems + t] > max then max else d[elems + t]
    decreases |leaves| - t
  {
    hide TreeOrder;
    TreeSize(h, mx, leaves, elems);
    var p := InternalDepth(h, mx, leaves, elems, ls, max, t);
    if p > mx {
      FatherRange(mx, leaves, elems, p);
      var u := FatherAt(elems, p) - elems;
      ClampedIs(h, mx, leaves, elems, ls, max, d, u);
      DepthBound(h, mx, leaves, elems, d, HEAP_SIZE, u);
    }
  }

  /** With every internal node above the limit, no node below any of them lies deeper than the limit. */
  lemma {:induction false} HeightLow(h: seq<nat>, f: seq<nat>, elems: nat, n: nat, d: seq<nat>, max: nat, t: nat)
    requires Downward(h, f, elems, n) && Downward(h, d, elems, n) && Deepening(h, d, elems, n)
    requires (forall x :: elems <= x < elems + n ==> d[x] < max) && t < n
    ensures d[elems + t] + Height(TreeAt(h, f, elems, n, elems + t)) <= max
    decreases t
  {
    SonsOf(h, f, elems, n, t);
    forall i | i == 571 - 2 * t || i == 572 - 2 * t
      ensures d[h[i]] + Height(TreeAt(h, f, elems, n, h[i])) <= max
    {
      if h[i] >= elems {
        HeightLow(h, f, elems, n, d, max, h[i] - elems);
      } else {
        LeafAt(h, f, elems, n, h[i]);
      }
    }
  }

  /** The tree is higher than any internal node is deep. */
  lemma {:induction false} HeightHigh(h: seq<nat>, mx: nat, leaves: seq<nat>, elems: nat, f: seq<nat>, d: seq<nat>,
                                      t: nat)
    requires TreeOrder(h, mx, leaves, elems) && |leaves| >= 2 && t < |leaves| - 1
    requires Downward(h, f, elems, |leaves| - 1) && Downward(h, d, elems, |leaves| - 1)
    requires Deepening(h, d, elems, |leaves| - 1) && Depths(h, mx, d, elems, HEAP_SIZE)
    ensures d[elems + t] + Height(TreeAt(h, f, elems, |leaves| - 1, elems + t))
      <= Height(WholeTree(h, f, leaves, elems))
    decreases |leaves| - t
  {
    hide TreeOrder, Downward, TreeAt;
    TreeSize(h, mx, leaves, elems);
    var n := |leaves| - 1;
    if t < n - 1 {
      var p := InternalDepth(h, mx, leaves, elems, d, HEAP_SIZE, t);
      FatherRange(mx, leaves, elems, p);
      var u := FatherAt(elems, p) - elems;
      HeightHigh(h, mx, leaves, elems, f, d, u);
      SonsOf(h, f, elems, n, u);
      assert p == 571 - 2 * u || p == 572 - 2 * u;
    }
  }

  lemma SumNothing(s: seq<nat>)
    ensures Sum(s) == 0 <==> forall i :: 0 <= i < |s| ==> s[i] == 0
  {
    if forall i :: 0 <= i < |s| ==> s[i] == 0 {
      assert s == seq(|s|, _ => 0);
      SumZeros(|s|);
    } else {
      var i :| 0 <= i < |s| && s[i] != 0;
      SumBounds(s, i);
    }
  }

  /** Something was clamped exactly if the tree is higher than the limit. */
  lemma ClampedExactly(h: seq<nat>, mx: nat, leaves: seq<nat>, elems: nat, f: seq<nat>, ls: seq<nat>, max: nat,
                       d: seq<nat>)
    requires TreeOrder(h, mx, leaves, elems) && 1 <= max <= HEAP_SIZE && elems + |leaves| - 1 <= |ls|
    requires mx < HEAP_SIZE && Depths(h, mx, ls, elems, max) && Depths(h, mx, d, elems, HEAP_SIZE)
    requires elems + |leaves| - 1 <= |d| && |leaves| >= 2 && Downward(h, f, elems, |leaves| - 1)
      && Downward(h, d, elems, |leaves| - 1)
    requires Deepening(h, d, elems, |leaves| - 1)
    ensures Sum(AtLimit(ls, elems, |leaves| - 1, max)) == 0 <==> Height(WholeTree(h, f, leaves, elems)) <= max
  {
    hide TreeOrder, Depths, Downward, Sum, TreeAt;
    var n := |leaves| - 1;
    var a := AtLimit(ls, elems, n, max);
    SumNothing(a);
    forall t | 0 <= t < n
      ensures a[t] == 0 <==> d[elems + t] < max
    {
      ClampedIs(h, mx, leaves, elems, ls, max, d, t);
    }
    if Sum(a) == 0 {
      forall x | elems <= x < elems + n
        ensures d[x] < max
      {
        assert a[x - elems] == 0;
      }
      HeightLow(h, f, elems, n, d, max, n - 1);
    } else {
      var t :| 0 <= t < n && a[t] != 0;
      HeightHigh(h, mx, leaves, elems, f, d, t);
      SonsOf(h, f, elems, n, t);
    }
  }

  /** Where nothing is clamped, the lengths of the leaves are their depths. */
  lemma UnclampedIs(h: seq<nat>, mx: nat, leaves: seq<nat>, elems: nat, ls: seq<nat>, max: nat, d: seq<nat>)
    requires TreeOrder(h, mx, leaves, elems) && 1 <= max <= HEAP_SIZE && elems + |leaves| - 1 <= |ls|
    requires mx < HEAP_SIZE && Depths(h, mx, ls, elems, max) && Depths(h, mx, d, elems, HEAP_SIZE)
    requires Sum(AtLimit(ls, elems, |leaves| - 1, max)) == 0
    ensures forall i :: 0 <= i < |leaves| ==> leaves[i] < |ls| && leaves[i] < |d| && ls[leaves[i]] == d[leaves[i]]
  {
    hide TreeOrder, Sum, AtLimit;
    TreeSize(h, mx, leaves, elems);
    forall i | 0 <= i < |leaves|
      ensures leaves[i] < |ls| && leaves[i] < |d| && ls[leaves[i]] == d[leaves[i]]
    {
      var p := LeafPlaced(h, mx, leaves, elems, i);
      FatherRange(mx, leaves, elems, p);
      var u := FatherAt(elems, p) - elems;
      ClampedIs(h, mx, leaves, elems, ls, max, d, u);
      DepthBound(h, mx, leaves, elems, d, HEAP_SIZE, u);
      NotAtLimit(ls, elems, |leaves| - 1, max, u);
    }
  }

  lemma NotAtLimit(ls: seq<nat>, elems: nat, n: nat, max: nat, u: nat)
    requires elems + n <= |ls| && u < n && Sum(AtLimit(ls, elems, n, max)) == 0
    ensures ls[elems + u] != max
  {
    hide Sum;
    SumNothing(AtLimit(ls, elems, n, max));
    assert AtLimit(ls, elems, n, max)[u] == 0;
  }

  lemma LeafPlaced(h: seq<nat>, mx: nat, leaves: seq<nat>, elems: nat, i: nat) returns (p: nat)
    requires TreeOrder(h, mx, leaves, elems) && i < |leaves|
    ensures mx < p < HEAP_SIZE && h[p] == leaves[i]
  {
    TreeSize(h, mx, leaves, elems);
    assert leaves[i] in multiset(leaves);
    assert leaves[i] in multiset(h[mx..]);
    var j :| 0 <= j < |h[mx..]| && h[mx..][j] == leaves[i];
    p := mx + j;
    assert h[p] == leaves[i] && h[mx] >= elems;
  }

  // ---------- the result ----------

  /** The tree over the leaves, whose cost nothing undercuts, and the lengths it gives unless it is too high. */
  ghost predicate Gives(t: Tree, leaves: seq<nat>, f: seq<nat>, ls: seq<nat>, max: nat)
    requires forall i :: 0 <= i < |leaves| ==> leaves[i] < |f| && leaves[i] < |ls|
  {
    Height(t) <= max ==> DepthsOf(t, 0) == multiset(Pairs(leaves, f, ls))
  }

  lemma MergedGives(h: seq<nat>, mx: nat, leaves: seq<nat>, elems: nat, f: seq<nat>, ls: seq<nat>, max: nat,
                    dad: seq<nat>)
    requires TreeOrder(h, mx, leaves, elems) && 1 <= max <= HEAP_SIZE && elems + |leaves| - 1 <= |ls| == |f| == |dad|
    requires mx < HEAP_SIZE && Depths(h, mx, ls, elems, max) && Fathers(h, mx + 1, dad, elems)
    requires Weighed(h, mx, f, elems, elems + |leaves| - 1)
    ensures |leaves| >= 2 && Downward(h, f, elems, |leaves| - 1)
    ensures forall i :: 0 <= i < |leaves| ==> leaves[i] < |f|
    ensures var t := WholeTree(h, f, leaves, elems);
            && Leaves(t) == multiset(At(leaves, f))
            && Cost(t) == Sum(f[elems..elems + |leaves| - 1])
            && (Sum(AtLimit(ls, elems, |leaves| - 1, max)) == 0 <==> Height(t) <= max)
            && Gives(t, leaves, f, ls, max)
  {
    hide TreeOrder, Depths, Fathers, Weighed, Downward, Sum, At, TreeAt, AtLimit, CostSeq, Leaves, Cost, Height,
      DepthsOf, Pairs;
    DownwardOf(h, mx, leaves, elems, f);
    var d := TrueDepths(h, mx, dad, leaves, elems);
    MergedLeaves(h, mx, leaves, elems, f);
    MergedCost(h, mx, leaves, elems, f, d);
    MergedDepths(h, mx, leaves, elems, f, d);
    ClampedExactly(h, mx, leaves, elems, f, ls, max, d);
    ClampedExactly(h, mx, leaves, elems, f, d, HEAP_SIZE, d);
    NeverAtTop(h, mx, leaves, elems, d);
    UnclampedCost(h, mx, leaves, elems, d, f, HEAP_SIZE);
    if Sum(AtLimit(ls, elems, |leaves| - 1, max)) == 0 {
      UnclampedIs(h, mx, leaves, elems, ls, max, d);
      SamePairs(leaves, f, ls, d);
    }
  }

  lemma NeverAtTop(h: seq<nat>, mx: nat, leaves: seq<nat>, elems: nat, d: seq<nat>)
    requires TreeOrder(h, mx, leaves, elems) && mx < HEAP_SIZE && Depths(h, mx, d, elems, HEAP_SIZE)
    requires elems + |leaves| - 1 <= |d|
    ensures Sum(AtLimit(d, elems, |leaves| - 1, HEAP_SIZE)) == 0
  {
    hide TreeOrder, Depths, Sum;
    TreeSize(h, mx, leaves, elems);
    var a := AtLimit(d, elems, |leaves| - 1, HEAP_SIZE);
    forall t | 0 <= t < |leaves| - 1
      ensures a[t] == 0
    {
      DepthBound(h, mx, leaves, elems, d, HEAP_SIZE, t);
    }
    SumNothing(a);
  }

  lemma SamePairs(s: seq<nat>, f: seq<nat>, ls: seq<nat>, d: seq<nat>)
    requires forall i :: 0 <= i < |s| ==> s[i] < |f| && s[i] < |ls| && s[i] < |d| && ls[s[i]] == d[s[i]]
    ensures Pairs(s, f, ls) == Pairs(s, f, d)
  {
  }
}
