/** From the merged tree to code lengths: what the clamped depths add up to. */
module TreeDepths {
  import opened Bits
  import opened Canonical
  import opened MergeTheory
  import opened LengthLimit

  /** The finished tree: positions mx.. of the heap array hold all nodes, the root first, and the
      two sons of internal node elems + t at positions 571 - 2t and 572 - 2t. */
  ghost predicate TreeOrder(h: seq<nat>, mx: nat, leaves: seq<nat>, elems: nat)
  {
    |h| == HEAP_SIZE && LeafList(leaves, elems)
    && mx == HEAP_SIZE + 1 - 2 * |leaves| && h[mx] == elems + |leaves| - 2
    && multiset(h[mx..]) == multiset(leaves) + multiset(Range(elems, elems + |leaves| - 1))
    && forall p :: mx < p < HEAP_SIZE ==> h[p] < FatherAt(elems, p)
  }

  /** Clamped depths: every son is one deeper than its father, but no deeper than max. */
  ghost predicate Depths(h: seq<nat>, mx: nat, ls: seq<nat>, elems: nat, max: nat)
    requires |h| == HEAP_SIZE && mx < HEAP_SIZE
  {
    (forall p :: mx <= p < HEAP_SIZE ==> h[p] < |ls|)
    && ls[h[mx]] == 0
    && forall p :: mx < p < HEAP_SIZE ==>
         FatherAt(elems, p) < |ls|
         && ls[h[p]] == if ls[FatherAt(elems, p)] + 1 > max then max else ls[FatherAt(elems, p)] + 1
  }

  // ---------- telescoping over the tree ----------

  /** d[t] is what the sons of node elems + t have more of v than it has itself. */
  ghost predicate Gains(h: seq<nat>, v: seq<nat>, d: seq<nat>, elems: nat)
    requires |h| == HEAP_SIZE
  {
    2 * |d| <= 572
    && forall t :: 0 <= t < |d| ==>
         elems + t < |v| && h[572 - 2 * t] < |v| && h[571 - 2 * t] < |v|
         && v[h[571 - 2 * t]] + v[h[572 - 2 * t]] == v[elems + t] + d[t]
  }

  lemma {:induction false} TelescopePairs(h: seq<nat>, v: seq<nat>, d: seq<nat>, elems: nat, k: nat)
    requires |h| == HEAP_SIZE && Gains(h, v, d, elems) && k <= |d|
    requires forall p :: HEAP_SIZE - 2 * k <= p < HEAP_SIZE ==> h[p] < |v|
    requires elems + k <= |v|
    ensures Sum(At(h[HEAP_SIZE - 2 * k..], v)) == Sum(v[elems..elems + k]) + Sum(d[..k])
    decreases k
  {
    hide Sum;
    if k == 0 {
      SumNone();
      assert At(h[HEAP_SIZE..], v) == [] && v[elems..elems] == [] && d[..0] == [];
    } else {
      TelescopePairs(h, v, d, elems, k - 1);
      var p := HEAP_SIZE - 2 * k;
      var t := k - 1;
      assert h[p..] == [h[p], h[p + 1]] + h[p + 2..];
      assert At(h[p..], v) == [v[h[p]], v[h[p + 1]]] + At(h[p + 2..], v);
      SumAppend([v[h[p]], v[h[p + 1]]], At(h[p + 2..], v));
      SumTwo(v[h[p]], v[h[p + 1]]);
      assert v[elems..elems + k] == v[elems..elems + t] + [v[elems + t]];
      SumAppend(v[elems..elems + t], [v[elems + t]]);
      SumOne(v[elems + t]);
      SumTake(d, t);
    }
  }

  lemma SumNone()
    ensures Sum([]) == 0
  {
  }

  lemma SumTwo(x: nat, y: nat)
    ensures Sum([x, y]) == x + y
  {
    SumOne(x);
    SumAppend([x], [y]);
    SumOne(y);
    assert [x] + [y] == [x, y];
  }

  lemma AtRange(v: seq<nat>, a: nat, b: nat)
    requires a <= b <= |v|
    ensures At(Range(a, b), v) == v[a..b]
  {
  }

  lemma AtAppend(a: seq<nat>, b: seq<nat>, v: seq<nat>)
    requires forall i :: 0 <= i < |a| ==> a[i] < |v|
    requires forall i :: 0 <= i < |b| ==> b[i] < |v|
    ensures forall i :: 0 <= i < |a + b| ==> (a + b)[i] < |v|
    ensures At(a + b, v) == At(a, v) + At(b, v)
  {
  }

  lemma PlacedBelow(h: seq<nat>, mx: nat, leaves: seq<nat>, elems: nat, n: nat)
    requires TreeOrder(h, mx, leaves, elems) && elems + |leaves| - 1 <= n
    ensures forall p :: mx <= p < HEAP_SIZE ==> h[p] < n
    ensures forall i :: 0 <= i < |leaves| ==> leaves[i] < n
  {
    var inner := Range(elems, elems + |leaves| - 1);
    forall p | mx <= p < HEAP_SIZE ensures h[p] < n {
      assert h[mx..][p - mx] == h[p];
      assert h[p] in multiset(leaves) + multiset(inner);
    }
  }

  /** All placed nodes: the leaves and the internal nodes. */
  lemma PlacedSum(h: seq<nat>, mx: nat, leaves: seq<nat>, elems: nat, v: seq<nat>)
    requires TreeOrder(h, mx, leaves, elems) && elems + |leaves| - 1 <= |v|
    requires forall i :: 0 <= i < |leaves| ==> leaves[i] < |v|
    requires forall p :: mx <= p < HEAP_SIZE ==> h[p] < |v|
    ensures Sum(At(h[mx..], v)) == Sum(At(leaves, v)) + Sum(v[elems..elems + |leaves| - 1])
  {
    hide Sum, LeafList, At;
    var k := |leaves| - 1;
    var inner := Range(elems, elems + k);
    assert multiset(leaves + inner) == multiset(h[mx..]);
    AtPerm(h[mx..], leaves + inner, v);
    SumPerm(At(h[mx..], v), At(leaves + inner, v));
    AtAppend(leaves, inner, v);
    SumAppend(At(leaves, v), At(inner, v));
    AtRange(v, elems, elems + k);
  }

  /** Over all leaves, v sums to what the root has plus all gains. */
  lemma Telescope(h: seq<nat>, mx: nat, leaves: seq<nat>, elems: nat, v: seq<nat>, d: seq<nat>)
    requires TreeOrder(h, mx, leaves, elems) && |d| == |leaves| - 1
    requires Gains(h, v, d, elems)
    requires elems + |leaves| - 1 <= |v|
    ensures forall i :: 0 <= i < |leaves| ==> leaves[i] < |v|
    ensures h[mx] < |v| && Sum(At(leaves, v)) == v[h[mx]] + Sum(d)
  {
    hide Sum, Gains, LeafList, At;
    var k := |leaves| - 1;
    PlacedBelow(h, mx, leaves, elems, |v|);
    PlacedSum(h, mx, leaves, elems, v);
    TelescopePairs(h, v, d, elems, k);
    assert HEAP_SIZE - 2 * k == mx + 1 && d[..k] == d;
    assert h[mx..] == [h[mx]] + h[mx + 1..];
    AtAppend([h[mx]], h[mx + 1..], v);
    SumAppend(At([h[mx]], v), At(h[mx + 1..], v));
    AtOne(h[mx], v);
  }

  lemma AtOne(x: nat, v: seq<nat>)
    requires x < |v|
    ensures At([x], v) == [v[x]] && Sum(At([x], v)) == v[x]
  {
    SumOne(v[x]);
    assert At([x], v) == [v[x]];
  }

  // ---------- the three instances ----------

  function UnitSeq(ls: seq<nat>, max: nat): (v: seq<nat>)
    ensures |v| == |ls|
  {
    seq(|ls|, i requires 0 <= i < |ls| => if ls[i] <= max then Pow2(max - ls[i]) else 0)
  }

  function FullSeq(ls: seq<nat>, max: nat): (v: seq<nat>)
    ensures |v| == |ls|
  {
    seq(|ls|, i requires 0 <= i < |ls| => if ls[i] == max then 1 else 0)
  }

  function CostSeq(ls: seq<nat>, f: seq<nat>): (v: seq<nat>)
    requires |f| == |ls|
    ensures |v| == |ls|
  {
    seq(|ls|, i requires 0 <= i < |ls| => f[i] * ls[i])
  }

  /** Whether each internal node sits at the maximal depth. */
  function AtLimit(ls: seq<nat>, elems: nat, n: nat, max: nat): (d: seq<nat>)
    requires elems + n <= |ls|
    ensures |d| == n
  {
    seq(n, t requires 0 <= t < n => if ls[elems + t] == max then 1 else 0)
  }

  function NearLimit(ls: seq<nat>, elems: nat, n: nat, max: nat): (d: seq<nat>)
    requires elems + n <= |ls|
    ensures |d| == n
  {
    seq(n, t requires 0 <= t < n =>
      if ls[elems + t] == max then 1 else if ls[elems + t] + 1 == max then 2 else 0)
  }

  lemma SonDepth(h: seq<nat>, mx: nat, leaves: seq<nat>, elems: nat, ls: seq<nat>, max: nat, t: nat)
    requires TreeOrder(h, mx, leaves, elems) && Depths(h, mx, ls, elems, max)
    requires t < |leaves| - 1
    ensures elems + t < |ls| && h[572 - 2 * t] < |ls| && h[571 - 2 * t] < |ls|
    ensures ls[h[572 - 2 * t]] == ls[h[571 - 2 * t]]
         == if ls[elems + t] + 1 > max then max else ls[elems + t] + 1
  {
    hide LeafList;
    assert mx < 571 - 2 * t;
    assert FatherAt(elems, 571 - 2 * t) == elems + t && FatherAt(elems, 572 - 2 * t) == elems + t;
  }

  /** Every internal node is one of the placed nodes; its clamped depth is at most max. */
  lemma InternalDepth(h: seq<nat>, mx: nat, leaves: seq<nat>, elems: nat, ls: seq<nat>, max: nat, t: nat)
      returns (p: nat)
    requires TreeOrder(h, mx, leaves, elems) && Depths(h, mx, ls, elems, max) && max >= 1
    requires t < |leaves| - 1
    ensures mx <= p < HEAP_SIZE && h[p] == elems + t < |ls| && ls[elems + t] <= max
    ensures p == mx <==> t == |leaves| - 2
    ensures p > mx ==> elems + t < FatherAt(elems, p)
  {
    hide LeafList, Distinct;
    var e := elems + t;
    assert e in Range(elems, elems + |leaves| - 1) by {
      assert Range(elems, elems + |leaves| - 1)[t] == e;
    }
    assert e in multiset(h[mx..]);
    var i :| 0 <= i < |h[mx..]| && h[mx..][i] == e;
    p := mx + i;
    assert h[p] == e;
    if p > mx {
      FatherRange(mx, leaves, elems, p);
    }
  }

  lemma FatherRange(mx: nat, leaves: seq<nat>, elems: nat, p: nat)
    requires |leaves| >= 2 && mx == HEAP_SIZE + 1 - 2 * |leaves| && mx < p < HEAP_SIZE
    ensures elems <= FatherAt(elems, p) <= elems + |leaves| - 2
  {
    assert 2 * |leaves| <= 574;
    assert (572 - p) / 2 <= |leaves| - 2;
  }

  lemma UnitGains(h: seq<nat>, mx: nat, leaves: seq<nat>, elems: nat, ls: seq<nat>, max: nat)
    requires TreeOrder(h, mx, leaves, elems) && Depths(h, mx, ls, elems, max) && max >= 1
    requires elems + |leaves| - 1 <= |ls|
    ensures Gains(h, UnitSeq(ls, max), AtLimit(ls, elems, |leaves| - 1, max), elems)
    ensures Gains(h, FullSeq(ls, max), NearLimit(ls, elems, |leaves| - 1, max), elems)
  {
    hide TreeOrder, Depths, Pow2;
    var n := |leaves| - 1;
    TreeSize(h, mx, leaves, elems);
    var v, d := UnitSeq(ls, max), AtLimit(ls, elems, n, max);
    forall t | 0 <= t < n
      ensures elems + t < |v| && h[572 - 2 * t] < |v| && h[571 - 2 * t] < |v|
           && v[h[571 - 2 * t]] + v[h[572 - 2 * t]] == v[elems + t] + d[t]
    {
      PairGains(h, mx, leaves, elems, ls, max, t);
    }
    var w, c := FullSeq(ls, max), NearLimit(ls, elems, n, max);
    forall t | 0 <= t < n
      ensures elems + t < |w| && h[572 - 2 * t] < |w| && h[571 - 2 * t] < |w|
           && w[h[571 - 2 * t]] + w[h[572 - 2 * t]] == w[elems + t] + c[t]
    {
      PairGains(h, mx, leaves, elems, ls, max, t);
    }
  }

  lemma PairGains(h: seq<nat>, mx: nat, leaves: seq<nat>, elems: nat, ls: seq<nat>, max: nat, t: nat)
    requires TreeOrder(h, mx, leaves, elems) && Depths(h, mx, ls, elems, max) && max >= 1
    requires elems + |leaves| - 1 <= |ls| && t < |leaves| - 1
    ensures |h| == HEAP_SIZE && 2 * t + 1 <= 571
    ensures elems + t < |ls| && h[572 - 2 * t] < |ls| && h[571 - 2 * t] < |ls|
    ensures var v, d := UnitSeq(ls, max), AtLimit(ls, elems, |leaves| - 1, max);
            v[h[571 - 2 * t]] + v[h[572 - 2 * t]] == v[elems + t] + d[t]
    ensures var w, c := FullSeq(ls, max), NearLimit(ls, elems, |leaves| - 1, max);
            w[h[571 - 2 * t]] + w[h[572 - 2 * t]] == w[elems + t] + c[t]
  {
    hide TreeOrder, Depths, Pow2;
    TreeSize(h, mx, leaves, elems);
    SonDepth(h, mx, leaves, elems, ls, max, t);
    var p := InternalDepth(h, mx, leaves, elems, ls, max, t);
    if ls[elems + t] < max {
      HalfPow(max - ls[elems + t]);
    }
    PowNone();
  }

  lemma TreeSize(h: seq<nat>, mx: nat, leaves: seq<nat>, elems: nat)
    requires TreeOrder(h, mx, leaves, elems)
    ensures |h| == HEAP_SIZE && mx < HEAP_SIZE && 2 <= |leaves| <= 286 && elems <= 286
    ensures mx == HEAP_SIZE + 1 - 2 * |leaves| && h[mx] == elems + |leaves| - 2
    ensures forall i :: 0 <= i < |leaves| ==> leaves[i] < elems
  {
  }

  /** Clamping makes the Kraft excess one unit for every internal node at the limit. */
  lemma ClampedKraft(h: seq<nat>, mx: nat, leaves: seq<nat>, elems: nat, ls: seq<nat>, max: nat)
    requires TreeOrder(h, mx, leaves, elems) && Depths(h, mx, ls, elems, max) && max >= 1
    requires elems + |leaves| - 1 <= |ls|
    ensures forall i :: 0 <= i < |leaves| ==> leaves[i] < |ls|
    ensures Sum(At(leaves, UnitSeq(ls, max))) == Pow2(max) + Sum(AtLimit(ls, elems, |leaves| - 1, max))
    ensures Sum(At(leaves, FullSeq(ls, max))) == Sum(NearLimit(ls, elems, |leaves| - 1, max))
  {
    hide TreeOrder, Sum, Gains, Pow2, At;
    UnitGains(h, mx, leaves, elems, ls, max);
    TreeSize(h, mx, leaves, elems);
    Telescope(h, mx, leaves, elems, UnitSeq(ls, max), AtLimit(ls, elems, |leaves| - 1, max));
    Telescope(h, mx, leaves, elems, FullSeq(ls, max), NearLimit(ls, elems, |leaves| - 1, max));
  }

  lemma {:induction false} SumDominates(a: seq<nat>, b: seq<nat>)
    requires |a| == |b| && forall i :: 0 <= i < |a| ==> a[i] <= b[i]
    ensures Sum(a) <= Sum(b)
    ensures (exists i :: 0 <= i < |a| && a[i] + 2 <= b[i]) ==> Sum(a) + 2 <= Sum(b)
    decreases |a|
  {
    if a != [] {
      SumDominates(a[..|a| - 1], b[..|b| - 1]);
    }
  }

  lemma {:induction false} SumPositive(a: seq<nat>) returns (i: nat)
    requires Sum(a) > 0
    ensures i < |a| && a[i] > 0 && forall j :: i < j < |a| ==> a[j] == 0
    decreases |a|
  {
    var n := |a| - 1;
    if a[n] > 0 {
      i := n;
    } else {
      i := SumPositive(a[..n]);
      forall j | i < j < |a| ensures a[j] == 0 {
        assert j < n ==> a[..n][j] == a[j];
      }
    }
  }

  /** If anything was clamped, there are two more codes of full length than units to remove. */
  lemma FullLengthSpare(h: seq<nat>, mx: nat, leaves: seq<nat>, elems: nat, ls: seq<nat>, max: nat)
    requires TreeOrder(h, mx, leaves, elems) && Depths(h, mx, ls, elems, max) && max >= 1
    requires elems + |leaves| - 1 <= |ls|
    requires Sum(AtLimit(ls, elems, |leaves| - 1, max)) > 0
    ensures Sum(NearLimit(ls, elems, |leaves| - 1, max)) >= Sum(AtLimit(ls, elems, |leaves| - 1, max)) + 2
  {
    hide TreeOrder, Sum;
    var n := |leaves| - 1;
    var a, b := AtLimit(ls, elems, n, max), NearLimit(ls, elems, n, max);
    var t := SumPositive(a);
    TreeSize(h, mx, leaves, elems);
    var p := InternalDepth(h, mx, leaves, elems, ls, max, t);
    assert ls[elems + t] == max;
    assert p > mx;
    var u := FatherAt(elems, p) - elems;
    FatherRange(mx, leaves, elems, p);
    var q := InternalDepth(h, mx, leaves, elems, ls, max, u);
    assert a[u] == 0;
    assert b[u] == 2;
    SumDominates(a, b);
  }

  lemma CostGains(h: seq<nat>, mx: nat, leaves: seq<nat>, elems: nat, ls: seq<nat>, f: seq<nat>, max: nat)
    requires TreeOrder(h, mx, leaves, elems) && Depths(h, mx, ls, elems, max) && max >= 1
    requires elems + |leaves| - 1 <= |ls| == |f|
    requires Weighed(h, mx, f, elems, elems + |leaves| - 1)
    requires Sum(AtLimit(ls, elems, |leaves| - 1, max)) == 0
    ensures Gains(h, CostSeq(ls, f), f[elems..elems + |leaves| - 1], elems)
  {
    hide TreeOrder, Depths, Sum;
    var n := |leaves| - 1;
    TreeSize(h, mx, leaves, elems);
    var v, d := CostSeq(ls, f), f[elems..elems + n];
    forall t | 0 <= t < n
      ensures elems + t < |v| && h[572 - 2 * t] < |v| && h[571 - 2 * t] < |v|
           && v[h[571 - 2 * t]] + v[h[572 - 2 * t]] == v[elems + t] + d[t]
    {
      SonDepth(h, mx, leaves, elems, ls, max, t);
      var p := InternalDepth(h, mx, leaves, elems, ls, max, t);
      SumBounds(AtLimit(ls, elems, n, max), t);
      Spread(f[h[571 - 2 * t]], f[h[572 - 2 * t]], ls[elems + t]);
    }
  }

  lemma Spread(x: nat, y: nat, k: nat)
    ensures x * (k + 1) + y * (k + 1) == (x + y) * k + (x + y)
  {
  }

  /** Without clamping the total cost of the leaves is the total weight of the internal nodes. */
  lemma UnclampedCost(h: seq<nat>, mx: nat, leaves: seq<nat>, elems: nat, ls: seq<nat>, f: seq<nat>, max: nat)
    requires TreeOrder(h, mx, leaves, elems) && Depths(h, mx, ls, elems, max) && max >= 1
    requires elems + |leaves| - 1 <= |ls| == |f|
    requires Weighed(h, mx, f, elems, elems + |leaves| - 1)
    requires Sum(AtLimit(ls, elems, |leaves| - 1, max)) == 0
    ensures forall i :: 0 <= i < |leaves| ==> leaves[i] < |ls|
    ensures Sum(At(leaves, CostSeq(ls, f))) == Sum(f[elems..elems + |leaves| - 1])
  {
    hide TreeOrder, Sum, Gains, At, Weighed;
    CostGains(h, mx, leaves, elems, ls, f, max);
    TreeSize(h, mx, leaves, elems);
    Telescope(h, mx, leaves, elems, CostSeq(ls, f), f[elems..elems + |leaves| - 1]);
  }

  // ---------- the overflow counter ----------

  /** How many of the nodes at positions mx + 1 .. p - 1 hang below a node at the limit. */
  function OverflowSeq(ls: seq<nat>, elems: nat, mx: nat, max: nat): (o: seq<nat>)
    requires mx < HEAP_SIZE && forall p :: mx < p < HEAP_SIZE ==> FatherAt(elems, p) < |ls|
    ensures |o| == HEAP_SIZE - 1 - mx
  {
    seq(HEAP_SIZE - 1 - mx, i requires 0 <= i < HEAP_SIZE - 1 - mx =>
      if ls[FatherAt(elems, mx + 1 + i)] + 1 > max then 1 else 0)
  }

  lemma {:induction false} OverflowPairs(ls: seq<nat>, elems: nat, mx: nat, max: nat, n: nat, k: nat)
    requires n >= 1 && mx + 2 * n == HEAP_SIZE - 1 && k <= n && elems + n <= |ls|
    requires forall p :: mx < p < HEAP_SIZE ==> FatherAt(elems, p) < |ls|
    requires forall e :: elems <= e < elems + n ==> ls[e] <= max
    ensures Sum(OverflowSeq(ls, elems, mx, max)[2 * (n - k)..]) == 2 * Sum(AtLimit(ls, elems, n, max)[..k])
    decreases k
  {
    hide Sum;
    var o, a := OverflowSeq(ls, elems, mx, max), AtLimit(ls, elems, n, max);
    if k == 0 {
      SumNone();
      assert o[2 * n..] == [] && a[..0] == [];
    } else {
      OverflowPairs(ls, elems, mx, max, n, k - 1);
      var i := 2 * (n - k);
      assert o[i..] == [o[i], o[i + 1]] + o[i + 2..];
      SumAppend([o[i], o[i + 1]], o[i + 2..]);
      SumTwo(o[i], o[i + 1]);
      SumTake(a, k - 1);
      assert (572 - (mx + 1 + i)) / 2 == k - 1 && (572 - (mx + 2 + i)) / 2 == k - 1;
    }
  }

  lemma OverflowIsTwice(h: seq<nat>, mx: nat, leaves: seq<nat>, elems: nat, ls: seq<nat>, max: nat)
    requires TreeOrder(h, mx, leaves, elems) && Depths(h, mx, ls, elems, max) && max >= 1
    requires elems + |leaves| - 1 <= |ls|
    ensures mx < HEAP_SIZE && forall p :: mx < p < HEAP_SIZE ==> FatherAt(elems, p) < |ls|
    ensures Sum(OverflowSeq(ls, elems, mx, max)) == 2 * Sum(AtLimit(ls, elems, |leaves| - 1, max))
  {
    hide TreeOrder, Sum;
    var n := |leaves| - 1;
    TreeSize(h, mx, leaves, elems);
    forall e | elems <= e < elems + n ensures ls[e] <= max {
      var p := InternalDepth(h, mx, leaves, elems, ls, max, e - elems);
    }
    OverflowPairs(ls, elems, mx, max, n, n);
    assert OverflowSeq(ls, elems, mx, max)[0..] == OverflowSeq(ls, elems, mx, max);
    assert AtLimit(ls, elems, n, max)[..n] == AtLimit(ls, elems, n, max);
  }
}
