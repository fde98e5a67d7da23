/** Building the Huffman tree (trees.c: build_tree up to gen_bitlen). */
module TreeBuilder {
  import opened Bits
  import opened Heap
  import opened Optimality
  import opened MergeTheory

  // ---------- the invariant of the merging loop ----------

  /** The next internal node when len trees are left. */
  function NextNode(leaves: seq<nat>, elems: nat, len: nat): (n: nat)
    requires len <= |leaves|
  {
    elems + |leaves| - len
  }

  ghost predicate Sized(h: seq<nat>, len: nat, mx: nat, f: seq<nat>, d: seq<nat>, dad: seq<nat>, leaves: seq<nat>,
                        elems: nat)
  {
    |h| == HEAP_SIZE && LeafList(leaves, elems) && 1 <= len <= |leaves|
    && mx == HEAP_SIZE - 2 * (|leaves| - len)
    && 2 * elems <= |f| == |dad| <= |d|
    && Nodes(h, len, |f|) && mx <= HEAP_SIZE && len + 1 < mx
  }

  ghost predicate Merging(h: seq<nat>, len: nat, mx: nat, f: seq<nat>, d: seq<nat>, dad: seq<nat>, leaves: seq<nat>,
                          elems: nat)
  {
    Sized(h, len, mx, f, d, dad, leaves, elems)
    && var node := NextNode(leaves, elems, len);
    Conserved(Live(h, len), h[mx..], leaves, elems, node)
    && Fathers(h, mx, dad, elems) && Weighed(h, mx, f, elems, node)
  }

  /** What the merging has cost so far: the weights of the internal nodes. */
  function Spent(f: seq<nat>, elems: nat, node: nat): (n: nat)
    requires elems <= node <= |f|
  {
    Sum(f[elems..node])
  }

  /** No tree on the leaves costs less than what was spent plus the best tree on the live nodes. */
  ghost predicate Optimal(h: seq<nat>, len: nat, f: seq<nat>, leaves: seq<nat>, elems: nat, init: multiset<nat>,
                          total: nat)
    requires Nodes(h, len, |f|) && len <= |leaves| && NextNode(leaves, elems, len) <= |f|
  {
    LowerBound(init, Spent(f, elems, NextNode(leaves, elems, len)), multiset(At(Live(h, len), f)))
    && Sum(At(Live(h, len), f)) == total
  }

  lemma MembersBelow(h: seq<nat>, len: nat, mx: nat, f: seq<nat>, d: seq<nat>, dad: seq<nat>, leaves: seq<nat>,
                     elems: nat)
    requires Merging(h, len, mx, f, d, dad, leaves, elems)
    ensures forall i :: 0 <= i < len ==> Live(h, len)[i] < NextNode(leaves, elems, len)
    ensures forall p :: mx <= p < HEAP_SIZE ==> h[p] < NextNode(leaves, elems, len)
    ensures NextNode(leaves, elems, len) < |f|
  {
    hide Fathers, Weighed, Conserved;
    var node := NextNode(leaves, elems, len);
    forall i | 0 <= i < len ensures Live(h, len)[i] < node {
      MemberBelow(Live(h, len), h[mx..], leaves, elems, node, Live(h, len)[i]);
    }
    forall p | mx <= p < HEAP_SIZE ensures h[p] < node {
      assert h[mx..][p - mx] == h[p];
      MemberBelow(Live(h, len), h[mx..], leaves, elems, node, h[p]);
    }
  }

  /** The snapshots around one merge: n and m leave the heap, their father enters it. */
  ghost predicate Merged(h: seq<nat>, h': seq<nat>, len: nat, mx: nat, rest: seq<nat>, node: nat, n: nat, m: nat)
  {
    |h| == |h'| == HEAP_SIZE && 2 <= len && len + 1 < mx <= HEAP_SIZE
    && multiset(Live(h, len)) == multiset([n, m] + rest)
    && multiset(Live(h', len - 1)) == multiset([node] + rest)
    && h'[mx - 1] == n && h'[mx - 2] == m
    && forall p :: mx <= p < HEAP_SIZE ==> h'[p] == h[p]
  }

  lemma PopsDiffer(h: seq<nat>, h': seq<nat>, len: nat, mx: nat, rest: seq<nat>, leaves: seq<nat>, elems: nat,
                   node: nat, n: nat, m: nat)
    requires Merged(h, h', len, mx, rest, node, n, m)
    requires LeafList(leaves, elems) && elems <= node && Conserved(Live(h, len), h[mx..], leaves, elems, node)
    ensures n != m && n < node && m < node
    ensures forall p :: mx <= p < HEAP_SIZE ==> h[p] != n && h[p] != m
  {
    hide Conserved, Live;
    var live, placed := Live(h, len), h[mx..];
    CountOnce(live, placed, leaves, elems, node, n);
    CountOnce(live, placed, leaves, elems, node, m);
    assert multiset([n, m] + rest)[n] >= 1 && multiset([n, m] + rest)[m] >= 1;
    assert n == m ==> multiset([n, m] + rest)[n] >= 2;
    assert n in multiset(live) && m in multiset(live);
    MemberBelow(live, placed, leaves, elems, node, n);
    MemberBelow(live, placed, leaves, elems, node, m);
    forall p | mx <= p < HEAP_SIZE ensures h[p] != n && h[p] != m {
      assert placed[p - mx] == h[p];
      assert h[p] in multiset(placed);
    }
  }

  lemma MergingStep(h: seq<nat>, h': seq<nat>, len: nat, mx: nat, f: seq<nat>, d: seq<nat>, d': seq<nat>, dad: seq<nat>,
                    leaves: seq<nat>, elems: nat, rest: seq<nat>, n: nat, m: nat)
    requires Merging(h, len, mx, f, d, dad, leaves, elems)
    requires |d'| == |d|
    requires Merged(h, h', len, mx, rest, NextNode(leaves, elems, len), n, m)
    requires Nodes(h', len - 1, |f|)
    ensures var node := NextNode(leaves, elems, len);
            n < node < |f| && m < node
            && Merging(h', len - 1, mx - 2, f[node := f[n] + f[m]], d', dad[n := node][m := node], leaves, elems)
  {
    hide Conserved, Fathers, Weighed, LeafList;
    var node := NextNode(leaves, elems, len);
    MembersBelow(h, len, mx, f, d, dad, leaves, elems);
    PopsDiffer(h, h', len, mx, rest, leaves, elems, node, n, m);
    ConservedStep(Live(h, len), h[mx..], rest, Live(h', len - 1), leaves, elems, node, n, m);
    assert h'[mx - 2..] == [m, n] + h[mx..];
    FathersStep(h, h', mx, dad, dad[n := node][m := node], elems, node, n, m);
    WeighedStep(h, h', mx, f, f[node := f[n] + f[m]], elems, node, n, m);
    LeafCount(leaves, elems);
  }

  lemma LeafCount(leaves: seq<nat>, elems: nat)
    requires LeafList(leaves, elems)
    ensures 2 <= |leaves| <= elems <= 286
  {
  }

  /** Heap order on the rest once the two smallest are out. */
  lemma LightestPopped(f: seq<nat>, rest: seq<nat>, n: nat, m: nat)
    requires n < |f| && m < |f| && forall i :: 0 <= i < |rest| ==> rest[i] < |f|
    requires f[n] <= f[m] && forall i :: 0 <= i < |rest| ==> f[m] <= f[rest[i]]
    ensures Lightest(multiset{f[n], f[m]} + multiset(At(rest, f)), f[n], f[m], multiset(At(rest, f)))
  {
    forall x | x in multiset(At(rest, f)) ensures f[m] <= x {
      assert x in At(rest, f);
    }
  }

  lemma OptimalStep(h: seq<nat>, h': seq<nat>, len: nat, mx: nat, f: seq<nat>, leaves: seq<nat>, elems: nat,
                    rest: seq<nat>, n: nat, m: nat, init: multiset<nat>, total: nat)
    requires len <= |leaves| && NextNode(leaves, elems, len) < |f|
    requires len >= 2 && Nodes(h, len, |f|) && Nodes(h', len - 1, |f|)
    requires Merged(h, h', len, mx, rest, NextNode(leaves, elems, len), n, m)
    requires n < NextNode(leaves, elems, len) && m < NextNode(leaves, elems, len)
    requires forall i :: 0 <= i < len ==> Live(h, len)[i] < NextNode(leaves, elems, len)
    requires Optimal(h, len, f, leaves, elems, init, total)
    requires NextNode(leaves, elems, len) < |f|
    requires f[n] <= f[m] && forall i :: 0 <= i < |rest| ==> rest[i] < |f| && f[m] <= f[rest[i]]
    ensures Optimal(h', len - 1, f[NextNode(leaves, elems, len) := f[n] + f[m]], leaves, elems, init, total)
  {
    hide LowerBound, Live, At, Sum;
    var node := NextNode(leaves, elems, len);
    var f' := f[node := f[n] + f[m]];
    TotalStep(Live(h, len), rest, Live(h', len - 1), f, node, n, m);
    LightestPopped(f, rest, n, m);
    LowerBoundStep(init, Spent(f, elems, node), multiset(At(Live(h, len), f)), f[n], f[m], multiset(At(rest, f)));
    assert f'[elems..node + 1] == f[elems..node] + [f[n] + f[m]];
    SumAppend(f[elems..node], [f[n] + f[m]]);
    SumOne(f[n] + f[m]);
  }

  /** Two live nodes together weigh no more than all of them. */
  lemma PairWithinTotal(live: seq<nat>, rest: seq<nat>, f: seq<nat>, n: nat, m: nat)
    requires forall i :: 0 <= i < |live| ==> live[i] < |f|
    requires n < |f| && m < |f| && multiset(live) == multiset([n, m] + rest)
    ensures f[n] + f[m] <= Sum(At(live, f))
  {
    hide Sum;
    AtPerm(live, [n, m] + rest, f);
    SumPerm(At(live, f), At([n, m] + rest, f));
    forall i | 0 <= i < |rest| ensures rest[i] < |f| {
      assert rest[i] == ([n, m] + rest)[i + 2];
    }
    assert At([n, m] + rest, f) == [f[n]] + ([f[m]] + At(rest, f));
    SumAppend([f[n]], [f[m]] + At(rest, f));
    SumAppend([f[m]], At(rest, f));
    SumOne(f[n]);
    SumOne(f[m]);
  }
}
