/** What the merging loop of build_tree keeps, on snapshots of the arrays. */
module MergeTheory {
  import opened Heap
  import opened Optimality

  const HEAP_SIZE: nat := 573

  // ---------- sums and weights over node lists ----------

  /** The numbers g[x] for the x in s. */
  function At(s: seq<nat>, g: seq<nat>): (r: seq<nat>)
    requires forall i :: 0 <= i < |s| ==> s[i] < |g|
    ensures |r| == |s|
  {
    seq(|s|, i requires 0 <= i < |s| => g[s[i]])
  }

  function Sum(s: seq<nat>): (n: nat)
  {
    if s == [] then 0 else Sum(s[..|s| - 1]) + s[|s| - 1]
  }

  lemma {:induction false} SumAppend(a: seq<nat>, b: seq<nat>)
    ensures Sum(a + b) == Sum(a) + Sum(b)
    decreases |b|
  {
    if b == [] {
      assert a + b == a;
    } else {
      assert (a + b)[..|a + b| - 1] == a + b[..|b| - 1];
      SumAppend(a, b[..|b| - 1]);
    }
  }

  lemma SumTake(s: seq<nat>, i: nat)
    requires i < |s|
    ensures Sum(s[..i + 1]) == Sum(s[..i]) + s[i]
  {
    assert s[..i + 1][..i] == s[..i];
  }

  lemma SumOne(x: nat)
    ensures Sum([x]) == x
  {
    assert [x][..0] == [];
  }

  lemma SplitAt(s: seq<nat>, i: nat)
    requires i < |s|
    ensures s == s[..i] + [s[i]] + s[i + 1..]
  {
  }

  /** Lists with the same elements have the same sum and the same elements at any weights. */
  lemma {:induction false} SumPerm(s: seq<nat>, t: seq<nat>)
    requires multiset(s) == multiset(t)
    ensures Sum(s) == Sum(t)
    decreases |s|
  {
    if s == [] {
      assert |t| == |multiset(t)| == 0;
    } else {
      var n := |s| - 1;
      assert s == s[..n] + [s[n]];
      assert s[n] in multiset(t);
      var j :| 0 <= j < |t| && t[j] == s[n];
      var u := t[..j] + t[j + 1..];
      SplitAt(t, j);
      SameWithout(s[..n], u, t, j);
      SumPerm(s[..n], u);
      SumAppend(t[..j], t[j + 1..]);
      SumAppend(t[..j] + [t[j]], t[j + 1..]);
      SumAppend(t[..j], [t[j]]);
      SumOne(t[j]);
    }
  }

  lemma SameWithout(a: seq<nat>, u: seq<nat>, t: seq<nat>, j: nat)
    requires j < |t| && multiset(a + [t[j]]) == multiset(t)
    requires u == t[..j] + t[j + 1..]
    ensures multiset(a) == multiset(u)
  {
    SplitAt(t, j);
    forall v: nat ensures multiset(a)[v] == multiset(u)[v] {
      assert multiset(a + [t[j]])[v] == multiset(t[..j] + [t[j]] + t[j + 1..])[v];
    }
  }

  lemma {:induction false} AtPerm(s: seq<nat>, t: seq<nat>, g: seq<nat>)
    requires multiset(s) == multiset(t)
    requires forall i :: 0 <= i < |s| ==> s[i] < |g|
    ensures forall i :: 0 <= i < |t| ==> t[i] < |g|
    ensures multiset(At(s, g)) == multiset(At(t, g))
    decreases |s|
  {
    forall i | 0 <= i < |t| ensures t[i] < |g| {
      assert t[i] in multiset(s);
    }
    if s == [] {
      assert |t| == |multiset(t)| == 0;
    } else {
      var n := |s| - 1;
      assert s == s[..n] + [s[n]];
      assert s[n] in multiset(t);
      var j :| 0 <= j < |t| && t[j] == s[n];
      var u := t[..j] + t[j + 1..];
      SameWithout(s[..n], u, t, j);
      AtPerm(s[..n], u, g);
      assert At(s, g) == At(s[..n], g) + [g[s[n]]];
      assert At(u, g) == At(t, g)[..j] + At(t, g)[j + 1..];
      SplitAt(At(t, g), j);
      AddBack(At(s[..n], g), At(t, g), j);
    }
  }

  lemma AddBack(a: seq<nat>, t: seq<nat>, j: nat)
    requires j < |t| && multiset(a) == multiset(t[..j] + t[j + 1..])
    ensures multiset(a + [t[j]]) == multiset(t)
  {
    SplitAt(t, j);
  }

  // ---------- the invariant ----------

  function Range(a: nat, b: nat): (s: seq<nat>)
    requires a <= b
    ensures |s| == b - a
  {
    seq(b - a, i requires 0 <= i => a + i)
  }

  ghost predicate Distinct(s: seq<nat>)
  {
    forall i, j :: 0 <= i < j < |s| ==> s[i] != s[j]
  }

  /** The leaves the tree is built on. */
  ghost predicate LeafList(leaves: seq<nat>, elems: nat)
  {
    2 <= |leaves| <= elems <= 286 && Distinct(leaves) && forall i :: 0 <= i < |leaves| ==> leaves[i] < elems
  }

  /** The nodes in the heap and those already placed are the leaves and the internal nodes made so far. */
  ghost predicate Conserved(live: seq<nat>, placed: seq<nat>, leaves: seq<nat>, elems: nat, node: nat)
    requires elems <= node
  {
    multiset(live) + multiset(placed) == multiset(leaves) + multiset(Range(elems, node))
  }

  /** Position p of the placed part holds a son of internal node elems + (572 - p) / 2. */
  function FatherAt(elems: nat, p: nat): (e: nat)
    requires p < HEAP_SIZE
  {
    elems + (572 - p) / 2
  }

  ghost predicate Fathers(h: seq<nat>, mx: nat, dad: seq<nat>, elems: nat)
    requires |h| == HEAP_SIZE
  {
    forall p :: mx <= p < HEAP_SIZE ==>
      h[p] < |dad| && dad[h[p]] == FatherAt(elems, p) && h[p] < FatherAt(elems, p)
  }

  /** An internal node weighs as much as its sons. */
  ghost predicate Weighed(h: seq<nat>, mx: nat, f: seq<nat>, elems: nat, node: nat)
    requires |h| == HEAP_SIZE && elems <= node
  {
    forall t :: 0 <= t < node - elems ==>
      2 * t + 1 <= 572 - mx && elems + t < |f| && h[572 - 2 * t] < |f| && h[571 - 2 * t] < |f|
      && f[elems + t] == f[h[572 - 2 * t]] + f[h[571 - 2 * t]]
  }

  lemma MemberBelow(live: seq<nat>, placed: seq<nat>, leaves: seq<nat>, elems: nat, node: nat, x: nat)
    requires LeafList(leaves, elems) && elems <= node && Conserved(live, placed, leaves, elems, node)
    requires x in live || x in placed
    ensures x < node
    ensures x in leaves || elems <= x
  {
    assert x in multiset(live) + multiset(placed);
    assert x in multiset(leaves) || x in multiset(Range(elems, node));
  }

  lemma RangeCount(a: nat, b: nat, x: nat)
    requires a <= b
    ensures multiset(Range(a, b))[x] == if a <= x < b then 1 else 0
    decreases b
  {
    if a < b {
      assert Range(a, b) == Range(a, b - 1) + [b - 1];
      RangeCount(a, b - 1, x);
    }
  }

  lemma {:induction false} DistinctCount(s: seq<nat>, x: nat)
    requires Distinct(s)
    ensures multiset(s)[x] <= 1
    decreases |s|
  {
    if s != [] {
      var n := |s| - 1;
      assert s == s[..n] + [s[n]];
      DistinctCount(s[..n], x);
      if x == s[n] {
        assert x !in s[..n];
      }
    }
  }

  /** No node is in two places. */
  lemma CountOnce(live: seq<nat>, placed: seq<nat>, leaves: seq<nat>, elems: nat, node: nat, x: nat)
    requires LeafList(leaves, elems) && elems <= node && Conserved(live, placed, leaves, elems, node)
    ensures multiset(live)[x] + multiset(placed)[x] <= 1
    ensures elems <= x < node ==> multiset(live)[x] + multiset(placed)[x] == 1
  {
    DistinctCount(leaves, x);
    RangeCount(elems, node, x);
    assert (multiset(live) + multiset(placed))[x] == (multiset(leaves) + multiset(Range(elems, node)))[x];
    assert x >= elems ==> x !in leaves;
  }

  lemma OnceDistinct(s: seq<nat>)
    requires forall x: nat :: multiset(s)[x] <= 1
    ensures Distinct(s)
  {
    forall i, j | 0 <= i < j < |s| ensures s[i] != s[j] {
      CountTwice(s, i, j);
    }
  }

  lemma CountTwice(s: seq<nat>, i: nat, j: nat)
    requires i < j < |s|
    ensures s[i] == s[j] ==> multiset(s)[s[j]] >= 2
  {
    assert s == s[..j] + [s[j]] + s[j + 1..];
    assert s[i] in s[..j];
  }

  // ---------- one merge ----------

  lemma ConservedStep(live: seq<nat>, placed: seq<nat>, rest: seq<nat>, live': seq<nat>, leaves: seq<nat>,
                      elems: nat, node: nat, n: nat, m: nat)
    requires elems <= node && Conserved(live, placed, leaves, elems, node)
    requires multiset(live) == multiset([n, m] + rest) && multiset(live') == multiset([node] + rest)
    ensures Conserved(live', [m, n] + placed, leaves, elems, node + 1)
  {
    assert Range(elems, node + 1) == Range(elems, node) + [node];
    forall x: nat
      ensures (multiset(live') + multiset([m, n] + placed))[x]
           == (multiset(leaves) + multiset(Range(elems, node + 1)))[x]
    {
      assert (multiset(live) + multiset(placed))[x] == (multiset(leaves) + multiset(Range(elems, node)))[x];
      assert multiset(live)[x] == multiset([n, m] + rest)[x];
      assert multiset(live')[x] == multiset([node] + rest)[x];
    }
  }

  lemma FathersStep(h: seq<nat>, h': seq<nat>, mx: nat, dad: seq<nat>, dad': seq<nat>, elems: nat, node: nat, n: nat,
                    m: nat)
    requires |h| == |h'| == HEAP_SIZE && 2 <= mx <= HEAP_SIZE && node < |dad|
    requires mx == HEAP_SIZE - 2 * (node - elems) && elems <= node
    requires Fathers(h, mx, dad, elems)
    requires n < node && m < node && n != m
    requires forall p :: mx <= p < HEAP_SIZE ==> h[p] != n && h[p] != m
    requires forall p :: mx <= p < HEAP_SIZE ==> h'[p] == h[p]
    requires h'[mx - 1] == n && h'[mx - 2] == m
    requires dad' == dad[n := node][m := node]
    ensures Fathers(h', mx - 2, dad', elems)
  {
    forall p | mx - 2 <= p < HEAP_SIZE
      ensures h'[p] < |dad'| && dad'[h'[p]] == FatherAt(elems, p) && h'[p] < FatherAt(elems, p)
    {
      if p < mx {
        assert (572 - p) / 2 == node - elems;
      }
    }
  }

  lemma WeighedStep(h: seq<nat>, h': seq<nat>, mx: nat, f: seq<nat>, f': seq<nat>, elems: nat, node: nat, n: nat,
                    m: nat)
    requires |h| == |h'| == HEAP_SIZE && 2 <= mx <= HEAP_SIZE && node < |f|
    requires mx == HEAP_SIZE - 2 * (node - elems) && elems <= node
    requires Weighed(h, mx, f, elems, node)
    requires n < node && m < node
    requires forall p :: mx <= p < HEAP_SIZE ==> h'[p] == h[p] && h[p] < node
    requires h'[mx - 1] == n && h'[mx - 2] == m
    requires f' == f[node := f[n] + f[m]]
    ensures Weighed(h', mx - 2, f', elems, node + 1)
  {
    forall t | 0 <= t < node + 1 - elems
      ensures 2 * t + 1 <= 572 - (mx - 2) && elems + t < |f'| && h'[572 - 2 * t] < |f'| && h'[571 - 2 * t] < |f'|
           && f'[elems + t] == f'[h'[572 - 2 * t]] + f'[h'[571 - 2 * t]]
    {
      if t < node - elems {
        assert 571 - 2 * t >= mx;
      } else {
        assert 572 - 2 * t == mx - 1;
      }
    }
  }

  // ---------- weights ----------

  lemma AtExtend(s: seq<nat>, f: seq<nat>, node: nat, w: nat)
    requires forall i :: 0 <= i < |s| ==> s[i] < node
    requires node < |f|
    ensures At(s, f[node := w]) == At(s, f)
  {
  }

  /** Replacing n and m by a node of their joint weight keeps the total weight. */
  lemma TotalStep(live: seq<nat>, rest: seq<nat>, live': seq<nat>, f: seq<nat>, node: nat, n: nat, m: nat)
    requires node < |f| && n < node && m < node
    requires forall i :: 0 <= i < |live| ==> live[i] < node
    requires multiset(live) == multiset([n, m] + rest) && multiset(live') == multiset([node] + rest)
    ensures forall i :: 0 <= i < |rest| ==> rest[i] < node
    ensures forall i :: 0 <= i < |live'| ==> live'[i] <= node
    ensures Sum(At(live', f[node := f[n] + f[m]])) == Sum(At(live, f))
    ensures multiset(At(live, f)) == multiset{f[n], f[m]} + multiset(At(rest, f))
    ensures multiset(At(live', f[node := f[n] + f[m]])) == multiset{f[n] + f[m]} + multiset(At(rest, f))
  {
    hide Sum;
    var f' := f[node := f[n] + f[m]];
    AllBelow(live, [n, m] + rest, node);
    forall i | 0 <= i < |rest| ensures rest[i] < node {
      assert rest[i] == ([n, m] + rest)[i + 2];
    }
    AllBelow([node] + rest, live', node + 1);
    AtPerm(live, [n, m] + rest, f);
    AtPerm([node] + rest, live', f');
    assert At([n, m] + rest, f) == [f[n], f[m]] + At(rest, f);
    AtExtend(rest, f, node, f[n] + f[m]);
    assert At([node] + rest, f') == [f[n] + f[m]] + At(rest, f);
    SumPerm(At(live, f), [f[n], f[m]] + At(rest, f));
    SumPerm(At(live', f'), [f[n] + f[m]] + At(rest, f));
    TwoAsOne(f[n], f[m], At(rest, f));
  }

  lemma AllBelow(s: seq<nat>, t: seq<nat>, bound: nat)
    requires multiset(s) == multiset(t) && forall i :: 0 <= i < |s| ==> s[i] < bound
    ensures forall i :: 0 <= i < |t| ==> t[i] < bound
  {
    forall i | 0 <= i < |t| ensures t[i] < bound {
      assert t[i] in multiset(t);
      assert t[i] in multiset(s);
    }
  }

  lemma TwoAsOne(a: nat, b: nat, rest: seq<nat>)
    ensures Sum([a, b] + rest) == Sum([a + b] + rest)
  {
    hide Sum;
    SumAppend([a, b], rest);
    SumAppend([a + b], rest);
    SumAppend([a], [b]);
    assert [a] + [b] == [a, b];
    SumOne(a);
    SumOne(b);
    SumOne(a + b);
  }

  lemma {:induction false} SumBounds(s: seq<nat>, i: nat)
    requires i < |s|
    ensures s[i] <= Sum(s)
    decreases |s|
  {
    if i < |s| - 1 {
      SumBounds(s[..|s| - 1], i);
    }
  }
}
