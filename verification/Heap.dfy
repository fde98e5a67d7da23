/** The priority queue under the Huffman construction (trees.c: smaller, pqdownheap). */
module Heap {

  /** Lighter, or equally heavy and not deeper. */
  ghost predicate Smaller(f: seq<nat>, d: seq<nat>, n: nat, m: nat)
    requires n < |f| && m < |f| && n < |d| && m < |d|
  {
    f[n] < f[m] || (f[n] == f[m] && d[n] <= d[m])
  }

  /** Positions 1..len hold nodes of the tree. */
  ghost predicate Nodes(h: seq<nat>, len: nat, size: nat)
  {
    len < |h| && forall i :: 1 <= i <= len ==> h[i] < size
  }

  /** Every father from position `from` on, except the one at `hole`, is smaller than its sons. */
  ghost predicate OrderedBut(h: seq<nat>, len: nat, f: seq<nat>, d: seq<nat>, from: nat, hole: nat)
    requires Nodes(h, len, |f|) && |d| >= |f|
  {
    forall i :: 2 <= i <= len && from <= i / 2 && i / 2 != hole ==> Smaller(f, d, h[i / 2], h[i])
  }

  ghost predicate Ordered(h: seq<nat>, len: nat, f: seq<nat>, d: seq<nat>, from: nat)
    requires Nodes(h, len, |f|) && |d| >= |f|
  {
    OrderedBut(h, len, f, d, from, 0)
  }

  /** The father of the hole is smaller than the hole's sons. */
  ghost predicate Bridged(h: seq<nat>, len: nat, f: seq<nat>, d: seq<nat>, from: nat, hole: nat)
    requires Nodes(h, len, |f|) && |d| >= |f|
  {
    forall i :: 2 <= i <= len && i / 2 == hole && from <= hole / 2 && 1 <= hole / 2 ==> Smaller(f, d, h[hole / 2], h[i])
  }

  ghost function Live(h: seq<nat>, len: nat): (s: seq<nat>)
    requires len < |h|
    ensures |s| == len
  {
    h[1..len + 1]
  }

  /** Filling the hole from j and moving the hole there leaves the elements as they were. */
  lemma HoleMoves(h: seq<nat>, k: nat, j: nat, v: nat, len: nat)
    requires 1 <= k <= len < |h| && 1 <= j <= len && j != k
    ensures multiset(Live(h[k := h[j]][j := v], len)) == multiset(Live(h[k := v], len))
  {
    var a, b := Live(h[k := v], len), Live(h[k := h[j]][j := v], len);
    assert b == a[k - 1 := a[j - 1]][j - 1 := a[k - 1]];
    SwapMultiset(a, k - 1, j - 1);
  }

  lemma SwapMultiset(a: seq<nat>, i: nat, j: nat)
    requires i < |a| && j < |a|
    ensures multiset(a[i := a[j]][j := a[i]]) == multiset(a)
  {
  }

  lemma SiftStep(h: seq<nat>, len: nat, f: seq<nat>, d: seq<nat>, from: nat, k: nat, j: nat, v: nat)
    requires Nodes(h, len, |f|) && |d| >= |f| && v < |f|
    requires 1 <= from <= k <= len && (j == 2 * k || j == 2 * k + 1) && j <= len
    requires OrderedBut(h[k := v], len, f, d, from, k) && Bridged(h[k := v], len, f, d, from, k)
    requires forall i :: 2 <= i <= len && i / 2 == k ==> Smaller(f, d, h[j], h[i])
    requires Smaller(f, d, h[j], v)
    ensures var g := h[k := h[j]][j := v];
            Nodes(g, len, |f|) && OrderedBut(g, len, f, d, from, j) && Bridged(g, len, f, d, from, j)
  {
    var w := h[k := v];
    var g := h[k := h[j]][j := v];
    forall i | 2 <= i <= len && from <= i / 2 && i / 2 != j
      ensures Smaller(f, d, g[i / 2], g[i])
    {
      assert i / 2 != k && i != k && i != j ==> g[i / 2] == w[i / 2] && g[i] == w[i];
      if i == k {
        assert Smaller(f, d, w[k / 2], w[j]);
      } else if i / 2 == k && i == j {
        assert g[k] == h[j] && g[j] == v;
      }
    }
    forall i | 2 <= i <= len && i / 2 == j && from <= j / 2
      ensures Smaller(f, d, g[j / 2], g[i])
    {
      assert w[i / 2] == h[j] && w[i] == h[i];
    }
  }

  /** A node no larger than both sons of the hole closes it. */
  lemma HoleCloses(h: seq<nat>, len: nat, f: seq<nat>, d: seq<nat>, from: nat, k: nat)
    requires Nodes(h, len, |f|) && |d| >= |f|
    requires 1 <= k && OrderedBut(h, len, f, d, from, k)
    requires forall i :: 2 <= i <= len && i / 2 == k ==> Smaller(f, d, h[k], h[i])
    ensures Ordered(h, len, f, d, from)
  {
  }

  method IsSmaller(fc: array<nat>, depth: array<nat>, n: nat, m: nat) returns (r: bool)
    requires n < fc.Length && m < fc.Length && n < depth.Length && m < depth.Length
    ensures r <==> Smaller(fc[..], depth[..], n, m)
  {
    r := fc[n] < fc[m] || (fc[n] == fc[m] && depth[n] <= depth[m]);
  }

  /** Move the node at k down until the heap order holds from k on. */
  method PqDownHeap(heap: array<nat>, len: nat, fc: array<nat>, depth: array<nat>, k0: nat)
    requires heap != fc && heap != depth && depth.Length >= fc.Length
    requires Nodes(heap[..], len, fc.Length) && 1 <= k0 <= len
    requires Ordered(heap[..], len, fc[..], depth[..], k0 + 1)
    modifies heap
    ensures Nodes(heap[..], len, fc.Length)
    ensures Ordered(heap[..], len, fc[..], depth[..], k0)
    ensures multiset(Live(heap[..], len)) == multiset(old(Live(heap[..], len)))
    ensures forall i :: 0 <= i < heap.Length && (i < k0 || i > len) ==> heap[i] == old(heap[i])
  {
    hide Smaller, Ordered, OrderedBut, Bridged, Live;
    ghost var f, d := fc[..], depth[..];
    var k := k0;
    var v := heap[k];
    var j := 2 * k;
    StartSift(heap[..], len, f, d, k0);
    assert heap[..][k := v] == heap[..];
    while j <= len
      invariant k0 <= k <= len && j == 2 * k
      invariant Nodes(heap[..], len, |f|)
      invariant OrderedBut(heap[..][k := v], len, f, d, k0, k) && Bridged(heap[..][k := v], len, f, d, k0, k)
      invariant multiset(Live(heap[..][k := v], len)) == multiset(old(Live(heap[..], len)))
      invariant forall i :: 0 <= i < heap.Length && (i < k0 || i > len) ==> heap[i] == old(heap[i])
      decreases len - k
    {
      j := SmallerSon(heap, len, fc, depth, k);
      var stop := IsSmaller(fc, depth, v, heap[j]);
      if stop {
        CloseHere(heap[..], len, f, d, k0, k, j, v);
        break;
      }
      TotalOrder(f, d, v, heap[j]);
      HoleMoves(heap[..], k, j, v, len);
      SiftStep(heap[..], len, f, d, k0, k, j, v);
      ghost var h := heap[..];
      heap[k] := heap[j];
      assert heap[..] == h[k := h[j]];
      k := j;
      j := 2 * k;
    }
    if j > len {
      NoSons(heap[..][k := v], len, f, d, k0, k);
    }
    ghost var w := heap[..][k := v];
    heap[k] := v;
    assert heap[..] == w;
  }

  method SmallerSon(heap: array<nat>, len: nat, fc: array<nat>, depth: array<nat>, k: nat) returns (j: nat)
    requires depth.Length >= fc.Length && Nodes(heap[..], len, fc.Length) && 1 <= k && 2 * k <= len
    ensures (j == 2 * k || j == 2 * k + 1) && j <= len
    ensures forall i :: 2 <= i <= len && i / 2 == k ==> Smaller(fc[..], depth[..], heap[j], heap[i])
  {
    j := 2 * k;
    if j < len {
      var right := IsSmaller(fc, depth, heap[j + 1], heap[j]);
      if right {
        j := j + 1;
      }
    }
  }

  lemma TotalOrder(f: seq<nat>, d: seq<nat>, n: nat, m: nat)
    requires n < |f| && m < |f| && n < |d| && m < |d|
    ensures Smaller(f, d, n, m) || Smaller(f, d, m, n)
  {
  }

  lemma StartSift(h: seq<nat>, len: nat, f: seq<nat>, d: seq<nat>, k: nat)
    requires Nodes(h, len, |f|) && |d| >= |f| && 1 <= k <= len
    requires Ordered(h, len, f, d, k + 1)
    ensures OrderedBut(h, len, f, d, k, k) && Bridged(h, len, f, d, k, k)
  {
  }

  lemma NoSons(h: seq<nat>, len: nat, f: seq<nat>, d: seq<nat>, from: nat, k: nat)
    requires Nodes(h, len, |f|) && |d| >= |f| && 2 * k > len && k >= 1
    requires OrderedBut(h, len, f, d, from, k)
    ensures Ordered(h, len, f, d, from)
  {
  }

  lemma CloseHere(h: seq<nat>, len: nat, f: seq<nat>, d: seq<nat>, from: nat, k: nat, j: nat, v: nat)
    requires Nodes(h, len, |f|) && |d| >= |f| && v < |f|
    requires 1 <= k <= len && j <= len && j / 2 == k
    requires OrderedBut(h[k := v], len, f, d, from, k)
    requires Smaller(f, d, v, h[j])
    requires forall i :: 2 <= i <= len && i / 2 == k ==> Smaller(f, d, h[j], h[i])
    ensures Ordered(h[k := v], len, f, d, from)
  {
    var w := h[k := v];
    forall i | 2 <= i <= len && i / 2 == k ensures Smaller(f, d, w[k], w[i]) {
    }
    HoleCloses(w, len, f, d, from, k);
  }

  /** The node on top of an ordered heap is the smallest. */
  lemma {:induction false} TopIsSmallest(h: seq<nat>, len: nat, f: seq<nat>, d: seq<nat>, i: nat)
    requires Nodes(h, len, |f|) && |d| >= |f| && 1 <= i <= len
    requires Ordered(h, len, f, d, 1)
    ensures Smaller(f, d, h[1], h[i])
  {
    if i > 1 {
      TopIsSmallest(h, len, f, d, i / 2);
    }
  }
}
