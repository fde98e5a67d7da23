/** Huffman trees over the arrays of the compressor (trees.c: build_tree, gen_bitlen). */
module BuildTree {
  import opened Bits
  import opened Canonical
  import opened Heap
  import opened Optimality
  import opened MergeTheory
  import opened TreeBuilder
  import opened LengthLimit
  import opened TreeDepths
  import opened TreeKinds
  import opened UsedSymbols
  import opened BitLengths
  import opened MergedTree
  import opened Forcing
  import opened GenCodes

  class Builder {
    const heap: array<nat>     // positions 1..heapLen: the heap; from heapMax on: placed nodes
    const depth: array<nat>
    const blCount: array<nat>  // codes of each length
    var heapLen: nat
    var heapMax: nat
    var optLen: int
    var staticLen: int

    constructor ()
      ensures Sizes() && fresh(heap) && fresh(depth) && fresh(blCount) && optLen == staticLen == 0
    {
      heap := new nat[HEAP_SIZE];
      depth := new nat[HEAP_SIZE];
      blCount := new nat[16];
      heapLen, heapMax, optLen, staticLen := 0, HEAP_SIZE, 0, 0;
    }

    ghost predicate Sizes()
    {
      heap.Length == HEAP_SIZE && depth.Length == HEAP_SIZE && blCount.Length == 16
      && heap != depth && heap != blCount && depth != blCount
    }

    /** The tree's two arrays fit the builder and are none of its own. */
    ghost predicate Fits(fc: array<nat>, dl: array<nat>, elems: nat)
    {
      Sizes() && fc != dl && fc != heap && fc != depth && fc != blCount && dl != heap && dl != depth && dl != blCount
      && 19 <= elems <= 286 && 2 * elems <= fc.Length == dl.Length <= HEAP_SIZE
    }

    /** Put every used symbol into the heap array. */
    method InitHeap(fc: array<nat>, dl: array<nat>, elems: nat) returns (maxCode: int)
      requires Fits(fc, dl, elems)
      modifies this`heapLen, this`heapMax, heap, depth, dl
      ensures heapMax == HEAP_SIZE && heapLen == |Used(fc[..], elems)| && heapLen < HEAP_SIZE
      ensures Live(heap[..], heapLen) == Used(fc[..], elems)
      ensures IsMaxCode(fc[..], elems, maxCode)
      ensures forall x :: 0 <= x < elems && fc[x] == 0 ==> dl[x] == 0
    {
      hide Used, Live, IsMaxCode;
      heapLen, heapMax, maxCode := 0, HEAP_SIZE, -1;
      ghost var f := fc[..];
      UsedNone(f, heap[..]);
      for n := 0 to elems
        invariant heapLen == |Used(f, n)| <= n
        invariant Live(heap[..], heapLen) == Used(f, n)
        invariant n > 0 ==> IsMaxCode(f, n, maxCode)
        invariant n == 0 ==> maxCode == -1
        invariant heapMax == HEAP_SIZE
        invariant forall x :: 0 <= x < n && f[x] == 0 ==> dl[x] == 0
        invariant fc[..] == f
      {
        UsedStep(f, n, maxCode);
        if fc[n] != 0 {
          maxCode := n;
          PutLeaf(n);
        } else {
          dl[n] := 0;
        }
      }
    }

    /** A used symbol becomes a tree of its own. */
    method PutLeaf(n: nat)
      requires Sizes() && heapLen + 1 < HEAP_SIZE && n < depth.Length
      modifies this`heapLen, heap, depth
      ensures heapLen == old(heapLen) + 1 && Live(heap[..], heapLen) == Live(old(heap[..]), old(heapLen)) + [n]
    {
      hide Live;
      ghost var h := heap[..];
      heapLen := heapLen + 1;
      heap[heapLen] := n;
      depth[n] := 0;
      assert heap[..] == h[heapLen := n];
      LiveAppend(h, heap[..], heapLen - 1, n);
    }

    /** Make sure that at least two symbols are used. */
    method ForceTwo(fc: array<nat>, kind: Kind, maxCode0: int) returns (maxCode: int)
      requires Sizes() && fc != heap && fc != depth && Elems(kind) <= fc.Length
      requires heapLen == |Used(fc[..], Elems(kind))| && heapLen < HEAP_SIZE
      requires multiset(Live(heap[..], heapLen)) == multiset(Used(fc[..], Elems(kind)))
      requires IsMaxCode(fc[..], Elems(kind), maxCode0)
      modifies this`heapLen, this`optLen, this`staticLen, heap, depth, fc
      ensures heapLen == |Used(fc[..], Elems(kind))| && 2 <= heapLen < HEAP_SIZE
      ensures multiset(Live(heap[..], heapLen)) == multiset(Used(fc[..], Elems(kind)))
      ensures IsMaxCode(fc[..], Elems(kind), maxCode)
      ensures Forced(old(fc[..]), fc[..], Elems(kind))
      ensures old(heapLen) >= 2 ==> fc[..] == old(fc[..])
      ensures old(heapLen) < 2 ==> heapLen == 2
      ensures forall x :: 0 <= x < Elems(kind) && fc[x] != old(fc[x]) ==> x <= 2
      ensures optLen == old(optLen) - (heapLen - old(heapLen))
      ensures staticLen == old(staticLen) - ForcedStatic(kind, old(fc[..]), fc[..], Elems(kind))
    {
      hide Used, Live, ForceState, StaticLen;
      maxCode := maxCode0;
      ghost var f0 := fc[..];
      ghost var len0 := heapLen;
      ForceStart(kind, f0, heap[..], heapLen, maxCode);
      while heapLen < 2
        invariant heapLen < HEAP_SIZE
        invariant ForceState(kind, f0, len0, fc[..], heap[..], heapLen, maxCode,
                             optLen - old(optLen), staticLen - old(staticLen))
        decreases 2 - heapLen
      {
        ghost var f, h := fc[..], heap[..];
        ForceStep(kind, f0, len0, f, h, heapLen, maxCode, optLen - old(optLen), staticLen - old(staticLen));
        heapLen := heapLen + 1;
        var node := 0;
        if maxCode < 2 {
          maxCode := maxCode + 1;
          node := maxCode;
        }
        heap[heapLen] := node;
        fc[node] := 1;
        depth[node] := 0;
        optLen := optLen - 1;
        staticLen := staticLen - StaticLen(kind, node);
        assert fc[..] == f[node := 1] && heap[..] == h[heapLen := node];
      }
      ForceEnd(kind, f0, len0, fc[..], heap[..], heapLen, maxCode, optLen - old(optLen), staticLen - old(staticLen));
    }

    /** Establish the heap order. */
    method Heapify(fc: array<nat>)
      requires Sizes() && fc != heap && fc.Length <= HEAP_SIZE
      requires 2 <= heapLen && Nodes(heap[..], heapLen, fc.Length)
      modifies heap
      ensures Nodes(heap[..], heapLen, fc.Length)
      ensures Ordered(heap[..], heapLen, fc[..], depth[..], 1)
      ensures multiset(Live(heap[..], heapLen)) == multiset(old(Live(heap[..], heapLen)))
    {
      hide Smaller, Live;
      for n := heapLen / 2 + 1 downto 1
        invariant Nodes(heap[..], heapLen, fc.Length)
        invariant Ordered(heap[..], heapLen, fc[..], depth[..], n)
        invariant multiset(Live(heap[..], heapLen)) == multiset(old(Live(heap[..], heapLen)))
      {
        PqDownHeap(heap, heapLen, fc, depth, n);
      }
    }

    /** Take the smallest node out of the heap. */
    method PqRemove(fc: array<nat>) returns (top: nat)
      requires Sizes() && fc != heap && fc.Length <= HEAP_SIZE
      requires 2 <= heapLen && Nodes(heap[..], heapLen, fc.Length)
      requires Ordered(heap[..], heapLen, fc[..], depth[..], 1)
      modifies this`heapLen, heap
      ensures heapLen == old(heapLen) - 1 && Nodes(heap[..], heapLen, fc.Length)
      ensures Ordered(heap[..], heapLen, fc[..], depth[..], 1)
      ensures top == old(heap[1])
      ensures multiset(old(Live(heap[..], heapLen))) == multiset([top] + Live(heap[..], heapLen))
      ensures forall i :: heapLen < i < HEAP_SIZE ==> heap[i] == old(heap[i])
    {
      hide Smaller, Live, Ordered;
      ghost var h, len := heap[..], heapLen;
      top := heap[1];
      heap[1] := heap[heapLen];
      heapLen := heapLen - 1;
      TopReplaced(h, len, fc[..], depth[..]);
      assert heap[..] == h[1 := h[len]];
      PqDownHeap(heap, heapLen, fc, depth, 1);
    }

    /** Take the two lightest nodes out of the heap and place them. */
    method TakeTwo(fc: array<nat>, ghost dad: seq<nat>, ghost leaves: seq<nat>, ghost elems: nat)
        returns (n: nat, m: nat, ghost rest: seq<nat>)
      requires Sizes() && fc != heap && fc != depth && heapLen >= 2
      requires Merging(heap[..], heapLen, heapMax, fc[..], depth[..], dad, leaves, elems)
      requires Ordered(heap[..], heapLen, fc[..], depth[..], 1)
      modifies this`heapLen, this`heapMax, heap
      ensures heapLen == old(heapLen) - 1 && heapMax == old(heapMax) - 2 && heapLen + 1 < heapMax < HEAP_SIZE - 1
      ensures Nodes(heap[..], heapLen, fc.Length) && Ordered(heap[..], heapLen, fc[..], depth[..], 1)
      ensures heap[1] == m && heap[heapMax] == m && heap[heapMax + 1] == n
      ensures Live(heap[..], heapLen) == [m] + rest
      ensures multiset(old(Live(heap[..], heapLen))) == multiset([n, m] + rest)
      ensures forall p :: heapMax + 2 <= p < HEAP_SIZE ==> heap[p] == old(heap[p])
      ensures PopsKnown(fc[..], leaves, elems, NextNode(leaves, elems, old(heapLen)), rest, n, m)
    {
      hide Merging, Ordered, Live, Smaller, PopsKnown;
      ghost var h, len, mx := heap[..], heapLen, heapMax;
      MergingSizes(h, len, mx, fc[..], depth[..], dad, leaves, elems);
      n := PqRemove(fc);
      ghost var h1 := heap[..];
      m := heap[1];
      PopFacts(h, h1, len, mx, fc[..], depth[..], dad, leaves, elems, n);
      rest := Live(h1, len - 1)[1..];
      heapMax := heapMax - 1;
      heap[heapMax] := n;
      heapMax := heapMax - 1;
      heap[heapMax] := m;
      AboveLive(h1, heap[..], len - 1, fc[..], depth[..]);
    }

    /** Put the father of n and m into the tree and on top of the heap. */
    method AddFather(fc: array<nat>, dl: array<nat>, elems: nat, node: nat, n: nat, m: nat, ghost rest: seq<nat>)
      requires Fits(fc, dl, elems) && 1 <= heapLen && heapLen + 1 < HEAP_SIZE
      requires Nodes(heap[..], heapLen, fc.Length) && Ordered(heap[..], heapLen, fc[..], depth[..], 1)
      requires n < node && m < node && n != m && node < fc.Length && fc[n] + fc[m] < 65536
      requires Live(heap[..], heapLen) == [m] + rest && forall i :: 0 <= i < |rest| ==> rest[i] < node
      modifies heap, depth, fc, dl
      ensures Nodes(heap[..], heapLen, fc.Length) && Ordered(heap[..], heapLen, fc[..], depth[..], 1)
      ensures multiset(Live(heap[..], heapLen)) == multiset([node] + rest)
      ensures forall p :: heapLen < p < HEAP_SIZE ==> heap[p] == old(heap[p])
      ensures fc[..] == old(fc[..])[node := old(fc[n]) + old(fc[m])]
      ensures dl[..] == old(dl[..])[n := node][m := node]
    {
      hide Ordered, Live, Low, Smaller;
      ghost var h, f, d := heap[..], fc[..], depth[..];
      FitsWord(fc[n] + fc[m]);
      fc[node] := Low(fc[n] + fc[m], 16);
      depth[node] := Low((if depth[n] >= depth[m] then depth[n] else depth[m]) + 1, 8);
      dl[n] := node;
      dl[m] := node;
      heap[1] := node;
      FatherOnTop(h, heap[..], heapLen, f, fc[..], d, depth[..], node, m, rest);
      PqDownHeap(heap, heapLen, fc, depth, 1);
    }

    /** Combine the two lightest nodes under a new internal node. */
    method MergeTwo(fc: array<nat>, dl: array<nat>, node: nat, elems: nat,
                    ghost leaves: seq<nat>, ghost init: multiset<nat>, ghost total: nat)
      requires Fits(fc, dl, elems) && heapLen >= 2 && total < 65536
      requires Merging(heap[..], heapLen, heapMax, fc[..], depth[..], dl[..], leaves, elems)
      requires Ordered(heap[..], heapLen, fc[..], depth[..], 1)
      requires heapLen <= |leaves| && node == NextNode(leaves, elems, heapLen) <= fc.Length
      requires Nodes(heap[..], heapLen, fc.Length) && Optimal(heap[..], heapLen, fc[..], leaves, elems, init, total)
      modifies this`heapLen, this`heapMax, heap, depth, fc, dl
      ensures heapLen == old(heapLen) - 1
      ensures Merging(heap[..], heapLen, heapMax, fc[..], depth[..], dl[..], leaves, elems)
      ensures Nodes(heap[..], heapLen, fc.Length) && Ordered(heap[..], heapLen, fc[..], depth[..], 1)
      ensures NextNode(leaves, elems, heapLen) == node + 1 <= fc.Length
      ensures Optimal(heap[..], heapLen, fc[..], leaves, elems, init, total)
      ensures forall x :: 0 <= x < elems ==> fc[x] == old(fc[x])
      ensures forall x :: 0 <= x < elems && x !in leaves ==> dl[x] == old(dl[x])
    {
      hide Merging, Ordered, Optimal, Live, Smaller, Merged, PopsKnown;
      ghost var h, len, mx, f, d := heap[..], heapLen, heapMax, fc[..], depth[..];
      ghost var dad: seq<nat> := dl[..];
      MergingSizes(h, len, mx, f, d, dad, leaves, elems);
      ghost var rest: seq<nat>;
      var n: nat, m: nat;
      n, m, rest := TakeTwo(fc, dad, leaves, elems);
      PopsUse(f, leaves, elems, node, rest, n, m);
      PopTotal(h, len, f, leaves, elems, init, total, rest, n, m);
      ghost var h1 := heap[..];
      AddFather(fc, dl, elems, node, n, m, rest);
      FatherPlaced(h, h1, heap[..], len, mx, rest, node, n, m);
      MergingStep(h, heap[..], len, mx, f, d, depth[..], dad, leaves, elems, rest, n, m);
      OptimalStep(h, heap[..], len, mx, f, leaves, elems, rest, n, m, init, total);
    }

    /** Merge until one tree is left, and place its root. */
    method MergeAll(fc: array<nat>, dl: array<nat>, elems: nat, ghost leaves: seq<nat>, ghost total: nat)
      requires Fits(fc, dl, elems) && heapMax == HEAP_SIZE
      requires LeafList(leaves, elems) && heapLen == |leaves| < heap.Length && Live(heap[..], heapLen) == leaves
      requires Nodes(heap[..], heapLen, fc.Length) && Ordered(heap[..], heapLen, fc[..], depth[..], 1)
      requires forall i :: 0 <= i < |leaves| ==> leaves[i] < fc.Length
      requires total == Sum(At(leaves, fc[..])) < 65536
      modifies this`heapLen, this`heapMax, heap, depth, fc, dl
      ensures TreeOrder(heap[..], heapMax, leaves, elems) && elems + |leaves| - 1 <= fc.Length
      ensures Fathers(heap[..], heapMax + 1, dl[..], elems)
      ensures Weighed(heap[..], heapMax, fc[..], elems, elems + |leaves| - 1)
      ensures forall t: Tree :: Leaves(t) == multiset(At(leaves, old(fc[..]))) ==>
                Spent(fc[..], elems, elems + |leaves| - 1) <= Cost(t)
      ensures forall x :: 0 <= x < elems ==> fc[x] == old(fc[x])
      ensures forall x :: 0 <= x < elems && x !in leaves ==> dl[x] == old(dl[x])
    {
      hide Merging, Ordered, Optimal, Live, Smaller, LeafList, At, Sum, TreeOrder, Weighed, Fathers;
      LeafSizes(leaves, elems);
      MergeStart(heap[..], heapLen, fc[..], depth[..], dl[..], leaves, elems);
      ghost var init := multiset(At(leaves, fc[..]));
      var node := elems;
      while heapLen >= 2
        invariant Fits(fc, dl, elems)
        invariant Merging(heap[..], heapLen, heapMax, fc[..], depth[..], dl[..], leaves, elems)
        invariant Nodes(heap[..], heapLen, fc.Length) && Ordered(heap[..], heapLen, fc[..], depth[..], 1)
        invariant 1 <= heapLen <= |leaves| && node == NextNode(leaves, elems, heapLen) <= fc.Length
        invariant Optimal(heap[..], heapLen, fc[..], leaves, elems, init, total)
        invariant forall x :: 0 <= x < elems ==> fc[x] == old(fc[x])
        invariant forall x :: 0 <= x < elems && x !in leaves ==> dl[x] == old(dl[x])
        decreases heapLen
      {
        MergeTwo(fc, dl, node, elems, leaves, init, total);
        node := node + 1;
      }
      MergeEnd(heap[..], heapMax, fc[..], depth[..], dl[..], leaves, elems, init, total);
      heapMax := heapMax - 1;
      heap[heapMax] := heap[1];
    }

    /** First pass of gen_bitlen: clamped depths, their counts and the totals. */
    method ClampDepths(fc: array<nat>, dl: array<nat>, kind: Kind, maxCode: nat, ghost leaves: seq<nat>)
        returns (overflow: nat)
      requires Fits(fc, dl, Elems(kind)) && maxCode < Elems(kind)
      requires TreeOrder(heap[..], heapMax, leaves, Elems(kind)) && Elems(kind) + |leaves| - 1 <= fc.Length
      requires Fathers(heap[..], heapMax + 1, dl[..], Elems(kind))
      modifies this`optLen, this`staticLen, blCount, dl
      ensures PassState(heap[..], heapMax, HEAP_SIZE, dl[..], leaves, Elems(kind), MaxLength(kind))
      ensures PassTotals(kind, heap[..], heapMax, HEAP_SIZE, dl[..], fc[..], maxCode, MaxLength(kind),
                         blCount[..], overflow, optLen - old(optLen), staticLen - old(staticLen))
      ensures forall x :: 0 <= x < Elems(kind) && x !in leaves ==> dl[x] == old(dl[x])
    {
      hide TreeOrder, Fathers, PassState, PassTotals, BitCost, StaticCost;
      ghost var h, mx, f, dl0 := heap[..], heapMax, fc[..], dl[..];
      var max := MaxLength(kind);
      forall b | 0 <= b < 16 {
        blCount[b] := 0;
      }
      TreeSize(h, mx, leaves, Elems(kind));
      overflow := 0;
      PassStart(h, mx, dl0, leaves, Elems(kind), max);
      dl[heap[heapMax]] := 0;
      assert dl[..] == dl0[h[mx] := 0];
      PassShape(h, mx, mx + 1, dl[..], leaves, Elems(kind), max);
      TotalsStart(kind, h, mx, dl[..], f, maxCode, max, blCount[..]);
      for p := heapMax + 1 to HEAP_SIZE
        invariant heap[..] == h && fc[..] == f
        invariant PassState(h, mx, p, dl[..], leaves, Elems(kind), max)
        invariant PassTotals(kind, h, mx, p, dl[..], f, maxCode, max, blCount[..], overflow,
                             optLen - old(optLen), staticLen - old(staticLen))
        invariant forall x :: 0 <= x < Elems(kind) && x !in leaves ==> dl[x] == dl0[x]
      {
        PlacedKind(h, mx, leaves, Elems(kind), p);
        overflow := ClampOne(fc, dl, kind, maxCode, leaves, p, overflow, old(optLen), old(staticLen));
      }
    }

    /** One node of the first pass. */
    method ClampOne(fc: array<nat>, dl: array<nat>, kind: Kind, maxCode: nat, ghost leaves: seq<nat>, p: nat,
                    overflow0: nat, ghost opt0: int, ghost stat0: int) returns (overflow: nat)
      requires Fits(fc, dl, Elems(kind)) && maxCode < Elems(kind) && p < HEAP_SIZE
      requires TreeOrder(heap[..], heapMax, leaves, Elems(kind))
      requires PassState(heap[..], heapMax, p, dl[..], leaves, Elems(kind), MaxLength(kind))
      requires PassTotals(kind, heap[..], heapMax, p, dl[..], fc[..], maxCode, MaxLength(kind),
                          blCount[..], overflow0, optLen - opt0, staticLen - stat0)
      modifies this`optLen, this`staticLen, blCount, dl
      ensures PassState(heap[..], heapMax, p + 1, dl[..], leaves, Elems(kind), MaxLength(kind))
      ensures PassTotals(kind, heap[..], heapMax, p + 1, dl[..], fc[..], maxCode, MaxLength(kind),
                         blCount[..], overflow, optLen - opt0, staticLen - stat0)
      ensures forall x :: 0 <= x < dl.Length && x != heap[p] ==> dl[x] == old(dl[x])
    {
      hide TreeOrder, PassState, PassTotals, BitCost, StaticCost;
      ghost var h, mx, f, dl0, bc := heap[..], heapMax, fc[..], dl[..], blCount[..];
      var max := MaxLength(kind);
      overflow := overflow0;
      var n := heap[p];
      PassStep(h, mx, p, dl0, leaves, Elems(kind), max);
      PassFather(h, mx, p, dl0, leaves, Elems(kind), max);
      var bits := dl[dl[n]] + 1;
      if bits > max {
        bits := max;
        overflow := overflow + 1;
      }
      dl[n] := bits;
      assert dl[..] == dl0[n := bits];
      TotalsStep(kind, h, mx, p, dl0, dl[..], f, leaves, maxCode, max, bc, overflow0, optLen - opt0, staticLen - stat0);
      if n <= maxCode {
        blCount[bits] := blCount[bits] + 1;
        var xbits := Xbits(kind, n);
        CostAt(kind, f, dl[..], n);
        StaticCostAt(kind, f, n);
        optLen := optLen + fc[n] * (bits + xbits);
        if kind != BlTree {
          staticLen := staticLen + fc[n] * (StaticLen(kind, n) + xbits);
        }
        assert blCount[..] == bc[bits := bc[bits] + 1];
      }
    }

    /** Second pass of gen_bitlen: hand the repaired lengths out again, longest first, to the
        lightest leaves. */
    method Reassign(fc: array<nat>, dl: array<nat>, kind: Kind, maxCode: nat, ghost leaves: seq<nat>)
      requires Fits(fc, dl, Elems(kind)) && Separates(leaves, Elems(kind), maxCode)
      requires TreeOrder(heap[..], heapMax, leaves, Elems(kind)) && Elems(kind) + |leaves| - 1 <= fc.Length
      requires Total(blCount[..], MaxLength(kind)) == |leaves| && blCount[0] == 0
      requires forall b :: MaxLength(kind) < b < 16 ==> blCount[b] == 0
      modifies this`optLen, dl
      ensures forall i :: 0 <= i < |leaves| ==> leaves[i] < dl.Length && dl[leaves[i]] <= 15
      ensures blCount[..] == Counts(At(leaves, dl[..]))
      ensures optLen - Sum(At(leaves, BitCost(kind, fc[..], dl[..])))
           == old(optLen) - old(Sum(At(leaves, BitCost(kind, fc[..], dl[..]))))
      ensures forall x :: 0 <= x < dl.Length && x !in leaves ==> dl[x] == old(dl[x])
    {
      hide TreeOrder, Assigning, BitCost, Sum, At, Total, Separates;
      ghost var h, mx, f, bc := heap[..], heapMax, fc[..], blCount[..];
      LeavesFit(h, mx, leaves, Elems(kind), f, dl[..]);
      ghost var base := optLen - Sum(At(leaves, BitCost(kind, f, dl[..])));
      AssignStart(h, mx, dl[..], leaves, Elems(kind), maxCode, bc, MaxLength(kind));
      var pos := HEAP_SIZE;
      var bits := MaxLength(kind);
      ghost var last := bc[bits];
      while bits != 0
        invariant bits <= MaxLength(kind) && last == bc[bits]
        invariant heap[..] == h && fc[..] == f && blCount[..] == bc
        invariant Assigning(h, mx, pos, dl[..], leaves, Elems(kind), maxCode, bc, bits, last)
        invariant optLen - Sum(At(leaves, BitCost(kind, f, dl[..]))) == base
        invariant forall x :: 0 <= x < dl.Length && x !in leaves ==> dl[x] == old(dl[x])
        decreases bits
      {
        pos := AssignLength(fc, dl, kind, maxCode, leaves, pos, bits);
        AssignNext(h, mx, pos, dl[..], leaves, Elems(kind), maxCode, bc, bits);
        bits := bits - 1;
        last := bc[bits];
      }
      AssignEnd(h, mx, pos, dl[..], leaves, Elems(kind), maxCode, bc);
    }

    /** Change the length of a symbol, and the bits that it costs. */
    method SetLength(fc: array<nat>, dl: array<nat>, m: nat, bits: nat)
      requires m < fc.Length == dl.Length && fc != dl
      modifies this`optLen, dl
      ensures dl[..] == old(dl[..])[m := bits] && optLen == old(optLen) + fc[m] * (bits - old(dl[m]))
    {
      if dl[m] != bits {
        optLen := optLen + (bits - dl[m]) * fc[m];
        dl[m] := bits;
      }
    }

    /** Give out the codes of one length. */
    method AssignLength(fc: array<nat>, dl: array<nat>, kind: Kind, maxCode: nat, ghost leaves: seq<nat>,
                        pos0: nat, bits: nat) returns (pos: nat)
      requires Fits(fc, dl, Elems(kind)) && 1 <= bits <= 15
      requires TreeOrder(heap[..], heapMax, leaves, Elems(kind)) && Elems(kind) + |leaves| - 1 <= fc.Length
      requires forall i :: 0 <= i < |leaves| ==> leaves[i] < fc.Length
      requires Assigning(heap[..], heapMax, pos0, dl[..], leaves, Elems(kind), maxCode, blCount[..], bits,
                         blCount[bits])
      modifies this`optLen, dl
      ensures Assigning(heap[..], heapMax, pos, dl[..], leaves, Elems(kind), maxCode, blCount[..], bits, 0)
      ensures optLen - Sum(At(leaves, BitCost(kind, fc[..], dl[..])))
           == old(optLen) - old(Sum(At(leaves, BitCost(kind, fc[..], dl[..]))))
      ensures forall x :: 0 <= x < dl.Length && x !in leaves ==> dl[x] == old(dl[x])
    {
      hide TreeOrder, Assigning, BitCost, Sum, At, Distinct;
      ghost var h, mx, f, bc := heap[..], heapMax, fc[..], blCount[..];
      ghost var base := optLen - Sum(At(leaves, BitCost(kind, f, dl[..])));
      pos := pos0;
      var n := blCount[bits];
      AssigningPos(h, mx, pos, dl[..], leaves, Elems(kind), maxCode, bc, bits, n);
      while n != 0
        invariant pos <= HEAP_SIZE && heap[..] == h && fc[..] == f && blCount[..] == bc
        invariant Assigning(h, mx, pos, dl[..], leaves, Elems(kind), maxCode, bc, bits, n)
        invariant optLen - Sum(At(leaves, BitCost(kind, f, dl[..]))) == base
        invariant forall x :: 0 <= x < dl.Length && x !in leaves ==> dl[x] == old(dl[x])
        decreases pos
      {
        ghost var dl0 := dl[..];
        MoreLeaves(h, mx, pos, dl0, leaves, Elems(kind), maxCode, bc, bits, n);
        AssignStep(h, mx, pos, dl0, leaves, Elems(kind), maxCode, bc, bits, n);
        pos := pos - 1;
        var m := heap[pos];
        if m <= maxCode {
          LeavesKnown(h, mx, leaves, Elems(kind));
          CostChanged(kind, f, dl0, leaves, m, bits);
          SetLength(fc, dl, m, bits);
          n := n - 1;
        }
      }
    }

    /** Code lengths from the finished tree, none longer than the tree's limit, and their cost. */
    method GenBitLen(fc: array<nat>, dl: array<nat>, kind: Kind, maxCode: nat, ghost leaves: seq<nat>)
        returns (ghost tree: Tree)
      requires Fits(fc, dl, Elems(kind)) && Separates(leaves, Elems(kind), maxCode)
      requires TreeOrder(heap[..], heapMax, leaves, Elems(kind)) && Elems(kind) + |leaves| - 1 <= fc.Length
      requires Fathers(heap[..], heapMax + 1, dl[..], Elems(kind))
      requires Weighed(heap[..], heapMax, fc[..], Elems(kind), Elems(kind) + |leaves| - 1)
      modifies this`optLen, this`staticLen, blCount, dl
      ensures Tabulated(leaves, dl[..], blCount[..], MaxLength(kind))
      ensures Units(blCount[..], MaxLength(kind)) == Pow2(MaxLength(kind))
      ensures optLen == old(optLen) + Sum(At(leaves, BitCost(kind, fc[..], dl[..])))
      ensures staticLen == old(staticLen) + Sum(At(leaves, StaticCost(kind, fc[..])))
      ensures |leaves| >= 2 && Downward(heap[..], fc[..], Elems(kind), |leaves| - 1)
      ensures tree == WholeTree(heap[..], fc[..], leaves, Elems(kind)) && Leaves(tree) == multiset(At(leaves, fc[..]))
      ensures Cost(tree) == Spent(fc[..], Elems(kind), Elems(kind) + |leaves| - 1)
      ensures Height(tree) <= MaxLength(kind) ==>
                DepthsOf(tree, 0) == multiset(Pairs(leaves, fc[..], dl[..]))
                && Sum(At(leaves, CostSeq(dl[..], fc[..]))) == Cost(tree)
      ensures Height(tree) > MaxLength(kind) ==> |leaves| >= MaxLength(kind) + 2
      ensures forall x :: 0 <= x < Elems(kind) && x !in leaves ==> dl[x] == old(dl[x])
    {
      hide TreeOrder, PassState, PassTotals, BitCost, StaticCost, Sum, At, CostSeq, Counts, Fathers, Weighed, Units,
        Total, Pow2, Leaves, Cost, Height, DepthsOf, Pairs, Downward, WholeTree;
      ghost var h, mx, dad := heap[..], heapMax, dl[..];
      var overflow := ClampDepths(fc, dl, kind, maxCode, leaves);
      tree := TreeKnown(kind, h, mx, dl[..], fc[..], leaves, maxCode, blCount[..], overflow,
                        optLen - old(optLen), staticLen - old(staticLen), dad);
      LeavesFew(h, mx, leaves, kind);
      PassResult(kind, h, mx, dl[..], fc[..], leaves, maxCode, blCount[..], overflow,
                 optLen - old(optLen), staticLen - old(staticLen));
      TabulatedZero(leaves, dl[..], blCount[..], MaxLength(kind));
      if overflow == 0 {
        return;
      }
      ClippedDepth(kind, h, mx, dl[..], fc[..], leaves, maxCode, blCount[..], overflow,
                   optLen - old(optLen), staticLen - old(staticLen));
      Repair(blCount, MaxLength(kind), overflow);
      Reassign(fc, dl, kind, maxCode, leaves);
      Retabulated(leaves, dl[..], blCount[..], MaxLength(kind));
    }

    /** A heap of the used symbols, at least two of them. */
    method StartHeap(fc: array<nat>, dl: array<nat>, kind: Kind) returns (maxCode: nat, ghost leaves: seq<nat>)
      requires Fits(fc, dl, Elems(kind)) && Sum(fc[..][..Elems(kind)]) <= 65533
      modifies this`heapLen, this`heapMax, this`optLen, this`staticLen, heap, depth, fc, dl
      ensures heapMax == HEAP_SIZE && heapLen == |leaves| < heap.Length && Live(heap[..], heapLen) == leaves
      ensures Nodes(heap[..], heapLen, fc.Length) && Ordered(heap[..], heapLen, fc[..], depth[..], 1)
      ensures LeafList(leaves, Elems(kind)) && 1 <= maxCode && Separates(leaves, Elems(kind), maxCode)
      ensures forall i :: 0 <= i < |leaves| ==> leaves[i] < Elems(kind)
      ensures Sum(At(leaves, fc[..])) < 65536 && IsMaxCode(fc[..], Elems(kind), maxCode)
      ensures ForcedFrom(old(fc[..]), fc[..], Elems(kind), leaves)
      ensures forall x :: 0 <= x < Elems(kind) && old(fc[x]) == 0 ==> dl[x] == 0
      ensures optLen == old(optLen) - |leaves| + |Used(old(fc[..]), Elems(kind))|
      ensures staticLen == old(staticLen) - ForcedStatic(kind, old(fc[..]), fc[..], Elems(kind))
    {
      hide Used, Live, IsMaxCode, ForcedFrom, Forced, ForcedStatic, Sum, At, LeafList, Separates, Ordered;
      ghost var f0, n := fc[..], Elems(kind);
      var mc := InitHeap(fc, dl, Elems(kind));
      mc := ForceTwo(fc, kind, mc);
      ghost var f := fc[..];
      LiveNodes(heap[..], heapLen, f, n);
      Heapify(fc);
      leaves := Live(heap[..], heapLen);
      ForcedIntro(f0, f, n, leaves);
      LeavesReady(f0, f, n, leaves, mc);
      maxCode := mc;
    }

    /** Build the tree for the frequencies in fc: lengths into dl, codes into fc, and the cost of
        the block body into optLen and staticLen. */
    method BuildTree(fc: array<nat>, dl: array<nat>, kind: Kind) returns (maxCode: nat, ghost tree: Tree)
      requires Fits(fc, dl, Elems(kind))
      requires Sum(fc[..][..Elems(kind)]) <= 65533
      modifies this`heapLen, this`heapMax, this`optLen, this`staticLen, heap, depth, blCount, fc, dl
      ensures 1 <= maxCode < Elems(kind) && dl[maxCode] != 0
      ensures forall x :: maxCode < x < Elems(kind) ==> dl[x] == 0
      ensures forall x :: 0 <= x < Elems(kind) ==> dl[x] <= MaxLength(kind) && (old(fc[x]) != 0 ==> dl[x] != 0)
      ensures Complete(dl[..maxCode + 1])
      ensures forall n :: 0 <= n <= maxCode && dl[n] != 0 ==> fc[n] == CodeVal(dl[..maxCode + 1], n)
      ensures optLen == old(optLen) + Sum(BitCost(kind, old(fc[..]), dl[..])[..Elems(kind)])
      ensures staticLen == old(staticLen) + Sum(StaticCost(kind, old(fc[..]))[..Elems(kind)])
      ensures forall t: Tree :: Leaves(t) == Leaves(tree) ==> Cost(tree) <= Cost(t)
      ensures var used := Used(old(fc[..]), Elems(kind));
              |used| >= 2 ==>
                && Downward(heap[..], old(fc[..]), Elems(kind), |used| - 1)
                && tree == WholeTree(heap[..], old(fc[..]), used, Elems(kind))
                && Leaves(tree) == multiset(At(used, old(fc[..])))
                && (Height(tree) <= MaxLength(kind) ==>
                      DepthsOf(tree, 0) == multiset(Pairs(used, old(fc[..]), dl[..]))
                      && Sum(At(used, CostSeq(dl[..], old(fc[..])))) == Cost(tree))
      ensures Height(tree) > MaxLength(kind) ==> |Used(old(fc[..]), Elems(kind))| >= MaxLength(kind) + 2
      ensures |Used(old(fc[..]), Elems(kind))| < 2 ==> forall x :: 0 <= x < Elems(kind) ==> dl[x] <= 1
    {
      hide Used, Live, IsMaxCode, ForcedFrom, Forced, ForcedStatic, TreeOrder, Fathers, Weighed, Sum, At, BitCost,
        StaticCost, CostSeq, Spent, Units, Pow2, LeafList, Separates, Tabulated, Ordered, Leaves, Cost, Complete,
        Kraft, Count, CodeVal, Height, DepthsOf, Pairs, Downward, WholeTree;
      ghost var f0, n := fc[..], Elems(kind);
      ghost var leaves: seq<nat>;
      maxCode, leaves := StartHeap(fc, dl, kind);
      ghost var f: seq<nat>, dl0: seq<nat> := fc[..], dl[..];
      MergeAll(fc, dl, Elems(kind), leaves, Sum(At(leaves, f)));
      ghost var g := fc[..];
      tree := GenBitLen(fc, dl, kind, maxCode, leaves);
      ghost var ls := dl[..];
      ForcedSize(f0, f, n, leaves);
      UnusedZero(f0, f, n, leaves, dl0, ls);
      FinalLengths(f0, f, n, ls, leaves, maxCode, blCount[..], MaxLength(kind));
      FewLengths(f0, f, n, ls, leaves, blCount[..], MaxLength(kind));
      FinalCosts(kind, f0, f, g, ls, leaves, blCount[..]);
      FinalTree(f0, f, g, n, ls, leaves, tree, MaxLength(kind), heap[..]);
      GenCodes.GenCodes(fc, dl, maxCode, blCount);
    }
  }

  lemma UsedNone(f: seq<nat>, h: seq<nat>)
    requires |h| > 0
    ensures Used(f, 0) == [] && Live(h, 0) == []
  {
  }

  lemma UsedStep(f: seq<nat>, n: nat, mc: int)
    requires n < |f|
    requires (n > 0 && IsMaxCode(f, n, mc)) || (n == 0 && mc == -1)
    ensures Used(f, n + 1) == if f[n] != 0 then Used(f, n) + [n] else Used(f, n)
    ensures IsMaxCode(f, n + 1, if f[n] != 0 then n else mc)
  {
  }

  /** Moving the last node to the top disturbs the order only there. */
  lemma TopReplaced(h: seq<nat>, len: nat, f: seq<nat>, d: seq<nat>)
    requires 2 <= len && Nodes(h, len, |f|) && |d| >= |f| && Ordered(h, len, f, d, 1)
    ensures var g := h[1 := h[len]];
            Nodes(g, len - 1, |f|) && Ordered(g, len - 1, f, d, 2)
            && multiset(Live(h, len)) == multiset([h[1]] + Live(g, len - 1))
  {
    hide Smaller;
    var g := h[1 := h[len]];
    if len == 2 {
      assert Live(h, len) == [h[1]] + Live(g, len - 1);
    } else {
      assert Live(h, len) == [h[1]] + h[2..len] + [h[len]];
      assert Live(g, len - 1) == [h[len]] + h[2..len];
    }
  }

  lemma MergingSizes(h: seq<nat>, len: nat, mx: nat, f: seq<nat>, d: seq<nat>, dad: seq<nat>, leaves: seq<nat>,
                     elems: nat)
    requires Merging(h, len, mx, f, d, dad, leaves, elems)
    ensures |h| == HEAP_SIZE && len <= |leaves| && len + 1 < mx <= HEAP_SIZE && Nodes(h, len, |f|)
    ensures mx >= 2 * len + 1
    ensures elems <= NextNode(leaves, elems, len) < |f| == |dad| <= |d|
    ensures forall i :: 0 <= i < len ==> Live(h, len)[i] < NextNode(leaves, elems, len)
  {
    MembersBelow(h, len, mx, f, d, dad, leaves, elems);
  }

  /** The two popped nodes: what they are and how they compare with the rest. */
  ghost predicate PopsKnown(f: seq<nat>, leaves: seq<nat>, elems: nat, node: nat, rest: seq<nat>, n: nat, m: nat)
  {
    n < node < |f| && m < node && n != m
    && f[n] <= f[m] && (forall i :: 0 <= i < |rest| ==> rest[i] < node && f[m] <= f[rest[i]])
    && (n < elems ==> n in leaves) && (m < elems ==> m in leaves)
  }

  lemma PopsUse(f: seq<nat>, leaves: seq<nat>, elems: nat, node: nat, rest: seq<nat>, n: nat, m: nat)
    requires PopsKnown(f, leaves, elems, node, rest, n, m)
    ensures n < node < |f| && m < node && n != m
    ensures f[n] <= f[m] && (forall i :: 0 <= i < |rest| ==> rest[i] < node)
    ensures forall i :: 0 <= i < |rest| ==> rest[i] < |f| && f[m] <= f[rest[i]]
    ensures (n < elems ==> n in leaves) && (m < elems ==> m in leaves)
  {
  }

  lemma AboveLive(h: seq<nat>, g: seq<nat>, len: nat, f: seq<nat>, d: seq<nat>)
    requires |g| == |h| && Nodes(h, len, |f|) && |d| >= |f| && Ordered(h, len, f, d, 1)
    requires forall i :: 0 <= i <= len ==> g[i] == h[i]
    ensures Nodes(g, len, |f|) && Ordered(g, len, f, d, 1) && Live(g, len) == Live(h, len)
  {
    hide Smaller;
  }

  /** What is known of the two smallest nodes once the first is out of the heap. */
  lemma PopFacts(h: seq<nat>, h1: seq<nat>, len: nat, mx: nat, f: seq<nat>, d: seq<nat>, dad: seq<nat>,
                 leaves: seq<nat>, elems: nat, n: nat)
    requires Merging(h, len, mx, f, d, dad, leaves, elems) && len >= 2 && |h1| == |h|
    requires Ordered(h, len, f, d, 1) && Nodes(h1, len - 1, |f|) && Ordered(h1, len - 1, f, d, 1)
    requires n == h[1] && multiset(Live(h, len)) == multiset([n] + Live(h1, len - 1))
    ensures var rest := Live(h1, len - 1)[1..];
            var m := h1[1];
            Live(h1, len - 1) == [m] + rest
            && multiset(Live(h, len)) == multiset([n, m] + rest)
            && PopsKnown(f, leaves, elems, NextNode(leaves, elems, len), rest, n, m)
  {
    hide Conserved, Fathers, Weighed, LeafList, Ordered, Smaller;
    var node := NextNode(leaves, elems, len);
    var live := Live(h1, len - 1);
    var m, rest := h1[1], live[1..];
    MergingSizes(h, len, mx, f, d, dad, leaves, elems);
    assert live == [m] + rest;
    assert [n] + live == [n, m] + rest;
    LeastOfAll(h, live, len, f, d, node, n);
    LeastOfRest(h1, len - 1, f, d);
    assert live[0] == m;
    TwoOut(Live(h, len), h[mx..], leaves, elems, node, rest, n, m);
  }

  lemma LeastOfAll(h: seq<nat>, live: seq<nat>, len: nat, f: seq<nat>, d: seq<nat>, node: nat, n: nat)
    requires Nodes(h, len, |f|) && len >= 2 && |d| >= |f| && Ordered(h, len, f, d, 1) && n == h[1]
    requires forall i :: 0 <= i < len ==> Live(h, len)[i] < node
    requires node <= |f| && multiset(Live(h, len)) == multiset([n] + live)
    ensures forall i :: 0 <= i < |live| ==> live[i] < node && f[n] <= f[live[i]]
  {
    hide Ordered;
    forall i | 0 <= i < |live| ensures live[i] < node && f[n] <= f[live[i]] {
      assert live[i] in multiset([n] + live);
      assert live[i] in multiset(Live(h, len));
      var j :| 0 <= j < len && Live(h, len)[j] == live[i];
      TopIsSmallest(h, len, f, d, j + 1);
    }
  }

  lemma LeastOfRest(h: seq<nat>, len: nat, f: seq<nat>, d: seq<nat>)
    requires Nodes(h, len, |f|) && len >= 1 && |d| >= |f| && Ordered(h, len, f, d, 1)
    ensures forall i :: 1 <= i < len ==> Live(h, len)[i] < |f| && f[h[1]] <= f[Live(h, len)[i]]
  {
    hide Ordered;
    forall i | 1 <= i < len ensures Live(h, len)[i] < |f| && f[h[1]] <= f[Live(h, len)[i]] {
      TopIsSmallest(h, len, f, d, i + 1);
    }
  }

  lemma TwoOut(live: seq<nat>, placed: seq<nat>, leaves: seq<nat>, elems: nat, node: nat, rest: seq<nat>, n: nat,
               m: nat)
    requires LeafList(leaves, elems) && elems <= node && Conserved(live, placed, leaves, elems, node)
    requires multiset(live) == multiset([n, m] + rest)
    ensures n != m && n < node && m < node
    ensures (n < elems ==> n in leaves) && (m < elems ==> m in leaves)
  {
    hide Conserved, LeafList;
    CountOnce(live, placed, leaves, elems, node, n);
    assert n == m ==> multiset([n, m] + rest)[n] >= 2;
    assert n in multiset(live) && m in multiset(live);
    MemberBelow(live, placed, leaves, elems, node, n);
    MemberBelow(live, placed, leaves, elems, node, m);
  }

  lemma PopTotal(h: seq<nat>, len: nat, f: seq<nat>, leaves: seq<nat>, elems: nat, init: multiset<nat>, total: nat,
                 rest: seq<nat>, n: nat, m: nat)
    requires Nodes(h, len, |f|) && len <= |leaves| && NextNode(leaves, elems, len) <= |f|
    requires Optimal(h, len, f, leaves, elems, init, total)
    requires n < |f| && m < |f| && multiset(Live(h, len)) == multiset([n, m] + rest)
    ensures f[n] + f[m] <= total
  {
    hide LowerBound, Sum, At;
    PairWithinTotal(Live(h, len), rest, f, n, m);
  }

  /** The new father can be sifted from the top: everything below is in order. */
  lemma FatherOnTop(h: seq<nat>, g: seq<nat>, len: nat, f: seq<nat>, f': seq<nat>, d: seq<nat>, d': seq<nat>,
                    node: nat, m: nat, rest: seq<nat>)
    requires 1 <= len && Nodes(h, len, |f|) && |d| >= |f| && Ordered(h, len, f, d, 1)
    requires g == h[1 := node] && node < |f| == |f'| && |d'| == |d|
    requires forall x :: 0 <= x < node ==> f'[x] == f[x] && d'[x] == d[x]
    requires Live(h, len) == [m] + rest && forall i :: 0 <= i < |rest| ==> rest[i] < node
    ensures Nodes(g, len, |f'|) && Ordered(g, len, f', d', 2) && Live(g, len) == [node] + rest
  {
    forall i | 2 <= i <= len ensures h[i] < node {
      assert Live(h, len)[i - 1] == h[i] == rest[i - 2];
    }
    assert Live(g, len) == [node] + Live(h, len)[1..];
    forall i | 2 <= i <= len && 2 <= i / 2 ensures Smaller(f', d', g[i / 2], g[i]) {
      assert Smaller(f, d, h[i / 2], h[i]);
    }
  }

  lemma FatherPlaced(h: seq<nat>, h1: seq<nat>, h4: seq<nat>, len: nat, mx: nat, rest: seq<nat>,
                     node: nat, n: nat, m: nat)
    requires |h| == |h1| == |h4| == HEAP_SIZE && 2 <= len && len + 1 < mx <= HEAP_SIZE
    requires forall p :: mx <= p < HEAP_SIZE ==> h1[p] == h[p]
    requires len - 1 < mx - 2 && h1[mx - 1] == n && h1[mx - 2] == m
    requires forall p :: len - 1 < p < HEAP_SIZE ==> h4[p] == h1[p]
    requires multiset(Live(h4, len - 1)) == multiset([node] + rest)
    requires multiset(Live(h, len)) == multiset([n, m] + rest)
    ensures Merged(h, h4, len, mx, rest, node, n, m)
  {
  }

  lemma MergeStart(h: seq<nat>, len: nat, f: seq<nat>, d: seq<nat>, dad: seq<nat>, leaves: seq<nat>, elems: nat)
    requires |h| == HEAP_SIZE && LeafList(leaves, elems) && len == |leaves| && Live(h, len) == leaves
    requires 2 * elems <= |f| == |dad| <= |d|
    ensures Nodes(h, len, |f|) && Merging(h, len, HEAP_SIZE, f, d, dad, leaves, elems)
    ensures NextNode(leaves, elems, len) == elems
    ensures forall i :: 0 <= i < |leaves| ==> leaves[i] < |f|
    ensures Optimal(h, len, f, leaves, elems, multiset(At(leaves, f)), Sum(At(leaves, f)))
  {
    hide Sum, LowerBound;
    forall i | 1 <= i <= len ensures h[i] < |f| {
      assert h[i] == Live(h, len)[i - 1];
    }
    LowerBoundStart(multiset(At(leaves, f)));
    assert f[elems..elems] == [];
    SumNone();
    assert Range(elems, elems) == [] && h[HEAP_SIZE..] == [];
  }

  /** One tree is left: with its root placed it is the finished tree, and it is optimal. */
  lemma MergeEnd(h: seq<nat>, mx: nat, f: seq<nat>, d: seq<nat>, dad: seq<nat>, leaves: seq<nat>, elems: nat,
                 init: multiset<nat>, total: nat)
    requires Merging(h, 1, mx, f, d, dad, leaves, elems) && Nodes(h, 1, |f|)
    requires NextNode(leaves, elems, 1) <= |f| && 1 <= |leaves| && Optimal(h, 1, f, leaves, elems, init, total)
    ensures 1 <= mx <= |h| == HEAP_SIZE && elems + |leaves| - 1 <= |f|
    ensures TreeOrder(h[mx - 1 := h[1]], mx - 1, leaves, elems)
    ensures Fathers(h[mx - 1 := h[1]], mx, dad, elems)
    ensures Weighed(h[mx - 1 := h[1]], mx - 1, f, elems, elems + |leaves| - 1)
    ensures forall t: Tree :: Leaves(t) == init ==> Spent(f, elems, elems + |leaves| - 1) <= Cost(t)
  {
    hide LeafList, Leaves, Cost, Spent, Optimal, Fathers, Weighed, Conserved, TreeOrder;
    LeafSizes(leaves, elems);
    TreeFinished(h, mx, f, d, dad, leaves, elems);
    OptimalFinished(h, f, leaves, elems, init, total);
  }

  lemma TreeFinished(h: seq<nat>, mx: nat, f: seq<nat>, d: seq<nat>, dad: seq<nat>, leaves: seq<nat>, elems: nat)
    requires Merging(h, 1, mx, f, d, dad, leaves, elems)
    ensures 1 <= mx <= |h| == HEAP_SIZE && 1 <= |leaves|
    ensures TreeOrder(h[mx - 1 := h[1]], mx - 1, leaves, elems)
    ensures Fathers(h[mx - 1 := h[1]], mx, dad, elems)
    ensures Weighed(h[mx - 1 := h[1]], mx - 1, f, elems, elems + |leaves| - 1)
  {
    hide LeafList, Conserved, Live, TreeOrder;
    MergedSizes(h, mx, f, d, dad, leaves, elems);
    LeafSizes(leaves, elems);
    OneLive(h);
    TreeOrdered(h, mx, leaves, elems);
  }

  lemma MergedSizes(h: seq<nat>, mx: nat, f: seq<nat>, d: seq<nat>, dad: seq<nat>, leaves: seq<nat>, elems: nat)
    requires Merging(h, 1, mx, f, d, dad, leaves, elems)
    ensures |h| == HEAP_SIZE && LeafList(leaves, elems) && mx == HEAP_SIZE + 2 - 2 * |leaves| && 1 <= |leaves|
      && 1 <= mx
    ensures NextNode(leaves, elems, 1) == elems + |leaves| - 1
    ensures Conserved(Live(h, 1), h[mx..], leaves, elems, elems + |leaves| - 1)
    ensures forall p :: mx <= p < HEAP_SIZE ==> h[p] < FatherAt(elems, p)
  {
    hide Conserved, Live;
  }

  lemma TreeOrdered(h: seq<nat>, mx: nat, leaves: seq<nat>, elems: nat)
    requires |h| == HEAP_SIZE && LeafList(leaves, elems) && 1 <= mx == HEAP_SIZE + 2 - 2 * |leaves| && 1 <= |leaves|
    requires Live(h, 1) == [h[1]] && Conserved(Live(h, 1), h[mx..], leaves, elems, elems + |leaves| - 1)
    requires forall p :: mx <= p < HEAP_SIZE ==> h[p] < FatherAt(elems, p)
    ensures TreeOrder(h[mx - 1 := h[1]], mx - 1, leaves, elems)
  {
    hide LeafList, Conserved, Live, TreeOrder;
    var node := elems + |leaves| - 1;
    LeafSizes(leaves, elems);
    RootIsLast(h, mx, leaves, elems, node);
    assert h[mx - 1 := h[1]][mx - 1..] == [h[1]] + h[mx..];
    ConservedRoot(h, mx, leaves, elems, node);
    RootOrder(h, mx, leaves, elems);
  }

  lemma OneLive(h: seq<nat>)
    requires |h| > 1
    ensures Live(h, 1) == [h[1]]
  {
  }

  lemma RootOrder(h: seq<nat>, mx: nat, leaves: seq<nat>, elems: nat)
    requires |h| == HEAP_SIZE && LeafList(leaves, elems) && 1 <= mx == HEAP_SIZE + 2 - 2 * |leaves| && 1 <= |leaves|
    requires h[1] == elems + |leaves| - 2 && h[mx - 1 := h[1]][mx - 1..] == [h[1]] + h[mx..]
    requires multiset([h[1]] + h[mx..]) == multiset(leaves) + multiset(Range(elems, elems + |leaves| - 1))
    requires forall p :: mx <= p < HEAP_SIZE ==> h[p] < FatherAt(elems, p)
    ensures TreeOrder(h[mx - 1 := h[1]], mx - 1, leaves, elems)
  {
    hide LeafList, Range;
    LeafSizes(leaves, elems);
  }

  lemma ConservedRoot(h: seq<nat>, mx: nat, leaves: seq<nat>, elems: nat, node: nat)
    requires 1 < |h| && mx <= |h| && elems <= node && Live(h, 1) == [h[1]]
      && Conserved(Live(h, 1), h[mx..], leaves, elems, node)
    ensures multiset([h[1]] + h[mx..]) == multiset(leaves) + multiset(Range(elems, node))
  {
    hide Range;
  }

  lemma OptimalFinished(h: seq<nat>, f: seq<nat>, leaves: seq<nat>, elems: nat, init: multiset<nat>, total: nat)
    requires Nodes(h, 1, |f|) && 1 <= |leaves| && elems + |leaves| - 1 <= |f|
    requires Optimal(h, 1, f, leaves, elems, init, total)
    ensures forall t: Tree :: Leaves(t) == init ==> Spent(f, elems, elems + |leaves| - 1) <= Cost(t)
  {
    hide Leaves, Cost, Spent, At;
    var spent := Spent(f, elems, NextNode(leaves, elems, 1));
    forall t: Tree | Leaves(t) == init ensures spent <= Cost(t) {
      var s: Tree :| Leaves(s) == multiset(At(Live(h, 1), f)) && spent + Cost(s) <= Cost(t);
    }
  }

  lemma LeafSizes(leaves: seq<nat>, elems: nat)
    requires LeafList(leaves, elems)
    ensures 2 <= |leaves| <= elems <= 286 && forall i :: 0 <= i < |leaves| ==> leaves[i] < elems
  {
  }

  /** The last internal node is the one left in the heap: the placed ones are all older. */
  lemma RootIsLast(h: seq<nat>, mx: nat, leaves: seq<nat>, elems: nat, node: nat)
    requires |h| == HEAP_SIZE && LeafList(leaves, elems) && node == elems + |leaves| - 1
    requires mx == HEAP_SIZE - 2 * (|leaves| - 1)
    requires Conserved(Live(h, 1), h[mx..], leaves, elems, node)
    requires forall p :: mx <= p < HEAP_SIZE ==> h[p] < FatherAt(elems, p)
    ensures h[1] == node - 1
  {
    hide LeafList, Conserved;
    LeafSizes(leaves, elems);
    CountOnce(Live(h, 1), h[mx..], leaves, elems, node, node - 1);
    forall j | 0 <= j < |h[mx..]| ensures h[mx..][j] != node - 1 {
      assert h[mx..][j] == h[mx + j] < FatherAt(elems, mx + j);
      assert (572 - (mx + j)) / 2 <= |leaves| - 2;
    }
    assert multiset(Live(h, 1))[node - 1] == 1;
    assert Live(h, 1) == [h[1]];
  }

  lemma PassShape(h: seq<nat>, mx: nat, p: nat, dl: seq<nat>, leaves: seq<nat>, elems: nat, max: nat)
    requires PassState(h, mx, p, dl, leaves, elems, max)
    ensures forall q :: mx <= q < HEAP_SIZE ==> h[q] < |dl|
    ensures forall q :: mx < q < HEAP_SIZE ==> FatherAt(elems, q) < |dl|
  {
    hide TreeOrder;
  }

  lemma PassFather(h: seq<nat>, mx: nat, p: nat, dl: seq<nat>, leaves: seq<nat>, elems: nat, max: nat)
    requires PassState(h, mx, p, dl, leaves, elems, max) && p < HEAP_SIZE && |h| == HEAP_SIZE
    ensures h[p] < |dl| && dl[h[p]] == FatherAt(elems, p) < |dl|
  {
    hide TreeOrder;
  }

  lemma PlacedKind(h: seq<nat>, mx: nat, leaves: seq<nat>, elems: nat, p: nat)
    requires TreeOrder(h, mx, leaves, elems) && mx <= p < HEAP_SIZE
    ensures h[p] < elems ==> h[p] in leaves
  {
    assert h[mx..][p - mx] == h[p];
    assert h[p] in multiset(leaves) + multiset(Range(elems, elems + |leaves| - 1));
  }

  lemma AssigningPos(h: seq<nat>, mx: nat, pos: nat, dl: seq<nat>, leaves: seq<nat>, elems: nat, mc: nat, bc: seq<nat>,
                     bits: nat, n: nat)
    requires Assigning(h, mx, pos, dl, leaves, elems, mc, bc, bits, n)
    ensures pos <= HEAP_SIZE && mx < HEAP_SIZE
  {
    hide LeafList;
    TreeSize(h, mx, leaves, elems);
  }

  lemma LeavesKnown(h: seq<nat>, mx: nat, leaves: seq<nat>, elems: nat)
    requires TreeOrder(h, mx, leaves, elems)
    ensures Distinct(leaves) && forall i :: 0 <= i < |leaves| ==> leaves[i] < elems
  {
  }

  lemma LeavesFit(h: seq<nat>, mx: nat, leaves: seq<nat>, elems: nat, f: seq<nat>, dl: seq<nat>)
    requires TreeOrder(h, mx, leaves, elems) && elems + |leaves| - 1 <= |f| == |dl|
    ensures forall i :: 0 <= i < |leaves| ==> leaves[i] < |f|
  {
  }

  lemma LeavesFew(h: seq<nat>, mx: nat, leaves: seq<nat>, kind: Kind)
    requires TreeOrder(h, mx, leaves, Elems(kind))
    ensures |leaves| <= Pow2(MaxLength(kind))
  {
    hide Pow2;
    Pow2Values();
  }

  /** Lengths handed out from a repaired table lie within the limit. */
  lemma Retabulated(leaves: seq<nat>, dl: seq<nat>, bc: seq<nat>, max: nat)
    requires 1 <= max <= 15 && forall i :: 0 <= i < |leaves| ==> leaves[i] < |dl| && dl[leaves[i]] <= 15
    requires bc == Counts(At(leaves, dl)) && bc[0] == 0 && forall b :: max < b < 16 ==> bc[b] == 0
    ensures Tabulated(leaves, dl, bc, max)
  {
    hide Count;
    forall i | 0 <= i < |leaves| ensures 1 <= dl[leaves[i]] <= max {
      var b := dl[leaves[i]];
      CountIsMultiset(At(leaves, dl), b);
      assert At(leaves, dl)[i] == b;
      assert b in multiset(At(leaves, dl));
      assert bc[b] >= 1;
    }
  }

  /** The merged tree, and that it is higher than the limit exactly if the first pass has overflowed. */
  lemma TreeKnown(kind: Kind, h: seq<nat>, mx: nat, dl: seq<nat>, f: seq<nat>, leaves: seq<nat>, mc: nat,
                  bc: seq<nat>, overflow: nat, opt: int, stat: int, dad: seq<nat>) returns (t: Tree)
    requires PassState(h, mx, HEAP_SIZE, dl, leaves, Elems(kind), MaxLength(kind))
    requires PassTotals(kind, h, mx, HEAP_SIZE, dl, f, mc, MaxLength(kind), bc, overflow, opt, stat)
    requires TreeOrder(h, mx, leaves, Elems(kind)) && Elems(kind) + |leaves| - 1 <= |f| == |dad|
    requires Fathers(h, mx + 1, dad, Elems(kind)) && Weighed(h, mx, f, Elems(kind), Elems(kind) + |leaves| - 1)
    ensures |leaves| >= 2 && Downward(h, f, Elems(kind), |leaves| - 1) && t == WholeTree(h, f, leaves, Elems(kind))
    ensures forall i :: 0 <= i < |leaves| ==> leaves[i] < |f| && leaves[i] < |dl|
    ensures Leaves(t) == multiset(At(leaves, f)) && Cost(t) == Spent(f, Elems(kind), Elems(kind) + |leaves| - 1)
    ensures overflow == 0 <==> Height(t) <= MaxLength(kind)
    ensures overflow == 0 ==> DepthsOf(t, 0) == multiset(Pairs(leaves, f, dl))
  {
    hide PassState, TreeOrder, LeavesOf, Counts, BitCost, StaticCost, Sum, OverflowSeq, Depths, At, Weighed, Fathers,
      Leaves, Cost, Height, DepthsOf, Pairs;
    var elems, max := Elems(kind), MaxLength(kind);
    PassEnd(h, mx, dl, leaves, elems, max);
    OverflowIsTwice(h, mx, leaves, elems, dl, max);
    WholeTake(OverflowSeq(dl, elems, mx, max), HEAP_SIZE - 1 - mx);
    MergedGives(h, mx, leaves, elems, f, dl, max, dad);
    t := WholeTree(h, f, leaves, elems);
  }

  lemma PairsPerm(s: seq<nat>, u: seq<nat>, f: seq<nat>, ls: seq<nat>)
    requires |f| == |ls| && multiset(s) == multiset(u) && forall i :: 0 <= i < |s| ==> s[i] < |f|
    ensures forall i :: 0 <= i < |u| ==> u[i] < |f|
    ensures multiset(Pairs(s, f, ls)) == multiset(Pairs(u, f, ls))
  {
    hide Sum, At;
    AllBelow(s, u, |f|);
    forall w: (nat, nat)
      ensures multiset(Pairs(s, f, ls))[w] == multiset(Pairs(u, f, ls))[w]
    {
      var v := seq(|f|, x requires 0 <= x < |f| => if (f[x], ls[x]) == w then 1 else 0);
      AtIs(s, v);
      AtIs(u, v);
      CountSum(Pairs(s, f, ls), At(s, v), w);
      CountSum(Pairs(u, f, ls), At(u, v), w);
      AtPerm(s, u, v);
      SumPerm(At(s, v), At(u, v));
    }
  }

  /** What is known of the tree, in terms of the frequencies that were asked for. */
  lemma FinalTree(f0: seq<nat>, f: seq<nat>, g: seq<nat>, n: nat, ls: seq<nat>, leaves: seq<nat>, t: Tree, max: nat,
                  h: seq<nat>)
    requires n <= |f0| == |g| == |ls| && ForcedFrom(f0, f, n, leaves)
    requires |leaves| >= 2 && Downward(h, g, n, |leaves| - 1) && t == WholeTree(h, g, leaves, n)
    requires forall x :: 0 <= x < n ==> g[x] == f[x]
    requires forall i :: 0 <= i < |leaves| ==> leaves[i] < n
    requires Leaves(t) == multiset(At(leaves, g))
    requires Height(t) <= max ==>
               DepthsOf(t, 0) == multiset(Pairs(leaves, g, ls)) && Sum(At(leaves, CostSeq(ls, g))) == Cost(t)
    requires forall s: Tree :: Leaves(s) == multiset(At(leaves, f)) ==> Cost(t) <= Cost(s)
    ensures forall s: Tree :: Leaves(s) == Leaves(t) ==> Cost(t) <= Cost(s)
    ensures var used := Used(f0, n);
            |used| >= 2 ==>
              && Downward(h, f0, n, |used| - 1) && t == WholeTree(h, f0, used, n)
              && Leaves(t) == multiset(At(used, f0))
              && (Height(t) <= max ==>
                    DepthsOf(t, 0) == multiset(Pairs(used, f0, ls)) && Sum(At(used, CostSeq(ls, f0))) == Cost(t))
  {
    hide Used, Sum, CostSeq, Leaves, Cost, Height, DepthsOf;
    assert At(leaves, g) == At(leaves, f);
    var used := Used(f0, n);
    if |used| >= 2 {
      AtPerm(leaves, used, f0);
      SameTree(h, g, f0, n, |leaves| - 1, n + |leaves| - 2);
      assert At(leaves, g) == At(leaves, f0);
      PairsPerm(leaves, used, f0, ls);
      assert Pairs(leaves, g, ls) == Pairs(leaves, f0, ls);
      FinalSums(f0, g, n, ls, leaves, used);
    }
  }

  /** The cost of the same symbols with the same frequencies, in another order. */
  lemma FinalSums(f0: seq<nat>, g: seq<nat>, n: nat, ls: seq<nat>, leaves: seq<nat>, used: seq<nat>)
    requires n <= |f0| == |g| == |ls| && multiset(leaves) == multiset(used)
    requires forall x :: 0 <= x < n ==> g[x] == f0[x]
    requires forall i :: 0 <= i < |leaves| ==> leaves[i] < n
    ensures forall i :: 0 <= i < |used| ==> used[i] < |f0|
    ensures Sum(At(leaves, CostSeq(ls, g))) == Sum(At(used, CostSeq(ls, f0)))
  {
    hide Sum, CostSeq;
    AtPerm(leaves, used, f0);
    forall x | 0 <= x < n ensures CostSeq(ls, g)[x] == CostSeq(ls, f0)[x] {
      CostSeqAt(ls, g, x);
      CostSeqAt(ls, f0, x);
    }
    assert At(leaves, CostSeq(ls, g)) == At(leaves, CostSeq(ls, f0));
    AtPerm(leaves, used, CostSeq(ls, f0));
    SumPerm(At(leaves, CostSeq(ls, f0)), At(used, CostSeq(ls, f0)));
  }

  /** Clamping only happens to trees with more than max + 1 leaves. */
  lemma ClippedDepth(kind: Kind, h: seq<nat>, mx: nat, dl: seq<nat>, f: seq<nat>, leaves: seq<nat>, mc: nat,
                     bc: seq<nat>, overflow: nat, opt: int, stat: int)
    requires PassState(h, mx, HEAP_SIZE, dl, leaves, Elems(kind), MaxLength(kind))
    requires PassTotals(kind, h, mx, HEAP_SIZE, dl, f, mc, MaxLength(kind), bc, overflow, opt, stat)
    requires overflow > 0
    ensures |leaves| >= MaxLength(kind) + 2
  {
    hide PassState, TreeOrder, LeavesOf, Counts, BitCost, StaticCost, Sum, OverflowSeq, Depths, At;
    var elems, max := Elems(kind), MaxLength(kind);
    PassEnd(h, mx, dl, leaves, elems, max);
    OverflowIsTwice(h, mx, leaves, elems, dl, max);
    WholeTake(OverflowSeq(dl, elems, mx, max), HEAP_SIZE - 1 - mx);
    TreeSize(h, mx, leaves, elems);
    var t := SumPositive(AtLimit(dl, elems, |leaves| - 1, max));
    DepthBound(h, mx, leaves, elems, dl, max, t);
  }
}
