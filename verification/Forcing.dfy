/** Symbols forced into a code that would otherwise have fewer than two (trees.c: build_tree). */
module Forcing {
  import opened Bits
  import opened Canonical
  import opened Heap
  import opened Optimality
  import opened MergeTheory
  import opened TreeBuilder
  import opened LengthLimit
  import opened TreeDepths
  import opened TreeKinds
  import opened UsedSymbols
  import opened BitLengths

  /** Some frequencies that were zero have become one. */
  ghost predicate Forced(f: seq<nat>, g: seq<nat>, n: nat)
  {
    |f| == |g| && n <= |f|
    && (forall x :: 0 <= x < |f| && (x >= n || f[x] != 0) ==> g[x] == f[x])
    && forall x :: 0 <= x < n && f[x] == 0 ==> g[x] <= 1
  }

  lemma SmallMax(f: seq<nat>, n: nat, mc: int, len: nat)
    requires IsMaxCode(f, n, mc) && n >= 19 && |Used(f, n)| == len < 2
    ensures mc < 2 ==> f[mc + 1] == 0
    ensures mc >= 2 ==> f[0] == 0
  {
    hide Used;
    if mc >= 2 && f[0] != 0 {
      TwoUsed(f, n, 0, mc);
    }
  }

  lemma TwoUsed(f: seq<nat>, n: nat, a: nat, b: nat)
    requires a < b < n <= |f| && f[a] != 0 && f[b] != 0
    ensures |Used(f, n)| >= 2
  {
    hide Used;
    UsedDistinct(f, n, Used(f, n));
    var s := Used(f, n);
    assert a in s && b in s;
    var i :| 0 <= i < |s| && s[i] == a;
    var j :| 0 <= j < |s| && s[j] == b;
  }

  /** What the forcing loop keeps, on snapshots; opt and stat are what it has added to the totals. */
  ghost predicate ForceState(kind: Kind, f0: seq<nat>, len0: nat, f: seq<nat>, h: seq<nat>, len: nat, mc: int, opt: int,
                             stat: int)
  {
    var n := Elems(kind);
    n <= |f| == |f0| && len < |h|
    && len == |Used(f, n)| && len0 <= len && (len0 < 2 ==> len <= 2) && (len0 >= 2 ==> f == f0)
    && multiset(Live(h, len)) == multiset(Used(f, n))
    && IsMaxCode(f, n, mc) && Forced(f0, f, n)
    && (forall x :: 0 <= x < n && f[x] != f0[x] ==> x <= 2)
    && opt == len0 - len && stat == -ForcedStatic(kind, f0, f, n)
  }

  lemma ForceStart(kind: Kind, f: seq<nat>, h: seq<nat>, len: nat, mc: int)
    requires Elems(kind) <= |f| && len < |h| && len == |Used(f, Elems(kind))|
    requires multiset(Live(h, len)) == multiset(Used(f, Elems(kind)))
    requires IsMaxCode(f, Elems(kind), mc)
    ensures ForceState(kind, f, len, f, h, len, mc, 0, 0)
  {
    hide Used, Live;
    ForcedNone(kind, f, Elems(kind));
  }

  lemma ForceStep(kind: Kind, f0: seq<nat>, len0: nat, f: seq<nat>, h: seq<nat>, len: nat, mc: int, opt: int, stat: int)
    requires ForceState(kind, f0, len0, f, h, len, mc, opt, stat) && len < 2 && len + 1 < |h|
    ensures var node := if mc < 2 then mc + 1 else 0;
            0 <= node < Elems(kind) <= |f|
            && ForceState(kind, f0, len0, f[node := 1], h[len + 1 := node], len + 1, if mc < 2 then mc + 1 else mc,
                          opt - 1, stat - StaticLen(kind, node))
  {
    hide Used, Live, ForcedStatic, StaticLen;
    var n := Elems(kind);
    var node := if mc < 2 then mc + 1 else 0;
    SmallMax(f, n, mc, len);
    UsedAdd(f, n, node, 1);
    UsedAddLen(f, n, node);
    LiveAppend(h, h[len + 1 := node], len, node);
    ForcedMore(kind, f0, f, node, n);
  }

  lemma ForceEnd(kind: Kind, f0: seq<nat>, len0: nat, f: seq<nat>, h: seq<nat>, len: nat, mc: int, opt: int, stat: int)
    requires ForceState(kind, f0, len0, f, h, len, mc, opt, stat) && len >= 2
    ensures Elems(kind) <= |f| == |f0| && len == |Used(f, Elems(kind))| < |h|
    ensures multiset(Live(h, len)) == multiset(Used(f, Elems(kind)))
    ensures IsMaxCode(f, Elems(kind), mc) && Forced(f0, f, Elems(kind))
    ensures len0 >= 2 ==> f == f0
    ensures len0 < 2 ==> len == 2
    ensures forall x :: 0 <= x < Elems(kind) && f[x] != f0[x] ==> x <= 2
    ensures opt == len0 - len && stat == -ForcedStatic(kind, f0, f, Elems(kind))
  {
    hide Used, Live, ForcedStatic;
  }

  lemma UsedAddLen(f: seq<nat>, n: nat, node: nat)
    requires n <= |f| && node < n && multiset(Used(f[node := 1], n)) == multiset(Used(f, n)) + multiset{node}
    ensures |Used(f[node := 1], n)| == |Used(f, n)| + 1
  {
    hide Used;
    assert |multiset(Used(f[node := 1], n))| == |multiset(Used(f, n))| + 1;
  }

  lemma LiveAppend(h: seq<nat>, g: seq<nat>, len: nat, node: nat)
    requires len + 1 < |h| == |g| && g == h[len + 1 := node]
    ensures Live(g, len + 1) == Live(h, len) + [node]
    ensures multiset(Live(g, len + 1)) == multiset(Live(h, len)) + multiset{node}
  {
    assert Live(g, len + 1) == Live(h, len) + [node];
  }

  /** The fixed code bits of the symbols forced into use. */
  function ForcedStatic(kind: Kind, f: seq<nat>, g: seq<nat>, n: nat): (s: int)
    requires n <= Elems(kind) && n <= |f| && n <= |g|
  {
    if n == 0 then 0
    else ForcedStatic(kind, f, g, n - 1) + (g[n - 1] - f[n - 1]) * StaticLen(kind, n - 1)
  }

  lemma {:induction false} ForcedNone(kind: Kind, f: seq<nat>, n: nat)
    requires n <= Elems(kind) && n <= |f|
    ensures ForcedStatic(kind, f, f, n) == 0
  {
    hide StaticLen;
    if n > 0 {
      ForcedNone(kind, f, n - 1);
    }
  }

  lemma {:induction false} ForcedMore(kind: Kind, f0: seq<nat>, f: seq<nat>, node: nat, n: nat)
    requires n <= Elems(kind) && n <= |f| == |f0| && node < |f| && f[node] == 0 && node < Elems(kind)
    ensures ForcedStatic(kind, f0, f[node := 1], n)
         == ForcedStatic(kind, f0, f, n) + if node < n then StaticLen(kind, node) else 0
    decreases n
  {
    hide StaticLen;
    if n > 0 {
      ForcedMore(kind, f0, f, node, n - 1);
      if node == n - 1 {
        OneMore(f0[node], StaticLen(kind, node));
      }
    }
  }

  lemma OneMore(x: int, s: int)
    ensures (1 - x) * s == (0 - x) * s + s
  {
  }

  // ---------- what forcing changes ----------

  lemma {:induction false} UsedTail(f: seq<nat>, m: nat, n: nat)
    requires m <= n <= |f| && forall x :: m <= x < n ==> f[x] == 0
    ensures Used(f, n) == Used(f, m)
    decreases n
  {
    if m < n {
      UsedTail(f, m, n - 1);
    }
  }

  /** Summing over the used symbols is summing over all where the unused contribute nothing. */
  lemma {:induction false} SumUsed(f: seq<nat>, v: seq<nat>, n: nat)
    requires n <= |f| && n <= |v| && forall x :: 0 <= x < n && f[x] == 0 ==> v[x] == 0
    ensures Sum(At(Used(f, n), v)) == Sum(v[..n])
    decreases n
  {
    hide Sum;
    if n == 0 {
      assert v[..0] == [] && At(Used(f, 0), v) == [];
    } else {
      SumUsed(f, v, n - 1);
      SumTake(v, n - 1);
      if f[n - 1] != 0 {
        AtMore(Used(f, n - 1), n - 1, v);
      } else {
        assert Used(f, n) == Used(f, n - 1);
      }
    }
  }

  lemma SumLeaves(f: seq<nat>, v: seq<nat>, n: nat, leaves: seq<nat>)
    requires n <= |f| && n <= |v| && forall x :: 0 <= x < n && f[x] == 0 ==> v[x] == 0
    requires multiset(leaves) == multiset(Used(f, n))
    ensures forall i :: 0 <= i < |leaves| ==> leaves[i] < |v|
    ensures Sum(At(leaves, v)) == Sum(v[..n])
  {
    hide Used, Sum, At;
    SumUsed(f, v, n);
    AtPerm(Used(f, n), leaves, v);
    SumPerm(At(Used(f, n), v), At(leaves, v));
  }

  /** A total that grows by one for every forced symbol grows by their number. */
  lemma {:induction false} ForcedTotal(f0: seq<nat>, f: seq<nat>, w: seq<nat>, v: seq<nat>, n: nat, k: nat)
    requires Forced(f0, f, n) && k <= n && n <= |w| && n <= |v|
    requires forall x :: 0 <= x < n ==> v[x] == w[x] + if f[x] != f0[x] then 1 else 0
    ensures Sum(v[..k]) - Sum(w[..k]) == |Used(f, k)| - |Used(f0, k)|
    decreases k
  {
    hide Sum;
    if k == 0 {
      assert v[..0] == [] && w[..0] == [];
    } else {
      ForcedTotal(f0, f, w, v, n, k - 1);
      SumTake(v, k - 1);
      SumTake(w, k - 1);
    }
  }

  lemma {:induction false} ForcedStaticTotal(kind: Kind, f0: seq<nat>, f: seq<nat>, w: seq<nat>, v: seq<nat>, k: nat)
    requires k <= Elems(kind) && k <= |f| && k <= |f0| && k <= |w| && k <= |v|
    requires forall x :: 0 <= x < k ==> v[x] == w[x] + (f[x] - f0[x]) * StaticLen(kind, x)
    ensures Sum(v[..k]) - Sum(w[..k]) == ForcedStatic(kind, f0, f, k)
    decreases k
  {
    hide Sum, StaticLen;
    if k == 0 {
      assert v[..0] == [] && w[..0] == [];
    } else {
      ForcedStaticTotal(kind, f0, f, w, v, k - 1);
      SumTake(v, k - 1);
      SumTake(w, k - 1);
    }
  }

  /** How the frequencies with forced symbols relate to the original ones. */
  ghost predicate ForcedFrom(f0: seq<nat>, f: seq<nat>, n: nat, leaves: seq<nat>)
  {
    Forced(f0, f, n) && multiset(leaves) == multiset(Used(f, n)) && |leaves| == |Used(f, n)| >= 2
    && (|Used(f0, n)| >= 2 ==> f == f0) && (|Used(f0, n)| < 2 ==> |leaves| == 2)
    && forall x :: 0 <= x < n && f[x] != f0[x] ==> x <= 2
  }

  lemma LeavesReady(f0: seq<nat>, f: seq<nat>, n: nat, leaves: seq<nat>, mc: int)
    requires 19 <= n <= 286 && ForcedFrom(f0, f, n, leaves) && IsMaxCode(f, n, mc)
    requires Sum(f0[..n]) <= 65533
    ensures LeafList(leaves, n) && 1 <= mc && Separates(leaves, n, mc)
    ensures forall i :: 0 <= i < |leaves| ==> leaves[i] < n <= |f|
    ensures Sum(At(leaves, f)) < 65536
  {
    hide Used, Sum, At, Distinct;
    UsedDistinct(f, n, leaves);
    SumLeaves(f, f, n, leaves);
    ForcedTotal(f0, f, f0, f, n, n);
    forall i | 0 <= i < |leaves| ensures leaves[i] <= mc {
    }
    TwoDistinct(leaves);
  }

  lemma TwoDistinct(s: seq<nat>)
    requires Distinct(s) && |s| >= 2
    ensures s[0] != s[1]
  {
  }

  /** A complete code of two symbols gives both one bit. */
  lemma TwoLengths(leaves: seq<nat>, ls: seq<nat>, bc: seq<nat>, max: nat)
    requires Tabulated(leaves, ls, bc, max) && Units(bc, max) == Pow2(max) && |leaves| == 2
    ensures forall i :: 0 <= i < |leaves| ==> ls[leaves[i]] == 1
  {
    hide Pow2, Units, Total, Sum, Counts;
    var xs := At(leaves, ls);
    CountsSum(xs, max);
    var a, b := max - xs[0], max - xs[1];
    assert PowSeq(xs, max) == [Pow2(a), Pow2(b)];
    SumTwo(Pow2(a), Pow2(b));
    HalfPow(max);
    Pow2Mono(a, max - 1);
    Pow2Mono(b, max - 1);
    if a < max - 1 {
      HalfPow(max - 1);
      Pow2Mono(a, max - 2);
    }
    if b < max - 1 {
      HalfPow(max - 1);
      Pow2Mono(b, max - 2);
    }
  }

  // ---------- the finished tree ----------

  /** The tables of a finished tree: lengths of exactly the used symbols, complete. */
  lemma FinalLengths(f0: seq<nat>, f: seq<nat>, n: nat, ls: seq<nat>, leaves: seq<nat>, mc: nat, bc: seq<nat>, max: nat)
    requires ForcedFrom(f0, f, n, leaves) && IsMaxCode(f, n, mc) && n <= |ls|
    requires Tabulated(leaves, ls, bc, max) && Units(bc, max) == Pow2(max)
    requires forall x :: 0 <= x < n && f[x] == 0 ==> ls[x] == 0
    ensures mc < n && ls[mc] != 0 && forall x :: mc < x < n ==> ls[x] == 0
    ensures forall x :: 0 <= x < n ==> ls[x] <= max && (f0[x] != 0 ==> ls[x] != 0)
    ensures bc[0] == 0 && forall b :: 1 <= b <= 15 ==> bc[b] == Count(ls[..mc + 1], b)
    ensures ValidLens(ls[..mc + 1]) && Kraft(ls[..mc + 1]) <= Pow2(15) && Complete(ls[..mc + 1])
  {
    hide Used, At, Units, Count, Kraft, Pow2;
    UsedDistinct(f, n, leaves);
    TabulatedZero(leaves, ls, bc, max);
    forall x | 0 <= x < n ensures ls[x] <= max && (f[x] != 0 ==> ls[x] != 0) {
      if f[x] != 0 {
        assert x in leaves;
      }
    }
    forall b | 1 <= b <= 15 ensures bc[b] == Count(ls[..mc + 1], b) {
      UsedTail(f, mc + 1, n);
      CountUsed(f, ls, mc + 1, b);
      CountPermuted(leaves, Used(f, n), ls, b);
      CountsAt(At(leaves, ls), b);
    }
    CountsComplete(ls[..mc + 1], bc, max);
  }

  lemma CountsAt(xs: seq<nat>, b: nat)
    requires b < 16
    ensures Counts(xs)[b] == Count(xs, b)
  {
  }

  /** What gen_bitlen added is the cost of the block, once the forced symbols are discounted. */
  lemma FinalCosts(kind: Kind, f0: seq<nat>, f: seq<nat>, g: seq<nat>, ls: seq<nat>, leaves: seq<nat>, bc: seq<nat>)
    requires Elems(kind) <= |f0| == |g| == |ls| && ForcedFrom(f0, f, Elems(kind), leaves)
    requires forall x :: 0 <= x < Elems(kind) ==> g[x] == f[x]
    requires Tabulated(leaves, ls, bc, MaxLength(kind)) && Units(bc, MaxLength(kind)) == Pow2(MaxLength(kind))
    ensures Sum(At(leaves, BitCost(kind, g, ls)))
         == Sum(BitCost(kind, f0, ls)[..Elems(kind)]) + |leaves| - |Used(f0, Elems(kind))|
    ensures Sum(At(leaves, StaticCost(kind, g)))
         == Sum(StaticCost(kind, f0)[..Elems(kind)]) + ForcedStatic(kind, f0, f, Elems(kind))
  {
    hide Used, Sum, At, BitCost, StaticCost, Units, Pow2, StaticLen, Xbits, Counts;
    var n := Elems(kind);
    var v, w := BitCost(kind, g, ls), BitCost(kind, f0, ls);
    var sv, sw := StaticCost(kind, g), StaticCost(kind, f0);
    UsedDistinct(f, n, leaves);
    if |leaves| == 2 {
      TwoLengths(leaves, ls, bc, MaxLength(kind));
    }
    forall x | 0 <= x < n
      ensures v[x] == w[x] + (if f[x] != f0[x] then 1 else 0)
      ensures sv[x] == sw[x] + (f[x] - f0[x]) * StaticLen(kind, x)
      ensures f[x] == 0 ==> v[x] == 0 && sv[x] == 0
    {
      CostAt(kind, g, ls, x);
      CostAt(kind, f0, ls, x);
      StaticCostAt(kind, g, x);
      StaticCostAt(kind, f0, x);
      if f[x] != f0[x] {
        ForcedHasNoExtra(kind, x);
        assert x in leaves;
      }
    }
    SumLeaves(f, v, n, leaves);
    SumLeaves(f, sv, n, leaves);
    ForcedTotal(f0, f, w, v, n, n);
    ForcedStaticTotal(kind, f0, f, sw, sv, n);
  }

  lemma StaticCostAt(kind: Kind, f: seq<nat>, n: nat)
    requires n < |f| && n < Elems(kind)
    ensures StaticCost(kind, f)[n] == if kind != BlTree then f[n] * (StaticLen(kind, n) + Xbits(kind, n)) else 0
    ensures kind == BlTree ==> StaticLen(kind, n) == 0
  {
    hide Xbits;
  }

  lemma CostSeqAt(ls: seq<nat>, f: seq<nat>, x: nat)
    requires |f| == |ls| && x < |f|
    ensures CostSeq(ls, f)[x] == f[x] * ls[x]
  {
  }

  lemma LiveNodes(h: seq<nat>, len: nat, f: seq<nat>, n: nat)
    requires len < |h| && n <= |f| && multiset(Live(h, len)) == multiset(Used(f, n))
    ensures Nodes(h, len, |f|)
  {
    hide Used;
    UsedDistinct(f, n, Live(h, len));
    forall i | 1 <= i <= len ensures h[i] < |f| {
      assert Live(h, len)[i - 1] == h[i];
    }
  }

  lemma ForcedIntro(f0: seq<nat>, f: seq<nat>, n: nat, leaves: seq<nat>)
    requires Forced(f0, f, n) && multiset(leaves) == multiset(Used(f, n)) && |leaves| >= 2
    requires |Used(f0, n)| >= 2 ==> f == f0
    requires |Used(f0, n)| < 2 ==> |leaves| == 2
    requires forall x :: 0 <= x < n && f[x] != f0[x] ==> x <= 2
    ensures ForcedFrom(f0, f, n, leaves)
  {
    hide Used;
    UsedDistinct(f, n, leaves);
  }

  /** Unused symbols keep the length zero they were given at the start. */
  lemma UnusedZero(f0: seq<nat>, f: seq<nat>, n: nat, leaves: seq<nat>, dl: seq<nat>, ls: seq<nat>)
    requires ForcedFrom(f0, f, n, leaves) && n <= |dl| == |ls|
    requires forall x :: 0 <= x < n && f0[x] == 0 ==> dl[x] == 0
    requires forall x :: 0 <= x < n && x !in leaves ==> ls[x] == dl[x]
    ensures forall x :: 0 <= x < n && f[x] == 0 ==> ls[x] == 0
  {
    hide Used;
    UsedDistinct(f, n, leaves);
  }

  /** Where fewer than two symbols are in use, no code is longer than one bit. */
  lemma FewLengths(f0: seq<nat>, f: seq<nat>, n: nat, ls: seq<nat>, leaves: seq<nat>, bc: seq<nat>, max: nat)
    requires ForcedFrom(f0, f, n, leaves) && n <= |ls|
    requires Tabulated(leaves, ls, bc, max) && Units(bc, max) == Pow2(max)
    requires forall x :: 0 <= x < n && f[x] == 0 ==> ls[x] == 0
    ensures |Used(f0, n)| < 2 ==> forall x :: 0 <= x < n ==> ls[x] <= 1
  {
    hide Used, Units, Pow2, Tabulated;
    if |Used(f0, n)| < 2 {
      TwoLengths(leaves, ls, bc, max);
      UsedDistinct(f, n, leaves);
      forall x | 0 <= x < n && f[x] != 0 ensures ls[x] <= 1 {
        assert x in leaves;
      }
    }
  }

  lemma ForcedSize(f0: seq<nat>, f: seq<nat>, n: nat, leaves: seq<nat>)
    requires ForcedFrom(f0, f, n, leaves)
    ensures |leaves| >= 2 && n <= |f0| && (|leaves| > 2 ==> |Used(f0, n)| == |leaves|)
  {
    hide Used;
  }
}
