/** Every prefix code is at least as long as some tree, so that lengths read off the cheapest tree make the shortest
    block body (trees.c: build_tree). */
module ShortestCode {
  import opened Bits
  import opened Canonical
  import opened Symbols
  import opened Lz77
  import opened Optimality
  import opened MergeTheory
  import opened TreeDepths
  import opened TreeKinds
  import opened UsedSymbols
  import opened BitLengths
  import opened MergedTree
  import opened BlockFormat
  import opened BlockStream
  import opened Tally
  import opened TreeFacts

  // ---------- sequences with one element taken out ----------

  function Out<T>(s: seq<T>, i: nat): (r: seq<T>)
    requires i < |s|
    ensures |r| == |s| - 1
  {
    s[..i] + s[i + 1..]
  }

  lemma SumMore(s: seq<nat>, x: nat)
    ensures Sum(s + [x]) == Sum(s) + x
  {
    SumAppend(s, [x]);
    SumOne(x);
  }

  lemma SumOut(s: seq<nat>, i: nat)
    requires i < |s|
    ensures Sum(s) == Sum(Out(s, i)) + s[i]
  {
    hide Sum;
    SplitAt(s, i);
    SumAppend(s[..i] + [s[i]], s[i + 1..]);
    SumMore(s[..i], s[i]);
    SumAppend(s[..i], s[i + 1..]);
  }

  lemma ElementsOut(s: seq<nat>, i: nat)
    requires i < |s|
    ensures multiset(s) == multiset(Out(s, i)) + multiset{s[i]}
  {
    SplitAt(s, i);
  }

  lemma {:induction false} SumMono(v: seq<nat>, w: seq<nat>)
    requires |v| == |w| && forall x :: 0 <= x < |v| ==> v[x] <= w[x]
    ensures Sum(v) <= Sum(w)
    decreases |v|
  {
    if v != [] {
      SumMono(v[..|v| - 1], w[..|v| - 1]);
    }
  }

  lemma {:induction false} SumPlus(u: seq<nat>, v: seq<nat>, w: seq<nat>)
    requires |u| == |v| == |w| && forall x :: 0 <= x < |u| ==> u[x] == v[x] + w[x]
    ensures Sum(u) == Sum(v) + Sum(w)
    decreases |u|
  {
    if u != [] {
      var n := |u| - 1;
      SumPlus(u[..n], v[..n], w[..n]);
    }
  }

  lemma {:induction false} SumMultiple(v: seq<nat>, d: nat)
    requires d > 0 && forall x :: 0 <= x < |v| ==> v[x] % d == 0
    ensures Sum(v) % d == 0
    decreases |v|
  {
    if v != [] {
      var n := |v| - 1;
      SumMultiple(v[..n], d);
      ModAdd(Sum(v[..n]), v[n], d);
    }
  }

  lemma ModAdd(a: nat, b: nat, d: nat)
    requires d > 0 && a % d == 0 && b % d == 0
    ensures (a + b) % d == 0
  {
    Quotients(a, d);
    Quotients(b, d);
    Distribute(d, a / d, b / d);
    Bits.Remainder(d, a / d + b / d, 0);
  }

  lemma Quotients(a: nat, d: nat)
    requires d > 0 && a % d == 0
    ensures a / d >= 0 && a == d * (a / d)
  {
  }

  lemma FirstTwo(v: seq<nat>)
    requires |v| >= 2
    ensures Sum(v) >= v[0] + v[1]
  {
    hide Sum;
    SumOut(v, 1);
    SumOut(Out(v, 1), 0);
  }

  // ---------- the tree of a prefix code ----------

  /** Give a leaf of weight a + b two sons. */
  function Grow(t: Tree, a: nat, b: nat): (s: Tree)
    requires a + b in Leaves(t)
  {
    match t
    case Leaf(_) => Node(Leaf(a), Leaf(b))
    case Node(l, r) => if a + b in Leaves(l) then Node(Grow(l, a, b), r) else Node(l, Grow(r, a, b))
  }

  lemma {:induction false} GrowEffect(t: Tree, a: nat, b: nat)
    requires a + b in Leaves(t)
    ensures var s := Grow(t, a, b);
            Leaves(s) + multiset{a + b} == Leaves(t) + multiset{a, b}
            && Weight(s) == Weight(t) && Cost(s) == Cost(t) + a + b
  {
    hide Leaves, Weight, Cost, Height;
    match t
    case Leaf(w) =>
      LeafParts(w);
      LeafParts(a);
      LeafParts(b);
      NodeParts(Leaf(a), Leaf(b));
    case Node(l, r) =>
      NodeParts(l, r);
      if a + b in Leaves(l) {
        GrowEffect(l, a, b);
        NodeParts(Grow(l, a, b), r);
        Shuffle(Leaves(Grow(l, a, b)), multiset{a + b}, Leaves(l), multiset{a, b}, Leaves(r));
      } else {
        GrowEffect(r, a, b);
        NodeParts(l, Grow(r, a, b));
        Shuffle(Leaves(Grow(r, a, b)), multiset{a + b}, Leaves(r), multiset{a, b}, Leaves(l));
      }
  }

  /** The weights, or the lengths, once the elements i and j have been replaced by x. */
  function Both(s: seq<nat>, i: nat, j: nat, x: nat): (r: seq<nat>)
    requires i < j < |s|
    ensures |r| == |s| - 1
  {
    Out(Out(s, j), i) + [x]
  }

  lemma BothSum(v: seq<nat>, i: nat, j: nat, x: nat)
    requires i < j < |v|
    ensures Sum(Both(v, i, j, x)) + v[i] + v[j] == Sum(v) + x
  {
    hide Sum;
    SumOut(v, j);
    SumOut(Out(v, j), i);
    SumMore(Out(Out(v, j), i), x);
  }

  lemma BothElements(w: seq<nat>, i: nat, j: nat, x: nat)
    requires i < j < |w|
    ensures multiset(Both(w, i, j, x)) + multiset{w[i], w[j]} == multiset(w) + multiset{x}
  {
    hide Out;
    ElementsOut(w, j);
    ElementsOut(Out(w, j), i);
    OutAt(w, j, i);
  }

  lemma OutAt(s: seq<nat>, j: nat, i: nat)
    requires i < j < |s|
    ensures Out(s, j)[i] == s[i]
  {
  }

  /** Two symbols with a common length merged into one that is a bit shorter. */
  lemma MergePoints(l: seq<nat>, i: nat, j: nat)
    requires i < j < |l| && ValidLens(l) && l[i] == l[j] >= 1
    ensures var m := Both(l, i, j, l[i] - 1);
            ValidLens(m) && Sum(PowSeq(m, 15)) == Sum(PowSeq(l, 15))
  {
    hide Sum, Pow2;
    PointsBoth(l, i, j, l[i] - 1);
    BothSum(PowSeq(l, 15), i, j, Pow2(16 - l[i]));
    WidthHalves(l[i]);
  }

  lemma PointsBoth(l: seq<nat>, i: nat, j: nat, n: nat)
    requires i < j < |l| && n <= 15
    ensures PowSeq(Both(l, i, j, n), 15) == Both(PowSeq(l, 15), i, j, Pow2(15 - n))
  {
    hide Pow2;
    assert PowSeq(Out(l, j), 15) == Out(PowSeq(l, 15), j);
    assert PowSeq(Out(Out(l, j), i), 15) == Out(Out(PowSeq(l, 15), j), i);
  }

  lemma MergeCosts(w: seq<nat>, l: seq<nat>, i: nat, j: nat)
    requires |w| == |l| && i < j < |l| && l[i] == l[j] >= 1
    ensures Sum(CostSeq(Both(l, i, j, l[i] - 1), Both(w, i, j, w[i] + w[j]))) + w[i] + w[j] == Sum(CostSeq(l, w))
  {
    hide Sum, CostSeq, Both;
    var x := (w[i] + w[j]) * (l[i] - 1);
    CostBoth(w, l, i, j, w[i] + w[j], l[i] - 1);
    CostsOfTwo(w, l, i, j, x);
    BothSum(CostSeq(l, w), i, j, x);
  }

  lemma CostsOfTwo(w: seq<nat>, l: seq<nat>, i: nat, j: nat, x: nat)
    requires |w| == |l| && i < j < |l| && l[i] == l[j] >= 1 && x == (w[i] + w[j]) * (l[i] - 1)
    ensures CostSeq(l, w)[i] + CostSeq(l, w)[j] == x + w[i] + w[j]
  {
    OneShorter(w[i], w[j], l[i]);
  }

  lemma CostOut(w: seq<nat>, l: seq<nat>, j: nat)
    requires |w| == |l| && j < |l|
    ensures CostSeq(Out(l, j), Out(w, j)) == Out(CostSeq(l, w), j)
  {
    hide CostSeq;
    forall k | 0 <= k < |l| - 1 ensures CostSeq(Out(l, j), Out(w, j))[k] == Out(CostSeq(l, w), j)[k] {
      CostSeqIs(Out(l, j), Out(w, j), k);
      CostSeqIs(l, w, if k < j then k else k + 1);
    }
  }

  lemma CostBoth(w: seq<nat>, l: seq<nat>, i: nat, j: nat, x: nat, n: nat)
    requires |w| == |l| && i < j < |l|
    ensures CostSeq(Both(l, i, j, n), Both(w, i, j, x)) == Both(CostSeq(l, w), i, j, x * n)
  {
    hide Out;
    CostOut(w, l, j);
    CostOut(Out(w, j), Out(l, j), i);
    CostLast(Out(Out(w, j), i), Out(Out(l, j), i), x, n);
  }

  lemma CostLast(w: seq<nat>, l: seq<nat>, x: nat, n: nat)
    requires |w| == |l|
    ensures CostSeq(l + [n], w + [x]) == CostSeq(l, w) + [x * n]
  {
    hide CostSeq;
    forall k | 0 <= k <= |l| ensures CostSeq(l + [n], w + [x])[k] == (CostSeq(l, w) + [x * n])[k] {
      CostSeqIs(l + [n], w + [x], k);
      if k < |l| {
        CostSeqIs(l, w, k);
      }
    }
  }

  lemma OneShorter(a: nat, b: nat, n: nat)
    requires n >= 1
    ensures a * n + b * n == (a + b) * (n - 1) + a + b
  {
    Distribute(a + b, n - 1, 1);
    Distribute(n, a, b);
  }

  /** The only symbol of the greatest length can have one bit less. */
  lemma ShortenOne(w: seq<nat>, l: seq<nat>, i: nat)
    requires |w| == |l| && i < |l| && ValidLens(l) && l[i] >= 1
    requires forall k :: 0 <= k < |l| && k != i ==> l[k] < l[i]
    requires Sum(PowSeq(l, 15)) <= Pow2(15)
    ensures var m := l[i := l[i] - 1];
            ValidLens(m) && Sum(PowSeq(m, 15)) <= Pow2(15)
            && Sum(CostSeq(m, w)) <= Sum(CostSeq(l, w)) && Sum(m) < Sum(l)
  {
    hide Sum, Pow2;
    var m := l[i := l[i] - 1];
    var rest, p := Out(PowSeq(l, 15), i), Pow2(15 - l[i]);
    SumOut(PowSeq(l, 15), i);
    WidthHalves(l[i]);
    assert Pow2(16 - l[i]) == 2 * p;
    Pow2Add(16 - l[i], l[i] - 1);
    Pow2Positive(15 - l[i]);
    forall k | 0 <= k < |rest| ensures rest[k] % (2 * p) == 0 {
      var n := if k < i then l[k] else l[k + 1];
      Pow2Add(16 - l[i], l[i] - 1 - n);
      Multiple(2 * p, Pow2(l[i] - 1 - n));
    }
    SumMultiple(rest, 2 * p);
    RoomForOne(Sum(rest), p, Pow2(l[i] - 1));
    assert PowSeq(m, 15)[i] == 2 * p;
    SumOut(PowSeq(m, 15), i);
    assert Out(PowSeq(m, 15), i) == rest;
    SumBump(m, l, i, 1);
    forall k | 0 <= k < |l| ensures CostSeq(m, w)[k] <= CostSeq(l, w)[k] {
      MulMono(w[k], m[k], l[k]);
    }
    SumMono(CostSeq(m, w), CostSeq(l, w));
  }

  lemma Pow2Positive(n: nat)
    ensures Pow2(n) >= 1
  {
    Pow2Mono(0, n);
  }

  lemma Multiple(d: nat, k: nat)
    requires d > 0
    ensures (d * k) % d == 0
  {
    Bits.Remainder(d, k, 0);
  }

  lemma RoomForOne(s: nat, p: nat, k: nat)
    requires p > 0 && s % (2 * p) == 0 && s + p <= 2 * p * k
    ensures s + 2 * p <= 2 * p * k
  {
    var q := s / (2 * p);
    assert s == 2 * p * q;
    if q >= k {
      MulMono(2 * p, k, q);
    } else {
      MulMono(2 * p, q + 1, k);
    }
  }

  lemma Longest(l: seq<nat>) returns (i: nat)
    requires |l| >= 1
    ensures i < |l| && forall k :: 0 <= k < |l| ==> l[k] <= l[i]
  {
    i := 0;
    for j: nat := 1 to |l|
      invariant i < |l| && forall k :: 0 <= k < j ==> l[k] <= l[i]
    {
      if l[j] > l[i] {
        i := j;
      }
    }
  }

  /** Two symbols do not both get the empty code. */
  lemma NotBothEmpty(l: seq<nat>, i: nat)
    requires |l| >= 2 && i < |l| && ValidLens(l) && Sum(PowSeq(l, 15)) <= Pow2(15)
    requires forall k :: 0 <= k < |l| ==> l[k] <= l[i]
    ensures l[i] >= 1
  {
    hide Sum, Pow2;
    Pow2Positive(15);
    if l[i] == 0 {
      FirstTwo(PowSeq(l, 15));
    }
  }

  /** Some tree over the weights w costs no more than the prefix code with the lengths l. */
  lemma {:induction false} TreeOf(w: seq<nat>, l: seq<nat>) returns (t: Tree)
    requires |w| == |l| >= 1 && ValidLens(l) && Sum(PowSeq(l, 15)) <= Pow2(15)
    ensures Leaves(t) == multiset(w) && Cost(t) <= Sum(CostSeq(l, w))
    decreases |w|, Sum(l)
  {
    hide Sum, Pow2, PowSeq, CostSeq, Both, Leaves, Cost;
    if |w| == 1 {
      t := Leaf(w[0]);
      assert w == [w[0]];
      LeafParts(w[0]);
      return;
    }
    var i := Longest(l);
    NotBothEmpty(l, i);
    if j: nat :| j < |l| && j != i && l[j] == l[i] {
      var a, b := if i < j then i else j, if i < j then j else i;
      MergePoints(l, a, b);
      var s := TreeOf(Both(w, a, b, w[a] + w[b]), Both(l, a, b, l[a] - 1));
      MergeCosts(w, l, a, b);
      t := GrowTree(w, a, b, s);
    } else {
      ShortenOne(w, l, i);
      t := TreeOf(w, l[i := l[i] - 1]);
    }
  }

  lemma GrowTree(w: seq<nat>, a: nat, b: nat, s: Tree) returns (t: Tree)
    requires a < b < |w| && Leaves(s) == multiset(Both(w, a, b, w[a] + w[b]))
    ensures Leaves(t) == multiset(w) && Cost(t) == Cost(s) + w[a] + w[b]
  {
    hide Leaves, Cost, Out;
    var x := w[a] + w[b];
    assert x in Both(w, a, b, x);
    GrowEffect(s, w[a], w[b]);
    t := Grow(s, w[a], w[b]);
    BothElements(w, a, b, x);
    Cancel(Leaves(t), multiset(w), Leaves(s), multiset{w[a], w[b]}, x);
  }

  lemma Cancel(t: multiset<nat>, w: multiset<nat>, u: multiset<nat>, ab: multiset<nat>, x: nat)
    requires t + multiset{x} == u + ab && u + ab == w + multiset{x}
    ensures t == w
  {
    forall v: nat ensures t[v] == w[v] {
      assert (t + multiset{x})[v] == (w + multiset{x})[v];
    }
  }

  // ---------- the Kraft sum over the used symbols ----------

  lemma {:induction false} FirstPosMore(ls: seq<nat>, x: nat, b: nat)
    requires b <= 16 && x <= 15
    ensures FirstPos(ls + [x], b) == FirstPos(ls, b) + if 1 <= x < b then Pow2(15 - x) else 0
    decreases b
  {
    hide Count, Pow2;
    if b > 1 {
      FirstPosMore(ls, x, b - 1);
      CountLast(ls, x, b - 1);
      if x == b - 1 {
        HalvedSum(Width(x), Count(ls, x), 1);
      }
    }
  }

  lemma {:induction false} UsedPoints(f: seq<nat>, ls: seq<nat>, n: nat)
    requires n <= |f| && n <= |ls| && ValidLens(ls)
    requires forall x :: 0 <= x < n && f[x] != 0 ==> ls[x] != 0
    ensures Sum(PowSeq(At(Used(f, n), ls), 15)) <= Kraft(ls[..n])
    decreases n
  {
    hide Used, Sum, Pow2, FirstPos;
    NoneUsed(f);
    if n == 0 {
      SumZero(PowSeq(At([], ls), 15));
    } else {
      UsedPoints(f, ls, n - 1);
      UsedGrows(f, n);
      assert ls[..n] == ls[..n - 1] + [ls[n - 1]];
      FirstPosMore(ls[..n - 1], ls[n - 1], 16);
      if f[n - 1] != 0 {
        assert PowSeq(At(Used(f, n), ls), 15) == PowSeq(At(Used(f, n - 1), ls), 15) + [Pow2(15 - ls[n - 1])];
        SumMore(PowSeq(At(Used(f, n - 1), ls), 15), Pow2(15 - ls[n - 1]));
      }
    }
  }

  lemma {:induction false} UsedCosts(f: seq<nat>, ls: seq<nat>, n: nat)
    requires n <= |f| == |ls|
    ensures Sum(At(Used(f, n), CostSeq(ls, f))) == Sum(CostSeq(ls, f)[..n])
    decreases n
  {
    hide Used, Sum, CostSeq;
    NoneUsed(f);
    var c := CostSeq(ls, f);
    if n == 0 {
      SumZero(At([], c));
      SumZero(c[..0]);
    } else {
      UsedCosts(f, ls, n - 1);
      UsedGrows(f, n);
      CostSeqIs(ls, f, n - 1);
      SumTake(c, n - 1);
      if f[n - 1] != 0 {
        assert At(Used(f, n), c) == At(Used(f, n - 1), c) + [c[n - 1]];
        SumMore(At(Used(f, n - 1), c), c[n - 1]);
      }
    }
  }

  lemma CostSeqIs(ls: seq<nat>, f: seq<nat>, x: nat)
    requires x < |f| == |ls|
    ensures CostSeq(ls, f)[x] == f[x] * ls[x]
    ensures f[x] == 0 ==> CostSeq(ls, f)[x] == 0
  {
  }

  // ---------- the lengths built are the best ----------

  /** The tree t belongs to the frequencies f: no tree over them costs less, and the lengths ls are its depths unless
      it is higher than max; a code of less than two symbols has one bit. */
  ghost predicate MergedFor(t: Tree, f: seq<nat>, ls: seq<nat>, max: nat)
  {
    |f| == |ls|
    && (forall s: Tree :: Leaves(s) == Leaves(t) ==> Cost(t) <= Cost(s))
    && var used := Used(f, |f|);
       (|used| >= 2 ==>
         && Leaves(t) == multiset(At(used, f))
         && (Height(t) <= max ==>
               DepthsOf(t, 0) == multiset(Pairs(used, f, ls)) && Sum(At(used, CostSeq(ls, f))) == Cost(t)))
       && (|used| < 2 ==> forall x :: 0 <= x < |ls| ==> ls[x] <= 1)
       && (Height(t) > max ==> |used| >= max + 2)
  }

  /** No prefix code for the symbols in use takes fewer bits than the lengths of a merged tree within the limit. */
  lemma MergedShortest(t: Tree, f: seq<nat>, ls: seq<nat>, max: nat, other: seq<nat>)
    requires MergedFor(t, f, ls, max) && Height(t) <= max
    requires |other| == |f| && Covers(other, f) && Kraft(other) <= Pow2(15)
    ensures Sum(CostSeq(ls, f)) <= Sum(CostSeq(other, f))
  {
    hide Used, Sum, Pow2, Leaves, Cost, Height, DepthsOf, Pairs, FirstPos;
    var n := |f|;
    var used := Used(f, n);
    if |used| < 2 {
      forall x | 0 <= x < n ensures CostSeq(ls, f)[x] <= CostSeq(other, f)[x] {
        MulMono(f[x], ls[x], if f[x] == 0 then ls[x] else other[x]);
      }
      SumMono(CostSeq(ls, f), CostSeq(other, f));
    } else {
      assert other[..n] == other;
      UsedPoints(f, other, n);
      forall i | 0 <= i < |used| ensures At(used, other)[i] <= 15 {
      }
      var s := TreeOf(At(used, f), At(used, other));
      assert CostSeq(At(used, other), At(used, f)) == At(used, CostSeq(other, f));
      UsedCosts(f, other, n);
      UsedCosts(f, ls, n);
      assert CostSeq(other, f)[..n] == CostSeq(other, f) && CostSeq(ls, f)[..n] == CostSeq(ls, f);
    }
  }

  // ---------- the body of a block ----------

  /** A vector of lengths with zeros behind it. */
  function Pad(ls: seq<nat>, n: nat): (r: seq<nat>)
    ensures |r| == n
  {
    seq(n, i requires 0 <= i < n => if i < |ls| then ls[i] else 0)
  }

  lemma {:induction false} PadKraft(ls: seq<nat>, n: nat)
    requires |ls| <= n
    ensures Kraft(Pad(ls, n)) == Kraft(ls)
    decreases n
  {
    hide FirstPos, Pow2;
    if n == |ls| {
      assert Pad(ls, n) == ls;
    } else {
      PadKraft(ls, n - 1);
      assert Pad(ls, n) == Pad(ls, n - 1) + [0];
      FirstPosMore(Pad(ls, n - 1), 0, 16);
    }
  }

  /** The extra bits of the symbols. */
  function ExtraSeq(kind: Kind, f: seq<nat>): (v: seq<nat>)
    requires |f| <= Elems(kind)
    ensures |v| == |f|
  {
    seq(|f|, x requires 0 <= x < |f| => Product(f[x], Xbits(kind, x)))
  }

  lemma CostAndExtra(kind: Kind, f: seq<nat>, ls: seq<nat>)
    requires |f| == |ls| == Elems(kind)
    ensures Sum(BitCost(kind, f, ls)) == Sum(CostSeq(ls, f)) + Sum(ExtraSeq(kind, f))
  {
    hide Sum, Xbits;
    forall x | 0 <= x < |f| ensures BitCost(kind, f, ls)[x] == CostSeq(ls, f)[x] + ExtraSeq(kind, f)[x] {
      Distribute(f[x], ls[x], Xbits(kind, x));
    }
    SumPlus(BitCost(kind, f, ls), CostSeq(ls, f), ExtraSeq(kind, f));
  }

  /** A code that can write the tokens covers their frequencies. */
  lemma CodedCovers(ll: seq<nat>, dl: seq<nat>, ts: seq<Token>)
    requires AllCoded(ll, dl, ts) && Coded(ll, 256) && |ll| <= 286 && |dl| <= 30 && ValidLens(ll) && ValidLens(dl)
    ensures Covers(Pad(ll, 286), LitFreqs(ts)) && Covers(Pad(dl, 30), DistFreqs(ts))
  {
    hide LitFreq, DistFreq, LitSym, DistCode, TokenCoded;
    forall x | 0 <= x < 286 && LitFreqs(ts)[x] != 0 ensures Pad(ll, 286)[x] != 0 {
      if x != 256 {
        var i := LitFreqWitness(ts, x);
        CodedSym(ll, dl, ts[i]);
      }
    }
    forall x | 0 <= x < 30 && DistFreqs(ts)[x] != 0 ensures Pad(dl, 30)[x] != 0 {
      var i := DistFreqWitness(ts, x);
      CodedSym(ll, dl, ts[i]);
    }
  }

  lemma CodedSym(ll: seq<nat>, dl: seq<nat>, t: Token)
    requires TokenCoded(ll, dl, t)
    ensures Coded(ll, LitSym(t)) && (t.Match? ==> Coded(dl, DistCode(t.dist)))
  {
    hide DistCode;
  }

  lemma {:induction false} LitFreqWitness(ts: seq<Token>, s: nat) returns (i: nat)
    requires LitFreq(ts, s) != 0
    ensures i < |ts| && LitSym(ts[i]) == s
    decreases |ts|
  {
    i := |ts| - 1;
    if LitSym(ts[i]) != s {
      i := LitFreqWitness(ts[..i], s);
    }
  }

  lemma {:induction false} DistFreqWitness(ts: seq<Token>, s: nat) returns (i: nat)
    requires DistFreq(ts, s) != 0
    ensures i < |ts| && ts[i].Match? && DistCode(ts[i].dist) == s
    decreases |ts|
  {
    i := |ts| - 1;
    if !(ts[i].Match? && DistCode(ts[i].dist) == s) {
      i := DistFreqWitness(ts[..i], s);
    }
  }

  /** What a body costs, from padded lengths. */
  lemma BodyIs(ll: seq<nat>, dl: seq<nat>, ts: seq<Token>)
    requires AllCoded(ll, dl, ts) && Coded(ll, 256) && |ll| <= 286 && |dl| <= 30
    ensures |BodyBits(ll, dl, ts)|
         == Sum(CostSeq(Pad(ll, 286), LitFreqs(ts))) + Sum(ExtraSeq(LitTree, LitFreqs(ts)))
            + Sum(CostSeq(Pad(dl, 30), DistFreqs(ts))) + Sum(ExtraSeq(DistTree, DistFreqs(ts)))
  {
    hide Sum, LitFreqs, DistFreqs, BitCost, CostSeq, ExtraSeq, TokensBits, TokenCoded;
    BodyCost(Pad(ll, 286), Pad(dl, 30), ll, dl, ts);
    CostAndExtra(LitTree, LitFreqs(ts), Pad(ll, 286));
    CostAndExtra(DistTree, DistFreqs(ts), Pad(dl, 30));
  }

  /** The trees a dynamic block was built from. */
  ghost predicate BuiltFrom(b: Block, lt: Tree, dt: Tree)
  {
    b.DynamicBlock? && Writable(b)
    && MergedFor(lt, LitFreqs(b.tokens), Pad(b.ll, 286), 15) && MergedFor(dt, DistFreqs(b.tokens), Pad(b.dl, 30), 15)
  }

  /** No two prefix codes give these tokens a shorter body than the block built, unless a tree had to be cut. */
  lemma ShortestBody(b: Block, lt: Tree, dt: Tree, ll: seq<nat>, dl: seq<nat>)
    requires BuiltFrom(b, lt, dt) && Height(lt) <= 15 && Height(dt) <= 15
    requires |ll| <= 286 && |dl| <= 30 && AllCoded(ll, dl, b.tokens) && Coded(ll, 256)
    requires ValidLens(ll) && ValidLens(dl) && Kraft(ll) <= Pow2(15) && Kraft(dl) <= Pow2(15)
    ensures Coded(b.ll, 256) && |BodyBits(b.ll, b.dl, b.tokens)| <= |BodyBits(ll, dl, b.tokens)|
  {
    hide Sum, LitFreqs, DistFreqs, CostSeq, ExtraSeq, BodyBits, MergedFor, FirstPos, Pow2, Height, AllCoded, Covers;
    BuiltSizes(b);
    BodyIs(b.ll, b.dl, b.tokens);
    BodyIs(ll, dl, b.tokens);
    CodedCovers(ll, dl, b.tokens);
    PadKraft(ll, 286);
    PadKraft(dl, 30);
    MergedShortest(lt, LitFreqs(b.tokens), Pad(b.ll, 286), 15, Pad(ll, 286));
    MergedShortest(dt, DistFreqs(b.tokens), Pad(b.dl, 30), 15, Pad(dl, 30));
  }

  lemma BuiltSizes(b: Block)
    requires b.DynamicBlock? && Writable(b)
    ensures Coded(b.ll, 256) && |b.ll| <= 286 && |b.dl| <= 30 && AllCoded(b.ll, b.dl, b.tokens)
  {
  }
}
