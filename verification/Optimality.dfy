/** Why merging the two lightest nodes is optimal: no full binary tree over the same weights has
    a smaller sum of weight times depth. */
module Optimality {

  datatype Tree = Leaf(w: nat) | Node(l: Tree, r: Tree)

  function Weight(t: Tree): (n: nat)
  {
    match t case Leaf(w) => w case Node(l, r) => Weight(l) + Weight(r)
  }

  /** The sum over all leaves of weight times depth. */
  function Cost(t: Tree): (n: nat)
  {
    match t case Leaf(_) => 0 case Node(l, r) => Cost(l) + Cost(r) + Weight(l) + Weight(r)
  }

  function Leaves(t: Tree): (m: multiset<nat>)
    ensures |m| >= 1
  {
    match t case Leaf(w) => multiset{w} case Node(l, r) => Leaves(l) + Leaves(r)
  }

  function Height(t: Tree): (n: nat)
  {
    match t case Leaf(_) => 0 case Node(l, r) => 1 + if Height(l) >= Height(r) then Height(l) else Height(r)
  }

  predicate Twins(t: Tree)
  {
    t.Node? && t.l.Leaf? && t.r.Leaf?
  }

  predicate DeepLeft(t: Tree)
    requires t.Node?
  {
    Height(t.l) >= Height(t.r)
  }

  /** The son that holds the deepest pair of sibling leaves. */
  function Deep(t: Tree): (s: Tree)
    requires t.Node? && !Twins(t)
    ensures s.Node? && s < t
    ensures Height(t) == 1 + Height(s)
  {
    if DeepLeft(t) then t.l else t.r
  }

  function Other(t: Tree): (s: Tree)
    requires t.Node? && !Twins(t)
    ensures Height(s) <= Height(Deep(t))
  {
    if DeepLeft(t) then t.r else t.l
  }

  function Rebuild(t: Tree, deep: Tree, other: Tree): (s: Tree)
    requires t.Node?
  {
    if DeepLeft(t) then Node(deep, other) else Node(other, deep)
  }

  /** A deepest pair of sibling leaves. */
  function Pair(t: Tree): (p: (nat, nat))
    requires t.Node?
  {
    if Twins(t) then (t.l.w, t.r.w) else Pair(Deep(t))
  }

  function SetPair(t: Tree, p: nat, q: nat): (s: Tree)
    requires t.Node?
  {
    if Twins(t) then Node(Leaf(p), Leaf(q)) else Rebuild(t, SetPair(Deep(t), p, q), Other(t))
  }

  /** The tree with the deepest pair replaced by one leaf of their joint weight. */
  function Join(t: Tree): (s: Tree)
    requires t.Node?
  {
    if Twins(t) then Leaf(t.l.w + t.r.w) else Rebuild(t, Join(Deep(t)), Other(t))
  }

  function PairSet(t: Tree): (m: multiset<nat>)
    requires t.Node?
  {
    multiset{Pair(t).0, Pair(t).1}
  }

  lemma Sums(t: Tree, deep: Tree, other: Tree)
    requires t.Node?
    ensures var s := Rebuild(t, deep, other);
            Leaves(s) == Leaves(deep) + Leaves(other) && Weight(s) == Weight(deep) + Weight(other)
            && Cost(s) == Cost(deep) + Cost(other) + Weight(deep) + Weight(other)
  {
  }

  lemma Parts(t: Tree)
    requires t.Node? && !Twins(t)
    ensures t == Rebuild(t, Deep(t), Other(t)) && Pair(t) == Pair(Deep(t))
  {
    hide Height;
  }

  /** Sons of the same heights keep the deepest pair where it is. */
  lemma SameShape(t: Tree, deep: Tree, other: Tree)
    requires t.Node? && !Twins(t) && deep.Node?
    requires Height(deep) == Height(Deep(t)) && Height(other) == Height(Other(t))
    ensures var s := Rebuild(t, deep, other);
            s.Node? && !Twins(s) && Deep(s) == deep && Height(s) == Height(t) && Pair(s) == Pair(deep)
  {
    hide Leaves, Weight, Cost, Pair;
    var s := Rebuild(t, deep, other);
    assert DeepLeft(s) == DeepLeft(t);
    Parts(s);
  }

  lemma TwinsParts(t: Tree)
    requires Twins(t)
    ensures t == Node(Leaf(t.l.w), Leaf(t.r.w)) && Pair(t) == (t.l.w, t.r.w)
    ensures Leaves(t) == multiset{t.l.w, t.r.w} && Weight(t) == t.l.w + t.r.w && Cost(t) == t.l.w + t.r.w
    ensures Height(t) == 1
  {
  }

  lemma {:induction false} PairInLeaves(t: Tree)
    requires t.Node?
    ensures PairSet(t) <= Leaves(t)
  {
    hide Leaves, Weight, Cost, Pair, Height, Rebuild;
    if Twins(t) {
      TwinsParts(t);
    } else {
      PairInLeaves(Deep(t));
      Parts(t);
      Sums(t, Deep(t), Other(t));
    }
  }

  lemma {:induction false} SetPairEffect(t: Tree, p: nat, q: nat)
    requires t.Node?
    ensures var s := SetPair(t, p, q);
            s.Node? && Height(s) == Height(t) && Pair(s) == (p, q)
            && Leaves(s) + PairSet(t) == Leaves(t) + multiset{p, q}
            && Weight(s) + Pair(t).0 + Pair(t).1 == Weight(t) + p + q
            && Cost(s) + Height(t) * (Pair(t).0 + Pair(t).1) == Cost(t) + Height(t) * (p + q)
  {
    hide Leaves, Weight, Cost, Pair, Height, Rebuild;
    if Twins(t) {
      TwinsParts(t);
      TwinsParts(Node(Leaf(p), Leaf(q)));
    } else {
      var d, o := Deep(t), Other(t);
      SetPairEffect(d, p, q);
      PairInLeaves(d);
      Parts(t);
      Sums(t, d, o);
      Sums(t, SetPair(d, p, q), o);
      SameShape(t, SetPair(d, p, q), o);
      OneDeeper(Height(d), Pair(t).0 + Pair(t).1, p + q);
      Shuffle(Leaves(SetPair(d, p, q)), PairSet(d), Leaves(d), multiset{p, q}, Leaves(o));
    }
  }

  lemma OneDeeper(h: nat, x: nat, y: nat)
    ensures (1 + h) * x == x + h * x && (1 + h) * y == y + h * y
  {
  }

  lemma {:induction false} JoinEffect(t: Tree)
    requires t.Node?
    ensures var s := Join(t); var x := Pair(t).0 + Pair(t).1;
            Leaves(s) + PairSet(t) == Leaves(t) + multiset{x}
            && Weight(s) == Weight(t) && Cost(t) == Cost(s) + x
  {
    hide Leaves, Weight, Cost, Pair, Height, Rebuild, Deep, Other, Twins, Join, PairSet;
    PairSetIs(t);
    JoinIs(t);
    if Twins(t) {
      TwinsParts(t);
      LeafParts(t.l.w + t.r.w);
      assert Leaves(Join(t)) + PairSet(t) == Leaves(t) + multiset{Pair(t).0 + Pair(t).1};
    } else {
      var d, o := Deep(t), Other(t);
      JoinEffect(d);
      Parts(t);
      PairSetIs(d);
      Sums(t, d, o);
      Sums(t, Join(d), o);
      Shuffle(Leaves(Join(d)), PairSet(d), Leaves(d), multiset{Pair(t).0 + Pair(t).1}, Leaves(o));
    }
  }

  lemma JoinIs(t: Tree)
    requires t.Node?
    ensures Join(t) == if Twins(t) then Leaf(t.l.w + t.r.w) else Rebuild(t, Join(Deep(t)), Other(t))
  {
    hide Leaves, Weight, Cost, Pair, Height, Rebuild, Deep, Other;
  }

  lemma PairSetIs(t: Tree)
    requires t.Node?
    ensures PairSet(t) == multiset{Pair(t).0, Pair(t).1}
  {
  }

  lemma LeafParts(w: nat)
    ensures Leaves(Leaf(w)) == multiset{w} && Weight(Leaf(w)) == w && Cost(Leaf(w)) == 0 && Height(Leaf(w)) == 0
  {
  }

  /** Replace some leaf of weight a by one of weight x. */
  function Replace(t: Tree, a: nat, x: nat): (s: Tree)
    requires a in Leaves(t)
  {
    match t
    case Leaf(_) => Leaf(x)
    case Node(l, r) => if a in Leaves(l) then Node(Replace(l, a, x), r) else Node(l, Replace(r, a, x))
  }

  lemma NodeParts(l: Tree, r: Tree)
    ensures var t := Node(l, r);
            Leaves(t) == Leaves(l) + Leaves(r) && Weight(t) == Weight(l) + Weight(r)
            && Cost(t) == Cost(l) + Cost(r) + Weight(l) + Weight(r)
            && Height(t) == 1 + if Height(l) >= Height(r) then Height(l) else Height(r)
  {
  }

  lemma {:induction false} ReplaceEffect(t: Tree, a: nat, x: nat)
    requires a in Leaves(t) && a <= x
    ensures var s := Replace(t, a, x);
            Height(s) == Height(t) && s.Leaf? == t.Leaf?
            && Leaves(s) + multiset{a} == Leaves(t) + multiset{x}
            && Weight(s) == Weight(t) + (x - a)
            && Cost(s) <= Cost(t) + Height(t) * (x - a)
  {
    hide Leaves, Weight, Cost, Height;
    match t
    case Leaf(w) =>
      LeafParts(w);
      LeafParts(x);
    case Node(l, r) =>
      NodeParts(l, r);
      if a in Leaves(l) {
        ReplaceEffect(l, a, x);
        NodeParts(Replace(l, a, x), r);
        Shuffle(Leaves(Replace(l, a, x)), multiset{a}, Leaves(l), multiset{x}, Leaves(r));
        HeightBound(Height(l), Height(t) - 1, x - a);
      } else {
        ReplaceEffect(r, a, x);
        NodeParts(l, Replace(r, a, x));
        Shuffle(Leaves(Replace(r, a, x)), multiset{a}, Leaves(r), multiset{x}, Leaves(l));
        HeightBound(Height(r), Height(t) - 1, x - a);
      }
  }

  lemma HeightBound(h: nat, k: nat, y: nat)
    requires h <= k
    ensures h * y + y <= (k + 1) * y
  {
    assert (k + 1) * y == h * y + y + (k - h) * y;
  }

  predicate Outside(t: Tree, a: nat)
    requires t.Node?
  {
    PairSet(t) + multiset{a} <= Leaves(t)
  }

  /** An outside leaf is outside the pair of the deep son or in the other son. */
  lemma OutsideParts(t: Tree, a: nat)
    requires t.Node? && Outside(t, a)
    ensures !Twins(t)
    ensures !Outside(Deep(t), a) ==> a in Leaves(Other(t))
  {
    hide Leaves, Pair, Height, Rebuild;
    if Twins(t) {
      TwinsParts(t);
    } else {
      Parts(t);
      PairInLeaves(Deep(t));
      Sums(t, Deep(t), Other(t));
      if a !in Leaves(Other(t)) {
        forall x ensures (PairSet(Deep(t)) + multiset{a})[x] <= Leaves(Deep(t))[x] {
          assert (PairSet(t) + multiset{a})[x] <= Leaves(t)[x];
        }
      }
    }
  }

  /** Replace a leaf of weight a that is not in the deepest pair. */
  function ReplaceOutside(t: Tree, a: nat, x: nat): (s: Tree)
    requires t.Node? && Outside(t, a)
  {
    OutsideParts(t, a);
    if Outside(Deep(t), a) then Rebuild(t, ReplaceOutside(Deep(t), a, x), Other(t))
    else Rebuild(t, Deep(t), Replace(Other(t), a, x))
  }

  lemma {:induction false} ReplaceOutsideEffect(t: Tree, a: nat, x: nat)
    requires t.Node? && Outside(t, a) && a <= x
    ensures var s := ReplaceOutside(t, a, x);
            s.Node? && Height(s) == Height(t) && Pair(s) == Pair(t)
            && Leaves(s) + multiset{a} == Leaves(t) + multiset{x}
            && Weight(s) == Weight(t) + (x - a)
            && Cost(s) <= Cost(t) + Height(t) * (x - a)
  {
    hide Leaves, Weight, Cost, Pair, Height, Rebuild, Outside;
    OutsideParts(t, a);
    var d, o := Deep(t), Other(t);
    Parts(t);
    Sums(t, d, o);
    if Outside(d, a) {
      ReplaceOutsideEffect(d, a, x);
      Sums(t, ReplaceOutside(d, a, x), o);
      SameShape(t, ReplaceOutside(d, a, x), o);
      HeightBound(Height(d), Height(d), x - a);
      Shuffle(Leaves(ReplaceOutside(d, a, x)), multiset{a}, Leaves(d), multiset{x}, Leaves(o));
    } else {
      ReplaceEffect(o, a, x);
      Sums(t, d, Replace(o, a, x));
      SameShape(t, d, Replace(o, a, x));
      HeightBound(Height(o), Height(d), x - a);
      Shuffle(Leaves(Replace(o, a, x)), multiset{a}, Leaves(o), multiset{x}, Leaves(d));
    }
  }

  lemma Shuffle(a: multiset<nat>, b: multiset<nat>, c: multiset<nat>, d: multiset<nat>, o: multiset<nat>)
    requires a + b == c + d
    ensures (a + o) + b == (c + o) + d && (o + a) + b == (o + c) + d
  {
    forall v: nat ensures ((a + o) + b)[v] == ((c + o) + d)[v] && ((o + a) + b)[v] == ((o + c) + d)[v] {
      assert (a + b)[v] == (c + d)[v];
    }
  }

  /** Exchange a light leaf with the first (or second) of the deepest pair: the cost does not grow. */
  lemma Exchange(t: Tree, a: nat, first: bool) returns (s: Tree)
    requires t.Node? && Outside(t, a)
    requires a <= if first then Pair(t).0 else Pair(t).1
    ensures s.Node? && Leaves(s) == Leaves(t) && Cost(s) <= Cost(t)
    ensures Pair(s) == if first then (a, Pair(t).1) else (Pair(t).0, a)
  {
    hide Leaves, Cost, Weight, Pair, SetPair, ReplaceOutside, Height, Outside;
    var (x, y) := Pair(t);
    var z := if first then x else y;
    ReplaceOutsideEffect(t, a, z);
    var e := ReplaceOutside(t, a, z);
    var p, q := if first then a else x, if first then y else a;
    SetPairEffect(e, p, q);
    s := SetPair(e, p, q);
    Balance(Height(t), x, y, a);
    Cancel(Leaves(t), Leaves(e), Leaves(s), x, y, a, first);
  }

  lemma Cancel(t: multiset<nat>, e: multiset<nat>, s: multiset<nat>, x: nat, y: nat, a: nat, first: bool)
    requires e + multiset{a} == t + multiset{if first then x else y}
    requires s + multiset{x, y} == e + if first then multiset{a, y} else multiset{x, a}
    ensures s == t
  {
    forall v: nat ensures s[v] == t[v] {
      assert (e + multiset{a})[v] == (t + multiset{if first then x else y})[v];
      assert (s + multiset{x, y})[v] == (e + if first then multiset{a, y} else multiset{x, a})[v];
    }
  }

  lemma Balance(h: nat, x: nat, y: nat, a: nat)
    ensures a <= x ==> h * (x - a) + h * (a + y) == h * (x + y)
    ensures a <= y ==> h * (y - a) + h * (x + a) == h * (x + y)
  {
    if a <= x {
      assert h * (x - a) + h * (a + y) == h * ((x - a) + (a + y));
    }
    if a <= y {
      assert h * (y - a) + h * (x + a) == h * ((y - a) + (x + a));
    }
  }

  /** a and b are two lightest elements, rest are the others. */
  ghost predicate Lightest(m: multiset<nat>, a: nat, b: nat, rest: multiset<nat>)
  {
    m == multiset{a, b} + rest && a <= b && forall x :: x in rest ==> b <= x
  }

  lemma LightestFacts(m: multiset<nat>, a: nat, b: nat, rest: multiset<nat>, x: nat, y: nat)
    requires Lightest(m, a, b, rest) && multiset{x, y} <= m
    ensures a <= x && a <= y
    ensures a != x && a != y ==> multiset{x, y} + multiset{a} <= m
    ensures x == a && y != b ==> multiset{x, y} + multiset{b} <= m && b <= y
    ensures y == a && x != b ==> multiset{x, y} + multiset{b} <= m && b <= x
  {
    assert x in m && y in m;
    assert m[a] >= 1 && m[b] >= 1 && (a == b ==> m[a] >= 2);
    assert x == y ==> m[x] >= 2;
  }

  /** Some tree that is no worse has the two lightest leaves as its deepest pair. */
  lemma SinkLightest(t: Tree, a: nat, b: nat, rest: multiset<nat>) returns (s: Tree)
    requires t.Node? && Lightest(Leaves(t), a, b, rest)
    ensures s.Node? && Leaves(s) == Leaves(t) && Cost(s) <= Cost(t) && PairSet(s) == multiset{a, b}
  {
    hide Leaves, Cost, Weight, Pair, Lightest;
    PairInLeaves(t);
    var (x, y) := Pair(t);
    LightestFacts(Leaves(t), a, b, rest, x, y);
    var u := t;
    if a != x && a != y {
      u := Exchange(t, a, true);
    }
    PairInLeaves(u);
    LightestFacts(Leaves(u), a, b, rest, Pair(u).0, Pair(u).1);
    if Pair(u).0 == a {
      s := u;
      if Pair(u).1 != b {
        s := Exchange(u, b, false);
      }
    } else {
      s := u;
      if Pair(u).0 != b {
        s := Exchange(u, b, true);
      }
    }
  }

  /** Every tree over `init` costs at least acc more than some tree over `cur`. */
  ghost predicate LowerBound(init: multiset<nat>, acc: nat, cur: multiset<nat>)
  {
    forall t: Tree | Leaves(t) == init :: exists s: Tree :: Leaves(s) == cur && acc + Cost(s) <= Cost(t)
  }

  lemma LowerBoundStart(init: multiset<nat>)
    ensures LowerBound(init, 0, init)
  {
    hide Leaves, Cost;
    forall t: Tree | Leaves(t) == init ensures exists s: Tree :: Leaves(s) == init && 0 + Cost(s) <= Cost(t) {
      assert Leaves(t) == init && 0 + Cost(t) <= Cost(t);
    }
  }

  lemma LeafIsAlone(t: Tree, a: nat, b: nat, rest: multiset<nat>)
    requires Leaves(t) == multiset{a, b} + rest
    ensures t.Node?
  {
    assert |Leaves(t)| == 2 + |rest|;
  }

  lemma MergeOne(t: Tree, a: nat, b: nat, rest: multiset<nat>) returns (s: Tree)
    requires Lightest(Leaves(t), a, b, rest)
    ensures Leaves(s) == multiset{a + b} + rest
    ensures Cost(s) + a + b <= Cost(t)
  {
    hide Leaves, Cost, Weight, Pair;
    LeafIsAlone(t, a, b, rest);
    var u := SinkLightest(t, a, b, rest);
    JoinEffect(u);
    s := Join(u);
    PairSum(u, a, b);
    Remainder(Leaves(s), PairSet(u), rest, a + b);
  }

  lemma Remainder(s: multiset<nat>, p: multiset<nat>, rest: multiset<nat>, x: nat)
    requires s + p == (p + rest) + multiset{x}
    ensures s == multiset{x} + rest
  {
    forall v: nat ensures s[v] == (multiset{x} + rest)[v] {
      assert (s + p)[v] == ((p + rest) + multiset{x})[v];
    }
  }

  lemma PairSum(u: Tree, a: nat, b: nat)
    requires u.Node? && PairSet(u) == multiset{a, b}
    ensures Pair(u).0 + Pair(u).1 == a + b
  {
    hide Pair;
    var (x, y) := Pair(u);
    assert multiset{x, y}[a] == multiset{a, b}[a] && multiset{x, y}[b] == multiset{a, b}[b];
  }

  /** Merging two lightest nodes adds their weight to what every tree must cost. */
  lemma LowerBoundStep(init: multiset<nat>, acc: nat, cur: multiset<nat>, a: nat, b: nat, rest: multiset<nat>)
    requires LowerBound(init, acc, cur) && Lightest(cur, a, b, rest)
    ensures LowerBound(init, acc + a + b, multiset{a + b} + rest)
  {
    hide Leaves, Cost, Lightest;
    var next := multiset{a + b} + rest;
    forall t: Tree | Leaves(t) == init
      ensures exists s: Tree :: Leaves(s) == next && acc + a + b + Cost(s) <= Cost(t)
    {
      var u: Tree :| Leaves(u) == cur && acc + Cost(u) <= Cost(t);
      var s := MergeOne(u, a, b, rest);
    }
  }
}
