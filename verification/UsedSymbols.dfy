/** The symbols with a frequency, in order, and the code built on them. */
module UsedSymbols {
  import opened Bits
  import opened Canonical
  import opened MergeTheory
  import opened LengthLimit
  import opened TreeDepths

  /** The symbols below n whose frequency is not zero. */
  function Used(f: seq<nat>, n: nat): (s: seq<nat>)
    requires n <= |f|
    ensures |s| <= n
    ensures forall i :: 0 <= i < |s| ==> s[i] < n && f[s[i]] != 0
  {
    if n == 0 then [] else Used(f, n - 1) + if f[n - 1] != 0 then [n - 1] else []
  }

  lemma UsedGrows(f: seq<nat>, n: nat)
    requires 1 <= n <= |f|
    ensures f[n - 1] != 0 ==> Used(f, n) == Used(f, n - 1) + [n - 1]
    ensures f[n - 1] == 0 ==> Used(f, n) == Used(f, n - 1)
  {
  }

  lemma NoneUsed(f: seq<nat>)
    ensures Used(f, 0) == []
  {
  }

  lemma OneMore(s: seq<nat>, y: nat, x: nat)
    ensures multiset(s + [y])[x] == multiset(s)[x] + if y == x then 1 else 0
  {
  }

  lemma {:induction false} UsedCount(f: seq<nat>, n: nat, x: nat)
    requires n <= |f|
    ensures multiset(Used(f, n))[x] == if x < n && f[x] != 0 then 1 else 0
    decreases n
  {
    hide Used;
    if n > 0 {
      UsedCount(f, n - 1, x);
      UsedGrows(f, n);
      if f[n - 1] != 0 {
        OneMore(Used(f, n - 1), n - 1, x);
      }
    } else {
      NoneUsed(f);
    }
  }

  lemma UsedDistinct(f: seq<nat>, n: nat, s: seq<nat>)
    requires n <= |f| && multiset(s) == multiset(Used(f, n))
    ensures Distinct(s)
    ensures forall i :: 0 <= i < |s| ==> s[i] < n && f[s[i]] != 0
    ensures forall x :: 0 <= x < n && f[x] != 0 ==> x in s
    ensures |s| == |Used(f, n)|
  {
    hide Used;
    forall x: nat ensures multiset(s)[x] <= 1 {
      UsedCount(f, n, x);
    }
    OnceDistinct(s);
    forall i | 0 <= i < |s| ensures s[i] < n && f[s[i]] != 0 {
      assert s[i] in multiset(s);
      UsedCount(f, n, s[i]);
    }
    forall x | 0 <= x < n && f[x] != 0 ensures x in s {
      UsedCount(f, n, x);
      assert x in multiset(s);
    }
    assert |multiset(s)| == |multiset(Used(f, n))|;
  }

  lemma UsedAdd(f: seq<nat>, n: nat, node: nat, w: nat)
    requires n <= |f| && node < n && f[node] == 0 && w > 0
    ensures multiset(Used(f[node := w], n)) == multiset(Used(f, n)) + multiset{node}
  {
    forall x: nat ensures multiset(Used(f[node := w], n))[x] == (multiset(Used(f, n)) + multiset{node})[x] {
      UsedCount(f, n, x);
      UsedCount(f[node := w], n, x);
    }
  }

  /** The largest used symbol, or -1. */
  ghost predicate IsMaxCode(f: seq<nat>, n: nat, mc: int)
  {
    -1 <= mc < n <= |f| && (mc >= 0 ==> f[mc] != 0) && forall x :: mc < x < n ==> f[x] == 0
  }

  lemma {:induction false} SameUsed(f: seq<nat>, g: seq<nat>, n: nat)
    requires n <= |f| && n <= |g| && forall x :: 0 <= x < n ==> f[x] == g[x]
    ensures Used(f, n) == Used(g, n)
    decreases n
  {
    if n > 0 {
      SameUsed(f, g, n - 1);
    }
  }

  // ---------- counts of lengths ----------

  lemma {:induction false} CountIsMultiset(s: seq<nat>, b: nat)
    ensures Count(s, b) == multiset(s)[b]
  {
    if s != [] {
      var n := |s| - 1;
      assert s == s[..n] + [s[n]];
      CountIsMultiset(s[..n], b);
    }
  }

  /** Counting lengths over all symbols is counting them over the used ones. */
  lemma {:induction false} CountUsed(f: seq<nat>, dl: seq<nat>, n: nat, b: nat)
    requires n <= |f| && n <= |dl| && b >= 1
    requires forall x :: 0 <= x < n && f[x] == 0 ==> dl[x] == 0
    ensures Count(dl[..n], b) == Count(At(Used(f, n), dl), b)
    decreases n
  {
    hide Used;
    NoneUsed(f);
    if n > 0 {
      CountUsed(f, dl, n - 1, b);
      CountStep(dl, n - 1, b);
      UsedGrows(f, n);
      if f[n - 1] != 0 {
        assert At(Used(f, n), dl) == At(Used(f, n - 1), dl) + [dl[n - 1]];
        CountLast(At(Used(f, n - 1), dl), dl[n - 1], b);
      }
    }
  }

  lemma CountLast(s: seq<nat>, x: nat, b: nat)
    ensures Count(s + [x], b) == Count(s, b) + if x == b then 1 else 0
  {
    assert (s + [x])[..|s + [x]| - 1] == s;
  }

  lemma CountPermuted(s: seq<nat>, t: seq<nat>, dl: seq<nat>, b: nat)
    requires multiset(s) == multiset(t) && forall i :: 0 <= i < |s| ==> s[i] < |dl|
    ensures forall i :: 0 <= i < |t| ==> t[i] < |dl|
    ensures Count(At(s, dl), b) == Count(At(t, dl), b)
  {
    AtPerm(s, t, dl);
    CountIsMultiset(At(s, dl), b);
    CountIsMultiset(At(t, dl), b);
  }

  function Counts(xs: seq<nat>): (c: seq<nat>)
    ensures |c| == 16
  {
    seq(16, b requires 0 <= b < 16 => Count(xs, b))
  }

  function PowSeq(xs: seq<nat>, max: nat): (v: seq<nat>)
    ensures |v| == |xs|
  {
    seq(|xs|, i requires 0 <= i < |xs| => if xs[i] <= max then Pow2(max - xs[i]) else 0)
  }

  /** The count table of a list of lengths carries its Kraft sum and its size. */
  lemma {:induction false} CountsSum(xs: seq<nat>, max: nat)
    requires max <= 15 && forall i :: 0 <= i < |xs| ==> 1 <= xs[i] <= max
    ensures Units(Counts(xs), max) == Sum(PowSeq(xs, max)) && Total(Counts(xs), max) == |xs|
    decreases |xs|
  {
    hide Count, Pow2;
    if xs == [] {
      CountsNone();
      NoShortCodes(Counts([]), max);
    } else {
      var n := |xs| - 1;
      var ys, x := xs[..n], xs[n];
      assert xs == ys + [x];
      CountsSum(ys, max);
      forall b: nat ensures Count(xs, b) == Count(ys, b) + if x == b then 1 else 0 {
        CountLast(ys, x, b);
      }
      assert Counts(xs) == Counts(ys)[x := Counts(ys)[x] + 1];
      CountChanged(Counts(ys), Counts(xs), x, max, 1);
      assert PowSeq(xs, max)[..n] == PowSeq(ys, max);
    }
  }

  lemma CountsNone()
    ensures forall b :: 0 <= b < 16 ==> Counts([])[b] == 0
  {
  }

  // ---------- the Kraft sum of the final lengths ----------

  lemma {:induction false} FirstPosUnits(lens: seq<nat>, bc: seq<nat>, b: nat)
    requires |bc| == 16 && b <= 15 && forall i :: 1 <= i <= 15 ==> bc[i] == Count(lens, i)
    ensures FirstPos(lens, b + 1) == Units(bc, b) * Pow2(15 - b)
  {
    hide Count, Pow2;
    if b > 0 {
      FirstPosUnits(lens, bc, b - 1);
      WidthHalves(b);
      WeighUnits(Units(bc, b - 1), Width(b), bc[b]);
    }
  }

  lemma WeighUnits(u: nat, w: nat, c: nat)
    ensures u * (2 * w) + c * w == (2 * u + c) * w
  {
  }

  /** Counts that fill the lengths up to max exactly make a complete code. */
  lemma CountsComplete(lens: seq<nat>, bc: seq<nat>, max: nat)
    requires |bc| == 16 && 1 <= max <= 15 && forall i :: 1 <= i <= 15 ==> bc[i] == Count(lens, i)
    requires Units(bc, max) == Pow2(max) && forall i :: max < i <= 15 ==> bc[i] == 0
    requires ValidLens(lens)
    ensures Complete(lens)
  {
    hide Count, Units, Pow2;
    FirstPosUnits(lens, bc, max);
    SumAfter(lens, max + 1, 16);
    Pow2Add(max, 15 - max);
    assert max + (15 - max) == 15;
  }
}
