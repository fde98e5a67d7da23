/** Writing one code into a decoding table, and why nothing already written is lost
    (inftrees.c: the inner loop of inflate_table). */
module TableFill {
  import opened Bits
  import opened Canonical
  import opened Decoder
  import opened SortedCodes
  import opened DecodeTable

  /** Index i of a table of n index bits ends in the d bits h. */
  predicate Ends(i: nat, d: nat, h: nat)
  {
    Low(i, d) == h
  }

  /** Table u is t with `here` at every index of the n-bit table at base that ends in h. */
  ghost predicate Filled(t: seq<Code>, u: seq<Code>, base: nat, n: nat, d: nat, h: nat, here: Code)
  {
    |u| == |t| && base + Pow2(n) <= |t|
    && (forall p :: base <= p < base + Pow2(n) ==> u[p] == if Ends(p - base, d, h) then here else t[p])
    && forall p :: 0 <= p < |t| && !(base <= p < base + Pow2(n)) ==> u[p] == t[p]
  }

  /** Filled down to the m-th multiple of 2^d. */
  ghost predicate FilledFrom(t: seq<Code>, u: seq<Code>, base: nat, n: nat, d: nat, h: nat, here: Code, m: nat)
  {
    |u| == |t| && base + Pow2(n) <= |t|
    && (forall p :: base <= p < base + Pow2(n) ==>
          u[p] == if Ends(p - base, d, h) && Shr(p - base, d) >= m then here else t[p])
    && forall p :: 0 <= p < |t| && !(base <= p < base + Pow2(n)) ==> u[p] == t[p]
  }

  lemma FillStart(t: seq<Code>, base: nat, n: nat, d: nat, h: nat, here: Code)
    requires base + Pow2(n) <= |t| && d <= n
    ensures FilledFrom(t, t, base, n, d, h, here, Pow2(n - d))
    ensures Pow2(n) == Pow2(n - d) * Pow2(d)
  {
    hide Pow2, Shr, Ends;
    forall p | base <= p < base + Pow2(n)
      ensures t[p] == if Ends(p - base, d, h) && Shr(p - base, d) >= Pow2(n - d) then here else t[p]
    {
      assert d + (n - d) == n;
      ShrBound(p - base, d, n - d);
    }
    Pow2Add(n - d, d);
    assert (n - d) + d == n;
  }

  lemma FillStep(t: seq<Code>, u: seq<Code>, base: nat, n: nat, d: nat, h: nat, here: Code, m: nat)
    requires FilledFrom(t, u, base, n, d, h, here, m) && d <= n && 1 <= m <= Pow2(n - d) && h < Pow2(d)
    ensures h + (m - 1) * Pow2(d) < Pow2(n)
    ensures FilledFrom(t, u[base + h + (m - 1) * Pow2(d) := here], base, n, d, h, here, m - 1)
  {
    hide Pow2, Shr, Low;
    var i := h + (m - 1) * Pow2(d);
    Join(h, d, m - 1);
    assert i == h + Pow2(d) * (m - 1);
    Pow2Add(d, n - d);
    assert d + (n - d) == n;
    MulMono(Pow2(d), m, Pow2(n - d));
    Distribute(Pow2(d), m - 1, 1);
    var w := u[base + i := here];
    forall p | base <= p < base + Pow2(n)
      ensures w[p] == if Ends(p - base, d, h) && Shr(p - base, d) >= m - 1 then here else t[p]
    {
      Split(p - base, d);
      assert u[p] == if Ends(p - base, d, h) && Shr(p - base, d) >= m then here else t[p];
    }
  }

  lemma FillEnd(t: seq<Code>, u: seq<Code>, base: nat, n: nat, d: nat, h: nat, here: Code)
    requires FilledFrom(t, u, base, n, d, h, here, 0)
    ensures Filled(t, u, base, n, d, h, here)
  {
  }

  /** Replicate an entry over all indices that end in the d bits h. */
  method Replicate(table: array<Code>, base: nat, n: nat, d: nat, h: nat, here: Code)
    requires base + Pow2(n) <= table.Length && d <= n && h < Pow2(d)
    modifies table
    ensures Filled(old(table[..]), table[..], base, n, d, h, here)
  {
    hide *;
    ghost var t := table[..];
    var incr := Pow2(d);
    var fill := Pow2(n);
    ghost var m := Pow2(n - d);
    FillStart(t, base, n, d, h, here);
    while fill != 0
      invariant fill == m * incr && 0 <= m <= Pow2(n - d)
      invariant FilledFrom(t, table[..], base, n, d, h, here, m)
      decreases m
    {
      ghost var u := table[..];
      Positive(m, incr);
      FillStep(t, u, base, n, d, h, here, m);
      fill := fill - incr;
      table[base + h + fill] := here;
      assert table[..] == u[base + h + (m - 1) * Pow2(d) := here];
      m := m - 1;
    }
    ZeroProduct(m, incr);
    FillEnd(t, table[..], base, n, d, h, here);
  }

  lemma Positive(m: nat, x: nat)
    requires m * x != 0
    ensures m >= 1 && m * x - x == (m - 1) * x && m * x >= x
  {
  }

  lemma ZeroProduct(m: nat, x: nat)
    requires m * x == 0 && x >= 1
    ensures m == 0
  {
  }

  // ---------- what a fill puts in place and what it leaves alone ----------

  ghost predicate Fillable(kind: CodeKind, lens: seq<nat>)
  {
    SymbolsFit(kind, lens) && Kraft(lens) <= Pow2(15)
  }

  /** A fill for s puts s in place in that table. */
  lemma FillPlaces(t: seq<Code>, u: seq<Code>, base: nat, n: nat, drop: nat, kind: CodeKind, lens: seq<nat>, s: nat)
    requires SymbolsFit(kind, lens) && Coded(lens, s) && drop <= lens[s] <= drop + n
    requires Filled(t, u, base, n, lens[s] - drop, Shr(CodeVal(lens, s), drop), Entry(kind, s, lens[s] - drop))
    ensures base + Pow2(n) <= |u| && PlacedAt(u, base, n, drop, kind, lens, s)
  {
    hide Pow2, Shr, Low, Entry, CodeVal;
  }

  /** A fill for s in a table leaves what another symbol has there, if both share the dropped bits. */
  lemma FillKeeps(t: seq<Code>, u: seq<Code>, base: nat, n: nat, drop: nat, low: nat, kind: CodeKind, lens: seq<nat>,
                  s: nat, r: nat, here: Code)
    requires Fillable(kind, lens) && Coded(lens, s) && Coded(lens, r) && s != r
    requires drop <= lens[s] <= drop + n && drop <= lens[r] <= drop + n && low < Pow2(drop)
    requires Low(CodeVal(lens, s), drop) == low == Low(CodeVal(lens, r), drop)
    requires base + Pow2(n) <= |t| && PlacedAt(t, base, n, drop, kind, lens, r)
    requires Filled(t, u, base, n, lens[s] - drop, Shr(CodeVal(lens, s), drop), here)
    ensures PlacedAt(u, base, n, drop, kind, lens, r)
  {
    hide Pow2, Shr, Low, Entry, CodeVal, Kraft;
    forall p | base <= p < base + Pow2(n) && Low(p - base, lens[r] - drop) == Shr(CodeVal(lens, r), drop)
      ensures u[p] == Entry(kind, r, lens[r] - drop)
    {
      NotBoth(drop, low, kind, lens, s, r, p - base);
    }
  }

  /** No index ends in the rests of two codes that share the dropped bits. */
  lemma NotBoth(drop: nat, low: nat, kind: CodeKind, lens: seq<nat>, s: nat, r: nat, i: nat)
    requires Fillable(kind, lens) && Coded(lens, s) && Coded(lens, r) && s != r
    requires drop <= lens[s] && drop <= lens[r] && low < Pow2(drop)
    requires Low(CodeVal(lens, s), drop) == low == Low(CodeVal(lens, r), drop)
    ensures !(Low(i, lens[s] - drop) == Shr(CodeVal(lens, s), drop)
              && Low(i, lens[r] - drop) == Shr(CodeVal(lens, r), drop))
  {
    hide Pow2, Shr, Low, CodeVal, Kraft;
    if Low(i, lens[s] - drop) == Shr(CodeVal(lens, s), drop) && Low(i, lens[r] - drop) == Shr(CodeVal(lens, r), drop) {
      Whole(low, drop, i, lens[s], CodeVal(lens, s));
      Whole(low, drop, i, lens[r], CodeVal(lens, r));
      NoClash(lens, s, r, low + Pow2(drop) * i);
    }
  }

  /** Dropped bits and an index that ends in the rest of a code make up a stream that starts with it. */
  lemma Whole(low: nat, drop: nat, i: nat, len: nat, c: nat)
    requires drop <= len && low < Pow2(drop) && Low(c, drop) == low && Low(i, len - drop) == Shr(c, drop)
    ensures Low(low + Pow2(drop) * i, len) == c
  {
    hide Pow2, Shr, Low;
    var v := low + Pow2(drop) * i;
    Join(low, drop, i);
    assert drop + (len - drop) == len;
    LowAdd(v, drop, len - drop);
    Split(c, drop);
  }

  /** Changes elsewhere leave a placed symbol in place. */
  lemma PlacedAtKept(t: seq<Code>, u: seq<Code>, base: nat, n: nat, drop: nat, kind: CodeKind, lens: seq<nat>, s: nat)
    requires SymbolsFit(kind, lens) && Coded(lens, s) && drop <= lens[s] <= drop + n
    requires base + Pow2(n) <= |t| == |u| && PlacedAt(t, base, n, drop, kind, lens, s)
    requires forall p :: base <= p < base + Pow2(n) ==> u[p] == t[p]
    ensures PlacedAt(u, base, n, drop, kind, lens, s)
  {
    hide Pow2, Shr, Low, Entry, CodeVal;
  }

  /** One changed cell that does not end in the code of s leaves s in place. */
  lemma PlacedAtBut(t: seq<Code>, base: nat, n: nat, q: nat, e: Code, kind: CodeKind, lens: seq<nat>, s: nat)
    requires SymbolsFit(kind, lens) && Coded(lens, s) && lens[s] <= n
    requires base + Pow2(n) <= |t| && PlacedAt(t, base, n, 0, kind, lens, s)
    requires base <= q < base + Pow2(n) && Low(q - base, lens[s]) != CodeVal(lens, s)
    ensures PlacedAt(t[q := e], base, n, 0, kind, lens, s)
  {
    hide Pow2, Shr, Low, Entry, CodeVal;
    ShrNone(CodeVal(lens, s));
  }
}
