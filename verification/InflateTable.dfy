/** Building a decoding table from code lengths (inftrees.c: inflate_table). */
module InflateTable {
  import opened Bits
  import opened Canonical
  import opened Decoder
  import opened MoreInput
  import opened GenCodes
  import opened SortedCodes
  import opened DecodeTable
  import opened TableFill
  import opened TableSize
  import opened TableBuild

  // ---------- counting and sorting ----------

  /** Count the codes of each length. */
  method CountLens(lens: seq<nat>, cnt: array<nat>)
    requires ValidLens(lens) && cnt.Length == 16
    modifies cnt
    ensures forall b :: 0 <= b < 16 ==> cnt[b] == Count(lens, b)
  {
    hide Count;
    NoneCounted(lens);
    for len := 0 to 16
      invariant forall b :: 0 <= b < len ==> cnt[b] == 0
    {
      cnt[len] := 0;
    }
    for sym := 0 to |lens|
      invariant forall b :: 0 <= b < 16 ==> cnt[b] == Count(lens[..sym], b)
    {
      CountSteps(lens, sym);
      cnt[lens[sym]] := cnt[lens[sym]] + 1;
    }
    assert lens[..|lens|] == lens;
  }

  lemma NoneCounted(lens: seq<nat>)
    ensures forall b :: 0 <= b < 16 ==> Count(lens[..0], b) == 0
  {
  }

  lemma CountSteps(lens: seq<nat>, sym: nat)
    requires sym < |lens|
    ensures forall b :: 0 <= b < 16 ==>
      Count(lens[..sym + 1], b) == Count(lens[..sym], b) + if lens[sym] == b then 1 else 0
  {
    hide Count;
    forall b | 0 <= b < 16
      ensures Count(lens[..sym + 1], b) == Count(lens[..sym], b) + if lens[sym] == b then 1 else 0
    {
      CountStep(lens, sym, b);
    }
  }

  /** The greatest length in use, or 0. */
  method GreatestLen(cnt: array<nat>) returns (max: nat)
    requires cnt.Length == 16
    ensures max <= 15 && (max > 0 ==> cnt[max] != 0) && forall b :: max < b <= 15 ==> cnt[b] == 0
  {
    max := 15;
    while max >= 1 && cnt[max] == 0
      invariant max <= 15 && forall b :: max < b <= 15 ==> cnt[b] == 0
    {
      max := max - 1;
    }
  }

  /** The least length in use. */
  method LeastLen(cnt: array<nat>, max: nat) returns (min: nat)
    requires cnt.Length == 16 && 1 <= max <= 15 && cnt[max] != 0
    ensures 1 <= min <= max && cnt[min] != 0 && forall b :: 1 <= b < min ==> cnt[b] == 0
  {
    min := 1;
    while min < max && cnt[min] == 0
      invariant 1 <= min <= max && forall b :: 1 <= b < min ==> cnt[b] == 0
    {
      min := min + 1;
    }
  }

  lemma LeftStep(lens: seq<nat>, len: nat, left: int)
    requires 1 <= len <= 15 && left * Width(len - 1) == Pow2(15) - FirstPos(lens, len)
    ensures (2 * left - Count(lens, len)) * Width(len) == Pow2(15) - FirstPos(lens, len + 1)
  {
    hide Pow2, Count, FirstPos, Width;
    WidthHalves(len);
    FirstPosUnfold(lens, len + 1);
    Spread3(2 * left, Count(lens, len), Width(len));
    Spread3(left, 0, Width(len));
  }

  lemma OverSubscribed(lens: seq<nat>, len: nat, left: int)
    requires 1 <= len <= 15 && left < 0 && left * Width(len) == Pow2(15) - FirstPos(lens, len + 1)
    ensures Kraft(lens) > Pow2(15)
  {
    hide Pow2, Count, FirstPos, Width;
    WidthPositive(len);
    NegativeProduct(left, Width(len));
    FirstPosMono(lens, len + 1, 16);
    KraftIs(lens);
  }

  lemma NegativeProduct(x: int, w: nat)
    requires x < 0 && w >= 1
    ensures x * w < 0
  {
  }

  /** The number of codes left over at length 15; negative if there are too many codes. */
  method CheckLeft(cnt: array<nat>, ghost lens: seq<nat>) returns (left: int)
    requires cnt.Length == 16 && forall b :: 0 <= b < 16 ==> cnt[b] == Count(lens, b)
    ensures left < 0 ==> Kraft(lens) > Pow2(15)
    ensures left >= 0 ==> left == Pow2(15) - Kraft(lens)
  {
    hide Pow2, Count, FirstPos, Kraft, Width;
    left := 1;
    LeftStart(lens);
    for len := 1 to 16
      invariant left >= 0 && left * Width(len - 1) == Pow2(15) - FirstPos(lens, len)
    {
      LeftStep(lens, len, left);
      left := left * 2;
      left := left - cnt[len];
      if left < 0 {
        OverSubscribed(lens, len, left);
        return;
      }
    }
    LeftEnd(lens, left);
  }

  lemma LeftStart(lens: seq<nat>)
    ensures 1 * Width(0) == Pow2(15) - FirstPos(lens, 1)
  {
    hide Pow2;
  }

  lemma LeftEnd(lens: seq<nat>, left: int)
    requires left * Width(15) == Pow2(15) - FirstPos(lens, 16)
    ensures left == Pow2(15) - Kraft(lens)
  {
    assert Width(15) == 1;
  }

  /** List the coded symbols by length, and by symbol within each length. */
  method SortSymbols(lens: seq<nat>, cnt: array<nat>, work: array<nat>)
    requires ValidLens(lens) && cnt.Length == 16 && cnt != work && work.Length >= |lens|
    requires forall b :: 0 <= b < 16 ==> cnt[b] == Count(lens, b)
    modifies work
    ensures IsSorted(work[..], lens)
  {
    hide *;
    var offs := new nat[16];
    offs[1] := 0;
    OffStart(lens);
    for len := 1 to 15
      invariant forall b :: 1 <= b <= len ==> offs[b] == Off(lens, b)
      invariant forall b :: 0 <= b < 16 ==> cnt[b] == Count(lens, b)
    {
      OffUnfold(lens, len + 1);
      offs[len + 1] := offs[len] + cnt[len];
    }
    NoneCounted(lens);
    for sym := 0 to |lens|
      invariant forall b :: 1 <= b <= 15 ==> offs[b] == Off(lens, b) + Count(lens[..sym], b)
      invariant forall s :: 0 <= s < sym && lens[s] != 0 ==> Rank(lens, s) < work.Length && work[Rank(lens, s)] == s
    {
      CountSteps(lens, sym);
      SymLen(lens, sym);
      if lens[sym] != 0 {
        SymRank(lens, sym);
        CodesBound(lens);
        forall s | 0 <= s < sym && lens[s] != 0 ensures Rank(lens, s) != Rank(lens, sym) {
          SymLen(lens, s);
          SymRank(lens, s);
          RankOrder(lens, s, sym);
          RankOrder(lens, sym, s);
        }
        work[offs[lens[sym]]] := sym;
        offs[lens[sym]] := offs[lens[sym]] + 1;
      }
    }
    AllSorted(lens, work[..]);
  }

  lemma OffStart(lens: seq<nat>)
    ensures Off(lens, 1) == 0
  {
  }

  lemma SymLen(lens: seq<nat>, s: nat)
    requires ValidLens(lens) && s < |lens|
    ensures lens[s] <= 15 && (lens[s] != 0 ==> Coded(lens, s))
  {
  }

  lemma SymRank(lens: seq<nat>, s: nat)
    requires Coded(lens, s)
    ensures Rank(lens, s) == Off(lens, lens[s]) + Count(lens[..s], lens[s]) < Codes(lens)
  {
    hide Off, Count, Codes;
    RankRange(lens, s);
  }

  lemma AllSorted(lens: seq<nat>, work: seq<nat>)
    requires |work| >= |lens|
    requires forall s :: 0 <= s < |lens| && lens[s] != 0 ==> Rank(lens, s) < |work| && work[Rank(lens, s)] == s
    ensures IsSorted(work, lens)
  {
    hide Rank, Codes;
    CodesBound(lens);
    SortedAll(work, lens);
  }

  // ---------- the next code ----------

  lemma DivIsShr(v: nat, n: nat)
    ensures v / Pow2(n) == Shr(v, n) && v % Pow2(n) == Low(v, n)
  {
    hide Pow2, Shr, Low;
    Split(v, n);
    LowBound(v, n);
    DivOf(v, Pow2(n), Shr(v, n), Low(v, n));
  }

  lemma DivOf(v: nat, m: nat, q: nat, r: nat)
    requires m >= 1 && v == r + m * q && r < m
    ensures v / m == q && v % m == r
  {
    var d := v / m;
    assert v == m * d + v % m;
    if d > q {
      MulMono(m, q + 1, d);
      Distribute(m, q, 1);
    } else if d < q {
      MulMono(m, d + 1, q);
      Distribute(m, d, 1);
    }
  }

  /** Increment the len-bit code from its most significant, that is first transmitted, end. */
  method BackIncrement(huff: nat, len: nat) returns (r: nat)
    requires 1 <= len <= 15
    ensures r == BackInc(huff, len)
  {
    hide *;
    var incr := Pow2(len - 1);
    ghost var k := len;
    DivIsShr(huff, len - 1);
    HalfPower(k);
    while incr != 0 && (huff / incr) % 2 == 1
      invariant 0 <= k <= len && incr == (if k == 0 then 0 else Pow2(k - 1))
      invariant BackInc(huff, len) == BackInc(huff, k)
      decreases k
    {
      DivIsShr(huff, k - 1);
      BackIncStep(huff, k);
      HalfPower(k);
      incr := incr / 2;
      k := k - 1;
    }
    HalfPower(k);
    BackIncStep(huff, k);
    if incr != 0 {
      DivIsShr(huff, k - 1);
      r := huff % incr;
      r := r + incr;
    } else {
      r := 0;
    }
  }

  lemma HalfPower(k: nat)
    ensures k >= 1 ==> Pow2(k - 1) >= 1
    ensures k >= 2 ==> Pow2(k - 1) / 2 == Pow2(k - 2)
    ensures k == 1 ==> Pow2(k - 1) / 2 == 0
  {
  }

  lemma BackIncStep(h: nat, k: nat)
    ensures k == 0 ==> BackInc(h, k) == 0
    ensures k > 0 && Shr(h, k - 1) % 2 == 1 ==> BackInc(h, k) == BackInc(h, k - 1)
    ensures k > 0 && Shr(h, k - 1) % 2 != 1 ==> BackInc(h, k) == Low(h, k - 1) + Pow2(k - 1)
  {
  }

  // ---------- the main loop ----------

  /** The entries the caller has set aside for a table of this kind. */
  function Room(kind: CodeKind): (n: nat)
  {
    match kind case CODES => 128 case LENS => ENOUGH_LENS case DISTS => ENOUGH_DISTS
  }

  /** Code sets for which the room provably suffices: those inflate asks for. */
  ghost predicate Roomy(kind: CodeKind, lens: seq<nat>, bits: nat)
  {
    ((kind.LENS? && |lens| <= 286 && bits == 9) || (kind.DISTS? && |lens| <= 30 && bits == 6))
    || (bits <= 9 && forall i :: 0 <= i < |lens| ==> lens[i] <= bits)
  }

  /** What the caller must provide. */
  ghost predicate Asked(kind: CodeKind, lens: seq<nat>, bits: nat)
  {
    ValidLens(lens) && SymbolsFit(kind, lens) && 1 <= bits <= 15
    && (kind.CODES? ==> bits == 7 && forall i :: 0 <= i < |lens| ==> lens[i] <= 7)
  }

  /** Progress of the room: with roomy requests, sub-tables stay within it. */
  ghost predicate Saving(j: Job, s: Sub, used: nat, short: nat, done: nat)
    requires Workable(j)
  {
    short < Codes(j.lens) && j.lens[j.work[short]] > j.root
    && Frugal(j.lens, j.root, short, used, s.curr, done)
  }

  /** The state at the head of the main loop: rank i is next, with its length and code at hand. */
  ghost predicate Building(j: Job, t: seq<Code>, cnt: seq<nat>, i: nat, len: nat, huff: nat, s: Sub, used: nat,
                           max: nat,
                           from: nat, done: nat, short: nat)
  {
    Workable(j) && i < Codes(j.lens) && i < |j.work|
    && Coded(j.lens, j.work[i]) && len == j.lens[j.work[i]] <= max <= 15 && huff == CodeVal(j.lens, j.work[i])
    && Remaining(cnt, j.lens, i, len) && Entered(j, t, i, used) && used == s.next + Pow2(s.curr)
    && ((AtRoot(j, i, s) && len <= j.root && used == Pow2(j.root))
        || (AtSub(j, t, i, s, from, done) && i < done && Saving(j, s, used, short, done)))
  }

  /** The same after the entry of rank i - 1 has been written and before rank i is looked at. */
  ghost predicate Between(j: Job, t: seq<Code>, i: nat, s: Sub, used: nat, from: nat, done: nat, short: nat)
  {
    Workable(j) && 0 < i <= Codes(j.lens) && Entered(j, t, i, used) && used == s.next + Pow2(s.curr)
    && ((AtRoot(j, i, s) && used == Pow2(j.root))
        || (AtSub(j, t, i, s, from, done) && Saving(j, s, used, short, done)))
  }

  lemma BuildingSub(j: Job, t: seq<Code>, cnt: seq<nat>, i: nat, len: nat, huff: nat, s: Sub, used: nat, max: nat,
                    from: nat, done: nat, short: nat)
    requires Building(j, t, cnt, i, len, huff, s, used, max, from, done, short)
    ensures i < |j.work| && len == j.lens[j.work[i]] && SymbolsFit(j.kind, j.lens) && j.work[i] < |j.lens|
      && 1 <= len <= 15
    ensures s.drop < len <= s.drop + s.curr && s.curr <= 15 && j.start + s.next + Pow2(s.curr) <= |t|
    ensures Shr(huff, s.drop) < Pow2(len - s.drop) && huff == CodeVal(j.lens, j.work[i])
    ensures |cnt| == 16 && used == s.next + Pow2(s.curr) && j.work[i] < 288 && (j.kind.DISTS? ==> j.work[i] < 32)
  {
    hide Pow2, Codes, Rank, CodeVal, Shr, Entered, IsSorted, Frugal, FirstBits, LinkBefore, Kraft, Pos, Slot, Width,
      Off, Count;
    FillableFits(j.kind, j.lens);
    WholeCode(j.lens, j.work[i]);
    EnteredRoom(j, t, i, used);
    LowBound(huff, len);
    if s.drop > 0 {
      assert s.drop + (len - s.drop) == len;
      ShrBound(huff, s.drop, len - s.drop);
    } else {
      ShrNone(huff);
    }
  }

  lemma EnteredRoom(j: Job, t: seq<Code>, i: nat, used: nat)
    requires Workable(j) && Entered(j, t, i, used)
    ensures j.start + used <= |t|
  {
    hide InPlace, Codes;
  }

  /** Writing the entry of rank i. */
  lemma EntryWritten(j: Job, t: seq<Code>, u: seq<Code>, cnt: seq<nat>, i: nat, len: nat, huff: nat, s: Sub, used: nat,
                     max: nat, from: nat, done: nat, short: nat)
    requires Building(j, t, cnt, i, len, huff, s, used, max, from, done, short)
    requires s.drop <= len && SymbolsFit(j.kind, j.lens)
    requires Filled(t, u, j.start + s.next, s.curr, len - s.drop, Shr(huff, s.drop),
                    Entry(j.kind, j.work[i], len - s.drop))
    ensures Between(j, u, i + 1, s, used, from, done, short)
  {
    hide Pow2, Codes, Rank, CodeVal, Shr, Entered, IsSorted, Frugal, FirstBits, LinkBefore, Kraft, Pos, Slot, Width,
      Off, Count, Filled, Entry, Fillable, Remaining, AtRoot, AtSub, Low;
    BuildingSub(j, t, cnt, i, len, huff, s, used, max, from, done, short);
    assert FilledIn(j, t, u, i, s);
    if AtRoot(j, i, s) && len <= j.root && used == Pow2(j.root) {
      AtRootIs(j, i, s);
      EnterRoot(j, t, u, i, s);
    } else {
      EnterSub(j, t, u, i, s, from, done);
    }
  }

  lemma AtRootIs(j: Job, i: nat, s: Sub)
    requires Workable(j) && AtRoot(j, i, s)
    ensures s == Sub(0, j.root, 0, -1)
  {
    hide Codes;
  }

  lemma LastRank(j: Job, cnt: seq<nat>, i: nat, len: nat, max: nat)
    requires Workable(j) && i < Codes(j.lens) && len == j.lens[j.work[i]] && Coded(j.lens, j.work[i])
    requires Remaining(cnt, j.lens, i, len) && len <= max <= 15
    requires Count(j.lens, max) != 0 && forall b :: max < b <= 15 ==> Count(j.lens, b) == 0
    ensures cnt[len] >= 1
    ensures cnt[len] == 1 && len == max ==> i + 1 == Codes(j.lens)
    ensures !(cnt[len] == 1 && len == max) ==> i + 1 < Codes(j.lens)
    ensures cnt[len] > 1 ==> i + 1 < Codes(j.lens) && j.lens[j.work[i + 1]] == len
  {
    hide Pow2, Off, Count, Fillable, IsSorted, Rank, Codes;
    RankCoded(j, i);
    RankRange(j.lens, j.work[i]);
    CodesIs(j.lens);
    OffMono(j.lens, len + 1, 16);
    OffFlat(j.lens, max + 1, 16);
    if len < max {
      OffMono(j.lens, len + 1, max);
      OffUnfold(j.lens, max + 1);
    }
    if cnt[len] > 1 {
      RankCoded(j, i + 1);
      LengthByRank(j.lens, j.work[i + 1], len);
    }
  }

  lemma {:induction false} OffFlat(lens: seq<nat>, a: nat, b: nat)
    requires 1 <= a <= b <= 16 && forall i :: a <= i < b ==> Count(lens, i) == 0
    ensures Off(lens, b) == Off(lens, a)
    decreases b
  {
    hide Count;
    if a < b {
      OffFlat(lens, a, b - 1);
    }
  }

  /** The counts of what remains after one more code. */
  lemma RemainingNext(j: Job, cnt: seq<nat>, i: nat, len: nat)
    requires Workable(j) && i + 1 < Codes(j.lens) && len == j.lens[j.work[i]] && Coded(j.lens, j.work[i])
    requires Remaining(cnt, j.lens, i, len) && cnt[len] >= 1
    ensures i + 1 < |j.work| && Coded(j.lens, j.work[i + 1]) && j.work[i + 1] < |j.lens|
    ensures cnt[len] > 1 ==> j.lens[j.work[i + 1]] == len
    ensures Remaining(cnt[len := cnt[len] - 1], j.lens, i + 1, j.lens[j.work[i + 1]])
  {
    hide Pow2, Off, Count, Fillable, IsSorted, Rank, Codes;
    RankCoded(j, i);
    RankCoded(j, i + 1);
    var s, t := j.work[i], j.work[i + 1];
    RankRange(j.lens, s);
    RankRange(j.lens, t);
    if cnt[len] > 1 {
      LengthByRank(j.lens, t, len);
    } else {
      RankOrder(j.lens, s, t);
      OffMono(j.lens, len + 1, j.lens[t]);
      OffUnfold(j.lens, j.lens[t] + 1);
    }
  }

  /** The code of the next rank. */
  lemma CodeNext(j: Job, i: nat, len: nat)
    requires Workable(j) && i < Codes(j.lens) && Coded(j.lens, j.work[i]) && len == j.lens[j.work[i]]
    ensures i + 1 < Codes(j.lens) ==>
      (i + 1 < |j.work| && Coded(j.lens, j.work[i + 1])
       && BackInc(CodeVal(j.lens, j.work[i]), len) == CodeVal(j.lens, j.work[i + 1]))
    ensures i + 1 == Codes(j.lens) && Kraft(j.lens) == Pow2(15) ==> BackInc(CodeVal(j.lens, j.work[i]), len) == 0
    ensures i + 1 == Codes(j.lens) && Kraft(j.lens) < Pow2(15) ==>
      (BackInc(CodeVal(j.lens, j.work[i]), len) == Rev(15, Kraft(j.lens)))
  {
    hide Pow2, Off, Count, Fillable, IsSorted, Rank, Codes, Pos, BackInc, Rev, Width, Kraft;
    RankCoded(j, i);
    FillableFits(j.kind, j.lens);
    var s := j.work[i];
    CodeValIs(j.lens, s);
    var c := PosAligned(j.lens, s);
    CodeBound(j.lens, s, c);
    NextCodeVal(len, Pos(j.lens, s), c);
    if i + 1 < Codes(j.lens) {
      RankCoded(j, i + 1);
      NextPos(j.lens, s, j.work[i + 1]);
      PosFits(j.lens, j.work[i + 1]);
      CodeValIs(j.lens, j.work[i + 1]);
    } else {
      LastAtEnd(j.lens, s);
    }
  }

  lemma CodeValIs(lens: seq<nat>, s: nat)
    requires s < |lens| && lens[s] <= 15
    ensures CodeVal(lens, s) == Rev(15, Pos(lens, s))
  {
  }

  /** The next rank as the loop looks at it. */
  ghost predicate Looking(j: Job, cnt: seq<nat>, i: nat, len: nat, huff: nat, max: nat)
  {
    Workable(j) && i < Codes(j.lens) && i < |j.work| && Coded(j.lens, j.work[i])
    && len == j.lens[j.work[i]] <= max <= 15 && huff == CodeVal(j.lens, j.work[i]) && Remaining(cnt, j.lens, i, len)
  }

  /** No new sub-table is needed for rank i. */
  lemma SameTable(j: Job, t: seq<Code>, cnt: seq<nat>, i: nat, len: nat, huff: nat, s: Sub, used: nat, max: nat,
                  from: nat, done: nat, short: nat)
    requires Looking(j, cnt, i, len, huff, max) && Between(j, t, i, s, used, from, done, short)
    requires len <= j.root || FirstBits(j.lens, j.root, j.work[i]) == s.low
    ensures Building(j, t, cnt, i, len, huff, s, used, max, from, done, short)
  {
    hide Pow2, Codes, Rank, CodeVal, Entered, IsSorted, Frugal, FirstBits, LinkBefore, Kraft, Pos, Slot, Width,
      Fillable, Remaining;
    if !AtRoot(j, i, s) {
      RankCoded(j, i);
      RankCoded(j, done - 1);
      if i == done {
        PosMono(j.lens, j.work, done - 1, i);
      }
    }
  }

  /** Where the slot of rank i begins, if rank i is the first code in it. */
  lemma SlotStarts(j: Job, t: seq<Code>, cnt: seq<nat>, i: nat, len: nat, huff: nat, s: Sub, used: nat, max: nat,
                   from: nat, done: nat, short: nat) returns (k: nat)
    requires Looking(j, cnt, i, len, huff, max) && Between(j, t, i, s, used, from, done, short)
    requires len > j.root && FirstBits(j.lens, j.root, j.work[i]) != s.low
    ensures Pos(j.lens, j.work[i]) == Width(j.root) * k && Pos(j.lens, j.work[i]) + Width(j.root) <= Pow2(15)
    ensures !AtRoot(j, i, s) ==> i == done && len >= j.root + s.curr
  {
    hide Pow2, Codes, Rank, CodeVal, Entered, IsSorted, Frugal, FirstBits, LinkBefore, Kraft, Pos, Slot, Width,
      Fillable, Remaining;
    if AtRoot(j, i, s) {
      RankCoded(j, i - 1);
      k := FirstLongAligned(j, i);
    } else {
      assert i == done;
      k := NextGroupAligned(j, from, done, s.low, s.curr);
    }
    FillableFits(j.kind, j.lens);
    PosFits(j.lens, j.work[i]);
    FullBlocks(j.root);
    NextBlock(Width(j.root), k, Pow2(j.root));
  }

  lemma NextBlock(w: nat, k: nat, m: nat)
    requires w * k < w * m
    ensures w * k + w <= w * m
  {
    if k >= m {
      MulMono(w, m, k);
    }
    MulMono(w, k + 1, m);
    Distribute(w, k, 1);
  }

  /** A new sub-table is open for rank i, and the room it takes is accounted for. */
  lemma Opened(j: Job, t: seq<Code>, cnt: seq<nat>, i: nat, len: nat, huff: nat, s: Sub, used: nat, max: nat,
               from: nat, done: nat, short: nat, k: nat, curr: nat, end: nat, done': nat)
      returns (short': nat)
    requires Looking(j, cnt, i, len, huff, max) && Between(j, t, i, s, used, from, done, short)
    requires len > j.root && Kraft(j.lens) == Pow2(15) && (!AtRoot(j, i, s) ==> i == done && len >= j.root + s.curr)
    requires Pos(j.lens, j.work[i]) == Width(j.root) * k && end == Pos(j.lens, j.work[i]) + Width(j.root)
    requires Sized(j.lens, j.work, i, j.root, curr, end, done')
    ensures short' < Codes(j.lens) && j.lens[j.work[short']] > j.root
    ensures Frugal(j.lens, j.root, short', used + Pow2(curr), curr, done')
    ensures j.start + used + Pow2(curr) <= |t| ==>
      (FirstBits(j.lens, j.root, j.work[i]) < Pow2(j.root) <= used
       && (var low := FirstBits(j.lens, j.root, j.work[i]);
           var u := t[j.start + low := Code(curr, j.root, used)];
           Building(j, u, cnt, i, len, huff, Sub(used, curr, j.root, low), used + Pow2(curr), max, i, done', short')))
  {
    hide Pow2, Codes, Rank, CodeVal, Entered, IsSorted, Frugal, FirstBits, LinkBefore, Kraft, Pos, Slot, Width,
      Fillable, Remaining, Sized, AtSub, AtRoot, Slack;
    SizedLast(j.lens, j.work, i, j.root, curr, end, done');
    FirstBitsBound(j.lens, j.root, j.work[i]);
    if AtRoot(j, i, s) {
      short' := i;
      RootUsed(j, t, i, s, used, from, done, short);
      FrugalFirst(j.lens, j.work, j.root, i, curr, end, done');
    } else {
      short' := short;
      FrugalMore(j.lens, j.work, j.root, short, used, s.curr, i, curr, end, done');
      SubUsed(j, t, i, s, from, done);
    }
    if j.start + used + Pow2(curr) <= |t| {
      OpenSub(j, t, i, used, curr, end, done', k);
    }
  }

  lemma RootUsed(j: Job, t: seq<Code>, i: nat, s: Sub, used: nat, from: nat, done: nat, short: nat)
    requires Between(j, t, i, s, used, from, done, short) && AtRoot(j, i, s)
    ensures used == Pow2(j.root)
  {
    hide Codes, Entered, AtSub, Frugal;
    if AtSub(j, t, i, s, from, done) {
      SubDrops(j, t, i, s, from, done);
    }
  }

  lemma SubDrops(j: Job, t: seq<Code>, i: nat, s: Sub, from: nat, done: nat)
    requires Workable(j) && AtSub(j, t, i, s, from, done)
    ensures s.drop == j.root >= 1 && s.low >= 0
  {
    hide Codes, Group, LinkBefore, Pow2;
  }

  lemma SubUsed(j: Job, t: seq<Code>, i: nat, s: Sub, from: nat, done: nat)
    requires Workable(j) && AtSub(j, t, i, s, from, done)
    ensures Pow2(j.root) <= s.next
  {
    hide Codes, Group, LinkBefore, Pow2;
  }

  /** Requests for which the room suffices, once the root size is settled. */
  ghost predicate Modest(kind: CodeKind, lens: seq<nat>, root: nat, max: nat)
  {
    (kind.LENS? && |lens| <= 286 && root == 9) || (kind.DISTS? && |lens| <= 30 && root == 6) || max <= root
  }

  lemma ModestFits(j: Job, short: nat, used: nat, curr: nat, done: nat, max: nat)
    requires Workable(j) && Kraft(j.lens) == Pow2(15) && Frugal(j.lens, j.root, short, used, curr, done)
    requires short < Codes(j.lens) && j.lens[j.work[short]] > j.root && j.root + curr <= max <= 15
    ensures Modest(j.kind, j.lens, j.root, max) ==> used <= Room(j.kind)
  {
    hide Pow2, Codes, Rank, IsSorted, Frugal, Kraft, Fillable;
    FrugalCurr(j.lens, j.root, short, used, curr, done);
    if j.kind.LENS? && |j.lens| <= 286 && j.root == 9 {
      EnoughLens(j.lens, j.work, short, used, curr, done);
    } else if j.kind.DISTS? && |j.lens| <= 30 && j.root == 6 {
      EnoughDists(j.lens, j.work, short, used, curr, done);
    }
  }

  lemma FrugalCurr(lens: seq<nat>, root: nat, short: nat, used: nat, curr: nat, done: nat)
    requires Frugal(lens, root, short, used, curr, done)
    ensures curr >= 1
  {
    hide Pow2, Codes, Slack;
  }

  lemma Begin(j: Job, t: seq<Code>, cnt: seq<nat>, min: nat, max: nat)
    requires Workable(j) && Codes(j.lens) > 0 && j.start + Pow2(j.root) <= |t|
    requires |cnt| == 16 && forall b :: 0 <= b < 16 ==> cnt[b] == Count(j.lens, b)
    requires 1 <= min <= max <= 15 && min <= j.root && Count(j.lens, min) != 0
    requires forall b :: 1 <= b < min ==> Count(j.lens, b) == 0
    ensures Building(j, t, cnt, 0, min, 0, Sub(0, j.root, 0, -1), Pow2(j.root), max, 0, 0, 0)
  {
    hide Pow2, Codes, Rank, IsSorted, Frugal, Kraft, Fillable, Off, Count, Pos, Rev, InPlace;
    RankCoded(j, 0);
    var s := j.work[0];
    FirstAtZero(j.lens, s);
    CodeValIs(j.lens, s);
    RevZero(15);
    OffFlat(j.lens, 1, min);
    OffOne(j.lens);
    OffUnfold(j.lens, min + 1);
    LengthByRank(j.lens, s, min);
  }

  lemma OffOne(lens: seq<nat>)
    ensures Off(lens, 1) == 0
  {
  }

  /** Start a sub-table for the code at sym; ret is 1 if the room runs out. */
  method NextTable(kind: CodeKind, lens: seq<nat>, table: array<Code>, start: nat, root: nat, max: nat, cnt: array<nat>,
                   work: array<nat>, ghost j: Job, sym: nat, len: nat, huff: nat, used0: nat, s0: Sub,
                   ghost from0: nat, ghost done0: nat, ghost short0: nat)
      returns (ret: nat, used: nat, s: Sub, ghost from: nat, ghost done: nat, ghost short: nat)
    requires j == Job(kind, lens, work[..], start, root) && start + Room(kind) <= table.Length && cnt.Length == 16
    requires Looking(j, cnt[..], sym, len, huff, max) && Between(j, table[..], sym, s0, used0, from0, done0, short0)
    requires root < len <= max <= 15 && sym < work.Length && work[sym] < |lens|
    requires Low(huff, root) == FirstBits(lens, root, work[sym]) < Pow2(root) && Low(huff, root) != s0.low
    requires Kraft(lens) == Pow2(15) && (kind.CODES? ==> max <= root) && Pow2(root) <= Room(kind)
    requires forall b :: max < b <= 15 ==> Count(lens, b) == 0
    modifies table
    ensures ret == 0 || ret == 1
    ensures ret == 0 ==>
      Building(j, table[..], cnt[..], sym, len, huff, s, used, max, from, done, short) && used <= Room(kind)
    ensures ret != 0 ==> kind != CODES && !Modest(kind, lens, root, max)
    ensures forall p :: 0 <= p < table.Length && (p < start || p >= start + Room(kind)) ==> table[p] == old(table[p])
  {
    hide *;
    LookingHas(j, cnt[..], sym, len, huff, max);
    ghost var k := SlotStarts(j, table[..], cnt[..], sym, len, huff, s0, used0, max, from0, done0, short0);
    ghost var end := Pos(lens, work[sym]) + Width(root);
    var curr;
    curr, done := SubSize(cnt, len, root, max, lens, work[..], sym, end);
    short := Opened(j, table[..], cnt[..], sym, len, huff, s0, used0, max, from0, done0, short0, k, curr, end, done);
    ModestFits(j, short, used0 + Pow2(curr), curr, done, max);
    ret, from := 0, sym;
    s := Sub(used0, curr, root, Low(huff, root));
    used := used0 + Pow2(curr);
    if kind != CODES && used > Room(kind) {
      ret := 1;
      return;
    }
    CodesModest(kind, lens, root, max);
    table[start + s.low] := Code(s.curr, root, s.next);
  }

  lemma LookingHas(j: Job, cnt: seq<nat>, i: nat, len: nat, huff: nat, max: nat)
    requires Looking(j, cnt, i, len, huff, max)
    ensures Workable(j) && i < Codes(j.lens) && i < |j.work| && Coded(j.lens, j.work[i]) && IsSorted(j.work, j.lens)
    ensures len == j.lens[j.work[i]] <= max && Remaining(cnt, j.lens, i, len) && 1 <= j.root
  {
    hide Codes, Remaining, CodeVal, Kraft, IsSorted;
  }

  /** Enter all codes; ret is 1 if the room runs out.  On success huff is what follows the last code. */
  method EnterCodes(kind: CodeKind, lens: seq<nat>, table: array<Code>, start: nat, root: nat, min: nat, max: nat,
                    cnt: array<nat>, work: array<nat>, ghost j: Job)
      returns (ret: nat, used: nat, huff: nat, len: nat, s: Sub)
    requires j == Job(kind, lens, work[..], start, root) && Workable(j) && cnt != work
    requires start + Room(kind) <= table.Length && Pow2(root) <= Room(kind)
    requires cnt.Length == 16 && forall b :: 0 <= b < 16 ==> cnt[b] == Count(lens, b)
    requires 1 <= min <= max <= 15 && min <= root && Count(lens, min) != 0 && Count(lens, max) != 0
    requires forall b :: 1 <= b < min ==> Count(lens, b) == 0
    requires forall b :: max < b <= 15 ==> Count(lens, b) == 0
    requires Codes(lens) > 0 && (max > 1 ==> Kraft(lens) == Pow2(15)) && (kind.CODES? ==> max <= root)
    modifies table, cnt
    ensures ret == 0 ==> Entered(j, table[..], Codes(lens), used) && Pow2(root) <= used <= Room(kind) && len == max
    ensures ret == 0 ==> huff == if Kraft(lens) == Pow2(15) then 0 else Rev(15, Kraft(lens))
    ensures ret == 0 && Kraft(lens) < Pow2(15) ==> s == Sub(0, root, 0, -1) && used == Pow2(root)
    ensures ret != 0 ==> ret == 1 && kind != CODES && !Modest(kind, lens, root, max)
    ensures forall p :: 0 <= p < table.Length && (p < start || p >= start + Room(kind)) ==> table[p] == old(table[p])
  {
    hide *;
    used, huff, len := Pow2(root), 0, min;
    var sym := 0;
    s := Sub(0, root, 0, -1);
    ghost var from, done, short := 0, 0, 0;
    Begin(j, table[..], cnt[..], min, max);
    FillableOf(j);
    while true
      invariant j == Job(kind, lens, work[..], start, root)
      invariant cnt.Length == 16 && used <= Room(kind)
      invariant Building(j, table[..], cnt[..], sym, len, huff, s, used, max, from, done, short)
      invariant forall p :: 0 <= p < table.Length && (p < start || p >= start + Room(kind)) ==>
        table[p] == old(table[p])
      decreases Codes(lens) - sym
    {
      ghost var t, c := table[..], cnt[..];
      BuildingSub(j, t, c, sym, len, huff, s, used, max, from, done, short);
      BuildingLooks(j, t, c, sym, len, huff, s, used, max, from, done, short);
      var here := Entry(kind, work[sym], len - s.drop);
      Replicate(table, start + s.next, s.curr, len - s.drop, Shr(huff, s.drop), here);
      EntryWritten(j, t, table[..], c, sym, len, huff, s, used, max, from, done, short);
      FilledLen(t, table[..], start + s.next, s.curr, len - s.drop, Shr(huff, s.drop), here);
      LastRank(j, c, sym, len, max);
      CodeNext(j, sym, len);
      KraftCases(j, max);
      huff := BackIncrement(huff, len);
      cnt[len] := cnt[len] - 1;
      sym := sym + 1;
      assert cnt[..] == c[len := c[len] - 1];
      if cnt[len] == 0 {
        if len == max {
          BetweenEnds(j, table[..], sym, s, used, from, done, short);
          return 0, used, huff, len, s;
        }
        RemainingNext(j, c, sym - 1, len);
        len := lens[work[sym]];
      } else {
        RemainingNext(j, c, sym - 1, len);
      }
      LooksAgain(j, cnt[..], sym, len, huff, max);
      FirstBitsBound(lens, root, work[sym]);
      if len > root && Low(huff, root) != s.low {
        ret, used, s, from, done, short :=
          NextTable(kind, lens, table, start, root, max, cnt, work, j, sym, len, huff, used, s, from, done, short);
        if ret != 0 {
          return;
        }
      } else {
        SameTable(j, table[..], cnt[..], sym, len, huff, s, used, max, from, done, short);
      }
    }
  }

  lemma FillableOf(j: Job)
    requires Workable(j)
    ensures Fillable(j.kind, j.lens) && Kraft(j.lens) <= Pow2(15) && SymbolsFit(j.kind, j.lens)
      && IsSorted(j.work, j.lens)
    ensures 1 <= j.root <= 15
  {
    hide Kraft, IsSorted;
  }

  lemma BuildingLooks(j: Job, t: seq<Code>, cnt: seq<nat>, i: nat, len: nat, huff: nat, s: Sub, used: nat, max: nat,
                      from: nat, done: nat, short: nat)
    requires Building(j, t, cnt, i, len, huff, s, used, max, from, done, short)
    ensures Looking(j, cnt, i, len, huff, max) && i < Codes(j.lens) && Workable(j) && len <= max <= 15
    ensures i < |j.work| && Coded(j.lens, j.work[i]) && j.lens[j.work[i]] == len && Remaining(cnt, j.lens, i, len)
    ensures j.work[i] < |j.lens|
  {
    hide Codes, Entered, AtSub, AtRoot, Frugal, Remaining, CodeVal;
  }

  lemma LooksAgain(j: Job, cnt: seq<nat>, i: nat, len: nat, huff: nat, max: nat)
    requires Workable(j) && i < Codes(j.lens) && i < |j.work| && Coded(j.lens, j.work[i])
    requires len == j.lens[j.work[i]] && huff == CodeVal(j.lens, j.work[i]) && Remaining(cnt, j.lens, i, len)
    requires 1 <= max <= 15 && forall b :: max < b <= 15 ==> Count(j.lens, b) == 0
    ensures Looking(j, cnt, i, len, huff, max) && 1 <= len <= max && j.work[i] < |j.lens|
  {
    hide Codes, Remaining, CodeVal, Count;
    CountPrefix(j.lens, j.work[i], len);
  }

  lemma KraftCases(j: Job, max: nat)
    requires Workable(j) && (max > 1 ==> Kraft(j.lens) == Pow2(15))
    ensures Kraft(j.lens) == Pow2(15) || (Kraft(j.lens) < Pow2(15) && max <= 1)
  {
    hide Kraft, Codes, IsSorted;
  }

  lemma BetweenEnds(j: Job, t: seq<Code>, i: nat, s: Sub, used: nat, from: nat, done: nat, short: nat)
    requires Between(j, t, i, s, used, from, done, short)
    ensures Workable(j) && Entered(j, t, i, used) && Pow2(j.root) <= used
    ensures Kraft(j.lens) < Pow2(15) ==> s == Sub(0, j.root, 0, -1) && used == Pow2(j.root)
  {
    hide Codes, Entered, Frugal, LinkBefore, Kraft, FirstBits, Pos, Slot, Width, Fillable;
  }

  lemma CodesModest(kind: CodeKind, lens: seq<nat>, root: nat, max: nat)
    ensures max <= root ==> Modest(kind, lens, root, max)
  {
  }

  // ---------- the whole construction ----------

  lemma NoLengths(lens: seq<nat>)
    requires forall b :: 1 <= b <= 15 ==> Count(lens, b) == 0
    ensures Kraft(lens) == 0
  {
    hide Count;
    SumBefore(lens, 16);
  }

  /** Which length vectors pass the checks at the start. */
  lemma AcceptableBy(kind: CodeKind, lens: seq<nat>, max: nat)
    requires ValidLens(lens) && 1 <= max <= 15 && Count(lens, max) != 0
    requires forall b :: max < b <= 15 ==> Count(lens, b) == 0
    ensures Kraft(lens) >= 1
    ensures Acceptable(kind, lens) <==>
              Kraft(lens) == Pow2(15) || (Kraft(lens) < Pow2(15) && kind != CODES && max == 1)
    ensures Kraft(lens) < Pow2(15) && max == 1 ==> Kraft(lens) == Pow2(14)
  {
    hide Count, FirstPos, Pos;
    Pow2Values();
    var s := Nth(lens, max, 0);
    PosBound(lens, s);
    WidthPositive(max);
    forall i | 0 <= i < |lens| ensures lens[i] <= max {
      CountPrefix(lens, i, lens[i]);
    }
    if max == 1 {
      OneBitCodes(lens);
    }
  }

  lemma OneBitCodes(lens: seq<nat>)
    requires forall b :: 1 < b <= 15 ==> Count(lens, b) == 0
    ensures Kraft(lens) == Count(lens, 1) * Pow2(14)
  {
    hide Count, Pow2;
    SumAfter(lens, 2, 16);
    FirstPosUnfold(lens, 2);
    FirstPosOne(lens);
  }

  /** For the requests inflate makes, the root table is of the size asked for, or holds everything. */
  lemma RoomyModest(j: Job, bits: nat, min: nat, max: nat)
    requires Workable(j) && Asked(j.kind, j.lens, bits) && Codes(j.lens) > 0 && (max > 1 ==> Kraft(j.lens) == Pow2(15))
    requires 1 <= min <= max <= 15 && Count(j.lens, min) != 0 && Count(j.lens, max) != 0
    requires forall b :: 1 <= b < min ==> Count(j.lens, b) == 0
    requires j.root == (var r := if bits > max then max else bits; if r < min then min else r)
    ensures Roomy(j.kind, j.lens, bits) ==> Modest(j.kind, j.lens, j.root, max) && Pow2(j.root) <= Room(j.kind)
    ensures j.kind.CODES? ==> max <= j.root && Pow2(j.root) <= Room(j.kind)
  {
    hide Pow2, Count, IsSorted, Codes, Rank, Kraft, Fillable;
    var s := Nth(j.lens, max, 0);
    Pow2Values();
    if max <= bits {
      assert j.root == max;
      if bits <= 9 {
        Pow2Mono(max, 9);
      }
      if bits <= 7 {
        Pow2Mono(max, 7);
      }
    } else if j.kind != CODES && Roomy(j.kind, j.lens, bits) {
      RankCoded(j, 0);
      FirstIsLeast(j, min);
      CodesBound(j.lens);
      if min > bits {
        FillableOf(j);
        ManyLong(j.lens, j.work, 0, bits);
        Pow2Mono(7, bits + 1);
        RoomyBits(j.kind, j.lens, bits);
        assert false;
      }
    }
  }

  lemma RoomyBits(kind: CodeKind, lens: seq<nat>, bits: nat)
    requires Roomy(kind, lens, bits) && exists i :: 0 <= i < |lens| && lens[i] > bits
    ensures bits + 1 == 10 || bits + 1 == 7
    ensures bits + 1 == 10 ==> |lens| <= 286
    ensures bits + 1 == 7 ==> |lens| <= 30
    ensures Pow2(10) == 1024 && Pow2(7) == 128
  {
    assert Pow2(9) == 512 by { Pow2Values(); }
    assert Pow2(7) == 128 by { Pow2Values(); }
  }

  lemma FirstIsLeast(j: Job, min: nat)
    requires Workable(j) && Codes(j.lens) > 0 && 1 <= min <= 15 && Count(j.lens, min) != 0
    requires forall b :: 1 <= b < min ==> Count(j.lens, b) == 0
    ensures 0 < |j.work| && Coded(j.lens, j.work[0]) && j.lens[j.work[0]] == min
  {
    hide Count, IsSorted, Codes, Rank, Fillable, Off;
    RankCoded(j, 0);
    OffFlat(j.lens, 1, min);
    OffOne(j.lens);
    OffUnfold(j.lens, min + 1);
    LengthByRank(j.lens, j.work[0], min);
  }

  lemma SomeCode(lens: seq<nat>, b: nat)
    requires 1 <= b <= 15 && Count(lens, b) != 0
    ensures Codes(lens) > 0
  {
    hide Count, Off, Rank;
    var s := Nth(lens, b, 0);
    RankRange(lens, s);
  }

  /** Build the decoding table for a set of code lengths at `start` of the array.  0: the table is
      there, with `bits` index bits, and ends before next; -1: the lengths are no usable code; 1: the
      room set aside does not suffice, which never happens for the requests inflate makes. */
  method InflateTable(kind: CodeKind, lens: seq<nat>, table: array<Code>, start: nat, bits0: nat, work: array<nat>)
      returns (ret: int, next: nat, bits: nat)
    requires Asked(kind, lens, bits0) && start + Room(kind) <= table.Length && work.Length >= |lens|
    modifies table, work
    ensures ret == -1 || ret == 0 || ret == 1
    ensures ret == -1 <==> !Acceptable(kind, lens)
    ensures ret == 0 ==> start <= next <= start + Room(kind) && 1 <= bits <= 15
    ensures ret == 0 ==> Decodes(table[..next], start, bits, kind, lens)
    ensures ret == 0 && kind.CODES? ==> Flat(table[..next], start, bits)
    ensures ret == 1 ==> !Roomy(kind, lens, bits0) && kind != CODES
    ensures forall p :: 0 <= p < table.Length && (p < start || p >= start + Room(kind)) ==> table[p] == old(table[p])
  {
    hide *;
    var cnt := new nat[16];
    AskedIs(kind, lens, bits0);
    CountLens(lens, cnt);
    ghost var c := cnt[..];
    next := start;
    bits := bits0;
    var root := bits0;
    var max := GreatestLen(cnt);
    if root > max {
      root := max;
    }
    RoomIs(kind);
    if max == 0 {
      table[start] := Code(64, 1, 0);
      table[start + 1] := Code(64, 1, 0);
      NoLengths(lens);
      NoneFinished(table[..start + 2], start, kind, lens);
      FlatPair(table[..start + 2], start);
      ZeroAcceptable(kind, lens);
      return 0, start + 2, 1;
    }
    var min := LeastLen(cnt, max);
    if root < min {
      root := min;
    }
    AcceptableBy(kind, lens, max);
    var left := CheckLeft(cnt, lens);
    if left < 0 {
      return -1, next, bits;
    }
    if left > 0 && (kind == CODES || max != 1) {
      return -1, next, bits;
    }
    SortSymbols(lens, cnt, work);
    SomeCode(lens, max);
    ghost var j := Job(kind, lens, work[..], start, root);
    WorkableIs(j);
    RoomyModest(j, bits0, min, max);
    var used := Pow2(root);
    if kind != CODES && used > Room(kind) {
      return 1, next, bits;
    }
    var huff, len, s, r;
    r, used, huff, len, s := EnterCodes(kind, lens, table, start, root, min, max, cnt, work, j);
    if r != 0 {
      return 1, next, bits;
    }
    EnteredPrefix(j, table[..], Codes(lens), used);
    EnteredRoom(j, table[..], Codes(lens), used);
    ghost var t := table[..];
    if huff != 0 {
      OneLeft(j, t, max, used);
      table[start + s.next + huff] := Code(64, len - s.drop, 0);
      OneFilled(j, t, used);
      assert table[..][..start + used] == table[..start + used];
    } else {
      CompleteIfZero(lens);
      assert table[..][..start + used] == table[..start + used];
      TableFinished(j, table[..start + used], used);
      ShortAll(j, max);
    }
    return 0, start + used, root;
  }

  lemma AskedIs(kind: CodeKind, lens: seq<nat>, bits: nat)
    requires Asked(kind, lens, bits)
    ensures ValidLens(lens) && SymbolsFit(kind, lens) && 1 <= bits <= 15
  {
  }

  lemma RoomIs(kind: CodeKind)
    ensures Room(kind) == match kind case CODES => 128 case LENS => 852 case DISTS => 592
    ensures INVALID == Code(64, 1, 0)
  {
  }

  lemma ZeroAcceptable(kind: CodeKind, lens: seq<nat>)
    requires ValidLens(lens) && Kraft(lens) == 0
    ensures Acceptable(kind, lens)
  {
    hide Kraft;
  }

  lemma WorkableIs(j: Job)
    requires SymbolsFit(j.kind, j.lens) && Kraft(j.lens) <= Pow2(15) && IsSorted(j.work, j.lens) && 1 <= j.root <= 15
    ensures Workable(j)
  {
    hide Kraft, IsSorted;
  }

  /** The incomplete case: one code of one bit. */
  lemma OneLeft(j: Job, t: seq<Code>, max: nat, used: nat)
    requires Workable(j) && Kraft(j.lens) == Pow2(14) && max == 1 && j.root == 1 && used == Pow2(j.root)
    requires Entered(j, t, Codes(j.lens), used)
    ensures Rev(15, Kraft(j.lens)) == 1 && used == 2 && j.start + 2 <= |t|
  {
    hide Kraft, Rev, Pow2, InPlace, Codes, IsSorted;
    Pow2Values();
    RevAligned(1, 1);
    RevOneBit();
  }

  lemma RevOneBit()
    ensures Rev(1, 1) == 1
  {
  }

  lemma CompleteIfZero(lens: seq<nat>)
    requires Kraft(lens) == Pow2(15) || Kraft(lens) == Pow2(14)
    requires (if Kraft(lens) == Pow2(15) then 0 else Rev(15, Kraft(lens))) == 0
    ensures Kraft(lens) == Pow2(15)
  {
    hide Kraft, Rev, Pow2;
    RevAligned(1, 1);
    RevOneBit();
  }

  lemma OneFilled(j: Job, t: seq<Code>, used: nat)
    requires Workable(j) && Kraft(j.lens) == Pow2(14) && j.root == 1 && used == 2 && Entered(j, t, Codes(j.lens), used)
    requires Acceptable(j.kind, j.lens)
    requires j.start + 2 <= |t|
    ensures Decodes(t[j.start + 1 := INVALID][..j.start + 2], j.start, 1, j.kind, j.lens)
  {
    hide Kraft, Rev, Pow2, InPlace, Codes, IsSorted, Fillable, Entered, Rank, Decodes;
    var u := t[j.start + 1 := INVALID];
    AllOnes(j);
    OneKept(j, t);
    EnteredPrefix(j, u, Codes(j.lens), 2);
    SingleFinished(j, u[..j.start + 2]);
  }

  lemma AllOnes(j: Job)
    requires Workable(j) && Kraft(j.lens) == Pow2(14) && Acceptable(j.kind, j.lens)
    ensures forall k :: 0 <= k < Codes(j.lens) ==> j.lens[j.work[k]] == 1
  {
    hide Kraft, Codes, IsSorted, Fillable, Rank;
    Pow2Values();
    forall k | 0 <= k < Codes(j.lens) ensures k < |j.work| && j.work[k] < |j.lens| && j.lens[j.work[k]] == 1 {
      RankCoded(j, k);
    }
  }

  lemma OneKept(j: Job, t: seq<Code>)
    requires Workable(j) && Kraft(j.lens) == Pow2(14) && j.root == 1 && Entered(j, t, Codes(j.lens), 2)
    requires forall k :: 0 <= k < Codes(j.lens) ==> j.lens[j.work[k]] == 1
    requires j.start + 2 <= |t|
    ensures Entered(j, t[j.start + 1 := INVALID], Codes(j.lens), 2)
  {
    hide Kraft, Rev, Pow2, Codes, IsSorted, Fillable, Rank, Placed, PlacedAt, CodeVal, Low, FirstBits;
    var u := t[j.start + 1 := INVALID];
    FillableOf(j);
    LowOne(1);
    PowOne();
    forall k | 0 <= k < Codes(j.lens) ensures InPlace(j, u, k, 2) {
      RankCoded(j, k);
      var s := j.work[k];
      InPlaceIs(j, t, k, 2);
      PlacedInner(t, j.start, 1, 2, j.kind, j.lens, s);
      FirstBitsBound(j.lens, 1, s);
      OnlyZero(j.lens, s);
      PlacedAtBut(t, j.start, 1, j.start + 1, INVALID, j.kind, j.lens, s);
      PlacedOuter(u, j.start, 1, 2, j.kind, j.lens, s);
    }
  }

  lemma PowOne()
    ensures Pow2(1) == 2
  {
  }

  /** The one-bit code of a half-full code is 0. */
  lemma OnlyZero(lens: seq<nat>, s: nat)
    requires Coded(lens, s) && lens[s] == 1 && Kraft(lens) == Pow2(14)
    ensures CodeVal(lens, s) == 0
  {
    hide Kraft, Rev, Pow2, Pos;
    PosBound(lens, s);
    WidthIs(1);
    CodeValIs(lens, s);
    RevZero(15);
  }

  lemma FlatPair(t: seq<Code>, start: nat)
    requires |t| == start + 2 && t[start] == t[start + 1] == Code(64, 1, 0)
    ensures Flat(t, start, 1)
  {
    PowOne();
  }

  lemma ShortAll(j: Job, max: nat)
    requires Workable(j) && max <= 15 && forall b :: max < b <= 15 ==> Count(j.lens, b) == 0
    ensures max <= j.root ==> AllShort(j)
  {
    hide Kraft, Codes, IsSorted, Fillable, Rank, Count;
    forall k | 0 <= k < Codes(j.lens) ensures k < |j.work| && j.work[k] < |j.lens| && j.lens[j.work[k]] <= max {
      RankCoded(j, k);
      CountPrefix(j.lens, j.work[k], j.lens[j.work[k]]);
    }
  }
}
