/** Symbols sorted by length, and their codes counted upwards from the back
    (inftrees.c: count, offs, work and huff). */
module SortedCodes {
  import opened Bits
  import opened Canonical
  import opened GenCodes

  /** How many codes are shorter than b. */
  function Off(lens: seq<nat>, b: nat): (n: nat)
  {
    if b <= 1 then 0 else Off(lens, b - 1) + Count(lens, b - 1)
  }

  /** Where symbol s comes among all coded symbols. */
  function Rank(lens: seq<nat>, s: nat): (r: nat)
    requires s < |lens|
  {
    Off(lens, lens[s]) + Count(lens[..s], lens[s])
  }

  function Codes(lens: seq<nat>): (n: nat)
  {
    Off(lens, 16)
  }

  lemma {:induction false} OffMono(lens: seq<nat>, a: nat, b: nat)
    requires a <= b
    ensures Off(lens, a) <= Off(lens, b)
    decreases b
  {
    hide Count;
    if a < b {
      OffMono(lens, a, b - 1);
    }
  }

  lemma RankRange(lens: seq<nat>, s: nat)
    requires Coded(lens, s)
    ensures Off(lens, lens[s]) <= Rank(lens, s) < Off(lens, lens[s] + 1) <= Codes(lens)
  {
    hide Count;
    CountPrefix(lens, s, lens[s]);
    OffMono(lens, lens[s] + 1, 16);
  }

  lemma RankOrder(lens: seq<nat>, s: nat, t: nat)
    requires Coded(lens, s) && Coded(lens, t)
    ensures Rank(lens, s) < Rank(lens, t) <==> lens[s] < lens[t] || (lens[s] == lens[t] && s < t)
  {
    hide Count, Off;
    RankRange(lens, s);
    RankRange(lens, t);
    if lens[s] < lens[t] {
      OffMono(lens, lens[s] + 1, lens[t]);
    } else if lens[t] < lens[s] {
      OffMono(lens, lens[t] + 1, lens[s]);
    } else if s < t {
      CountStrict(lens, s, t);
    } else if t < s {
      CountStrict(lens, t, s);
    }
  }

  /** The symbol at each rank. */
  lemma {:induction false} AtRank(lens: seq<nat>, i: nat, b: nat) returns (s: nat)
    requires i < Off(lens, b) && b <= 16
    ensures Coded(lens, s) && Rank(lens, s) == i && lens[s] < b
  {
    hide Count;
    if i < Off(lens, b - 1) {
      s := AtRank(lens, i, b - 1);
    } else {
      s := Nth(lens, b - 1, i - Off(lens, b - 1));
    }
  }

  /** work lists the coded symbols by rank. */
  ghost predicate IsSorted(work: seq<nat>, lens: seq<nat>)
  {
    |work| >= Codes(lens)
    && forall i :: 0 <= i < Codes(lens) ==> Coded(lens, work[i]) && Rank(lens, work[i]) == i
  }

  lemma SortedAt(work: seq<nat>, lens: seq<nat>, s: nat)
    requires IsSorted(work, lens) && Coded(lens, s)
    ensures Rank(lens, s) < Codes(lens) && work[Rank(lens, s)] == s
  {
    hide Rank, Off, Codes;
    RankRange(lens, s);
    var t := work[Rank(lens, s)];
    RankOrder(lens, s, t);
    RankOrder(lens, t, s);
  }

  lemma SortedAll(work: seq<nat>, lens: seq<nat>)
    requires |work| >= Codes(lens)
    requires forall s :: Coded(lens, s) ==> Rank(lens, s) < |work| && work[Rank(lens, s)] == s
    ensures IsSorted(work, lens)
  {
    hide Rank, Off;
    forall i | 0 <= i < Codes(lens) ensures Coded(lens, work[i]) && Rank(lens, work[i]) == i {
      var s := AtRank(lens, i, 16);
    }
  }

  lemma CodesBound(lens: seq<nat>)
    ensures Codes(lens) <= |lens|
  {
    CodesFew(lens, 16);
  }

  function CountShorter(lens: seq<nat>, b: nat): (n: nat)
    ensures n <= |lens|
  {
    if lens == [] then 0
    else CountShorter(lens[..|lens| - 1], b) + if 1 <= lens[|lens| - 1] < b then 1 else 0
  }

  lemma {:induction false} CodesFew(lens: seq<nat>, b: nat)
    ensures Off(lens, b) == CountShorter(lens, b)
    decreases |lens|
  {
    if lens == [] {
      OffNone(b);
    } else {
      CodesFew(lens[..|lens| - 1], b);
      OffStep(lens, b);
    }
  }

  lemma {:induction false} OffNone(b: nat)
    ensures Off([], b) == 0
  {
    if b > 1 {
      OffNone(b - 1);
    }
  }

  lemma {:induction false} OffStep(lens: seq<nat>, b: nat)
    requires lens != []
    ensures Off(lens, b) == Off(lens[..|lens| - 1], b) + if 1 <= lens[|lens| - 1] < b then 1 else 0
    decreases b
  {
    if b > 1 {
      OffStep(lens, b - 1);
    }
  }

  // ---------- consecutive codes ----------

  lemma {:induction false} SkipEmpty(lens: seq<nat>, a: nat, b: nat)
    requires 1 <= a <= b <= 16 && Off(lens, a) == Off(lens, b)
    ensures FirstPos(lens, a) == FirstPos(lens, b)
    decreases b
  {
    hide Count, Width;
    if a < b {
      OffMono(lens, a, b - 1);
      SkipEmpty(lens, a, b - 1);
    }
  }

  /** The next symbol in order starts where the last one ends. */
  lemma NextPos(lens: seq<nat>, s: nat, t: nat)
    requires Coded(lens, s) && Coded(lens, t) && Rank(lens, t) == Rank(lens, s) + 1
    ensures lens[s] <= lens[t]
    ensures Pos(lens, t) == Pos(lens, s) + Width(lens[s])
  {
    hide Count, Width, Off, FirstPos;
    RankOrder(lens, s, t);
    RankRange(lens, s);
    RankRange(lens, t);
    var a, b := lens[s], lens[t];
    if a == b {
      Distribute(Width(a), Count(lens[..s], a), 1);
    } else {
      OffMono(lens, a + 1, b);
      CountPrefix(lens, s, a);
      OffUnfold(lens, a + 1);
      SkipEmpty(lens, a + 1, b);
      Distribute(Width(a), Count(lens[..s], a), 1);
      FirstPosUnfold(lens, a + 1);
    }
  }

  lemma OffUnfold(lens: seq<nat>, b: nat)
    requires b > 1
    ensures Off(lens, b) == Off(lens, b - 1) + Count(lens, b - 1)
  {
  }

  lemma FirstPosUnfold(lens: seq<nat>, b: nat)
    requires 1 < b <= 16
    ensures FirstPos(lens, b) == FirstPos(lens, b - 1) + Count(lens, b - 1) * Width(b - 1)
  {
  }

  /** The symbols in order start at 0. */
  lemma FirstAtZero(lens: seq<nat>, s: nat)
    requires Coded(lens, s) && Rank(lens, s) == 0
    ensures Pos(lens, s) == 0
  {
    hide Count, Width, FirstPos;
    RankRange(lens, s);
    OffMono(lens, 1, lens[s]);
    assert Off(lens, 1) == 0;
    SkipEmpty(lens, 1, lens[s]);
    assert FirstPos(lens, 1) == 0 by { FirstPosOne(lens); }
  }

  lemma FirstPosOne(lens: seq<nat>)
    ensures FirstPos(lens, 1) == 0
  {
  }

  /** The last symbol in order ends at the Kraft sum. */
  lemma LastAtEnd(lens: seq<nat>, s: nat)
    requires Coded(lens, s) && Rank(lens, s) == Codes(lens) - 1
    ensures Pos(lens, s) + Width(lens[s]) == Kraft(lens)
  {
    hide Count, Width, FirstPos, Off;
    var b := lens[s];
    RankRange(lens, s);
    OffMono(lens, b + 1, 16);
    OffUnfold(lens, b + 1);
    SkipEmpty(lens, b + 1, 16);
    CountPrefix(lens, s, b);
    Distribute(Width(b), Count(lens[..s], b), 1);
    FirstPosUnfold(lens, b + 1);
  }

  // ---------- counting backwards ----------

  /** The len-bit code h with its reversal incremented; zero when it was all ones. */
  function BackInc(h: nat, len: nat): (r: nat)
  {
    if len == 0 then 0
    else if Shr(h, len - 1) % 2 == 1 then BackInc(h, len - 1)
    else Low(h, len - 1) + Pow2(len - 1)
  }

  lemma {:induction false} BackIncRev(h: nat, len: nat)
    ensures BackInc(h, len) < Pow2(len)
    ensures Rev(len, h) + 1 < Pow2(len) ==> Rev(len, BackInc(h, len)) == Rev(len, h) + 1
    ensures Rev(len, h) + 1 == Pow2(len) ==> BackInc(h, len) == 0
  {
    hide Shr, Low, Rev;
    if len > 0 {
      var k := len - 1;
      BackIncRev(h, k);
      NextReversedBit(h, k);
      RevBound(k, h);
      var r := BackInc(h, len);
      NextReversedBit(r, k);
      if Shr(h, k) % 2 == 1 {
        LowSmall(r, k);
      } else {
        LowBound(h, k);
        Join(Low(h, k), k, 1);
        RevLow(k, r, k);
        RevLow(k, h, k);
      }
    } else {
      RevNone(h);
    }
  }

  lemma RevNone(h: nat)
    ensures Rev(0, h) == 0
  {
  }

  /** Incrementing the reversed code gives the code that starts at the next point. */
  lemma NextCodeVal(len: nat, p: nat, c: nat)
    requires 1 <= len <= 15 && p == Width(len) * c && c < Pow2(len)
    ensures p + Width(len) < Pow2(15) ==> BackInc(Rev(15, p), len) == Rev(15, p + Width(len))
    ensures p + Width(len) == Pow2(15) ==> BackInc(Rev(15, p), len) == 0
  {
    hide Rev, BackInc, Pow2;
    var h := Rev(15, p);
    RevAligned(len, c);
    RevRev(len, c);
    LowSmall(c, len);
    BackIncRev(h, len);
    Distribute(Width(len), c, 1);
    FullBlocks(len);
    if c + 1 < Pow2(len) {
      var r := BackInc(h, len);
      RevAligned(len, c + 1);
      RevRev(len, r);
      LowSmall(r, len);
      MulMono(Width(len), c + 2, Pow2(len));
      Distribute(Width(len), c + 1, 1);
    }
  }

  lemma FullBlocks(len: nat)
    requires len <= 15
    ensures Width(len) * Pow2(len) == Pow2(15)
  {
    Pow2Add(15 - len, len);
    assert (15 - len) + len == 15;
  }
}
