/** How large a sub-table must be, and why the decoding tables never outgrow the room set aside for
    them (inftrees.c: the sizing of sub-tables; inftrees.h: ENOUGH_LENS and ENOUGH_DISTS). */
module TableSize {
  import opened Bits
  import opened Canonical
  import opened GenCodes
  import opened SortedCodes

  // ---------- room left on the line of codes ----------

  lemma WidthPositive(b: nat)
    requires b <= 15
    ensures Width(b) >= 1
    ensures b < 15 ==> Width(b) == 2 * Width(b + 1)
  {
  }

  lemma {:induction false} WidthMono(a: nat, b: nat)
    requires a <= b <= 15
    ensures Width(b) <= Width(a)
  {
    Pow2Mono(15 - b, 15 - a);
  }

  /** A multiple of w that is more than w is at least 2 w. */
  lemma TwoOfThem(w: nat, k: nat)
    requires w >= 1 && w * k > w
    ensures w * k >= 2 * w
  {
    if k <= 1 {
      MulMono(w, k, 1);
    } else {
      MulMono(w, 2, k);
    }
  }

  /** Each code takes at most half of the room that is left, as long as another follows. */
  lemma {:induction false} RoomHalves(lens: seq<nat>, work: seq<nat>, j: nat)
    requires IsSorted(work, lens) && Kraft(lens) <= Pow2(15) && j < Codes(lens) && j <= 15
    ensures Pos(lens, work[j]) + Pow2(15 - j) <= Pow2(15)
    decreases j
  {
    hide Pow2, Pos, Kraft, IsSorted, Rank, Codes;
    SortedSteps(work, lens, j);
    if j == 0 {
      FirstAtZero(lens, work[0]);
    } else {
      var s := work[j - 1];
      RoomHalves(lens, work, j - 1);
      NextPos(lens, s, work[j]);
      var c := PosAligned(lens, s);
      FullBlocks(lens[s]);
      PosBound(lens, work[j]);
      WidthPositive(lens[work[j]]);
      var k := Pow2(lens[s]);
      RoomMultiple(Width(lens[s]), c, k);
      TwoOfThem(Width(lens[s]), k - c);
      HalfOf(15 - j);
    }
  }

  lemma HalfOf(n: nat)
    ensures Pow2(n + 1) == 2 * Pow2(n)
  {
  }

  lemma RoomMultiple(w: nat, c: nat, k: nat)
    requires w * c + w < w * k
    ensures c < k && w * k - w * c == w * (k - c) && w * (k - c) > w
  {
    if c >= k {
      MulMono(w, k, c);
    }
    assert w * k == w * c + w * (k - c);
  }

  lemma SortedSteps(work: seq<nat>, lens: seq<nat>, j: nat)
    requires IsSorted(work, lens) && j < Codes(lens)
    ensures j < |work| && Coded(lens, work[j]) && Rank(lens, work[j]) == j
    ensures j > 0 ==> Coded(lens, work[j - 1]) && Rank(lens, work[j - 1]) == j - 1
    ensures j + 1 < Codes(lens) ==> j + 1 < |work| && Coded(lens, work[j + 1]) && Rank(lens, work[j + 1]) == j + 1
  {
    hide Rank, Codes;
  }

  /** Codes of at least b bits are many: they fill the room that is left. */
  lemma {:induction false} RoomFilled(lens: seq<nat>, work: seq<nat>, j: nat, b: nat)
    requires IsSorted(work, lens) && Kraft(lens) == Pow2(15) && j < Codes(lens) && b <= lens[work[j]]
    ensures Pow2(15) <= Pos(lens, work[j]) + (Codes(lens) - j) * Width(b)
    decreases Codes(lens) - j
  {
    hide Pow2, Pos, Kraft, IsSorted, Rank, Codes, Width;
    SortedSteps(work, lens, j);
    var s := work[j];
    WidthMono(b, lens[s]);
    if j == Codes(lens) - 1 {
      LastAtEnd(lens, s);
    } else {
      NextPos(lens, s, work[j + 1]);
      RoomFilled(lens, work, j + 1, b);
      MoreOnes(Codes(lens) - j - 1, Width(b));
    }
  }

  lemma MoreOnes(n: nat, w: nat)
    ensures (n + 1) * w == n * w + w
  {
  }

  /** k short codes leave so much room that many long codes must follow. */
  lemma ManyLong(lens: seq<nat>, work: seq<nat>, k: nat, root: nat)
    requires IsSorted(work, lens) && Kraft(lens) == Pow2(15) && k < Codes(lens) && k <= root + 1 && root < 15
    requires lens[work[k]] > root
    ensures Codes(lens) - k >= Pow2(root + 1 - k)
  {
    hide *;
    SortedSteps(work, lens, k);
    RoomHalves(lens, work, k);
    RoomFilled(lens, work, k, root + 1);
    Pow2Add(root + 1 - k, 14 - root);
    assert root + 1 - k + (14 - root) == 15 - k;
    WidthIs(root + 1);
    AtLeast(Codes(lens) - k, Pow2(root + 1 - k), Width(root + 1));
  }

  lemma WidthIs(b: nat)
    requires b <= 15
    ensures Width(b) == Pow2(15 - b) >= 1
  {
  }

  lemma AtLeast(n: nat, q: nat, w: nat)
    requires q * w <= n * w && w >= 1
    ensures q <= n
  {
    Distribute(w, n, 1);
    if q > n {
      MulMono(w, n + 1, q);
    }
  }

  // ---------- the size of one sub-table ----------

  /** Entries of an n-bit table beyond one for each bit of depth. */
  function Slack(n: nat): (s: nat)
    ensures s >= 1
  {
    if n == 0 then 1 else Slack(n - 1) + Pow2(n - 1) - 1
  }

  lemma {:induction false} SlackIs(n: nat)
    ensures Slack(n) == Pow2(n) - n
  {
    if n > 0 {
      SlackIs(n - 1);
    }
  }

  lemma {:induction false} SlackMono(a: nat, b: nat)
    requires a <= b
    ensures Slack(a) <= Slack(b)
    decreases b
  {
    if a < b {
      SlackMono(a, b - 1);
    }
  }

  /** Position and number of codes when all remaining codes shorter than len are passed: the scan
      has started at rank i, which sits at point p. */
  ghost predicate Scanned(lens: seq<nat>, i: nat, p: nat, first: nat, len: nat, end: nat, left: int)
    requires 1 <= first <= len <= 15
  {
    if len == first then left * Width(len) == end - p
    else left * Width(len) == end - FirstPos(lens, len)
  }

  /** How many codes the scan has passed. */
  function Passed(lens: seq<nat>, i: nat, first: nat, len: nat): (n: int)
    requires 1 <= first <= len
  {
    if len == first then 0 else Off(lens, len) - i
  }

  /** Remaining codes of each length once those below rank i have been entered. */
  ghost predicate Remaining(cnt: seq<nat>, lens: seq<nat>, i: nat, first: nat)
  {
    |cnt| == 16 && 1 <= first <= 15 && i <= Off(lens, first + 1)
    && cnt[first] == Off(lens, first + 1) - i
    && forall b :: first < b <= 15 ==> cnt[b] == Count(lens, b)
  }

  /** Rank i sits at point p and is the next code of length first. */
  ghost predicate Next(lens: seq<nat>, i: nat, p: nat, first: nat)
  {
    1 <= first <= 15 && Off(lens, first) <= i < Off(lens, first + 1)
    && p == FirstPos(lens, first) + (i - Off(lens, first)) * Width(first)
  }

  lemma ScanStep(lens: seq<nat>, cnt: seq<nat>, i: nat, p: nat, first: nat, len: nat, end: nat, left: int)
    requires Remaining(cnt, lens, i, first) && Next(lens, i, p, first) && first <= len <= 15
    requires Scanned(lens, i, p, first, len, end, left)
    ensures (left - cnt[len]) * Width(len) == end - FirstPos(lens, len + 1)
    ensures len < 15 ==> Scanned(lens, i, p, first, len + 1, end, 2 * (left - cnt[len]))
    ensures len < 15 ==> Passed(lens, i, first, len + 1) == Passed(lens, i, first, len) + cnt[len]
  {
    hide Pow2, Count, Off, FirstPos, Width;
    OffUnfold(lens, len + 1);
    FirstPosUnfold(lens, len + 1);
    if len < 15 {
      WidthHalves(len + 1);
    }
    var w := Width(len);
    if len == first {
      Spread3(left, cnt[len], w);
      Spread3(Count(lens, len), i - Off(lens, len), w);
    } else {
      Spread3(left, cnt[len], w);
    }
  }

  lemma Spread3(a: int, b: int, w: int)
    ensures (a - b) * w == a * w - b * w
    ensures (2 * a) * w == a * (2 * w)
  {
  }

  /** What the size of a sub-table means: the codes from rank i to rank done - 1 fill the slot that
      ends at `end`, the last of them has the full root + curr bits, and the table has at most
      Slack(curr) - Slack(first - root) more entries than there are codes. */
  ghost predicate Sized(lens: seq<nat>, work: seq<nat>, i: nat, root: nat, curr: nat, end: nat, done: nat)
  {
    root < 15 && 1 <= curr <= 15 - root && i < done <= Codes(lens) && IsSorted(work, lens)
    && lens[work[i]] > root && lens[work[i]] <= root + curr
    && lens[work[done - 1]] == root + curr
    && Pos(lens, work[done - 1]) + Width(root + curr) == end
    && Pow2(curr) + Slack(lens[work[i]] - root) <= (done - i) + Slack(curr)
  }

  /** Determine the index bits of the sub-table that starts with rank i. */
  method SubSize(cnt: array<nat>, len: nat, root: nat, max: nat, ghost lens: seq<nat>, ghost work: seq<nat>,
                 ghost i: nat, ghost end: nat) returns (curr: nat, ghost done: nat)
    requires IsSorted(work, lens) && i < Codes(lens) && Kraft(lens) == Pow2(15)
    requires lens[work[i]] == len && 1 <= root < len <= max <= 15
    requires cnt.Length == 16 && Remaining(cnt[..], lens, i, len)
    requires forall b :: max < b <= 15 ==> Count(lens, b) == 0
    requires end == Pos(lens, work[i]) + Width(root) <= Pow2(15)
    ensures Sized(lens, work, i, root, curr, end, done) && root + curr <= max
  {
    hide *;
    SortedSteps(work, lens, i);
    CodedShort(lens, work[i]);
    curr := len - root;
    var left: int := Pow2(curr);
    ghost var p := Pos(lens, work[i]);
    SizeStart(lens, work, i, root, p, len, end);
    while curr + root < max
      invariant len - root <= curr && curr + root <= max
      invariant left >= 1 && Scanned(lens, i, p, len, root + curr, end, left)
      invariant Pow2(curr) + Slack(len - root) <= Passed(lens, i, len, root + curr) + left + Slack(curr)
      decreases max - curr
    {
      ScanStep(lens, cnt[..], i, p, len, root + curr, end, left);
      SlackStep(curr);
      if left <= cnt[curr + root] {
        SizeEnd(lens, work, cnt[..], i, p, len, root, curr, end, left);
        done := Passed(lens, i, len, root + curr) + left + i;
        return;
      }
      left := left - cnt[curr + root];
      curr := curr + 1;
      left := left * 2;
    }
    ScanStep(lens, cnt[..], i, p, len, root + curr, end, left);
    LastLevel(lens, max, end, left, cnt[max]);
    SizeEnd(lens, work, cnt[..], i, p, len, root, curr, end, left);
    done := Passed(lens, i, len, root + curr) + left + i;
  }

  lemma SlackStep(n: nat)
    ensures Slack(n + 1) == Slack(n) + Pow2(n) - 1 && Pow2(n + 1) == 2 * Pow2(n)
  {
  }

  lemma RankPos(lens: seq<nat>, s: nat)
    requires Coded(lens, s)
    ensures Next(lens, Rank(lens, s), Pos(lens, s), lens[s])
  {
    hide Count, Width, FirstPos, Off;
    RankRange(lens, s);
  }

  lemma SizeStart(lens: seq<nat>, work: seq<nat>, i: nat, root: nat, p: nat, len: nat, end: nat)
    requires IsSorted(work, lens) && i < Codes(lens) && lens[work[i]] == len && root < len <= 15
    requires p == Pos(lens, work[i]) && end == p + Width(root)
    ensures Next(lens, i, p, len) && Coded(lens, work[i])
    ensures Scanned(lens, i, p, len, len, end, Pow2(len - root)) && Pow2(len - root) >= 1
    ensures Passed(lens, i, len, len) == 0
  {
    hide Pos, Pow2, Rank, Codes, Next;
    SortedSteps(work, lens, i);
    RankPos(lens, work[i]);
    Pow2Add(len - root, 15 - len);
    assert len - root + (15 - len) == 15 - root;
  }

  /** At the greatest length all codes that are left fill the line. */
  lemma LastLevel(lens: seq<nat>, max: nat, end: nat, left: int, c: nat)
    requires Kraft(lens) == Pow2(15) && 1 <= max <= 15 && end <= Pow2(15)
    requires forall b :: max < b <= 15 ==> Count(lens, b) == 0
    requires (left - c) * Width(max) == end - FirstPos(lens, max + 1)
    ensures left <= c
  {
    hide Count, Width, FirstPos, Pow2;
    SumAfter(lens, max + 1, 16);
    KraftIs(lens);
    WidthPositive(max);
    NoneLeft(left - c, Width(max));
  }

  lemma NoneLeft(x: int, w: nat)
    requires w >= 1 && x * w <= 0
    ensures x <= 0
  {
  }

  lemma CodedShort(lens: seq<nat>, s: nat)
    requires Coded(lens, s)
    ensures s < |lens| && lens[s] <= 15
  {
  }

  lemma KraftIs(lens: seq<nat>)
    ensures Kraft(lens) == FirstPos(lens, 16)
  {
  }

  lemma SizeEnd(lens: seq<nat>, work: seq<nat>, cnt: seq<nat>, i: nat, p: nat, first: nat, root: nat, curr: nat,
                end: nat, left: int)
    requires IsSorted(work, lens) && i < Codes(lens) && lens[work[i]] == first
    requires Remaining(cnt, lens, i, first) && Next(lens, i, p, first)
    requires root < first <= root + curr <= 15 && 1 <= left <= cnt[root + curr]
    requires Scanned(lens, i, p, first, root + curr, end, left)
    requires Pow2(curr) + Slack(first - root) <= Passed(lens, i, first, root + curr) + left + Slack(curr)
    ensures Passed(lens, i, first, root + curr) + left + i >= 0
    ensures Sized(lens, work, i, root, curr, end, Passed(lens, i, first, root + curr) + left + i)
  {
    hide Pos, Pow2, Rank, Codes, FirstPos, Off, Count, Width, Slack;
    var len := root + curr;
    var base := if len == first then i else Off(lens, len);
    OffUnfold(lens, len + 1);
    if first < len {
      OffMono(lens, first + 1, len);
    }
    OffMono(lens, len + 1, 16);
    CodesIs(lens);
    var done := base + left;
    assert done <= Off(lens, len + 1);
    var s := work[done - 1];
    SortedSteps(work, lens, done - 1);
    RankRange(lens, s);
    RankPos(lens, s);
    LengthByRank(lens, s, len);
    Distribute2(done - 1 - Off(lens, len), left, base - Off(lens, len), Width(len));
  }

  lemma Distribute2(r: int, left: int, b: int, w: int)
    requires r == left - 1 + b
    ensures r * w + w == left * w + b * w
  {
  }

  lemma CodesIs(lens: seq<nat>)
    ensures Codes(lens) == Off(lens, 16)
  {
  }

  lemma LengthByRank(lens: seq<nat>, s: nat, b: nat)
    requires Coded(lens, s) && 1 <= b <= 15 && Off(lens, b) <= Rank(lens, s) < Off(lens, b + 1)
    ensures lens[s] == b
  {
    hide Count, Off, Rank;
    RankRange(lens, s);
    if lens[s] < b {
      OffMono(lens, lens[s] + 1, b);
    } else if lens[s] > b {
      OffMono(lens, b + 1, lens[s]);
    }
  }

  // ---------- enough ----------

  const ENOUGH_LENS: nat := 852
  const ENOUGH_DISTS: nat := 592

  /** While sub-tables are made, the entries used are few for the codes entered. */
  ghost predicate Frugal(lens: seq<nat>, root: nat, short: nat, used: nat, curr: nat, done: nat)
  {
    used % 2 == 0 && 1 <= curr && short <= done <= Codes(lens)
    && used + 1 + short <= Pow2(root) + done + Slack(curr)
  }

  /** A further sub-table keeps the entries few. */
  lemma FrugalMore(lens: seq<nat>, work: seq<nat>, root: nat, short: nat, used: nat, curr: nat, i: nat,
                   curr': nat, end: nat, done: nat)
    requires Frugal(lens, root, short, used, curr, i) && Sized(lens, work, i, root, curr', end, done)
    requires lens[work[i]] >= root + curr
    ensures Frugal(lens, root, short, used + Pow2(curr'), curr', done)
  {
    hide Slack, Pos, Codes, IsSorted;
    SortedSteps(work, lens, i);
    SlackMono(curr, lens[work[i]] - root);
    HalfOf(curr' - 1);
  }

  lemma FrugalFirst(lens: seq<nat>, work: seq<nat>, root: nat, i: nat, curr': nat, end: nat, done: nat)
    requires Sized(lens, work, i, root, curr', end, done) && root >= 1
    ensures Frugal(lens, root, i, Pow2(root) + Pow2(curr'), curr', done)
  {
    hide Slack, Pos, Codes, IsSorted;
    SortedSteps(work, lens, i);
    SlackPositive(lens[work[i]] - root);
    HalfOf(curr' - 1);
    HalfOf(root - 1);
  }

  lemma SlackPositive(n: nat)
    ensures Slack(n) >= 1
  {
  }

  /** With at most 286 symbols and nine root bits, 852 entries suffice. */
  lemma EnoughLens(lens: seq<nat>, work: seq<nat>, short: nat, used: nat, curr: nat, done: nat)
    requires IsSorted(work, lens) && Kraft(lens) == Pow2(15) && |lens| <= 286
    requires short < Codes(lens) && lens[work[short]] > 9 && curr <= 6
    requires Frugal(lens, 9, short, used, curr, done)
    ensures used <= ENOUGH_LENS
  {
    hide Slack, Pow2, Kraft, IsSorted, Codes;
    CodesBound(lens);
    SlackMono(curr, 6);
    SlackIs(6);
    Pow2Values();
    if short < 2 {
      ManyLong(lens, work, short, 9);
      Pow2Mono(9, 10 - short);
    }
  }

  /** With at most 30 symbols and six root bits, 592 entries suffice. */
  lemma EnoughDists(lens: seq<nat>, work: seq<nat>, short: nat, used: nat, curr: nat, done: nat)
    requires IsSorted(work, lens) && Kraft(lens) == Pow2(15) && |lens| <= 30
    requires short < Codes(lens) && lens[work[short]] > 6 && curr <= 9
    requires Frugal(lens, 6, short, used, curr, done)
    ensures used <= ENOUGH_DISTS
  {
    hide Slack, Pow2, Kraft, IsSorted, Codes;
    CodesBound(lens);
    SlackMono(curr, 9);
    SlackIs(9);
    Pow2Values();
    if short < 3 {
      ManyLong(lens, work, short, 6);
      Pow2Mono(5, 7 - short);
    }
  }
}
