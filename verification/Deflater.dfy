/** The string matcher of the compressor (deflate.c): the sliding window, the hash chains, the search for
    the longest match, and the four strategies that turn input into symbols. */
module Deflater {
  import opened Bits
  import opened Lz77
  import opened Decoder
  import opened BlockStream
  import opened Encoder
  import opened ShortestCode
  import opened Hashing
  import opened HashChains
  import opened Parsing
  import opened TokenStory
  import opened BitWriter

  const WIN_INIT: nat := MAX_MATCH
  const Z_OK: int := 0
  const Z_STREAM_END: int := 1
  const Z_STREAM_ERROR: int := -2
  const Z_BUF_ERROR: int := -5

  datatype Flush = NoFlush | BlockFlush | PartialFlush | SyncFlush | FullFlush | Finish

  function FlushValue(flush: Flush): (v: int)
  {
    match flush
    case NoFlush => 0
    case PartialFlush => 1
    case SyncFlush => 2
    case FullFlush => 3
    case Finish => 4
    case BlockFlush => 5
  }

  /** The flushes by how much they do (RANK). */
  function Rank(f: int): (r: int)
  {
    f * 2 - if f > 4 then 9 else 0
  }

  /** Every kind of flush ranks above the lesser ones. */
  lemma FlushRanks()
    ensures Rank(FlushValue(NoFlush)) < Rank(FlushValue(BlockFlush)) < Rank(FlushValue(PartialFlush))
         < Rank(FlushValue(SyncFlush)) < Rank(FlushValue(FullFlush)) < Rank(FlushValue(Finish))
    ensures Rank(FlushValue(NoFlush)) == 0 && Rank(FlushValue(BlockFlush)) == 1 && Rank(FlushValue(Finish)) == 8
  {
  }

  datatype BlockState = NeedMore | BlockDone | FinishStarted | FinishDone

  lemma Sizes()
    ensures MIN_MATCH == 3 && MAX_MATCH == 258 && MIN_LOOKAHEAD == 262 && WIN_INIT == 258 && TOO_FAR == 4096
  {
  }

  lemma WindowSize(wbits: nat)
    requires 9 <= wbits <= 15
    ensures 512 <= Pow2(wbits) <= 32768
  {
    hide Pow2;
    Pow2Values();
    Pow2Mono(9, wbits);
    Pow2Mono(wbits, 15);
  }

  /** Moving the upper part of the window down. */
  lemma HeldSlides(win: seq<Byte>, win': seq<Byte>, end: nat, n: nat, input: seq<Byte>, base: nat)
    requires n <= end <= |win| && end - n <= |win'| && base <= |input| && win[..end] == input[base..]
    requires forall i :: 0 <= i < end - n ==> win'[i] == win[i + n]
    ensures base + n <= |input| && win'[..end - n] == input[base + n..]
  {
    assert |input| == base + end;
    forall i | 0 <= i < end - n ensures win'[i] == input[base + n..][i] {
      assert win'[i] == win[..end][i + n] == input[base..][i + n];
    }
  }

  /** Reading more behind the valid bytes. */
  lemma HeldMore(win: seq<Byte>, win': seq<Byte>, end: nat, data: seq<Byte>, input: seq<Byte>, base: nat)
    requires base <= |input| && end + |data| <= |win| == |win'| && win[..end] == input[base..]
    requires forall i :: 0 <= i < |win| ==> win'[i] == if end <= i < end + |data| then data[i - end] else win[i]
    ensures win'[..end + |data|] == (input + data)[base..] && win'[..end] == win[..end]
  {
    assert (input + data)[base..] == input[base..] + data;
    forall i | 0 <= i < end ensures win'[i] == win[..end][i] {
    }
  }

  /** Bytes of the window are bytes of the input. */
  lemma Kept(win: seq<Byte>, end: nat, base: nat, input: seq<Byte>, a: nat, b: nat)
    requires end <= |win| && base <= |input| && win[..end] == input[base..] && a <= b <= end
    ensures base + b <= |input| && win[a..b] == input[base + a..base + b]
  {
    assert win[a..b] == win[..end][a..b] == input[base..][a..b];
  }

  lemma Appended(r: seq<Byte>, s: seq<Byte>)
    requires r <= s
    ensures r + s[|r|..] == s
  {
  }

  lemma SlicesRepeat(input: seq<Byte>, a: nat, b: nat, n: nat)
    requires a < b && b + n <= |input| && input[a..a + n] == input[b..b + n]
    ensures Repeats(input, b, b - a, n)
  {
    forall i | b <= i < b + n ensures input[i] == input[i - (b - a)] {
      assert input[i] == input[b..b + n][i - b] == input[a..a + n][i - b];
    }
  }

  lemma ReadOn(r: seq<Byte>, input: seq<Byte>, n: nat)
    requires n <= |input|
    ensures r + input[..n] + input[n..] == r + input && r <= r + input[..n]
  {
    assert input[..n] + input[n..] == input;
  }

  /** The positions form the chain that starts at `from` and goes on through prev, above the limit. */
  ghost predicate Following(tried: seq<nat>, prev: seq<nat>, from: nat, limit: nat)
  {
    tried != [] && tried[0] == from && prev != []
    && forall i, j :: 0 <= i < |tried| && j == i + 1 < |tried| ==>
      tried[j] == prev[tried[i] % |prev|] && tried[j] > limit
  }

  /** What comes on the chain behind those tried. */
  function NextOf(tried: seq<nat>, prev: seq<nat>): (q: nat)
  {
    if tried == [] || prev == [] then 0 else prev[tried[|tried| - 1] % |prev|]
  }

  lemma NextIs(tried: seq<nat>, prev: seq<nat>)
    requires tried != [] && prev != []
    ensures NextOf(tried, prev) == prev[tried[|tried| - 1] % |prev|]
  {
  }

  lemma FollowingStart(prev: seq<nat>, from: nat, limit: nat)
    requires prev != []
    ensures Following([] + [from], prev, from, limit)
  {
  }

  lemma FollowingMore(tried: seq<nat>, prev: seq<nat>, from: nat, limit: nat)
    requires Following(tried, prev, from, limit)
    ensures NextOf(tried, prev) > limit ==> Following(tried + [NextOf(tried, prev)], prev, from, limit)
  {
    var q := NextOf(tried, prev);
    if q > limit {
      forall i, j | 0 <= i && j == i + 1 < |tried + [q]|
        ensures (tried + [q])[j] == prev[(tried + [q])[i] % |prev|] && (tried + [q])[j] > limit
      {
        if j < |tried| {
          assert tried[j] == prev[tried[i] % |prev|];
        }
      }
    }
  }

  /** Strings no further on are too far back to be matched, and so is the one at the start of the window. */
  function Limit(strstart: nat, wsize: nat): (n: nat)
  {
    if wsize >= MIN_LOOKAHEAD && strstart > wsize - MIN_LOOKAHEAD then strstart - (wsize - MIN_LOOKAHEAD) else 0
  }

  lemma LimitIs(strstart: nat, wsize: nat)
    requires wsize >= 512
    ensures Limit(strstart, wsize) == if strstart > wsize - MIN_LOOKAHEAD then strstart - (wsize - MIN_LOOKAHEAD) else 0
  {
  }

  // ---------- what a search sees of a chain ----------

  /** The strings are on the chain of key h and their slots are still their own. */
  ghost predicate OnChain(bits: nat, win: seq<Byte>, linked: set<nat>, h: nat, tried: seq<nat>, next: nat, n: nat)
  {
    forall i :: 0 <= i < |tried| ==> Linked(bits, win, linked, h, tried[i]) && tried[i] + n >= next
  }

  /** A string with the key of p is among the first k + 1 tried, or further back than all of them. */
  lemma {:induction false} PassedOrSeen(bits: nat, head: seq<nat>, prev: seq<nat>, win: seq<Byte>, linked: set<nat>,
                                        next: nat, end: nat, p: nat, h: nat, tried: seq<nat>, limit: nat, k: nat,
                                        q: nat)
    requires Chains(bits, head, prev, win, linked, next, end) && Linked(bits, win, linked, h, p) && p + |prev| >= next
    requires Following(tried, prev, prev[p % |prev|], limit) && OnChain(bits, win, linked, h, tried, next, |prev|)
    requires k < |tried| && q < p && Linked(bits, win, linked, h, q)
    ensures q in tried || (q < tried[k] && q <= prev[tried[k] % |prev|])
    decreases k
  {
    hide Chains, HashAt, Linked;
    ChainFollowed(bits, head, prev, win, linked, next, end, tried[k], h);
    if k == 0 {
      ChainFollowed(bits, head, prev, win, linked, next, end, p, h);
    } else {
      PassedOrSeen(bits, head, prev, win, linked, next, end, p, h, tried, limit, k - 1, q);
    }
  }

  /** What the window holds, held against the input. */
  lemma WindowAgrees(win: seq<Byte>, end: nat, read: seq<Byte>, base: nat, a: nat, b: nat, n: nat)
    requires end <= |win| && base <= |read| && win[..end] == read[base..] && a < b && b + n <= end
    ensures win[a..a + n] == win[b..b + n] <==> Agrees(read, base + a, base + b, n)
  {
    Kept(win, end, base, read, a, a + n);
    Kept(win, end, base, read, b, b + n);
  }

  lemma WindowKey(bits: nat, win: seq<Byte>, end: nat, read: seq<Byte>, base: nat, p: nat)
    requires end <= |win| && base <= |read| && win[..end] == read[base..] && p + 2 < end
    ensures HashAt(bits, win, p) == HashAt(bits, read, base + p)
  {
    hide Hash3;
    assert win[p] == win[..end][p] == read[base..][p];
    assert win[p + 1] == win[..end][p + 1] == read[base..][p + 1];
    assert win[p + 2] == win[..end][p + 2] == read[base..][p + 2];
  }

  lemma FollowingSome(tried: seq<nat>, prev: seq<nat>, from: nat, limit: nat)
    requires Following(tried, prev, from, limit)
    ensures tried != [] && tried[0] == from
  {
  }

  lemma FollowingStep(tried: seq<nat>, prev: seq<nat>, from: nat, limit: nat, j: nat)
    requires Following(tried, prev, from, limit) && 1 <= j < |tried|
    ensures prev != [] && tried[j] == prev[tried[j - 1] % |prev|]
  {
  }

  lemma OnChainIs(bits: nat, win: seq<Byte>, linked: set<nat>, h: nat, tried: seq<nat>, next: nat, n: nat)
    requires forall i :: 0 <= i < |tried| ==> Linked(bits, win, linked, h, tried[i]) && tried[i] + n >= next
    ensures OnChain(bits, win, linked, h, tried, next, n)
  {
    hide Linked;
  }

  lemma NoneHas(bits: nat, win: seq<Byte>, linked: set<nat>, h: nat, q: nat, p: nat, r: nat)
    requires NoneBetween(bits, win, linked, h, q, p) && r < p && Linked(bits, win, linked, h, r)
    ensures r <= q
  {
    hide Linked;
  }

  lemma RaisedIs(tried: seq<nat>, base: nat)
    ensures |Raised(tried, base)| == |tried| && forall i :: 0 <= i < |tried| ==>
      Raised(tried, base)[i] == base + tried[i]
  {
  }

  /** Positions in the window as positions in the input. */
  function Raised(tried: seq<nat>, base: nat): (r: seq<nat>)
    ensures |r| == |tried|
  {
    seq(|tried|, i requires 0 <= i < |tried| => base + tried[i])
  }

  lemma RaisedHas(tried: seq<nat>, base: nat, q: nat)
    requires q in tried
    ensures base + q in Raised(tried, base)
  {
    var i :| 0 <= i < |tried| && tried[i] == q;
    assert Raised(tried, base)[i] == base + q;
  }

  class Deflater {
    const enc: Encoder
    const wbits: nat
    const wsize: nat
    const hashBits: nat
    const window: array<Byte>
    const prev: array<nat>
    const head: array<nat>
    const tuning: Tuning
    var insH: nat             // the rolling hash key
    var strstart: nat         // start of the string to insert
    var lookahead: nat        // valid bytes from there on
    var insert: nat           // strings before strstart still to be inserted
    var blockStart: int       // where the current block starts; negative when it has slid out
    var matchStart: int
    var matchLength: nat
    var matchAvailable: bool
    var prevLength: nat
    var prevMatch: int
    var highWater: nat        // the bytes below have been written
    var nextIn: seq<Byte>     // input not yet read
    var finished: bool        // the last block has been sent
    var output: seq<Byte>     // all that the caller has been handed of the stream
    var avail: nat            // room left for output in the call at hand
    var lastFlush: int        // how the call before was to flush
    ghost var read: seq<Byte> // all input read
    ghost var base: nat       // position in the input of the first byte of the window
    ghost var linked: set<nat>
    ghost var blocks: seq<Block>
    ghost var made: seq<Made>       // what each block was made from
    ghost var tokens: seq<Token>    // all symbols emitted
    ghost var turns: seq<Turn>      // all decisions made
    ghost var missed: set<nat>      // positions in the input of strings kept off the chains
    ghost var ends: set<nat>        // where the input at hand came to its end in a call that asked for a flush
    ghost var starts: set<nat>      // where the history was forgotten
    ghost var anew: Anew            // and where that was last

    constructor (windowBits: nat, memLevel: nat, t: Tuning)
      requires 9 <= windowBits <= 15 && 1 <= memLevel <= 9
      ensures Valid() && !finished && read == nextIn == [] && blocks == [] && tuning == t && output == []
        && wbits == windowBits
      ensures turns == [] && tokens == [] && ends == {} && starts == {0} && hashBits == memLevel + 7
      ensures enc.litBufsize == Pow2(memLevel + 6)
      ensures fresh(enc.Repr()) && fresh(window) && fresh(head) && fresh(prev)
    {
      hide *;
      WindowSize(windowBits);
      Sizes();
      var e := new Encoder(memLevel);
      e.ReprOld();
      enc := e;
      wbits := windowBits;
      wsize := Pow2(windowBits);
      hashBits := memLevel + 7;
      window := new Byte[2 * Pow2(windowBits)];
      prev := new nat[Pow2(windowBits)];
      head := new nat[Pow2(memLevel + 7)](_ => 0);
      tuning := t;
      insH, strstart, lookahead, insert, blockStart := 0, 0, 0, 0, 0;
      matchStart, matchLength, matchAvailable, prevLength, prevMatch := 0, MIN_MATCH - 1, false, MIN_MATCH - 1, 0;
      highWater, nextIn, finished := 0, [], false;
      output, avail, lastFlush := [], 0, -2;
      read, base, linked, blocks := [], 0, {}, [];
      made, tokens, turns, missed, ends, starts := [], [], [], {}, {}, {0};
      anew := Anew(0, 0, 0);
      new;
      ShapeIs();
      assert window[..0] == read[0..];
      RootedStart(wsize);
      HeldIs();
      assert forall h :: 0 <= h < |head[..]| ==> head[..][h] == 0;
      NoChains(hashBits, head[..], prev[..], window[..]);
      CoversNothing({}, {}, 0);
      ChainedIs(0);
      Started();
    }

    lemma Started()
      requires Shape() && Held() && Chained(0) && strstart == lookahead == insert == base == 0 && blockStart == 0
        && !matchAvailable
      requires enc.Valid() && enc.Tokens() == [] && enc.symNext == 0 && enc.w.Stream() == [] && read == []
        && blocks == []
      requires matchLength == prevLength == 2 && !finished && output == []
      requires made == [] && tokens == [] && turns == [] && missed == {}
      requires anew == Anew(0, 0, 0) && 0 in starts
      ensures Valid()
    {
      hide *;
      Sizes();
      NoBlocks();
      NothingMade(tuning.fixed);
      NothingParsed(TheRules(), Marks(ends, starts));
      NowIs();
      ParsesIs();
      ToldNothing(wsize);
      AfreshNothing(wsize);
      EmptyStream(enc.w);
      StoryIs(0);
      SettledIs(0);
      EncoderRoom();
      RoomHas();
      ReadyIs();
      LazyIs();
      UptoIs();
      RunningIs();
      ValidIs();
    }

    lemma ShapeIs()
      requires 9 <= wbits <= 15 && wsize == Pow2(wbits) && 8 <= hashBits <= 16
      requires window.Length == 2 * wsize && prev.Length == wsize && head.Length == Pow2(hashBits) && head != prev
      requires window !in enc.Repr() && prev !in enc.Repr() && head !in enc.Repr() && this !in enc.Repr()
      ensures Shape()
    {
      hide Pow2;
    }

    ghost predicate Shape()
    {
      9 <= wbits <= 15 && wsize == Pow2(wbits) && 8 <= hashBits <= 16
      && window.Length == 2 * wsize && prev.Length == wsize && head.Length == Pow2(hashBits) && head != prev
      && window !in enc.Repr() && prev !in enc.Repr() && head !in enc.Repr() && this !in enc.Repr()
    }

    /** The window holds the last bytes of the input read. */
    ghost predicate Held()
      reads this`strstart, this`lookahead, this`read, this`base, this`starts, window
    {
      strstart + lookahead <= window.Length && base + strstart + lookahead == |read|
      && window[..strstart + lookahead] == read[base..] && Rooted(starts, base, strstart, wsize)
    }

    /** The hash chains hold the strings before position `next`, but for those missed. */
    ghost predicate Chained(next: nat)
      reads this`strstart, this`lookahead, this`linked, this`missed, this`base, window, head, prev
    {
      Chains(hashBits, head[..], prev[..], window[..], linked, next, strstart + lookahead)
      && Covers(linked, missed, base, next)
    }

    /** Strings are still to be inserted only if there are no bytes for them; the key is ready for the next one. */
    ghost predicate Ready()
      reads this`strstart, this`lookahead, this`insert, this`insH, window
    {
      (insert == 0 || lookahead + insert < MIN_MATCH)
      && (lookahead >= MIN_MATCH ==> Primed(hashBits, insH, window[..], strstart))
    }

    lemma ShapeHas()
      requires Shape()
      ensures 9 <= wbits <= 15 && 512 <= wsize <= 32768 && 8 <= hashBits <= 16
      ensures window.Length == 2 * wsize && prev.Length == wsize && head.Length == Pow2(hashBits) && head != prev
      ensures window !in enc.Repr() && prev !in enc.Repr() && head !in enc.Repr() && this !in enc.Repr()
    {
      hide Pow2;
      WindowSize(wbits);
    }

    lemma WindowIs()
      requires Shape()
      ensures wsize == Pow2(wbits)
    {
    }

    lemma HeldHas()
      requires Held()
      ensures strstart + lookahead <= window.Length && base + strstart + lookahead == |read|
      ensures window[..strstart + lookahead] == read[base..] && Rooted(starts, base, strstart, wsize)
    {
      hide Rooted;
    }

    lemma HeldIs()
      requires strstart + lookahead <= window.Length && base + strstart + lookahead == |read|
      requires window[..strstart + lookahead] == read[base..] && Rooted(starts, base, strstart, wsize)
      ensures Held()
    {
      hide Rooted;
    }

    // ---------- the window ----------

    /** Lower every position by wsize; those below it drop out. */
    method SlideTable(a: array<nat>)
      modifies a
      ensures a[..] == Slid(old(a[..]), wsize)
    {
      var n := a.Length;
      while n != 0
        invariant 0 <= n <= a.Length
        invariant forall i :: 0 <= i < n ==> a[i] == old(a[i])
        invariant forall i :: n <= i < a.Length ==> a[i] == if old(a[i]) >= wsize then old(a[i]) - wsize else 0
        decreases n
      {
        n := n - 1;
        var m := a[n];
        a[n] := if m >= wsize then m - wsize else 0;
      }
    }

    /** Slide the hash table with the window (slide_hash). */
    method SlideHash()
      requires head != prev
      modifies head, prev
      ensures head[..] == Slid(old(head[..]), wsize) && prev[..] == Slid(old(prev[..]), wsize)
    {
      hide *;
      SlideTable(head);
      SlideTable(prev);
    }

    /** Move the upper half of the window to the lower one. */
    method MoveDown(n: nat)
      requires wsize + n <= window.Length && n <= wsize
      modifies window
      ensures forall i :: 0 <= i < n ==> window[i] == old(window[i + wsize])
    {
      forall i | 0 <= i < n {
        window[i] := window[i + wsize];
      }
    }

    lemma ChainedHas(next: nat)
      requires Chained(next)
      ensures Chains(hashBits, head[..], prev[..], window[..], linked, next, strstart + lookahead)
      ensures Covers(linked, missed, base, next)
    {
      hide Chains, Covers;
    }

    lemma ChainedIs(next: nat)
      requires Chains(hashBits, head[..], prev[..], window[..], linked, next, strstart + lookahead)
      requires Covers(linked, missed, base, next)
      ensures Chained(next)
    {
      hide Chains, Covers;
    }

    lemma ReadyHas()
      requires Ready()
      ensures insert == 0 || lookahead + insert < 3
      ensures lookahead >= 3 ==> insert == 0 && Primed(hashBits, insH, window[..], strstart)
    {
      hide Primed;
    }

    lemma ReadyIs()
      requires insert == 0 || lookahead + insert < 3
      requires lookahead >= 3 ==> Primed(hashBits, insH, window[..], strstart)
      ensures Ready()
    {
      hide Primed;
    }

    /** Slide the window by its half; `more` is the room at its end. */
    method SlideWindow(more: nat)
      requires Shape() && Held() && insert <= strstart && Chained(strstart - insert) && insert <= 2
      requires strstart >= wsize + (wsize - MIN_LOOKAHEAD) && more == window.Length - lookahead - strstart
      modifies window, head, prev, this`strstart, this`blockStart, this`matchStart, this`insert, this`base, this`linked
      ensures Held() && insert <= strstart && Chained(strstart - insert) && insert == old(insert)
      ensures strstart == old(strstart) - wsize && base == old(base) + wsize
      ensures blockStart == old(blockStart) - wsize && matchStart == old(matchStart) - wsize
      ensures old(Ready()) ==> Ready()
    {
      hide *;
      Sizes();
      ShapeHas();
      HeldHas();
      ghost var win, h, p, ready := window[..], head[..], prev[..], Ready();
      if Ready() {
        ReadyHas();
      }
      ChainedHas(strstart - insert);
      RootedSlides(starts, base, strstart, wsize);
      CoversSlides(linked, missed, base, strstart - insert, wsize);
      SlideArrays(wsize - more);
      SlideDone(win, h, p, ready);
      Rebase();
    }

    /** The window stands for a later stretch of the input. */
    method Rebase()
      requires Shape() && insert <= strstart && strstart + lookahead <= window.Length
      requires base + wsize + strstart + lookahead == |read| && window[..strstart + lookahead] == read[base + wsize..]
      requires Chains(hashBits, head[..], prev[..], window[..], SlidSet(linked, wsize, strstart - insert),
                      strstart - insert, strstart + lookahead)
      requires Rooted(starts, base + wsize, strstart, wsize)
      requires Covers(SlidSet(linked, wsize, strstart - insert), missed, base + wsize, strstart - insert)
      modifies this`base, this`linked
      ensures Held() && Chained(strstart - insert) && base == old(base) + wsize
    {
      hide *;
      base := base + wsize;
      linked := SlidSet(linked, wsize, strstart - insert);
      HeldIs();
      ChainedIs(strstart - insert);
    }

    /** Move the window down by its half, n bytes of it, and with it all positions. */
    method SlideArrays(n: nat)
      requires wsize + n <= window.Length && n <= wsize && head != prev && strstart >= wsize + 250 && insert <= 2
      modifies window, head, prev, this`strstart, this`blockStart, this`matchStart, this`insert
      ensures forall i :: 0 <= i < n ==> window[i] == old(window[i + wsize])
      ensures head[..] == Slid(old(head[..]), wsize) && prev[..] == Slid(old(prev[..]), wsize)
      ensures strstart == old(strstart) - wsize && insert == old(insert)
      ensures blockStart == old(blockStart) - wsize && matchStart == old(matchStart) - wsize
    {
      hide *;
      MoveDown(n);
      LowerPositions();
      SlideHash();
    }

    method LowerPositions()
      requires strstart >= wsize + 250 && insert <= 2
      modifies this`strstart, this`blockStart, this`matchStart, this`insert
      ensures strstart == old(strstart) - wsize && insert == old(insert)
      ensures blockStart == old(blockStart) - wsize && matchStart == old(matchStart) - wsize
    {
      matchStart := matchStart - wsize;
      strstart := strstart - wsize;
      blockStart := blockStart - wsize;
      if insert > strstart {
        insert := strstart;
      }
    }

    lemma SlideDone(win: seq<Byte>, h: seq<nat>, p: seq<nat>, ready: bool)
      requires 0 < wsize == |p| && |win| == window.Length && insert <= 2 <= strstart && base + wsize <= |read|
      requires strstart + wsize + lookahead <= |win| && win[..strstart + wsize + lookahead] == read[base..]
      requires forall i :: 0 <= i < strstart + lookahead ==> window[i] == win[i + wsize]
      requires head[..] == Slid(h, wsize) && prev[..] == Slid(p, wsize)
      requires Chains(hashBits, h, p, win, linked, strstart + wsize - insert, strstart + wsize + lookahead)
      requires ready ==> insert == 0 || lookahead + insert < 3
      requires ready && lookahead >= 3 ==> insert == 0 && Primed(hashBits, insH, win, strstart + wsize)
      ensures strstart + lookahead <= window.Length && base + wsize + strstart + lookahead == |read|
      ensures window[..strstart + lookahead] == read[base + wsize..]
      ensures Chains(hashBits, head[..], prev[..], window[..], SlidSet(linked, wsize, strstart - insert),
                     strstart - insert, strstart + lookahead)
      ensures ready ==> Ready()
    {
      hide *;
      HeldSlides(win, window[..], strstart + wsize + lookahead, wsize, read, base);
      assert window[..strstart + lookahead] == window[..][..strstart + lookahead];
      ChainsSlide(hashBits, h, p, win, window[..], linked, strstart + wsize - insert, strstart + wsize + lookahead);
      if ready && lookahead >= 3 {
        PrimedMoves(hashBits, insH, win, strstart + wsize, window[..], strstart);
      }
      if ready {
        ReadyIs();
      }
    }

    // ---------- inserting strings ----------

    /** Insert the string at str into its hash chain; the former head of that chain (INSERT_STRING). */
    method InsertString(str: nat) returns (matchHead: nat)
      requires Shape() && Chained(str) && str + 2 < strstart + lookahead <= window.Length
      requires Primed(hashBits, insH, window[..], str)
      modifies this`insH, this`linked, head, prev
      ensures Chained(str + 1) && Primed(hashBits, insH, window[..], str + 1) && linked == old(linked) + {str}
      ensures insH < head.Length && insH == HashAt(hashBits, window[..], str) && matchHead == old(head[..])[insH]
      ensures head[..] == old(head[..])[insH := str] && prev[..] == old(prev[..])[str % wsize := matchHead]
      ensures matchHead != 0 ==>
        matchHead < str && Linked(hashBits, window[..], linked, HashAt(hashBits, window[..], str), matchHead)
    {
      hide *;
      ShapeHas();
      ChainedHas(str);
      ghost var w, h, p, end, old_ := window[..], head[..], prev[..], strstart + lookahead, linked;
      PrimedNext(hashBits, insH, w, str);
      KeyBound(w, str);
      insH := Update(hashBits, insH, window[str + 2]);
      matchHead := head[insH];
      prev[str % wsize] := matchHead;
      head[insH] := str;
      assert head[..] == h[insH := str] && prev[..] == p[str % wsize := matchHead];
      ChainsInsert(hashBits, h, p, w, old_, str, end, str);
      CoversOne(old_, missed, base, str);
      linked := linked + {str};
      ChainedIs(str + 1);
      FormerHead(h, p, w, old_, str, end, str, matchHead);
    }

    lemma KeyBound(win: seq<Byte>, p: nat)
      requires p + 2 < |win|
      ensures HashAt(hashBits, win, p) < Pow2(hashBits)
    {
      hide Update, Pow2;
      UpdateBound(hashBits, Update(hashBits, Update(hashBits, 0, win[p]), win[p + 1]), win[p + 2]);
    }

    lemma FormerHead(h: seq<nat>, p: seq<nat>, win: seq<Byte>, before: set<nat>, next: nat, end: nat, str: nat, m: nat)
      requires Chains(hashBits, h, p, win, before, next, end) && next <= str && str + 2 < end
      requires HashAt(hashBits, win, str) < |h| && m == h[HashAt(hashBits, win, str)]
      ensures m != 0 ==> m < str && Linked(hashBits, win, before + {str}, HashAt(hashBits, win, str), m)
    {
      hide HashAt, Links;
      if m != 0 {
        assert Linked(hashBits, win, before, HashAt(hashBits, win, str), h[HashAt(hashBits, win, str)]);
      }
    }

    /** Start the rolling key at the strings still to be inserted, and insert them. */
    method InsertPending()
      requires Shape() && Held() && insert <= strstart && insert <= 2 && Chained(strstart - insert)
      modifies this`insH, this`linked, this`insert, head, prev
      ensures insert <= old(insert) && Chained(strstart - insert) && Ready()
    {
      hide *;
      Sizes();
      ShapeHas();
      HeldHas();
      if lookahead + insert >= MIN_MATCH {
        var str := strstart - insert;
        insH := Update(hashBits, window[str], window[str + 1]);
        PrimedStart(hashBits, window[..], str);
        while insert != 0
          invariant insert <= old(insert) && str == strstart - insert && lookahead + insert >= MIN_MATCH
          invariant Chained(str) && Primed(hashBits, insH, window[..], str)
          decreases insert
        {
          var matchHead := InsertString(str);
          str := str + 1;
          insert := insert - 1;
          if lookahead + insert < MIN_MATCH {
            break;
          }
        }
      }
      ReadyIs();
    }

    // ---------- filling the window ----------

    /** Read from the input into the window (read_buf). */
    method ReadBuf(at: nat, size: nat) returns (n: nat)
      requires at + size <= window.Length
      modifies window, this`nextIn
      ensures n == (if |old(nextIn)| <= size then |old(nextIn)| else size) && nextIn == old(nextIn)[n..]
      ensures forall i :: 0 <= i < window.Length ==>
        window[i] == if at <= i < at + n then old(nextIn)[i - at] else old(window[i])
    {
      n := |nextIn|;
      if n > size {
        n := size;
      }
      if n == 0 {
        return;
      }
      var data := nextIn;
      forall i | 0 <= i < n {
        window[at + i] := data[i];
      }
      nextIn := nextIn[n..];
    }

    /** Read more behind the lookahead. */
    method ReadMore(more: nat) returns (n: nat)
      requires Shape() && Held() && insert <= strstart && Chained(strstart - insert)
      requires strstart + lookahead + more <= window.Length
      modifies window, this`nextIn, this`lookahead, this`read
      ensures n == (if |old(nextIn)| <= more then |old(nextIn)| else more) && lookahead == old(lookahead) + n
      ensures nextIn == old(nextIn)[n..] && read == old(read) + old(nextIn)[..n]
      ensures Held() && Chained(strstart - insert)
    {
      hide *;
      HeldHas();
      ChainedHas(strstart - insert);
      ghost var win, end, data := window[..], strstart + lookahead, nextIn;
      n := ReadBuf(strstart + lookahead, more);
      HeldMore(win, window[..], end, data[..n], read, base);
      lookahead := lookahead + n;
      read := read + data[..n];
      assert window[..strstart + lookahead] == window[..][..end + n];
      HeldIs();
      ChainsKept(hashBits, head[..], prev[..], win, linked, strstart - insert, end, window[..], strstart - insert,
                 end + n);
      ChainedIs(strstart - insert);
    }

    method ZeroRange(at: nat, n: nat)
      requires at + n <= window.Length
      modifies window
      ensures forall i :: 0 <= i < window.Length ==> window[i] == if at <= i < at + n then 0 else old(window[i])
    {
      forall i | 0 <= i < n {
        window[at + i] := 0;
      }
    }

    /** Zero bytes behind the valid ones that have never been written. */
    method ZeroTail()
      requires strstart + lookahead <= window.Length
      modifies window, this`highWater
      ensures forall i :: 0 <= i < strstart + lookahead ==> window[i] == old(window[i])
      ensures highWater >= window.Length || highWater >= strstart + lookahead + WIN_INIT
    {
      if highWater < window.Length {
        var curr := strstart + lookahead;
        if highWater < curr {
          var init := window.Length - curr;
          if init > WIN_INIT {
            init := WIN_INIT;
          }
          ZeroRange(curr, init);
          highWater := curr + init;
        } else if highWater < curr + WIN_INIT {
          var init := curr + WIN_INIT - highWater;
          if init > window.Length - highWater {
            init := window.Length - highWater;
          }
          ZeroRange(highWater, init);
          highWater := highWater + init;
        }
      }
    }

    /** Make sure that the bytes the search may look at behind the valid ones have been written. */
    method ZeroAhead()
      requires Shape() && Held() && insert <= strstart && Chained(strstart - insert)
      modifies window, this`highWater
      ensures Held() && Chained(strstart - insert) && (old(Ready()) ==> Ready())
      ensures highWater >= window.Length || highWater >= strstart + lookahead + WIN_INIT
    {
      hide *;
      Sizes();
      ShapeHas();
      HeldHas();
      ChainedHas(strstart - insert);
      ghost var win, end, ready := window[..], strstart + lookahead, Ready();
      if Ready() {
        ReadyHas();
      }
      ZeroTail();
      assert window[..end] == win[..end];
      assert window[..end] == window[..][..end];
      HeldIs();
      ChainsKept(hashBits, head[..], prev[..], win, linked, strstart - insert, end, window[..], strstart - insert, end);
      ChainedIs(strstart - insert);
      StillReady(win, ready);
    }

    lemma StillReady(win: seq<Byte>, ready: bool)
      requires ready ==> insert == 0 || lookahead + insert < 3
      requires strstart + lookahead <= window.Length == |win|
        && window[..strstart + lookahead] == win[..strstart + lookahead]
      requires ready && lookahead >= 3 ==> insert == 0 && Primed(hashBits, insH, win, strstart)
      ensures ready ==> Ready()
    {
      hide *;
      if ready && lookahead >= 3 {
        var e := strstart + lookahead;
        assert window[..][strstart] == window[..e][strstart] == win[..e][strstart];
        assert window[..][strstart + 1] == window[..e][strstart + 1] == win[..e][strstart + 1];
        PrimedMoves(hashBits, insH, win, strstart, window[..], strstart);
      }
      if ready {
        ReadyIs();
      }
    }

    /** Fill the window when the lookahead becomes short (fill_window). */
    method FillWindow()
      requires Shape() && Held() && insert <= strstart && insert <= 2 && Chained(strstart - insert)
      requires lookahead < MIN_LOOKAHEAD
      modifies window, head, prev, this`strstart, this`lookahead, this`blockStart, this`matchStart, this`insert,
        this`insH, this`highWater, this`nextIn, this`read, this`base, this`linked
      ensures Held() && insert <= strstart && insert <= 2 && Chained(strstart - insert) && (old(Ready()) ==> Ready())
      ensures strstart + MIN_LOOKAHEAD <= window.Length && (lookahead < MIN_LOOKAHEAD ==> nextIn == [])
      ensures base + strstart == old(base + strstart) && base + blockStart == old(base + blockStart)
      ensures base + matchStart == old(base + matchStart)
      ensures old(read) <= read && read + nextIn == old(read) + old(nextIn) && lookahead >= old(lookahead)
      ensures insert <= old(insert) && (strstart == old(strstart) || strstart >= wsize - MIN_LOOKAHEAD)
      ensures highWater >= window.Length || highWater >= strstart + lookahead + WIN_INIT
    {
      hide *;
      Sizes();
      ShapeHas();
      var again := true;
      while again
        invariant Held() && insert <= strstart && insert <= 2 && Chained(strstart - insert)
          && (old(Ready()) ==> Ready())
        invariant base + strstart == old(base + strstart) && base + blockStart == old(base + blockStart)
        invariant base + matchStart == old(base + matchStart)
        invariant old(read) <= read && read + nextIn == old(read) + old(nextIn) && lookahead >= old(lookahead)
        invariant insert <= old(insert) && (strstart == old(strstart) || strstart >= wsize - MIN_LOOKAHEAD)
        invariant again ==> lookahead < MIN_LOOKAHEAD
        invariant !again ==> strstart + MIN_LOOKAHEAD <= window.Length && (lookahead < MIN_LOOKAHEAD ==> nextIn == [])
        decreases |nextIn|, again
      {
        again := FillOnce();
      }
      ZeroAhead();
    }

    /** Slide if need be, and read more. */
    method FillOnce() returns (again: bool)
      requires Shape() && Held() && insert <= strstart && insert <= 2 && Chained(strstart - insert)
      requires lookahead < MIN_LOOKAHEAD
      modifies window, head, prev, this`strstart, this`lookahead, this`blockStart, this`matchStart, this`insert,
        this`insH, this`nextIn, this`read, this`base, this`linked
      ensures Held() && insert <= strstart && insert <= 2 && Chained(strstart - insert) && (old(Ready()) ==> Ready())
      ensures base + strstart == old(base + strstart) && base + blockStart == old(base + blockStart)
      ensures base + matchStart == old(base + matchStart)
      ensures old(read) <= read && read + nextIn == old(read) + old(nextIn) && lookahead >= old(lookahead)
      ensures insert <= old(insert) && (strstart == old(strstart) || strstart >= wsize - MIN_LOOKAHEAD)
      ensures again ==> lookahead < MIN_LOOKAHEAD && |nextIn| < |old(nextIn)|
      ensures !again ==> strstart + MIN_LOOKAHEAD <= window.Length && (lookahead < MIN_LOOKAHEAD ==> nextIn == [])
    {
      hide *;
      Sizes();
      ShapeHas();
      HeldHas();
      var more := window.Length - lookahead - strstart;
      if strstart >= wsize + (wsize - MIN_LOOKAHEAD) {
        SlideWindow(more);
        more := more + wsize;
      }
      if nextIn == [] {
        again := false;
      } else {
        ghost var input, r := nextIn, read;
        var n := ReadMore(more);
        InsertPending();
        ReadOn(r, input, n);
        again := lookahead < MIN_LOOKAHEAD && nextIn != [];
      }
    }

    // ---------- searching ----------

    /** The n bytes at m are those at strstart. */
    ghost predicate Alike(m: int, n: nat)
      reads this`strstart, window
    {
      0 <= m < strstart && strstart + n <= window.Length && window[m..m + n] == window[strstart..strstart + n]
    }

    /** Up to eight comparisons (one turn of the unrolled loop). */
    method EightMore(cur: nat, k: nat) returns (n: nat, same: bool)
      requires strstart + k + 8 < window.Length && Alike(cur, k) && window[cur + k] == window[strstart + k]
      ensures k < n <= k + 8 && Alike(cur, n) && same == (window[cur + n] == window[strstart + n])
        && (same ==> n == k + 8)
    {
      hide *;
      AlikeHas(cur, k);
      n, same := k, true;
      while n < k + 8 && same
        invariant k <= n <= k + 8 && (same ==> window[cur + n] == window[strstart + n])
        invariant Alike(cur, n) && (!same ==> n > k && window[cur + n] != window[strstart + n])
        decreases k + 8 - n, same
      {
        AlikeMore(cur, n);
        n := n + 1;
        same := window[cur + n] == window[strstart + n];
      }
    }

    lemma AlikeMore(cur: nat, n: nat)
      requires Alike(cur, n) && strstart + n < window.Length && window[cur + n] == window[strstart + n]
      ensures Alike(cur, n + 1)
    {
      assert window[cur..cur + n + 1] == window[cur..cur + n] + [window[cur + n]];
      assert window[strstart..strstart + n + 1] == window[strstart..strstart + n] + [window[strstart + n]];
    }

    /** How far the string at cur goes along with the one at strstart, up to 258; the first three bytes are known to
        agree.  Only every eighth comparison looks for the end. */
    method MatchLength(cur: nat) returns (len: nat)
      requires strstart + MAX_MATCH < window.Length && Alike(cur, 3)
      ensures 3 <= len <= MAX_MATCH && Alike(cur, len)
      ensures len < MAX_MATCH ==> window[cur + len] != window[strstart + len]
    {
      hide *;
      Sizes();
      FirstAlike(cur);
      var scan := 2;    // the position compared last
      var same := true;
      while same && scan < MAX_MATCH
        invariant 2 <= scan <= MAX_MATCH && (scan > 2 ==> scan >= 3) && Alike(cur, scan)
          && (same ==> (scan - 2) % 8 == 0)
        invariant same == (window[cur + scan] == window[strstart + scan]) && (!same ==> scan >= 3)
        decreases MAX_MATCH - scan, same
      {
        scan, same := EightMore(cur, scan);
      }
      len := scan;
    }

    lemma FirstAlike(cur: nat)
      requires Alike(cur, 3)
      ensures 0 <= cur < strstart && strstart + 3 <= window.Length && Alike(cur, 2)
        && window[cur + 2] == window[strstart + 2]
    {
      assert window[cur..cur + 2] == window[cur..cur + 3][..2]
          && window[strstart..strstart + 2] == window[strstart..strstart + 3][..2];
      assert window[cur + 2] == window[cur..cur + 3][2] && window[strstart + 2] == window[strstart..strstart + 3][2];
    }

    lemma AlikeHas(m: int, n: nat)
      requires Alike(m, n)
      ensures 0 <= m < strstart && strstart + n <= window.Length && window[m..m + n] == window[strstart..strstart + n]
    {
    }

    lemma AlikeIs(m: int, n: nat)
      requires 0 <= m < strstart && strstart + n <= window.Length && window[m..m + n] == window[strstart..strstart + n]
      ensures Alike(m, n)
    {
    }

    /** On a chain, two equal bytes make three: the comparison that the search leaves out. */
    lemma ThreeAlike(cur: nat)
      requires 8 <= hashBits && cur < strstart && strstart + 2 < window.Length
      requires Linked(hashBits, window[..], linked, HashAt(hashBits, window[..], strstart), cur)
      requires window[cur] == window[strstart] && window[cur + 1] == window[strstart + 1]
      ensures Alike(cur, 3)
    {
      hide Hash3;
      ThirdByte(hashBits, window[cur], window[cur + 1], window[cur + 2], window[strstart + 2]);
    }

    /** A string on the chain of strstart, near enough to be matched. */
    ghost predicate Candidate(cur: nat)
      reads this`strstart, this`linked, window
    {
      strstart + 2 < window.Length && 0 < cur < strstart && strstart - cur <= wsize - MIN_LOOKAHEAD
      && Linked(hashBits, window[..], linked, HashAt(hashBits, window[..], strstart), cur)
    }

    lemma CandidateHas(cur: nat)
      requires Candidate(cur)
      ensures strstart + 2 < window.Length && 0 < cur < strstart && strstart - cur <= wsize - MIN_LOOKAHEAD
      ensures Linked(hashBits, window[..], linked, HashAt(hashBits, window[..], strstart), cur)
    {
      hide Hash3;
    }

    lemma CandidateIs(cur: nat)
      requires strstart + 2 < window.Length && 0 < cur < strstart && strstart - cur <= wsize - MIN_LOOKAHEAD
      requires Linked(hashBits, window[..], linked, HashAt(hashBits, window[..], strstart), cur)
      ensures Candidate(cur)
    {
      hide Hash3;
    }

    /** The next string on the chain. */
    lemma NextCandidate(cur: nat)
      requires Shape() && Chained(strstart + 1) && Candidate(cur)
      ensures prev.Length == wsize > 0
      ensures var q := prev[cur % wsize]; q < cur && (q > 0 && strstart - q <= wsize - MIN_LOOKAHEAD ==> Candidate(q))
    {
      hide *;
      Sizes();
      ShapeHas();
      CandidateHas(cur);
      ChainedHas(strstart + 1);
      ChainFollowed(hashBits, head[..], prev[..], window[..], linked, strstart + 1, strstart + lookahead, cur,
                    HashAt(hashBits, window[..], strstart));
      var q := prev[cur % wsize];
      if q > 0 && strstart - q <= wsize - MIN_LOOKAHEAD {
        CandidateIs(q);
      }
    }

    /** The string at m does not go along with the one at strstart for more than n bytes, or no more are looked for. */
    ghost predicate NoLonger(m: nat, n: nat)
      reads this`strstart, window
    {
      n >= MAX_MATCH || !Alike(m, n + 1)
    }

    lemma NoLongerMore(m: nat, n: nat, k: nat)
      requires NoLonger(m, n) && n <= k
      ensures NoLonger(m, k) && (n < k <= MAX_MATCH ==> !Alike(m, k))
    {
      hide Alike;
      if n < k <= MAX_MATCH && Alike(m, k) {
        AlikeFewer(m, k, n + 1);
      }
      if k < MAX_MATCH && Alike(m, k + 1) {
        AlikeFewer(m, k + 1, n + 1);
      }
    }

    lemma AlikeAt(m: nat, n: nat, k: nat)
      requires Alike(m, n) && k < n
      ensures m + k < window.Length && strstart + k < window.Length && window[m + k] == window[strstart + k]
    {
      assert window[m + k] == window[m..m + n][k] && window[strstart + k] == window[strstart..strstart + n][k];
    }

    /** Strings that differ somewhere in the first n + 1 bytes. */
    lemma NoLongerFor(m: nat, n: nat, k: nat)
      requires n >= MAX_MATCH
        || (k <= n && m + k < window.Length && strstart + k < window.Length && window[m + k] != window[strstart + k])
      ensures NoLonger(m, n)
    {
      hide Alike;
      if n < MAX_MATCH && Alike(m, n + 1) {
        AlikeAt(m, n + 1, k);
      }
    }

    /** One string of the chain: is it better than the best so far? */
    method TryMatch(cur: nat, best: nat) returns (len: nat)
      requires Shape() && Candidate(cur) && 1 <= best <= MAX_MATCH && strstart + MIN_LOOKAHEAD <= window.Length
      ensures len <= MAX_MATCH
      ensures if len > best then Alike(cur, len) && NoLonger(cur, len) else NoLonger(cur, best)
    {
      hide *;
      Sizes();
      ShapeHas();
      CandidateHas(cur);
      len := 0;
      if window[cur + best] == window[strstart + best] {
        if window[cur + best - 1] == window[strstart + best - 1] && window[cur] == window[strstart]
           && window[cur + 1] == window[strstart + 1] {
          ThreeAlike(cur);
          len := MatchLength(cur);
          NoLongerFor(cur, len, len);
          if len <= best {
            NoLongerMore(cur, len, best);
          }
        } else {
          NoLongerFor(cur, best, if window[cur + best - 1] != window[strstart + best - 1] then best - 1
                                 else if window[cur] != window[strstart] then 0 else 1);
        }
      } else {
        NoLongerFor(cur, best, best);
      }
    }

    /** None of the strings tried is longer than n. */
    ghost predicate AllShort(tried: seq<nat>, n: nat)
      reads this`strstart, window
    {
      forall i :: 0 <= i < |tried| ==> NoLonger(tried[i], n)
    }

    /** The string at m was tried, goes along for n bytes, and is the first of those tried that does. */
    ghost predicate FirstOf(tried: seq<nat>, m: int, n: nat)
      reads this`strstart, window
    {
      exists i :: 0 <= i < |tried| && tried[i] == m && Alike(m, n) && forall j :: 0 <= j < i ==> !Alike(tried[j], n)
    }

    lemma StillShort(tried: seq<nat>, n: nat, cur: nat)
      requires AllShort(tried, n) && NoLonger(cur, n)
      ensures AllShort(tried + [cur], n)
    {
      hide NoLonger;
    }

    lemma StillFirst(tried: seq<nat>, m: int, n: nat, cur: nat)
      requires FirstOf(tried, m, n)
      ensures FirstOf(tried + [cur], m, n)
    {
      hide Alike;
      var i :| 0 <= i < |tried| && tried[i] == m && Alike(m, n) && forall j :: 0 <= j < i ==> !Alike(tried[j], n);
      assert (tried + [cur])[i] == m;
    }

    lemma NowFirst(tried: seq<nat>, best: nat, cur: nat, n: nat)
      requires AllShort(tried, best) && best < n <= MAX_MATCH && Alike(cur, n) && NoLonger(cur, n)
      ensures AllShort(tried + [cur], n) && FirstOf(tried + [cur], cur, n)
    {
      hide Alike, NoLonger;
      forall i | 0 <= i < |tried|
        ensures NoLonger(tried[i], n) && !Alike(tried[i], n)
      {
        NoLongerMore(tried[i], best, n);
      }
      assert (tried + [cur])[|tried|] == cur;
    }

    lemma NoneTried(n: nat)
      ensures AllShort([], n)
    {
    }

    /** All of these strings are on the chain of strstart and near enough. */
    ghost predicate AllCandidates(tried: seq<nat>)
      reads this`strstart, this`linked, window
    {
      forall i :: 0 <= i < |tried| ==> Candidate(tried[i])
    }

    lemma CandidatesMore(tried: seq<nat>, cur: nat)
      requires AllCandidates(tried) && Candidate(cur)
      ensures AllCandidates(tried + [cur])
    {
      hide Candidate;
    }

    lemma NoCandidates()
      ensures AllCandidates([])
    {
    }

    /** What is searched for has been found: the strings tried are the chain from hashHead on, nothing on it beats the
        match, and the search ends where the chain does, or after its length, or with a match that is good enough.  The
        best before the last string was not. */
    ghost predicate Searched(hashHead: nat, tried: seq<nat>, best: nat, before: nat)
      reads this`strstart, this`lookahead, this`prevLength, this`matchStart, this`linked, window, prev
    {
      Following(tried, prev[..], hashHead, Limit(strstart, wsize)) && |tried| <= Tries(tuning, prevLength)
      && AllCandidates(tried)
      && prevLength <= best <= MAX_MATCH && AllShort(tried, best)
      && (best > prevLength ==> FirstOf(tried, matchStart, best))
      && (Least(best, lookahead) > prevLength ==> FirstOf(tried, matchStart, Least(best, lookahead)))
      && (|tried| == Tries(tuning, prevLength) || NextOf(tried, prev[..]) <= Limit(strstart, wsize)
          || (best > prevLength && best >= Least(tuning.niceMatch, lookahead)))
      && (before == prevLength || before < Least(tuning.niceMatch, lookahead))
      && AllShort(tried[..|tried| - 1], before)
    }

    lemma SearchedIs(hashHead: nat, tried: seq<nat>, best: nat, before: nat)
      requires Following(tried, prev[..], hashHead, Limit(strstart, wsize)) && |tried| <= Tries(tuning, prevLength)
      requires AllCandidates(tried) && tried != []
      requires prevLength <= best <= MAX_MATCH && AllShort(tried, best)
      requires best > prevLength ==> FirstOf(tried, matchStart, best)
      requires Least(best, lookahead) > prevLength ==> FirstOf(tried, matchStart, Least(best, lookahead))
      requires |tried| == Tries(tuning, prevLength) || NextOf(tried, prev[..]) <= Limit(strstart, wsize)
        || (best > prevLength && best >= Least(tuning.niceMatch, lookahead))
      requires before == prevLength || before < Least(tuning.niceMatch, lookahead)
      requires AllShort(tried[..|tried| - 1], before)
      ensures Searched(hashHead, tried, best, before)
    {
      hide Following, AllShort, FirstOf, Limit, Tries, NextOf, AllCandidates, Least;
    }

    lemma SearchedHas(hashHead: nat, tried: seq<nat>, best: nat, before: nat)
      requires Searched(hashHead, tried, best, before)
      ensures Following(tried, prev[..], hashHead, Limit(strstart, wsize)) && |tried| <= Tries(tuning, prevLength)
      ensures AllCandidates(tried) && tried != []
      ensures prevLength <= best <= MAX_MATCH && AllShort(tried, best)
      ensures Least(best, lookahead) > prevLength ==> FirstOf(tried, matchStart, Least(best, lookahead))
      ensures |tried| == Tries(tuning, prevLength) || NextOf(tried, prev[..]) <= Limit(strstart, wsize)
        || (best > prevLength && best >= Least(tuning.niceMatch, lookahead))
      ensures before == prevLength || before < Least(tuning.niceMatch, lookahead)
      ensures AllShort(tried[..|tried| - 1], before)
    {
      hide AllShort, FirstOf, Limit, Tries, NextOf, AllCandidates, Least;
    }

    /** The first that is better than the best so far is also the first that goes on as far as there are bytes. */
    lemma NowFirstLeast(tried: seq<nat>, best: nat, cur: nat, n: nat, look: nat)
      requires AllShort(tried, best) && best < Least(n, look) && n <= MAX_MATCH && Alike(cur, n)
      ensures FirstOf(tried + [cur], cur, Least(n, look))
    {
      hide Alike, NoLonger;
      AlikeFewer(cur, n, Least(n, look));
      forall i | 0 <= i < |tried|
        ensures !Alike(tried[i], Least(n, look))
      {
        NoLongerMore(tried[i], best, Least(n, look));
      }
      assert (tried + [cur])[|tried|] == cur;
    }

    lemma LeastIs(a: nat, b: nat)
      ensures Least(a, b) == if a <= b then a else b
    {
    }

    lemma AllButLast(tried: seq<nat>, cur: nat)
      ensures tried + [cur] != [] && (tried + [cur])[..|tried + [cur]| - 1] == tried
    {
    }

    /** A string on the chain near enough to strstart, that is alike. */
    ghost predicate Usable(m: int, n: nat)
      reads this`strstart, window
    {
      0 < m < strstart && strstart - m <= wsize - MIN_LOOKAHEAD && Alike(m, n)
    }

    lemma UsableHas(m: int, n: nat)
      requires Usable(m, n)
      ensures 0 < m < strstart && strstart - m <= wsize - MIN_LOOKAHEAD && Alike(m, n)
    {
      hide Alike;
    }

    lemma UsableIs(m: int, n: nat)
      requires 0 < m < strstart && strstart - m <= wsize - MIN_LOOKAHEAD && Alike(m, n)
      ensures Usable(m, n)
    {
      hide Alike;
    }

    /** What is known after some strings have been tried. */
    ghost predicate Trying(tried: seq<nat>, best: nat)
      reads this`strstart, this`lookahead, this`prevLength, this`matchStart, this`linked, window
    {
      prevLength <= best <= MAX_MATCH && AllShort(tried, best) && AllCandidates(tried)
      && (best > prevLength ==> FirstOf(tried, matchStart, best) && Usable(matchStart, best))
      && (Least(best, lookahead) > prevLength ==> FirstOf(tried, matchStart, Least(best, lookahead)))
    }

    lemma TryingHas(tried: seq<nat>, best: nat)
      requires Trying(tried, best)
      ensures prevLength <= best <= MAX_MATCH && AllShort(tried, best) && AllCandidates(tried)
      ensures best > prevLength ==> FirstOf(tried, matchStart, best) && Usable(matchStart, best)
      ensures Least(best, lookahead) > prevLength ==> FirstOf(tried, matchStart, Least(best, lookahead))
    {
      hide AllShort, AllCandidates, FirstOf, Usable, Least;
    }

    lemma TryingIs(tried: seq<nat>, best: nat)
      requires prevLength <= best <= MAX_MATCH && AllShort(tried, best) && AllCandidates(tried)
      requires best > prevLength ==> FirstOf(tried, matchStart, best) && Usable(matchStart, best)
      requires Least(best, lookahead) > prevLength ==> FirstOf(tried, matchStart, Least(best, lookahead))
      ensures Trying(tried, best)
    {
      hide AllShort, AllCandidates, FirstOf, Usable, Least;
    }

    /** Try one more string. */
    method TryOne(cur: nat, best: nat, ghost tried: seq<nat>) returns (n: nat)
      requires Shape() && Candidate(cur) && 1 <= prevLength && strstart + MIN_LOOKAHEAD <= window.Length
      requires Trying(tried, best) && (best == prevLength || best < lookahead)
      modifies this`matchStart
      ensures n <= MAX_MATCH && Trying(tried + [cur], if n > best then n else best)
    {
      hide *;
      TryingHas(tried, best);
      CandidatesMore(tried, cur);
      n := TryMatch(cur, best);
      LeastIs(n, lookahead);
      if n > best {
        NowFirst(tried, best, cur, n);
        if best < Least(n, lookahead) {
          NowFirstLeast(tried, best, cur, n, lookahead);
        }
        CandidateHas(cur);
        matchStart := cur;
        UsableIs(cur, n);
        TryingIs(tried + [cur], n);
      } else {
        StillShort(tried, best, cur);
        if best > prevLength {
          StillFirst(tried, matchStart, best, cur);
        }
        if Least(best, lookahead) > prevLength {
          StillFirst(tried, matchStart, Least(best, lookahead), cur);
        }
        TryingIs(tried + [cur], best);
      }
    }

    lemma TryingNone()
      requires prevLength <= MAX_MATCH
      ensures Trying([], prevLength)
    {
      hide *;
      LeastIs(prevLength, lookahead);
      NoneTried(prevLength);
      NoCandidates();
      TryingIs([], prevLength);
    }

    /** The chain behind cur. */
    lemma GoOn(tried: seq<nat>, cur: nat, hashHead: nat, limit: nat)
      requires Shape() && Chained(strstart + 1) && Candidate(cur) && limit == Limit(strstart, wsize)
      requires Following(tried + [cur], prev[..], hashHead, limit)
      ensures prev.Length == wsize > 0 && tried + [cur] != [] && (tried + [cur])[..|tried + [cur]| - 1] == tried
      ensures var q := prev[cur % wsize];
              q < cur && q == NextOf(tried + [cur], prev[..])
              && (q > limit ==> Candidate(q) && Following(tried + [cur] + [q], prev[..], hashHead, limit))
    {
      hide *;
      Sizes();
      ShapeHas();
      LimitIs(strstart, wsize);
      NextCandidate(cur);
      AllButLast(tried, cur);
      NextIs(tried + [cur], prev[..]);
      FollowingMore(tried + [cur], prev[..], hashHead, limit);
    }

    /** Follow the chain from hashHead on. */
    method SearchChain(hashHead: nat) returns (best: nat, ghost tried: seq<nat>, ghost before: nat)
      requires Shape() && Chained(strstart + 1) && Candidate(hashHead) && 1 <= prevLength <= MAX_MATCH
      requires strstart + MIN_LOOKAHEAD <= window.Length
      modifies this`matchStart
      ensures Searched(hashHead, tried, best, before)
      ensures prevLength <= best <= MAX_MATCH && (best > prevLength ==> Usable(matchStart, best))
    {
      hide *;
      Sizes();
      ShapeHas();
      var chain := tuning.maxChain;
      best := prevLength;
      var nice := tuning.niceMatch;
      var limit := if strstart > wsize - MIN_LOOKAHEAD then strstart - (wsize - MIN_LOOKAHEAD) else 0;
      if prevLength >= tuning.goodMatch {
        chain := chain / 4;
      }
      if nice > lookahead {
        nice := lookahead;
      }
      LimitIs(strstart, wsize);
      TriesIs(tuning, prevLength);
      LeastIs(tuning.niceMatch, lookahead);
      tried, before := [], best;
      ghost var tries := Tries(tuning, prevLength);
      TryingNone();
      FollowingStart(prev[..], hashHead, limit);
      var cur: nat := hashHead;
      var more := true;
      while more
        invariant Trying(tried, best)
        invariant more ==> Candidate(cur) && Following(tried + [cur], prev[..], hashHead, limit)
        invariant more ==> chain == tries - |tried| || (tried == [] && chain == 0 && tries == 0x1_0000_0000)
        invariant more ==> |tried| < tries && (best == prevLength || best < nice)
        invariant !more ==> Following(tried, prev[..], hashHead, limit) && |tried| <= tries && tried != []
        invariant !more ==> |tried| == tries || NextOf(tried, prev[..]) <= limit || (best > prevLength && best >= nice)
        invariant !more ==> (before == prevLength || before < nice) && AllShort(tried[..|tried| - 1], before)
        decreases cur, more
      {
        GoOn(tried, cur, hashHead, limit);
        TryingHas(tried, best);
        before := best;
        var n := TryOne(cur, best, tried);
        var better := n > best;
        if better {
          best := n;
        }
        tried := tried + [cur];
        if better && n >= nice {
          more := false;
        } else {
          cur := prev[cur % wsize];
          more := cur > limit;
          if more {
            chain := if chain == 0 then 0xffff_ffff else chain - 1;
            more := chain != 0;
          }
        }
      }
      TryingHas(tried, best);
      SearchedIs(hashHead, tried, best, before);
    }

    /** The longest match on the chain for the string at strstart, if it is longer than prevLength (longest_match). */
    method LongestMatch(hashHead: nat) returns (len: nat, ghost tried: seq<nat>, ghost best: nat, ghost before: nat)
      requires Shape() && Chained(strstart + 1) && Candidate(hashHead) && 1 <= prevLength <= MAX_MATCH
      requires strstart + MIN_LOOKAHEAD <= window.Length
      modifies this`matchStart
      ensures Searched(hashHead, tried, best, before) && len == Least(best, lookahead)
      ensures forall i, n: nat :: 0 <= i < |tried| && n <= MAX_MATCH && n <= lookahead && Alike(tried[i], n) ==>
        n <= len
      ensures len <= lookahead && (len >= prevLength || len == lookahead)
      ensures len > prevLength ==>
        (len <= MAX_MATCH && 0 < matchStart < strstart && strstart - matchStart <= wsize - MIN_LOOKAHEAD
                                    && Alike(matchStart, len))
    {
      hide *;
      var longest;
      longest, tried, before := SearchChain(hashHead);
      best := longest;
      LeastIs(best, lookahead);
      len := if longest <= lookahead then longest else lookahead;
      if len > prevLength {
        UsableHas(matchStart, best);
        AlikeFewer(matchStart, best, len);
      }
      SearchedHas(hashHead, tried, best, before);
      forall i, n: nat | 0 <= i < |tried| && n <= MAX_MATCH && n <= lookahead && Alike(tried[i], n)
        ensures n <= len
      {
        ShortHas(tried, best, i);
        if best < n {
          NoLongerMore(tried[i], best, n);
        }
      }
    }

    lemma ShortHas(tried: seq<nat>, n: nat, i: nat)
      requires AllShort(tried, n) && i < |tried|
      ensures NoLonger(tried[i], n)
    {
      hide NoLonger;
    }

    // ---------- the search, held against the input ----------

    ghost function TheRules(): (r: Rules)
    {
      Rules(tuning, hashBits, wsize)
    }

    /** Only excused strings have been kept off the chains. */
    ghost predicate AllExcused()
      reads this`missed, this`ends, this`turns
    {
      forall q :: q in missed ==> Excused(TheRules(), ends, turns, q)
    }

    lemma AgreesIs(m: nat, n: nat)
      requires Held() && m < strstart
      ensures n <= lookahead ==> (Alike(m, n) <==> Agrees(read, base + m, base + strstart, n))
      ensures n > lookahead ==> !Agrees(read, base + m, base + strstart, n)
    {
      hide *;
      HeldHas();
      if n <= lookahead {
        AgreesParts(m, n);
        WindowAgrees(window[..], strstart + lookahead, read, base, m, strstart, n);
        assert window[..][..strstart + lookahead] == window[..strstart + lookahead];
        assert window[..][m..m + n] == window[m..m + n];
        assert window[..][strstart..strstart + n] == window[strstart..strstart + n];
      }
      AgreesFits(read, base + m, base + strstart, n);
    }

    lemma AgreesParts(m: nat, n: nat)
      requires m < strstart && strstart + n <= window.Length
      ensures Alike(m, n) <==> window[m..m + n] == window[strstart..strstart + n]
    {
    }

    lemma KeyIs(p: nat)
      requires Held() && p + 2 < strstart + lookahead
      ensures p + 2 < window.Length && base + p + 2 < |read|
      ensures HashAt(hashBits, window[..], p) == HashAt(hashBits, read, base + p)
    {
      hide *;
      HeldHas();
      assert window[..][..strstart + lookahead] == window[..strstart + lookahead];
      WindowKey(hashBits, window[..], strstart + lookahead, read, base, p);
    }

    /** A candidate is a near string. */
    lemma CandidateNear(q: nat)
      requires Held() && Candidate(q) && lookahead >= 3
      ensures Near(TheRules(), read, base, base + strstart, base + q)
    {
      hide *;
      HeldHas();
      CandidateHas(q);
      RulesIs();
      KeyIs(q);
      KeyIs(strstart);
      LinkedKey(q, HashAt(hashBits, window[..], strstart));
      NearIs(TheRules(), read, base, base + strstart, base + q);
    }

    lemma LinkedKey(q: nat, h: nat)
      requires Linked(hashBits, window[..], linked, h, q)
      ensures q in linked && q + 2 < window.Length && HashAt(hashBits, window[..], q) == h
    {
      hide Hash3;
    }

    /** A near string is on the chain, unless it was missed. */
    lemma NearLinked(q: nat)
      requires Held() && Chained(strstart + 1) && lookahead >= 3 && Near(TheRules(), read, base, base + strstart, q)
      ensures base < q < base + strstart && strstart - (q - base) <= wsize - MIN_LOOKAHEAD
      ensures Linked(hashBits, window[..], linked, HashAt(hashBits, window[..], strstart), q - base) || q in missed
    {
      hide *;
      HeldHas();
      ChainedHas(strstart + 1);
      NearHas(TheRules(), read, base, base + strstart, q);
      RulesIs();
      assert base + (q - base) == q;
      KeyIs(q - base);
      KeyIs(strstart);
      CoversHas(linked, missed, base, strstart + 1, q - base);
      if q - base in linked {
        LinkedNow(q - base, HashAt(hashBits, window[..], strstart));
      }
    }

    lemma LinkedNow(q: nat, h: nat)
      requires q in linked && q + 2 < window.Length && HashAt(hashBits, window[..], q) == h
      ensures Linked(hashBits, window[..], linked, h, q)
    {
      hide Hash3;
    }

    /** The string at strstart has been inserted, with hashHead the head of its chain before. */
    ghost predicate Inserted(hashHead: nat)
      reads this`strstart, this`lookahead, this`linked, this`missed, this`base, window, head, prev
    {
      Chained(strstart + 1) && strstart in linked && strstart + 2 < strstart + lookahead <= window.Length
      && prev.Length > 0 && hashHead == prev[strstart % prev.Length]
    }

    lemma InsertedHas(hashHead: nat)
      requires Inserted(hashHead)
      ensures Chained(strstart + 1) && strstart in linked && lookahead >= 3
      ensures strstart + lookahead <= window.Length && prev.Length > 0 && hashHead == prev[strstart % prev.Length]
      ensures Linked(hashBits, window[..], linked, HashAt(hashBits, window[..], strstart), strstart)
    {
      hide Chains, Covers, Hash3;
    }

    /** What is on the chain has been tried, or comes behind what has been tried. */
    lemma SeenOnChain(hashHead: nat, tried: seq<nat>, q: nat)
      requires Shape() && Inserted(hashHead) && AllCandidates(tried) && q < strstart
      requires Following(tried, prev[..], hashHead, Limit(strstart, wsize))
      requires Linked(hashBits, window[..], linked, HashAt(hashBits, window[..], strstart), q)
      ensures tried != [] && (q in tried || (q < tried[|tried| - 1] && q <= NextOf(tried, prev[..])))
    {
      hide *;
      Sizes();
      ShapeHas();
      InsertedHas(hashHead);
      ChainedHas(strstart + 1);
      FollowingSome(tried, prev[..], hashHead, Limit(strstart, wsize));
      forall i | 0 <= i < |tried|
        ensures Linked(hashBits, window[..], linked, HashAt(hashBits, window[..], strstart), tried[i])
        ensures tried[i] + wsize >= strstart + 1
      {
        CandidateOf(tried, i);
        CandidateHas(tried[i]);
      }
      OnChainIs(hashBits, window[..], linked, HashAt(hashBits, window[..], strstart), tried, strstart + 1, wsize);
      PassedOrSeen(hashBits, head[..], prev[..], window[..], linked, strstart + 1, strstart + lookahead, strstart,
                   HashAt(hashBits, window[..], strstart), tried, Limit(strstart, wsize), |tried| - 1, q);
      NextIs(tried, prev[..]);
    }

    lemma CandidateOf(tried: seq<nat>, i: nat)
      requires AllCandidates(tried) && i < |tried|
      ensures Candidate(tried[i])
    {
      hide Candidate;
    }

    /** Without a head that is near enough, there is nothing to search in. */
    lemma NothingNear(hashHead: nat, q: nat)
      requires Shape() && Held() && Inserted(hashHead) && AllExcused()
      requires hashHead == 0 || strstart - hashHead > wsize - MIN_LOOKAHEAD
      requires Near(TheRules(), read, base, base + strstart, q)
      ensures Excused(TheRules(), ends, turns, q)
    {
      hide *;
      Sizes();
      ShapeHas();
      InsertedHas(hashHead);
      ChainedHas(strstart + 1);
      NearLinked(q);
      if q !in missed {
        ChainFollowed(hashBits, head[..], prev[..], window[..], linked, strstart + 1, strstart + lookahead, strstart,
                      HashAt(hashBits, window[..], strstart));
        NoneHas(hashBits, window[..], linked, HashAt(hashBits, window[..], strstart), hashHead, strstart, q - base);
      } else {
        ExcusedOf(q);
      }
    }

    lemma ExcusedOf(q: nat)
      requires AllExcused() && q in missed
      ensures Excused(TheRules(), ends, turns, q)
    {
      hide Excused;
    }

    lemma ListedNone(hashHead: nat)
      requires Shape() && Held() && Inserted(hashHead) && AllExcused()
      requires hashHead == 0 || strstart - hashHead > wsize - MIN_LOOKAHEAD
      ensures Listed(TheRules(), read, ends, turns, base, base + strstart, [])
    {
      hide *;
      forall q: nat | Near(TheRules(), read, base, base + strstart, q)
        ensures Excused(TheRules(), ends, turns, q)
      {
        NothingNear(hashHead, q);
      }
      ListedEmpty(TheRules(), read, ends, turns, base, base + strstart);
    }

    /** A near string that has not been tried is excused, or comes behind those tried. */
    lemma NearTried(hashHead: nat, tried: seq<nat>, q: nat)
      requires Shape() && Held() && Inserted(hashHead) && AllExcused() && AllCandidates(tried)
      requires Following(tried, prev[..], hashHead, Limit(strstart, wsize))
      requires Near(TheRules(), read, base, base + strstart, q)
      ensures base < q && tried != []
      ensures q in Raised(tried, base) || Excused(TheRules(), ends, turns, q)
        || (q < base + tried[|tried| - 1] && q <= base + NextOf(tried, prev[..]))
    {
      hide *;
      InsertedHas(hashHead);
      NearLinked(q);
      FollowingSome(tried, prev[..], hashHead, Limit(strstart, wsize));
      if q in missed {
        ExcusedOf(q);
      } else {
        SeenOnChain(hashHead, tried, q - base);
        if q - base in tried {
          RaisedHas(tried, base, q - base);
          assert base + (q - base) == q;
        }
      }
    }

    lemma TriedListed(hashHead: nat, tried: seq<nat>)
      requires Shape() && Held() && Inserted(hashHead) && AllExcused() && AllCandidates(tried)
      requires Following(tried, prev[..], hashHead, Limit(strstart, wsize))
      ensures Listed(TheRules(), read, ends, turns, base, base + strstart, Raised(tried, base))
    {
      hide *;
      Sizes();
      InsertedHas(hashHead);
      var up, r, pos := Raised(tried, base), TheRules(), base + strstart;
      FollowingSome(tried, prev[..], hashHead, Limit(strstart, wsize));
      RaisedIs(tried, base);
      forall i | 0 <= i < |up| ensures Near(r, read, base, pos, up[i]) {
        CandidateOf(tried, i);
        CandidateNear(tried[i]);
      }
      forall i, j | 0 <= i < j < |up| ensures up[j] < up[i] {
        Descending(hashHead, tried, i, j);
      }
      forall q: nat | Near(r, read, base, pos, q) && (up == [] || q >= up[|up| - 1])
        ensures q in up || Excused(r, ends, turns, q)
      {
        NearTried(hashHead, tried, q);
      }
      ListedIs(r, read, ends, turns, base, pos, up);
    }

    /** A chain goes back in the window. */
    lemma {:induction false} Descending(hashHead: nat, tried: seq<nat>, i: nat, j: nat)
      requires Shape() && Chained(strstart + 1) && AllCandidates(tried) && i < j < |tried|
      requires Following(tried, prev[..], hashHead, Limit(strstart, wsize))
      ensures tried[j] < tried[i]
      decreases j
    {
      hide *;
      ShapeHas();
      CandidateOf(tried, j - 1);
      NextCandidate(tried[j - 1]);
      FollowingStep(tried, prev[..], hashHead, Limit(strstart, wsize), j);
      if i < j - 1 {
        Descending(hashHead, tried, i, j - 1);
      }
    }

    lemma TriedExhausted(hashHead: nat, tried: seq<nat>)
      requires Shape() && Held() && Inserted(hashHead) && AllExcused() && AllCandidates(tried)
      requires Following(tried, prev[..], hashHead, Limit(strstart, wsize))
      requires NextOf(tried, prev[..]) <= Limit(strstart, wsize)
      ensures Exhausted(TheRules(), read, ends, turns, base, base + strstart, Raised(tried, base))
    {
      hide *;
      Sizes();
      ShapeHas();
      LimitIs(strstart, wsize);
      var up, r, pos := Raised(tried, base), TheRules(), base + strstart;
      RulesIs();
      forall q: nat | Near(r, read, base, pos, q) && pos - q < r.wsize - MIN_LOOKAHEAD
        ensures q in up || Excused(r, ends, turns, q)
      {
        NearTried(hashHead, tried, q);
      }
      ExhaustedIs(r, read, ends, turns, base, pos, up);
    }

    lemma RulesIs()
      ensures TheRules() == Rules(tuning, hashBits, wsize)
    {
    }

    /** None of the strings tried is longer than what was found. */
    lemma TriedNoneLonger(tried: seq<nat>, best: nat)
      requires Held() && AllCandidates(tried) && AllShort(tried, best)
      ensures NoneLonger(read, Raised(tried, base), base + strstart, Least(best, lookahead))
    {
      hide *;
      var up, n, pos := Raised(tried, base), Least(best, lookahead), base + strstart;
      LeastIs(best, lookahead);
      RaisedIs(tried, base);
      forall i, k: nat | 0 <= i < |up| && k <= MAX_MATCH && Agrees(read, up[i], pos, k) ensures k <= n {
        CandidateOf(tried, i);
        CandidateHas(tried[i]);
        AgreesIs(tried[i], k);
        ShortHas(tried, best, i);
        if best < k {
          NoLongerMore(tried[i], best, k);
        }
      }
      NoneLongerIs(read, up, pos, n);
    }

    lemma TriedFirst(tried: seq<nat>, n: nat)
      requires Held() && AllCandidates(tried) && FirstOf(tried, matchStart, n) && n <= lookahead
      ensures FirstAt(read, Raised(tried, base), base + strstart, base + matchStart, n)
    {
      hide *;
      var up := Raised(tried, base);
      RaisedIs(tried, base);
      var i := FirstWhere(tried, matchStart, n);
      CandidateOf(tried, i);
      CandidateHas(tried[i]);
      AgreesIs(tried[i], n);
      forall j | 0 <= j < i ensures !Agrees(read, up[j], base + strstart, n) {
        CandidateOf(tried, j);
        CandidateHas(tried[j]);
        AgreesIs(tried[j], n);
      }
      FirstAtIs(read, up, base + strstart, base + matchStart, n, i);
    }

    lemma FirstWhere(tried: seq<nat>, m: int, n: nat) returns (i: nat)
      requires FirstOf(tried, m, n)
      ensures i < |tried| && tried[i] == m && Alike(m, n) && forall j :: 0 <= j < i ==> !Alike(tried[j], n)
    {
      hide Alike;
      i :| 0 <= i < |tried| && tried[i] == m && Alike(m, n) && forall j :: 0 <= j < i ==> !Alike(tried[j], n);
    }

    lemma TriedEarly(tried: seq<nat>, before: nat, t: Turn)
      requires Held() && AllCandidates(tried) && tried != [] && AllShort(tried[..|tried| - 1], before)
      requires before == prevLength || before < Least(tuning.niceMatch, lookahead)
      requires t.Look? && t.tried == Raised(tried, base) && t.pos == base + strstart
      ensures t.pos <= |read| && Early(TheRules(), read, t, prevLength)
    {
      hide *;
      HeldHas();
      RulesIs();
      RaisedIs(tried, base);
      var nice := Least(tuning.niceMatch, lookahead);
      forall i | 0 <= i < |t.tried| - 1 ensures NotEnough(read, t.tried[i], t.pos, prevLength, nice) {
        OneEarly(tried, before, i, nice);
      }
      EarlyIs(TheRules(), read, t, prevLength);
    }

    lemma OneEarly(tried: seq<nat>, before: nat, i: nat, nice: nat)
      requires Held() && AllCandidates(tried) && i < |tried| - 1 && AllShort(tried[..|tried| - 1], before)
      requires before == prevLength || before < nice
      ensures NotEnough(read, base + tried[i], base + strstart, prevLength, nice)
    {
      hide *;
      CandidateOf(tried, i);
      CandidateHas(tried[i]);
      assert tried[..|tried| - 1][i] == tried[i];
      ShortHas(tried[..|tried| - 1], before, i);
      var q, pos := base + tried[i], base + strstart;
      forall k: nat | prevLength < k <= MAX_MATCH && nice <= k ensures !Agrees(read, q, pos, k) {
        AgreesIs(tried[i], k);
        NoLongerMore(tried[i], before, k);
      }
      NotEnoughIs(read, q, pos, prevLength, nice);
    }

    /** The search has done what it is to do. */
    lemma SearchSought(hashHead: nat, tried: seq<nat>, best: nat, before: nat, t: Turn)
      requires Shape() && Held() && Inserted(hashHead) && AllExcused()
      requires Searched(hashHead, tried, best, before)
      requires t.Look? && t.pos == base + strstart && t.low == base && t.tried == Raised(tried, base)
        && t.at == base + matchStart && t.found == Least(best, lookahead)
      ensures Sought(TheRules(), read, ends, turns, t, prevLength)
    {
      hide *;
      HeldHas();
      RulesIs();
      SearchedHas(hashHead, tried, best, before);
      LeastIs(best, lookahead);
      LeastIs(prevLength, lookahead);
      LeastIs(tuning.niceMatch, lookahead);
      TriedListed(hashHead, tried);
      RaisedIs(tried, base);
      TriedNoneLonger(tried, best);
      if t.found > prevLength {
        TriedFirst(tried, t.found);
      }
      if NextOf(tried, prev[..]) <= Limit(strstart, wsize) {
        TriedExhausted(hashHead, tried);
      }
      TriedEarly(tried, before, t);
      SoughtIs(TheRules(), read, ends, turns, t, prevLength);
    }

    // ---------- the symbols ----------

    /** There is room for another symbol. */
    ghost predicate Room()
      reads enc
    {
      enc.symNext < 3 * (enc.litBufsize - 1)
    }

    /** The blocks sent and the symbols tallied stand for the input up to `upto`. */
    ghost predicate Story(upto: int)
      reads this`blocks, this`made, this`tokens, this`base, this`blockStart, this`read, this`output, this`starts,
        this`anew, enc, enc.symBuf, enc.lfc, enc.dfc, enc.bfc, enc.b, enc.w, enc.slfc, enc.sldl, enc.sdfc, enc.sddl
    {
      0 <= base + blockStart && 0 <= upto && enc.Valid() && AllWritable(blocks)
      && Told(wsize, blocks, enc.Tokens(), base + blockStart, upto, read) && enc.w.Stream() == Sent(blocks, false)
      && output <= enc.w.pending && Accounted(blocks, made, tuning.fixed, tokens, enc.Tokens())
      && anew.since in starts
      && Afresh(wsize, blocks, enc.Tokens(), base + blockStart, upto, read, enc.w.pending, anew)
    }

    lemma StoryHas(upto: int)
      requires Story(upto)
      ensures 0 <= base + blockStart <= upto <= |read| && enc.Valid() && enc.Syms() && AllWritable(blocks)
      ensures Told(wsize, blocks, enc.Tokens(), base + blockStart, upto, read) && enc.w.Stream() == Sent(blocks, false)
      ensures output <= enc.w.pending && Accounted(blocks, made, tuning.fixed, tokens, enc.Tokens())
      ensures anew.since in starts
      ensures Afresh(wsize, blocks, enc.Tokens(), base + blockStart, upto, read, enc.w.pending, anew)
    {
      hide Told, Sent, Encoder.Valid, AllWritable, Encoder.Tokens, Encoder.Tallied, Encoder.Static, Encoder.Layout,
        Encoder.Syms, Accounted, Afresh;
      enc.ValidParts();
      ToldHas(wsize, blocks, enc.Tokens(), base + blockStart, upto, read);
    }

    lemma StoryIs(upto: int)
      requires 0 <= base + blockStart && 0 <= upto && enc.Valid() && AllWritable(blocks)
      requires Told(wsize, blocks, enc.Tokens(), base + blockStart, upto, read) && enc.w.Stream() == Sent(blocks, false)
      requires output <= enc.w.pending && Accounted(blocks, made, tuning.fixed, tokens, enc.Tokens())
      requires anew.since in starts
      requires Afresh(wsize, blocks, enc.Tokens(), base + blockStart, upto, read, enc.w.pending, anew)
      ensures Story(upto)
    {
      hide Told, Sent, Encoder.Valid, AllWritable, Encoder.Tokens, Accounted, Afresh;
    }

    lemma RoomHas()
      ensures Room() <==> enc.symNext < 3 * (enc.litBufsize - 1)
    {
    }

    /** Tally a literal byte (_tr_tally_lit). */
    method TallyLit(c: Byte, ghost upto: nat) returns (full: bool)
      requires Story(upto) && Room() && upto < |read| && c == read[upto] && this !in enc.Repr()
      modifies enc.Repr(), this`tokens
      ensures Story(upto + 1) && (full <==> !Room()) && enc.symNext == old(enc.symNext) + 3
      ensures tokens == old(tokens) + [Literal(c)]
    {
      hide *;
      enc.ReprHas();
      RoomHas();
      StoryHas(upto);
      ghost var ts := enc.Tokens();
      full := enc.TrTally(0, c);
      ToldLiteral(wsize, blocks, ts, base + blockStart, upto, read);
      AccountedToken(blocks, made, tuning.fixed, tokens, ts, Literal(c));
      AfreshLiteral(wsize, blocks, ts, base + blockStart, upto, read, enc.w.pending, anew);
      tokens := tokens + [Literal(c)];
      StoryIs(upto + 1);
      enc.ValidParts();
      RoomHas();
    }

    /** Tally a match (_tr_tally_dist). */
    method TallyDist(dist: nat, len: nat, ghost upto: nat) returns (full: bool)
      requires Story(upto) && Room() && this !in enc.Repr()
      requires 3 <= len <= 258 && 1 <= dist <= 32768 && dist <= wsize && Repeats(read, upto, dist, len)
      requires anew.since + dist <= upto
      modifies enc.Repr(), this`tokens
      ensures Story(upto + len) && (full <==> !Room()) && tokens == old(tokens) + [Match(len, dist)]
    {
      hide *;
      enc.ReprHas();
      RoomHas();
      StoryHas(upto);
      ghost var ts := enc.Tokens();
      full := enc.TrTally(dist, len - 3);
      ToldMatch(wsize, blocks, ts, base + blockStart, upto, read, dist, len);
      AccountedToken(blocks, made, tuning.fixed, tokens, ts, Match(len, dist));
      AfreshMatch(wsize, blocks, ts, base + blockStart, upto, read, enc.w.pending, anew, dist, len);
      tokens := tokens + [Match(len, dist)];
      StoryIs(upto + len);
      enc.ValidParts();
      RoomHas();
    }

    /** The stream is complete. */
    ghost predicate Closed()
      reads this`blocks, this`made, this`tokens, this`read, this`output, this`anew, enc.w
    {
      enc.w.Valid() && enc.w.Stream() == BytesToBits(enc.w.pending) && AllWritable(blocks) && blocks != []
      && Told(wsize, blocks, [], |read|, |read|, read) && enc.w.Stream() == Sent(blocks, true)
      && output <= enc.w.pending && Accounted(blocks, made, tuning.fixed, tokens, [])
      && anew.cut < |blocks| && Afresh(wsize, blocks, [], |read|, |read|, read, enc.w.pending, anew)
    }

    lemma ClosedIs()
      requires AllWritable(blocks) && blocks != [] && Told(wsize, blocks, [], |read|, |read|, read)
      requires enc.w.Valid() && enc.w.Stream() == BytesToBits(enc.w.pending) == Sent(blocks, true)
        && output <= enc.w.pending
      requires Accounted(blocks, made, tuning.fixed, tokens, [])
      requires anew.cut < |blocks| && Afresh(wsize, blocks, [], |read|, |read|, read, enc.w.pending, anew)
      ensures Closed()
    {
    }

    lemma ClosedHas()
      requires Closed()
      ensures AllWritable(blocks) && blocks != [] && Told(wsize, blocks, [], |read|, |read|, read)
      ensures enc.w.Stream() == BytesToBits(enc.w.pending) == Sent(blocks, true)
      ensures enc.w.Valid() && output <= enc.w.pending && Accounted(blocks, made, tuning.fixed, tokens, [])
      ensures anew.cut < |blocks| && Afresh(wsize, blocks, [], |read|, |read|, read, enc.w.pending, anew)
    {
    }

    /** Hand out as much of the stream as there is room for (flush_pending). */
    method FlushPending()
      requires enc.w.Valid() && output <= enc.w.pending
      modifies enc.w, this`output, this`avail
      ensures enc.w.Valid() && enc.w.Stream() == old(enc.w.Stream()) && old(enc.w.pending) <= enc.w.pending
      ensures enc.w.biValid <= 7
      ensures old(enc.w.Stream() == BytesToBits(enc.w.pending)) ==>
        enc.w.Stream() == BytesToBits(enc.w.pending) && enc.w.pending == old(enc.w.pending)
      ensures old(output) <= output <= enc.w.pending && |output| + avail == |old(output)| + old(avail)
      ensures avail == 0 || output == enc.w.pending
    {
      hide *;
      enc.w.BiFlush();
      StreamLong(enc.w);
      NoneHeld(old(enc.w.pending), enc.w.pending, enc.w.Stream());
      var left := |enc.w.pending| - |output|;
      var len := if left > avail then avail else left;
      output := output + enc.w.pending[|output|..|output| + len];
      avail := avail - len;
    }

    lemma StreamLong(w: Writer)
      ensures |w.Stream()| >= |BytesToBits(w.pending)|
    {
      hide BytesToBits;
    }

    lemma EmptyStream(w: Writer)
      requires w.Stream() == []
      ensures w.pending == []
    {
      hide BytesToBits;
    }

    lemma NoneHeld(p: seq<Byte>, q: seq<Byte>, stream: BitString)
      requires p <= q && |stream| >= |BytesToBits(q)|
      ensures stream == BytesToBits(p) ==> p == q
    {
      hide BytesToBits;
    }

    /** The raw bytes of the block, if they are still in the window. */
    ghost function RawBytes(): (buf: Option<seq<Byte>>)
      reads this`strstart, this`blockStart, this`base, this`read
    {
      if 0 <= blockStart <= strstart && base + strstart <= |read| then Some(read[base + blockStart..base + strstart])
      else None
    }

    lemma RawBytesIs()
      ensures 0 <= blockStart <= strstart && base + strstart <= |read| ==>
                RawBytes() == Some(read[base + blockStart..base + strstart])
      ensures blockStart < 0 ==> RawBytes() == None
    {
    }

    /** Send the symbols as a block: the buffer is full, or the input is at its end. */
    method SendBlock(last: bool)
      requires Shape() && Held() && Story(base + strstart) && (last ==> lookahead == 0)
      requires !Room() || lookahead == 0
      requires blockStart >= 0 ==> strstart - blockStart <= 65535
      modifies enc.Repr(), this`blockStart, this`blocks, this`made
      ensures blockStart == strstart && enc.symNext == 0
      ensures |made| == |old(made)| + 1 && made[..|old(made)|] == old(made) && made[|old(made)|].Made?
      ensures old(enc.Syms()) && made[|old(made)|].ts == old(enc.Tokens()) && made[|old(made)|].last == last
        && made[|old(made)|].buf == old(RawBytes())
      ensures !last ==> Story(base + strstart) && Room()
      ensures last ==> Closed()
    {
      hide *;
      ShapeHas();
      HeldHas();
      enc.ReprHas();
      StoryHas(base + strstart);
      ghost var ts, from, bs, u, p := enc.Tokens(), base + blockStart, blocks, enc.w.Stream(), enc.w.pending;
      RawBytesIs();
      var buf := None;
      if blockStart >= 0 {
        buf := Some(window[blockStart..strstart]);
        Kept(window[..], strstart + lookahead, base, read, blockStart, strstart);
        assert window[..][blockStart..strstart] == window[blockStart..strstart];
      }
      ghost var blk, marks, dyn, lt, dt := enc.TrFlushBlock(buf, strstart - blockStart, last, true, tuning.fixed);
      Prefixes(output, p, enc.w.pending);
      TellBlock(blk, Made(ts, dyn, lt, dt, buf, last, |u|), from, base + strstart, p);
      blockStart := strstart;
      EncoderRoom();
      RoomHas();
      if last {
        enc.ValidParts();
        ClosedIs();
      } else {
        StoryIs(base + strstart);
      }
    }

    /** Note the block that has been sent. */
    ghost method TellBlock(blk: Block, m: Made, from: nat, upto: nat, p: seq<Byte>)
      requires m.Made? && Chosen(blk, m.dyn, m.ts, m.buf, m.last, m.pos, true, tuning.fixed)
        && BuiltFrom(m.dyn, m.lt, m.dt)
      requires AllWritable(blocks) && Told(wsize, blocks, m.ts, from, upto, read) && p <= enc.w.pending
      requires Accounted(blocks, made, tuning.fixed, tokens, m.ts)
      requires Afresh(wsize, blocks, m.ts, from, upto, read, p, anew)
      requires m.buf.Some? ==> upto <= |read| && from <= upto && m.buf.value == read[from..upto]
      modifies this`blocks, this`made
      ensures blocks == old(blocks) + [blk] && made == old(made) + [m] && Writable(blk)
      ensures AllWritable(blocks) && Sent(blocks, m.last) == BlockSent(Sent(old(blocks), false), blk, m.last)
      ensures upto <= |read| && Told(wsize, blocks, [], upto, upto, read)
      ensures Accounted(blocks, made, tuning.fixed, tokens, []) && anew.cut < |blocks|
      ensures Afresh(wsize, blocks, [], upto, upto, read, enc.w.pending, anew)
    {
      hide *;
      var bs := blocks;
      ToldHas(wsize, bs, m.ts, from, upto, read);
      ToldFlush(wsize, bs, m.ts, from, upto, read, blk, m.dyn, m.buf, m.last, m.pos, tuning.fixed);
      SentMore(bs, blk, m.last);
      MadeFromIs(blk, m, tuning.fixed);
      AccountedBlock(bs, made, tuning.fixed, tokens, m.ts, blk, m);
      AfreshFlush(wsize, bs, m.ts, from, upto, read, p, anew, blk, m.dyn, m.buf, m.last, m.pos, tuning.fixed);
      AfreshPending(wsize, bs + [blk], [], upto, upto, read, p, anew, enc.w.pending);
      AfreshHas(wsize, bs, m.ts, from, upto, read, p, anew);
      blocks, made := blocks + [blk], made + [m];
    }

    /** Send the symbols as a block and hand out what there is room for (FLUSH_BLOCK_ONLY). */
    method FlushBlockOnly(last: bool)
      requires Shape() && Held() && Story(base + strstart) && (last ==> lookahead == 0)
      requires !Room() || lookahead == 0
      requires blockStart >= 0 ==> strstart - blockStart <= 65535
      modifies enc.Repr(), this`blockStart, this`blocks, this`made, this`output, this`avail
      ensures blockStart == strstart && enc.symNext == 0 && |made| == |old(made)| + 1
      ensures !last ==> Story(base + strstart) && Room()
      ensures last ==> Closed()
      ensures old(output) <= output && |output| + avail == |old(output)| + old(avail)
      ensures avail == 0 || output == enc.w.pending
    {
      hide *;
      ShapeHas();
      enc.ReprHas();
      SendBlock(last);
      if last {
        FlushClosed();
      } else {
        FlushStory(base + strstart);
      }
    }

    method FlushClosed()
      requires Shape() && Closed()
      modifies enc.w, this`output, this`avail
      ensures Closed()
      ensures old(output) <= output && |output| + avail == |old(output)| + old(avail)
      ensures avail == 0 || output == enc.w.pending
    {
      hide *;
      ShapeHas();
      enc.ReprHas();
      ClosedHas();
      ghost var p := enc.w.pending;
      FlushPending();
      AfreshPending(wsize, blocks, [], |read|, |read|, read, p, anew, enc.w.pending);
      ClosedIs();
    }

    method FlushStory(ghost upto: int)
      requires Shape() && Story(upto)
      modifies enc.w, this`output, this`avail
      ensures Story(upto) && (old(Room()) ==> Room())
      ensures old(enc.w.Stream() == BytesToBits(enc.w.pending)) ==>
        enc.w.Stream() == BytesToBits(enc.w.pending) && enc.w.pending == old(enc.w.pending)
      ensures old(output) <= output && |output| + avail == |old(output)| + old(avail)
      ensures enc.w.biValid <= 7
      ensures avail == 0 || output == enc.w.pending
    {
      hide *;
      ShapeHas();
      enc.ReprHas();
      RoomHas();
      StoryHas(upto);
      enc.ValidParts();
      ghost var p := enc.w.pending;
      FlushPending();
      AfreshPending(wsize, blocks, enc.Tokens(), base + blockStart, upto, read, p, anew, enc.w.pending);
      enc.ValidIs();
      StoryIs(upto);
      RoomHas();
    }

    lemma Prefixes(a: seq<Byte>, b: seq<Byte>, c: seq<Byte>)
      requires a <= b <= c
      ensures a <= c
    {
    }

    // ---------- what all strategies keep ----------

    /** The window, the chains and the story of what was sent are sound. */
    ghost predicate Settled(upto: int)
      reads this`strstart, this`lookahead, this`insert, this`read, this`base, this`linked, this`blocks, this`made,
        this`tokens, this`missed, this`starts, this`anew, this`blockStart, this`output, window, head, prev, enc,
        enc.symBuf, enc.lfc, enc.dfc, enc.bfc, enc.b, enc.w, enc.slfc, enc.sldl, enc.sdfc, enc.sddl
    {
      Shape() && Held() && insert <= 2 && insert <= strstart && Chained(strstart - insert) && Story(upto)
    }

    lemma SettledHas(upto: int)
      requires Settled(upto)
      ensures Shape() && Held() && insert <= 2 && insert <= strstart && Chained(strstart - insert) && Story(upto)
    {
      hide Chained, Story, Held, Shape;
    }

    lemma ShapeIsSettled(upto: int)
      requires Settled(upto)
      ensures Shape() && 9 <= wbits <= 15 && 512 <= wsize <= 32768
      ensures window.Length == 2 * wsize && prev.Length == wsize && head.Length == Pow2(hashBits) && head != prev
      ensures window !in enc.Repr() && prev !in enc.Repr() && head !in enc.Repr() && this !in enc.Repr()
    {
      hide *;
      SettledHas(upto);
      ShapeHas();
    }

    lemma SettledIs(upto: int)
      requires Shape() && Held() && insert <= 2 && insert <= strstart && Chained(strstart - insert) && Story(upto)
      ensures Settled(upto)
    {
      hide Chained, Story, Held, Shape;
    }

    /** Have the window filled. */
    method MoreLookahead(ghost upto: nat)
      requires Settled(upto) && lookahead < MIN_LOOKAHEAD
      modifies window, head, prev, this`strstart, this`lookahead, this`blockStart, this`matchStart, this`insert,
        this`insH, this`highWater, this`nextIn, this`read, this`base, this`linked
      ensures Settled(upto) && (old(Ready()) ==> Ready()) && (old(Room()) ==> Room())
      ensures strstart + MIN_LOOKAHEAD <= window.Length && (lookahead < MIN_LOOKAHEAD ==> nextIn == [])
      ensures base + strstart == old(base + strstart) && base + matchStart == old(base + matchStart)
      ensures base + blockStart == old(base + blockStart)
      ensures old(read) <= read && read + nextIn == old(read) + old(nextIn)
      ensures insert <= old(insert) && (strstart == old(strstart) || strstart >= 1)
    {
      hide *;
      SettledHas(upto);
      Sizes();
      ShapeHas();
      enc.ReprHas();
      StoryHas(upto);
      ghost var r, ts, from := read, enc.Tokens(), base + blockStart;
      FillWindow();
      Appended(r, read);
      ToldMore(wsize, blocks, ts, from, upto, r, read[|r|..]);
      AfreshMore(wsize, blocks, ts, from, upto, r, enc.w.pending, anew, read[|r|..]);
      StoryIs(upto);
      SettledIs(upto);
    }

    /** Go on by n bytes; the strings from `next` up to next' are not inserted. */
    method Advance(n: nat, ghost next: nat, ghost next': nat)
      requires Held() && Chained(next) && n <= lookahead && next <= next'
      modifies this`strstart, this`lookahead, this`missed
      ensures Held() && Chained(next') && strstart == old(strstart) + n && lookahead == old(lookahead) - n
      ensures missed == old(missed) + Stretch(base + next, base + next') && (next == next' ==> missed == old(missed))
    {
      hide *;
      HeldHas();
      Raise(next, next');
      ChainedHas(next');
      RootedOn(starts, base, strstart, wsize, strstart + n);
      strstart := strstart + n;
      lookahead := lookahead - n;
      HeldIs();
      ChainedIs(next');
    }

    /** The strings from `next` up to next' are not inserted. */
    ghost method Raise(next: nat, next': nat)
      requires Held() && Chained(next) && next <= next'
      modifies this`missed
      ensures Held() && Chained(next') && missed == old(missed) + Stretch(base + next, base + next')
      ensures next == next' ==> missed == old(missed)
    {
      hide *;
      HeldHas();
      ChainedHas(next);
      ChainsKept(hashBits, head[..], prev[..], window[..], linked, next, strstart + lookahead, window[..], next',
                 strstart + lookahead);
      CoversMissed(linked, missed, base, next, next');
      NoStretch(missed, base + next);
      missed := missed + Stretch(base + next, base + next');
      HeldIs();
      ChainedIs(next');
    }

    /** What is alike in the window repeats in the input. */
    lemma AlikeRepeats(m: nat, n: nat)
      requires Held() && Alike(m, n) && n <= lookahead
      ensures Repeats(read, base + strstart, strstart - m, n)
    {
      hide *;
      HeldHas();
      AlikeHas(m, n);
      Kept(window[..], strstart + lookahead, base, read, m, m + n);
      Kept(window[..], strstart + lookahead, base, read, strstart, strstart + n);
      assert window[..][m..m + n] == window[m..m + n]
          && window[..][strstart..strstart + n] == window[strstart..strstart + n];
      SlicesRepeat(read, base + m, base + strstart, n);
    }

    /** The window starts no earlier than the history. */
    lemma SinceBase(upto: int)
      requires Held() && Story(upto)
      ensures anew.since <= base
    {
      hide *;
      HeldHas();
      StoryHas(upto);
      RootedHas(starts, base, strstart, wsize);
    }

    // ---------- where the parse stands ----------

    ghost function Now(): (p: Parse)
      reads this`tokens, this`base, this`strstart, this`matchAvailable, this`matchLength, this`matchStart
    {
      Parse(tokens, base + strstart, matchAvailable, if tuning.strategy.Slow? then matchLength else 2,
            if tuning.strategy.Slow? && matchLength >= 3 then base + matchStart else 0)
    }

    lemma NowIs()
      ensures Now() == Parse(tokens, base + strstart, matchAvailable, if tuning.strategy.Slow? then matchLength else 2,
                             if tuning.strategy.Slow? && matchLength >= 3 then base + matchStart else 0)
    {
    }

    /** All decisions so far are those that the strategy calls for, and they have led to where the compressor is. */
    ghost predicate Parses()
      reads this`read, this`ends, this`starts, this`turns, this`missed, this`tokens, this`base, this`strstart,
        this`matchAvailable, this`matchLength, this`matchStart
    {
      Parsed(TheRules(), read, Marks(ends, starts), turns, missed, Now())
    }

    lemma ParsesHas()
      requires Parses()
      ensures Parsed(TheRules(), read, Marks(ends, starts), turns, missed, Now())
      ensures tuning.strategy.Slow? || tuning.strategy.Fast? ==> AllExcused()
    {
      hide Excused, Lawful, Replay;
    }

    lemma ParsesIs()
      requires Parsed(TheRules(), read, Marks(ends, starts), turns, missed, Now())
      ensures Parses()
    {
      hide Parsed;
    }

    /** The parse stands where it stood, and more input is known. */
    lemma ParsesStill(r: seq<Byte>, now: Parse)
      requires Parsed(TheRules(), r, Marks(ends, starts), turns, missed, now) && r <= read && Now() == now
      ensures Parses()
    {
      hide *;
      ParsedMore(TheRules(), r, Marks(ends, starts), turns, missed, now, read, Marks(ends, starts));
      ParsesIs();
    }

    /** Enough of the input is known for a decision. */
    ghost predicate InSight()
      reads this`lookahead, this`read, this`ends
    {
      lookahead > 0 && (lookahead >= Ahead(tuning.strategy) || |read| in ends)
    }

    lemma InSightHas()
      requires InSight()
      ensures lookahead > 0 && (lookahead >= Ahead(tuning.strategy) || |read| in ends)
    {
    }

    lemma InSightIs()
      requires lookahead > 0 && (lookahead >= Ahead(tuning.strategy) || |read| in ends)
      ensures InSight()
    {
    }

    /** A decision here and now. */
    lemma LawfulNow(t: Turn, now: Parse)
      requires Held() && InSight() && t.Look? && now.pos == base + strstart
      requires t.pos == base + strstart && t.end == |read| && t.low == base
      requires if tuning.strategy.Slow? then now.waits ==>
        t.pos >= 1 && t.lit == read[t.pos - 1] else t.lit == read[t.pos]
      requires LookedFor(TheRules(), read, ends, turns, t, now.len)
      ensures LawfulTurn(TheRules(), read, Marks(ends, starts), turns, now, t)
    {
      hide Rooted, LookedFor;
      RootedHas(starts, base, strstart, wsize);
      assert read[..|read|] == read;
    }

    /** Note a decision and what has come of it. */
    ghost method Record(t: Turn, now: Parse, was: set<nat>)
      requires Parsed(TheRules(), read, Marks(ends, starts), turns, was, now)
      requires LawfulTurn(TheRules(), read, Marks(ends, starts), turns, now, t)
      requires Now() == Next(tuning.strategy, now, t)
      requires tuning.strategy.Slow? || tuning.strategy.Fast? ==>
        forall q :: q in missed && q !in was ==> Excused(TheRules(), ends, turns + [t], q)
      modifies this`turns
      ensures Parses() && turns == old(turns) + [t]
    {
      hide *;
      RulesIs();
      ParsedTurn(TheRules(), read, Marks(ends, starts), turns, was, now, t, missed);
      turns := turns + [t];
      ParsesIs();
    }

    // ---------- deflate_fast ----------

    /** A match for the string at strstart has been found. */
    ghost predicate Found(m: int, n: nat)
      reads this`strstart, this`lookahead, window
    {
      3 <= n <= lookahead && n <= MAX_MATCH && 0 < m < strstart && strstart - m <= wsize - MIN_LOOKAHEAD && Alike(m, n)
    }

    lemma FoundHas(m: int, n: nat)
      requires Found(m, n)
      ensures 3 <= n <= lookahead && n <= MAX_MATCH && 0 < m < strstart && strstart - m <= wsize - MIN_LOOKAHEAD
        && Alike(m, n)
    {
      hide Alike;
    }

    lemma FoundIs(m: int, n: nat)
      requires 3 <= n <= lookahead && n <= MAX_MATCH && 0 < m < strstart && strstart - m <= wsize - MIN_LOOKAHEAD
        && Alike(m, n)
      ensures Found(m, n)
    {
      hide Alike;
    }

    /** Insert the string at strstart, if it has three bytes; where to start the search, if anywhere. */
    method InsertHere() returns (hashHead: nat)
      requires Shape() && Held() && insert <= strstart && Chained(strstart - insert) && Ready()
      modifies this`insH, this`linked, head, prev
      ensures lookahead >= 3 ==> insert == 0 && Inserted(hashHead) && Primed(hashBits, insH, window[..], strstart + 1)
      ensures lookahead < 3 ==> Chained(strstart - insert) && hashHead == 0
      ensures hashHead != 0 && strstart - hashHead <= wsize - MIN_LOOKAHEAD ==> Candidate(hashHead)
    {
      hide *;
      Sizes();
      HeldHas();
      ShapeHas();
      hashHead := 0;
      if lookahead >= MIN_MATCH {
        ReadyHas();
        ghost var p := prev[..];
        hashHead := InsertString(strstart);
        SlotSet(p, strstart, hashHead);
        assert prev[..][strstart % wsize] == prev[strstart % wsize];
        InsertedIs(hashHead);
        if hashHead != 0 && strstart - hashHead <= wsize - MIN_LOOKAHEAD {
          CandidateIs(hashHead);
        }
      }
    }

    lemma InsertedIs(hashHead: nat)
      requires Chained(strstart + 1) && strstart in linked && strstart + 2 < strstart + lookahead <= window.Length
      requires prev.Length > 0 && hashHead == prev[strstart % prev.Length]
      ensures Inserted(hashHead)
    {
      hide Chained;
    }

    /** Insert the string at strstart and look for a match; the decision is t. */
    method FastFind() returns (ghost t: Turn)
      requires Shape() && Held() && insert <= strstart && Chained(strstart - insert) && Ready() && AllExcused()
      requires strstart + MIN_LOOKAHEAD <= window.Length && prevLength == 2 && matchLength < 3
      modifies this`insH, this`linked, this`matchStart, this`matchLength, head, prev
      ensures lookahead >= 3 ==>
        insert == 0 && Chained(strstart + 1) && Primed(hashBits, insH, window[..], strstart + 1)
      ensures lookahead < 3 ==> Chained(strstart - insert)
      ensures matchLength < 3 || Found(matchStart, matchLength)
      ensures t.Look? && t.pos == base + strstart && t.end == |read| && t.low == base && t.lit == window[strstart]
        && t.at == base + matchStart && t.len == if matchLength >= 3 then matchLength else 2
      ensures FastLook(TheRules(), read, ends, turns, t)
    {
      hide *;
      Sizes();
      var hashHead := InsertHere();
      HeldHas();
      t := Look(base + strstart, |read|, base, window[strstart], [], 0, base + matchStart, 2);
      if lookahead >= 3 {
        InsertedHas(hashHead);
      }
      if hashHead != 0 && strstart - hashHead <= wsize - MIN_LOOKAHEAD {
        ghost var tried, best, before;
        matchLength, tried, best, before := LongestMatch(hashHead);
        if matchLength >= 3 {
          FoundIs(matchStart, matchLength);
        }
        t := t.(tried := Raised(tried, base), found := matchLength, at := base + matchStart, len := matchLength);
        RaisedIs(tried, base);
        SearchSought(hashHead, tried, best, before, t);
        SearchedHas(hashHead, tried, best, before);
        LeastIs(best, lookahead);
        FastLookSought(TheRules(), read, ends, turns, t);
      } else {
        if lookahead >= 3 {
          ListedNone(hashHead);
        }
        FastLookNone(TheRules(), read, ends, turns, t);
      }
    }

    /** Pass over a match, inserting its strings. */
    method InsertMatch()
      requires Shape() && Held() && insert == 0 && Chained(strstart + 1)
        && Primed(hashBits, insH, window[..], strstart + 1)
      requires 1 <= matchLength && matchLength + 3 <= lookahead
      modifies this`strstart, this`lookahead, this`matchLength, this`insH, this`linked, this`missed, head, prev
      ensures Held() && Chained(strstart) && Primed(hashBits, insH, window[..], strstart) && matchLength == 0
      ensures strstart == old(strstart) + old(matchLength) && lookahead == old(lookahead) - old(matchLength)
      ensures missed == old(missed)
    {
      hide *;
      ghost var n := matchLength;
      matchLength := matchLength - 1;    // string at strstart already in table
      while matchLength != 0
        invariant matchLength < n && strstart == old(strstart) + (n - 1 - matchLength)
        invariant lookahead == old(lookahead) - (n - 1 - matchLength) && Held() && Chained(strstart + 1)
        invariant Primed(hashBits, insH, window[..], strstart + 1) && missed == old(missed)
        decreases matchLength
      {
        Advance(1, strstart + 1, strstart + 1);
        HeldHas();
        var hashHead := InsertString(strstart);
        matchLength := matchLength - 1;
      }
      Advance(1, strstart + 1, strstart + 1);
    }

    /** Pass over a match without inserting its strings. */
    method SkipMatch()
      requires Shape() && Held() && insert == 0 && Chained(strstart + 1) && matchLength <= lookahead
        && 1 <= matchLength <= MAX_MATCH
      requires strstart + MIN_LOOKAHEAD <= window.Length
      modifies this`strstart, this`lookahead, this`matchLength, this`insH, this`missed
      ensures Held() && Chained(strstart) && Ready() && matchLength == 0
      ensures strstart == old(strstart) + old(matchLength) && lookahead == old(lookahead) - old(matchLength)
      ensures missed == old(missed) + Stretch(base + old(strstart) + 1, base + strstart)
    {
      hide *;
      Sizes();
      Advance(matchLength, strstart + 1, strstart + matchLength);
      matchLength := 0;
      insH := Update(hashBits, window[strstart], window[strstart + 1]);
      ShapeHas();
      PrimedStart(hashBits, window[..], strstart);
      ReadyIs();
    }

    /** Emit a match. */
    method FastMatch() returns (full: bool)
      requires Shape() && Held() && Story(base + strstart) && Room() && insert == 0 && Found(matchStart, matchLength)
      requires Chained(strstart + 1) && Primed(hashBits, insH, window[..], strstart + 1)
      requires strstart + MIN_LOOKAHEAD <= window.Length
      modifies enc.Repr(), this`strstart, this`lookahead, this`matchLength, this`insH, this`linked, this`missed,
        this`tokens, head, prev
      ensures Settled(base + strstart) && Ready() && (full <==> !Room()) && matchLength == 0
      ensures strstart + lookahead == old(strstart + lookahead) && lookahead < old(lookahead)
        && strstart <= window.Length - 4
      ensures strstart == old(strstart + matchLength) && matchStart < old(strstart)
      ensures tokens == old(tokens) + [Match(old(matchLength), old(strstart) - matchStart)]
      ensures missed == old(missed)
        || ((old(matchLength) > tuning.maxLazy || lookahead < 3)
            && missed == old(missed) + Stretch(base + old(strstart) + 1, base + strstart))
    {
      hide *;
      Sizes();
      ShapeHas();
      enc.ReprHas();
      FoundHas(matchStart, matchLength);
      AlikeRepeats(matchStart, matchLength);
      SinceBase(base + strstart);
      ghost var p := strstart;
      full := TallyDist(strstart - matchStart, matchLength, base + strstart);
      if matchLength <= tuning.maxLazy && lookahead - matchLength >= MIN_MATCH {
        InsertMatch();
        ReadyIs();
      } else {
        SkipMatch();
      }
      SettledIs(base + strstart);
    }

    /** Emit a literal. */
    method FastLiteral() returns (full: bool)
      requires Shape() && Held() && Story(base + strstart) && Room() && lookahead > 0 && insert <= 2
        && insert <= strstart
      requires lookahead < 3 ==> Chained(strstart - insert) && (insert == 0 || lookahead + insert < 3)
      requires lookahead >= 3 ==>
        insert == 0 && Chained(strstart + 1) && Primed(hashBits, insH, window[..], strstart + 1)
      requires strstart + MIN_LOOKAHEAD <= window.Length
      modifies enc.Repr(), this`strstart, this`lookahead, this`missed, this`tokens
      ensures Settled(base + strstart) && Ready() && (full <==> !Room())
      ensures strstart == old(strstart) + 1 && lookahead == old(lookahead) - 1
      ensures tokens == old(tokens) + [Literal(window[old(strstart)])]
      ensures EndOnly(missed, old(missed), |read|) && (old(lookahead) >= 3 ==> missed == old(missed))
    {
      hide *;
      Sizes();
      ShapeHas();
      enc.ReprHas();
      HeldHas();
      InputAt(strstart);
      full := TallyLit(window[strstart], base + strstart);
      AdvanceOne();
      ReadyIs();
      SettledIs(base + strstart);
    }

    /** Go on by one byte, whose string has been inserted if it has three bytes. */
    method AdvanceOne()
      requires Shape() && Held() && lookahead > 0 && insert <= 2 && insert <= strstart
      requires lookahead < 3 ==> Chained(strstart - insert) && (insert == 0 || lookahead + insert < 3)
      requires lookahead >= 3 ==> insert == 0 && Chained(strstart + 1)
      modifies this`strstart, this`lookahead, this`missed
      ensures Held() && strstart == old(strstart) + 1 && lookahead == old(lookahead) - 1
      ensures insert <= strstart && Chained(strstart - insert)
      ensures EndOnly(missed, old(missed), |read|) && (old(lookahead) >= 3 ==> missed == old(missed))
    {
      hide *;
      Sizes();
      HeldHas();
      ghost var was := missed;
      if lookahead >= MIN_MATCH {
        Advance(1, strstart + 1, strstart + 1);
        EndOnlyNone(was, |read|);
      } else {
        ghost var q := strstart - insert;
        Advance(1, strstart - insert, strstart + 1 - insert);
        EndOnlyStretch(was, base + q, base + q + 1, |read|);
      }
    }

    lemma InputAt(p: nat)
      requires Held() && p < strstart + lookahead
      ensures p < window.Length && base + p < |read| && window[p] == read[base + p]
    {
      assert window[p] == window[..strstart + lookahead][p] == read[base..][p];
    }

    /** The end of the input at hand: the strings before strstart that are still to be inserted, at most two. */
    method SetInsert()
      requires Settled(base + strstart) && lookahead == 0
      modifies this`insert
      ensures Settled(base + strstart) && Ready()
    {
      hide *;
      Sizes();
      SettledHas(base + strstart);
      ChainedHas(strstart - insert);
      ChainsEnd(hashBits, head[..], prev[..], window[..], linked, strstart - insert, strstart,
                strstart - if strstart < MIN_MATCH - 1 then strstart else MIN_MATCH - 1);
      SetInsertCovers();
      insert := if strstart < MIN_MATCH - 1 then strstart else MIN_MATCH - 1;
      ChainedIs(strstart - insert);
      ReadyIs();
      SettledIs(base + strstart);
    }

    lemma SetInsertCovers()
      requires Settled(base + strstart) && lookahead == 0
      ensures Covers(linked, missed, base, strstart - if strstart < MIN_MATCH - 1 then strstart else MIN_MATCH - 1)
    {
      hide *;
      Sizes();
      SettledHas(base + strstart);
      ChainedHas(strstart - insert);
      CoversFewer(linked, missed, base, strstart - insert,
                  strstart - if strstart < MIN_MATCH - 1 then strstart else MIN_MATCH - 1);
    }

    /** Send what is left as the last block, or as one more block if there are symbols. */
    method EndBlocks(flush: Flush) returns (state: BlockState)
      requires Settled(base + strstart) && lookahead == 0 && strstart <= 65535
      modifies enc.Repr(), this`blockStart, this`blocks, this`made, this`output, this`avail
      ensures state.FinishStarted? || state.FinishDone? <==> flush.Finish?
      ensures flush.Finish? ==> Closed()
      ensures !flush.Finish? ==> Settled(base + strstart) && Room() && blockStart == strstart && enc.symNext == 0
      ensures old(output) <= output && |output| + avail == |old(output)| + old(avail)
      ensures state.NeedMore? ==> avail == 0
      ensures state.FinishStarted? ==> avail == 0
      ensures state.FinishDone? ==> avail != 0 && output == enc.w.pending
    {
      hide *;
      SettledHas(base + strstart);
      ShapeHas();
      enc.ReprHas();
      StoryHas(base + strstart);
      if flush.Finish? {
        FlushBlockOnly(true);
        return if avail == 0 then FinishStarted else FinishDone;
      }
      if enc.symNext != 0 {
        FlushBlockOnly(false);
        SettledIs(base + strstart);
        if avail == 0 {
          return NeedMore;
        }
      } else {
        EncoderRoom();
        RoomHas();
        NothingTallied(base + strstart);
      }
      return BlockDone;
    }

    /** Send the symbols as a block in the midst of the input. */
    method FlushBlock() returns (full: bool)
      requires Settled(base + strstart) && !Room() && (blockStart >= 0 ==> strstart - blockStart <= 65535)
      modifies enc.Repr(), this`blockStart, this`blocks, this`made, this`output, this`avail
      ensures |made| == |old(made)| + 1
      ensures Settled(base + strstart) && Room() && blockStart == strstart && enc.symNext == 0
        && (old(Ready()) ==> Ready())
      ensures full <==> avail == 0
      ensures old(output) <= output && |output| + avail == |old(output)| + old(avail)
    {
      hide *;
      SettledHas(base + strstart);
      ShapeHas();
      enc.ReprHas();
      FlushBlockOnly(false);
      SettledIs(base + strstart);
      full := avail == 0;
    }

    lemma NothingTallied(upto: int)
      requires Story(upto) && enc.symNext == 0
      ensures base + blockStart == upto
    {
      hide *;
      StoryHas(upto);
      enc.NothingTallied();
      ToldNone(wsize, blocks, base + blockStart, upto, read);
    }

    /** Make sure that there is more lookahead than `enough`, except at the end of the input. */
    method Prepare(enough: nat, ghost upto: nat) returns (short: bool)
      requires Settled(upto) && enough < MIN_LOOKAHEAD
      modifies window, head, prev, this`strstart, this`lookahead, this`blockStart, this`matchStart, this`insert,
        this`insH, this`highWater, this`nextIn, this`read, this`base, this`linked
      ensures Settled(upto) && (old(Ready()) ==> Ready()) && (old(Room()) ==> Room())
      ensures old(read) <= read && read + nextIn == old(read) + old(nextIn)
        && |nextIn| + lookahead == old(|nextIn| + lookahead)
      ensures short == (lookahead <= enough) && (short ==> nextIn == [])
      ensures short || enough + 1 == MIN_LOOKAHEAD ==> strstart + MIN_LOOKAHEAD <= window.Length
      ensures old(Parses()) ==> Parses()
      ensures strstart + enough < window.Length
      ensures base + strstart == old(base + strstart) && base + matchStart == old(base + matchStart)
      ensures base + blockStart == old(base + blockStart)
      ensures insert <= old(insert) && (strstart == old(strstart) || strstart >= 1)
    {
      hide *;
      Sizes();
      SettledHas(upto);
      ShapeHas();
      HeldHas();
      if lookahead <= enough {
        ghost var r, now, known := read, Now(), Parses();
        if Parses() {
          ParsesHas();
        }
        NowIs();
        MoreLookahead(upto);
        NowIs();
        if known {
          ParsesStill(r, now);
        }
        SettledHas(upto);
        HeldHas();
      }
      short := lookahead <= enough;
    }

    /** Have more lookahead than `enough`, except at the end of the input; whether to come back with more of it. */
    method Refill(enough: nat, flush: Flush) returns (wait: bool)
      requires Settled(base + strstart) && enough < MIN_LOOKAHEAD && enough + 1 == Ahead(tuning.strategy)
      requires Parses() && Noted(flush)
      modifies window, head, prev, this`strstart, this`lookahead, this`blockStart, this`matchStart, this`insert,
        this`insH, this`highWater, this`nextIn, this`read, this`base, this`linked
      ensures Settled(base + strstart) && (old(Ready()) ==> Ready()) && (old(Room()) ==> Room())
      ensures old(read) <= read && read + nextIn == old(read) + old(nextIn)
        && |nextIn| + lookahead == old(|nextIn| + lookahead)
      ensures Parses() && Noted(flush)
      ensures wait ==> flush.NoFlush? && nextIn == []
      ensures !wait && lookahead > 0 ==> InSight()
      ensures !wait && lookahead == 0 ==> !flush.NoFlush? && nextIn == []
      ensures lookahead <= enough || enough + 1 == MIN_LOOKAHEAD ==> strstart + MIN_LOOKAHEAD <= window.Length
      ensures strstart + enough < window.Length
      ensures base + strstart == old(base + strstart) && base + blockStart == old(base + blockStart)
    {
      hide *;
      ghost var n := |read| + |nextIn|;
      if !flush.NoFlush? {
        NotedHas(flush);
      }
      var short := Prepare(enough, base + strstart);
      NotedStill(flush, n);
      wait := short && flush.NoFlush?;
      if !wait && lookahead > 0 {
        InSightIs();
      }
    }

    /** One literal or match. */
    method FastStep() returns (bflush: bool)
      requires Settled(base + strstart) && Ready() && Room() && prevLength == 2 && matchLength < 3
      requires strstart + MIN_LOOKAHEAD <= window.Length && InSight() && Parses()
      requires tuning.strategy.Fast? && !matchAvailable
      modifies enc.Repr(), head, prev, this`strstart, this`lookahead, this`matchStart, this`matchLength, this`insH,
        this`linked, this`missed, this`tokens, this`turns
      ensures Settled(base + strstart) && Ready() && (bflush <==> !Room()) && matchLength < 3
      ensures strstart + lookahead == old(strstart + lookahead) && lookahead < old(lookahead)
        && strstart <= window.Length - 4
      ensures Parses() && |turns| == |old(turns)| + 1
    {
      hide *;
      ShapeIsSettled(base + strstart);
      ParsesHas();
      InSightHas();
      ghost var now, was, seen := Now(), missed, lookahead;
      ghost var t := FastDecide();
      bflush := FastEmit(now, t);
      FastExcused(t, was, seen);
      Record(t, now, was);
    }

    /** Look for a match; the decision is t. */
    method FastDecide() returns (ghost t: Turn)
      requires Settled(base + strstart) && Ready() && Room() && prevLength == 2 && matchLength < 3
      requires strstart + MIN_LOOKAHEAD <= window.Length && InSight() && Parses()
      requires tuning.strategy.Fast? && !matchAvailable
      modifies head, prev, this`matchStart, this`matchLength, this`insH, this`linked
      ensures Shape() && Held() && Story(base + strstart) && Room() && insert <= 2 && insert <= strstart
      ensures lookahead < 3 ==> Chained(strstart - insert) && (insert == 0 || lookahead + insert < 3)
      ensures lookahead >= 3 ==>
        insert == 0 && Chained(strstart + 1) && Primed(hashBits, insH, window[..], strstart + 1)
      ensures matchLength < 3 || Found(matchStart, matchLength)
      ensures t.Look? && t.pos == base + strstart && t.lit == window[strstart] && t.at == base + matchStart
        && t.len == if matchLength >= 3 then matchLength else 2
      ensures t.end == |read| == t.pos + lookahead && old(Now()).tokens == tokens
      ensures LawfulTurn(TheRules(), read, Marks(ends, starts), turns, old(Now()), t)
    {
      hide *;
      Sizes();
      SettledHas(base + strstart);
      ShapeHas();
      HeldHas();
      ReadyHas();
      enc.ReprHas();
      InSightHas();
      InputAt(strstart);
      ParsesHas();
      NowIs();
      ghost var now := Now();
      t := FastFind();
      FastLooked(t, now.len);
      LawfulNow(t, now);
    }

    /** What is to be done after a look: emit the match found, or the byte. */
    method FastEmit(ghost now: Parse, ghost t: Turn) returns (bflush: bool)
      requires Shape() && Held() && Story(base + strstart) && Room() && lookahead > 0 && insert <= 2
        && insert <= strstart
      requires lookahead < 3 ==> Chained(strstart - insert) && (insert == 0 || lookahead + insert < 3)
      requires lookahead >= 3 ==>
        insert == 0 && Chained(strstart + 1) && Primed(hashBits, insH, window[..], strstart + 1)
      requires strstart + MIN_LOOKAHEAD <= window.Length && (matchLength < 3 || Found(matchStart, matchLength))
      requires tuning.strategy.Fast? && !matchAvailable && t.Look? && t.pos == base + strstart
        && t.lit == window[strstart] && t.at == base + matchStart
        && t.len == if matchLength >= 3 then matchLength else 2
      requires now.tokens == tokens
      modifies enc.Repr(), head, prev, this`strstart, this`lookahead, this`matchLength, this`insH, this`linked,
        this`missed, this`tokens
      ensures Settled(base + strstart) && Ready() && (bflush <==> !Room()) && matchLength < 3
      ensures strstart + lookahead == old(strstart + lookahead) && lookahead < old(lookahead)
        && strstart <= window.Length - 4
      ensures Now() == Next(tuning.strategy, now, t)
      ensures missed == old(missed) || (EndOnly(missed, old(missed), |read|) && old(lookahead) < 3)
        || (t.len >= 3 && (t.len > tuning.maxLazy || old(lookahead) < t.len + 3)
            && missed == old(missed) + Stretch(t.pos + 1, t.pos + t.len))
    {
      hide *;
      Sizes();
      ShapeHas();
      enc.ReprHas();
      if matchLength >= MIN_MATCH {
        FoundHas(matchStart, matchLength);
        bflush := FastMatch();
      } else {
        bflush := FastLiteral();
      }
      NowIs();
      PlainNext(now, t);
    }

    lemma FastLooked(t: Turn, waiting: nat)
      requires tuning.strategy.Fast? && FastLook(TheRules(), read, ends, turns, t)
      ensures LookedFor(TheRules(), read, ends, turns, t, waiting)
    {
      hide FastLook;
    }

    lemma FastExcused(t: Turn, was: set<nat>, seen: nat)
      requires tuning.strategy.Fast? && t.Look? && (seen >= Ahead(tuning.strategy) || |read| in ends)
      requires t.end == |read| == t.pos + seen
      requires missed == was || (EndOnly(missed, was, |read|) && seen < 3)
        || (t.len >= 3 && (t.len > tuning.maxLazy || seen < t.len + 3)
            && missed == was + Stretch(t.pos + 1, t.pos + t.len))
      ensures forall q :: q in missed && q !in was ==> Excused(TheRules(), ends, turns + [t], q)
    {
      hide *;
      RulesIs();
      AheadIs();
      if missed == was {
      } else if EndOnly(missed, was, |read|) && seen < 3 {
        EndExcused(TheRules(), ends, turns + [t], missed, was, |read|);
      } else {
        PassedExcused(TheRules(), ends, turns, t, was);
      }
    }

    lemma AheadIs()
      ensures tuning.strategy.Slow? || tuning.strategy.Fast? ==> Ahead(tuning.strategy) == 262
      ensures tuning.strategy.Rle? ==> Ahead(tuning.strategy) == 259
      ensures tuning.strategy.Huff? ==> Ahead(tuning.strategy) == 1
    {
    }

    /** One decision, and a block when the buffer is full. */
    method FastTurn() returns (full: bool)
      requires Settled(base + strstart) && Ready() && Room() && prevLength == 2 && matchLength < 3
      requires strstart + MIN_LOOKAHEAD <= window.Length && InSight() && Parses()
      requires tuning.strategy.Fast? && !matchAvailable
      modifies enc.Repr(), head, prev, this`strstart, this`lookahead, this`matchStart, this`matchLength, this`insH,
        this`linked, this`missed, this`tokens, this`turns, this`blockStart, this`blocks, this`made, this`output,
        this`avail
      ensures Settled(base + strstart) && Ready() && Room() && matchLength < 3
      ensures strstart + lookahead == old(strstart + lookahead) && lookahead < old(lookahead)
      ensures old(output) <= output && |output| + avail == |old(output)| + old(avail)
      ensures full ==> avail == 0
      ensures Parses() && |turns| == |old(turns)| + 1
    {
      hide *;
      ShapeIsSettled(base + strstart);
      enc.ReprHas();
      var bflush := FastStep();
      full := false;
      if bflush {
        full := FlushBlock();
      }
    }

    /** The end of the input in this call is noted as one, if a flush is asked for. */
    ghost predicate Noted(flush: Flush)
      reads this`read, this`nextIn, this`ends
    {
      flush.NoFlush? || |read| + |nextIn| in ends
    }

    lemma NotedHas(flush: Flush)
      requires Noted(flush) && !flush.NoFlush?
      ensures |read| + |nextIn| in ends
    {
    }

    lemma NotedStill(flush: Flush, n: nat)
      requires (flush.NoFlush? || n in ends) && |read| + |nextIn| == n
      ensures Noted(flush)
    {
    }

    /** The parse has come to the end of the input. */
    ghost predicate Over()
      reads this`read, this`ends, this`starts, this`turns, this`missed, this`tokens, this`base, this`strstart,
        this`matchAvailable, this`matchLength, this`matchStart
    {
      Parses() && base + strstart == |read| && !matchAvailable
    }

    lemma OverIs()
      requires Parses() && base + strstart == |read| && !matchAvailable
      ensures Over()
    {
      hide Parses;
    }

    lemma OverHas()
      requires Over()
      ensures Parses() && base + strstart == |read| && !matchAvailable
    {
      hide Parses;
    }

    /** One turn of the loop: go on, or come back when there is more input or room, or the input is at its end. */
    method FastRound(flush: Flush) returns (go: bool, need: bool)
      requires Settled(base + strstart) && Ready() && Room() && prevLength == 2 && matchLength < 3
      requires tuning.strategy.Fast? && !matchAvailable && Parses() && Noted(flush)
      modifies enc.Repr(), window, head, prev, this`strstart, this`lookahead, this`blockStart, this`matchStart,
        this`matchLength, this`insert, this`insH, this`highWater, this`nextIn, this`read, this`base, this`linked,
        this`blocks, this`made, this`tokens, this`turns, this`missed, this`output, this`avail
      ensures Settled(base + strstart) && Ready() && Room() && prevLength == 2 && matchLength < 3
      ensures old(output) <= output && |output| + avail == |old(output)| + old(avail)
      ensures old(read) <= read && read + nextIn == old(read) + old(nextIn) && Parses() && Noted(flush)
      ensures go ==> |nextIn| + lookahead < old(|nextIn| + lookahead)
      ensures !go && need ==> avail == 0 || (flush.NoFlush? && nextIn == [])
      ensures !go && !need ==> lookahead == 0 && nextIn == [] && !flush.NoFlush?
      ensures !go && !need ==> strstart + MIN_LOOKAHEAD <= window.Length
    {
      hide *;
      Sizes();
      AheadIs();
      ShapeIsSettled(base + strstart);
      enc.ReprHas();
      go, need := false, true;
      var wait := Refill(MIN_LOOKAHEAD - 1, flush);
      if !wait {
        if lookahead == 0 {
          need := false;
        } else {
          var full := FastTurn();
          go := !full;
        }
      }
    }

    /** Compress without lazy evaluation of matches (deflate_fast). */
    method DeflateFast(flush: Flush) returns (state: BlockState)
      requires Settled(base + strstart) && Ready() && Room() && prevLength == 2 && matchLength < 3
      requires tuning.strategy.Fast? && !matchAvailable && Parses() && Noted(flush)
      modifies enc.Repr(), window, head, prev, this`strstart, this`lookahead, this`blockStart, this`matchStart,
        this`matchLength, this`insert, this`insH, this`highWater, this`nextIn, this`read, this`base, this`linked,
        this`blocks, this`made, this`tokens, this`turns, this`missed, this`output, this`avail
      ensures old(read) <= read && read + nextIn == old(read) + old(nextIn) && matchLength < 3 && Parses()
      ensures state.FinishStarted? || state.FinishDone? ==>
        flush.Finish? && Closed() && lookahead == 0 && nextIn == [] && Over()
      ensures state.BlockDone? ==> !flush.Finish?
      ensures state.NeedMore? || state.BlockDone? ==> Settled(base + strstart) && Ready() && Room()
      ensures state.BlockDone? ==> lookahead == 0 && nextIn == [] && blockStart == strstart && enc.symNext == 0
      ensures old(output) <= output && |output| + avail == |old(output)| + old(avail)
      ensures state.NeedMore? ==> avail == 0 || (flush.NoFlush? && nextIn == [])
      ensures state.FinishStarted? ==> avail == 0
      ensures state.FinishDone? ==> avail != 0 && output == enc.w.pending
    {
      hide *;
      Sizes();
      AheadIs();
      ShapeIsSettled(base + strstart);
      while true
        invariant Settled(base + strstart) && Ready() && Room() && prevLength == 2 && matchLength < 3
        invariant old(output) <= output && |output| + avail == |old(output)| + old(avail)
        invariant old(read) <= read && read + nextIn == old(read) + old(nextIn) && Parses() && Noted(flush)
        decreases |nextIn| + lookahead
      {
        var go, need := FastRound(flush);
        if !go {
          if need {
            return NeedMore;
          }
          break;
        }
      }
      AtEnd(base + strstart);
      SetInsert();
      state := EndBlocks(flush);
    }

    lemma AtEnd(upto: int)
      requires Settled(upto) && lookahead == 0 && Parses()
      ensures base + strstart == |read|
      ensures !matchAvailable ==> Over()
    {
      hide *;
      SettledHas(upto);
      HeldHas();
      if !matchAvailable {
        OverIs();
      }
    }

    // ---------- deflate_huff and deflate_rle ----------

    /** Emit the byte at strstart. */
    method PlainLiteral() returns (full: bool)
      requires Settled(base + strstart) && Room() && lookahead > 0
      modifies enc.Repr(), this`strstart, this`lookahead, this`missed, this`tokens
      ensures Settled(base + strstart) && (full <==> !Room()) && enc.symNext == old(enc.symNext) + 3
      ensures strstart == old(strstart) + 1 && lookahead == old(lookahead) - 1
      ensures old(strstart) < window.Length && tokens == old(tokens) + [Literal(window[old(strstart)])]
    {
      hide *;
      SettledHas(base + strstart);
      ShapeHas();
      enc.ReprHas();
      HeldHas();
      InputAt(strstart);
      full := TallyLit(window[strstart], base + strstart);
      Advance(1, strstart - insert, strstart + 1 - insert);
      SettledIs(base + strstart);
    }

    /** Emit the run that starts at strstart. */
    method PlainRun(len: nat) returns (full: bool)
      requires Settled(base + strstart) && Room() && 3 <= len <= lookahead && len <= MAX_MATCH && 1 <= strstart
      requires Alike(strstart - 1, len)
      modifies enc.Repr(), this`strstart, this`lookahead, this`missed, this`tokens
      ensures Settled(base + strstart) && (full <==> !Room()) && tokens == old(tokens) + [Match(len, 1)]
      ensures strstart == old(strstart) + len && lookahead == old(lookahead) - len
    {
      hide *;
      Sizes();
      SettledHas(base + strstart);
      ShapeHas();
      enc.ReprHas();
      HeldHas();
      AlikeRepeats(strstart - 1, len);
      SinceBase(base + strstart);
      full := TallyDist(1, len, base + strstart);
      Advance(len, strstart - insert, strstart + len - insert);
      SettledIs(base + strstart);
    }

    /** No string is left to be inserted. */
    method ForgetInsert()
      requires Settled(base + strstart) && Parses() && (tuning.strategy.Rle? || tuning.strategy.Huff?)
      modifies this`insert, this`missed
      ensures Settled(base + strstart) && insert == 0 && Parses()
    {
      hide *;
      SettledHas(base + strstart);
      HeldHas();
      ParsesHas();
      ghost var was := missed;
      Raise(strstart - insert, strstart);
      insert := 0;
      ParsesPlain(was);
      SettledIs(base + strstart);
    }

    lemma ParsesPlain(was: set<nat>)
      requires tuning.strategy.Rle? || tuning.strategy.Huff?
      requires Parsed(TheRules(), read, Marks(ends, starts), turns, was, Now())
      ensures Parses()
    {
      hide Lawful, Replay, Excused;
    }

    /** The end of the input: the last block. */
    method EndPlain(flush: Flush) returns (state: BlockState)
      requires Settled(base + strstart) && lookahead == 0 && strstart <= 65535
      requires Parses() && !matchAvailable && (tuning.strategy.Rle? || tuning.strategy.Huff?)
      modifies enc.Repr(), this`insert, this`missed, this`blockStart, this`blocks, this`made, this`output, this`avail
      ensures state.FinishStarted? || state.FinishDone? <==> flush.Finish?
      ensures flush.Finish? ==> Closed()
      ensures !flush.Finish? ==> Settled(base + strstart) && Room() && blockStart == strstart && enc.symNext == 0
      ensures old(output) <= output && |output| + avail == |old(output)| + old(avail)
      ensures state.NeedMore? || state.FinishStarted? ==> avail == 0
      ensures state.FinishDone? ==> avail != 0 && output == enc.w.pending
      ensures Over()
    {
      hide *;
      ShapeIsSettled(base + strstart);
      enc.ReprHas();
      ForgetInsert();
      AtEnd(base + strstart);
      state := EndBlocks(flush);
    }

    /** One turn of the loop: go on, or come back when there is more input or room, or the input is at its end. */
    method HuffRound(flush: Flush) returns (go: bool, need: bool)
      requires Settled(base + strstart) && Room() && enc.symNext == 3 * (strstart - blockStart)
      requires tuning.strategy.Huff? && !matchAvailable && Parses() && Noted(flush)
      modifies enc.Repr(), window, head, prev, this`strstart, this`lookahead, this`blockStart, this`matchStart,
        this`matchLength, this`insert, this`insH, this`highWater, this`nextIn, this`read, this`base, this`linked,
        this`blocks, this`made, this`tokens, this`turns, this`missed, this`output, this`avail
      ensures Settled(base + strstart) && Room() && enc.symNext == 3 * (strstart - blockStart)
      ensures old(output) <= output && |output| + avail == |old(output)| + old(avail)
      ensures old(read) <= read && read + nextIn == old(read) + old(nextIn) && Parses() && Noted(flush)
      ensures go ==> |nextIn| + lookahead < old(|nextIn| + lookahead)
      ensures !go && need ==> avail == 0 || (flush.NoFlush? && nextIn == [])
      ensures !go && !need ==> lookahead == 0 && nextIn == [] && !flush.NoFlush?
      ensures !go && !need ==> strstart + MIN_LOOKAHEAD <= window.Length
    {
      hide *;
      Sizes();
      AheadIs();
      ShapeIsSettled(base + strstart);
      enc.ReprHas();
      go, need := false, true;
      var wait := Refill(0, flush);
      if !wait {
        if lookahead == 0 {
          need := false;
        } else {
          var full := HuffStep();
          go := !full;
        }
      }
    }

    /** Literals only (deflate_huff). */
    method DeflateHuff(flush: Flush) returns (state: BlockState)
      requires Settled(base + strstart) && Room() && enc.symNext == 3 * (strstart - blockStart)
      requires tuning.strategy.Huff? && !matchAvailable && Parses() && Noted(flush)
      modifies enc.Repr(), window, head, prev, this`strstart, this`lookahead, this`blockStart, this`matchStart,
        this`matchLength, this`insert, this`insH, this`highWater, this`nextIn, this`read, this`base, this`linked,
        this`blocks, this`made, this`tokens, this`turns, this`missed, this`output, this`avail
      ensures old(read) <= read && read + nextIn == old(read) + old(nextIn) && Parses()
      ensures state.FinishStarted? || state.FinishDone? ==>
        flush.Finish? && Closed() && lookahead == 0 && nextIn == [] && Over()
      ensures state.BlockDone? ==> !flush.Finish?
      ensures state.NeedMore? || state.BlockDone? ==>
        Settled(base + strstart) && Room() && enc.symNext == 3 * (strstart - blockStart)
      ensures state.BlockDone? ==> lookahead == 0 && nextIn == [] && blockStart == strstart && enc.symNext == 0
      ensures old(output) <= output && |output| + avail == |old(output)| + old(avail)
      ensures state.NeedMore? ==> avail == 0 || (flush.NoFlush? && nextIn == [])
      ensures state.FinishStarted? ==> avail == 0
      ensures state.FinishDone? ==> avail != 0 && output == enc.w.pending
    {
      hide *;
      Sizes();
      AheadIs();
      ShapeIsSettled(base + strstart);
      while true
        invariant Settled(base + strstart) && Room() && enc.symNext == 3 * (strstart - blockStart)
        invariant old(output) <= output && |output| + avail == |old(output)| + old(avail)
        invariant old(read) <= read && read + nextIn == old(read) + old(nextIn) && Parses() && Noted(flush)
        decreases |nextIn| + lookahead
      {
        enc.ReprHas();
        var go, need := HuffRound(flush);
        if !go {
          if need {
            return NeedMore;
          }
          break;
        }
      }
      state := EndPlain(flush);
      OverHas();
    }

    /** One literal, and a block when the buffer is full. */
    method HuffStep() returns (full: bool)
      requires Settled(base + strstart) && Room() && enc.symNext == 3 * (strstart - blockStart) && lookahead > 0
      requires tuning.strategy.Huff? && !matchAvailable && Parses() && InSight()
      modifies enc.Repr(), this`strstart, this`lookahead, this`matchLength, this`missed, this`tokens, this`turns,
        this`blockStart, this`blocks, this`made, this`output, this`avail
      ensures Settled(base + strstart) && Room() && enc.symNext == 3 * (strstart - blockStart)
      ensures strstart == old(strstart) + 1 && lookahead == old(lookahead) - 1
      ensures old(output) <= output && |output| + avail == |old(output)| + old(avail)
      ensures full ==> avail == 0
      ensures Parses() && |turns| == |old(turns)| + 1
    {
      hide *;
      BufferBound();
      ShapeIsSettled(base + strstart);
      enc.ReprHas();
      var bflush := HuffLiteral();
      full := false;
      if bflush {
        full := FlushBlock();
      }
    }

    method HuffLiteral() returns (bflush: bool)
      requires Settled(base + strstart) && Room() && lookahead > 0
      requires tuning.strategy.Huff? && !matchAvailable && Parses() && InSight()
      modifies enc.Repr(), this`strstart, this`lookahead, this`matchLength, this`missed, this`tokens, this`turns
      ensures Settled(base + strstart) && (bflush <==> !Room()) && enc.symNext == old(enc.symNext) + 3
      ensures strstart == old(strstart) + 1 && lookahead == old(lookahead) - 1
      ensures Parses() && |turns| == |old(turns)| + 1
    {
      hide *;
      SettledHas(base + strstart);
      ShapeHas();
      HeldHas();
      enc.ReprHas();
      InputAt(strstart);
      ParsesHas();
      NowIs();
      ghost var now, was := Now(), missed;
      ghost var t := Look(base + strstart, |read|, base, window[strstart], [], 0, 0, 2);
      HuffLooked(t, now.len);
      LawfulNow(t, now);
      matchLength := 0;
      SettledIs(base + strstart);
      bflush := PlainLiteral();
      NowIs();
      PlainNext(now, t);
      Record(t, now, was);
    }

    lemma HuffLooked(t: Turn, waiting: nat)
      requires tuning.strategy.Huff? && t.Look? && t.len == 2
      ensures LookedFor(TheRules(), read, ends, turns, t, waiting)
    {
    }

    /** What a decision leads to without lazy evaluation. */
    lemma PlainNext(p: Parse, t: Turn)
      requires t.Look? && !tuning.strategy.Slow?
      ensures Next(tuning.strategy, p, t)
        == if t.len >= 3 then Parse(p.tokens + [Match(t.len, Back(t.pos, t.at))], t.pos + t.len, false, 2, 0)
           else Parse(p.tokens + [Literal(t.lit)], t.pos + 1, false, 2, 0)
      ensures t.pos > t.at ==> Back(t.pos, t.at) == t.pos - t.at
    {
    }

    /** How long the byte before strstart goes on, up to 258; the first three bytes are known to be that byte. */
    method RunLength() returns (len: nat)
      requires 1 <= strstart && strstart + MAX_MATCH < window.Length
      requires window[strstart - 1] == window[strstart] == window[strstart + 1] == window[strstart + 2]
      ensures 3 <= len <= MAX_MATCH && Alike(strstart - 1, len)
      ensures len < MAX_MATCH ==> window[strstart + len] != window[strstart - 1]
      ensures window[strstart + len - 1] == window[strstart - 1]
    {
      hide *;
      Sizes();
      var b := window[strstart - 1];
      assert window[strstart - 1..strstart - 1 + 2] == [b, b] == window[strstart..strstart + 2];
      AlikeIs(strstart - 1, 2);
      var scan := 2;
      var same := true;
      while same && scan < MAX_MATCH
        invariant 2 <= scan <= MAX_MATCH && Alike(strstart - 1, scan) && (same ==> (scan - 2) % 8 == 0)
        invariant window[strstart + scan - 1] == b && (same <==> window[strstart + scan] == b) && (!same ==> scan >= 3)
        decreases MAX_MATCH - scan, same
      {
        scan, same := EightRun(scan);
      }
      len := scan;
    }

    /** Up to eight more bytes of a run (one turn of the unrolled loop). */
    method EightRun(k: nat) returns (n: nat, same: bool)
      requires 1 <= strstart && strstart + k + 8 < window.Length && k >= 1 && Alike(strstart - 1, k)
      requires window[strstart + k - 1] == window[strstart + k] == window[strstart - 1]
      ensures k < n <= k + 8 && Alike(strstart - 1, n) && window[strstart + n - 1] == window[strstart - 1]
      ensures same == (window[strstart + n] == window[strstart - 1]) && (same ==> n == k + 8)
    {
      hide *;
      n, same := k, true;
      while n < k + 8 && same
        invariant k <= n <= k + 8 && Alike(strstart - 1, n) && window[strstart + n - 1] == window[strstart - 1]
        invariant same == (window[strstart + n] == window[strstart - 1]) && (!same ==> n > k)
        decreases k + 8 - n, same
      {
        AlikeMore(strstart - 1, n);
        n := n + 1;
        same := window[strstart + n] == window[strstart - 1];
      }
    }

    /** The run at strstart, if there is one of three bytes or more; the decision is t. */
    method FindRun() returns (ghost t: Turn)
      requires strstart + MAX_MATCH < window.Length && Held() && lookahead > 0
      modifies this`matchLength
      ensures matchLength == 0
        || (3 <= matchLength <= lookahead && matchLength <= MAX_MATCH && 1 <= strstart
            && Alike(strstart - 1, matchLength))
      ensures t == Look(base + strstart, |read|, base, window[strstart], [], 0, base + strstart - 1,
                        if matchLength >= 3 then matchLength else 2)
      ensures RunLook(read, t)
    {
      hide *;
      Sizes();
      HeldHas();
      matchLength := 0;
      if lookahead >= MIN_MATCH && strstart > 0 {
        var b := window[strstart - 1];
        ThreeOfRun();
        if b == window[strstart] && b == window[strstart + 1] && b == window[strstart + 2] {
          FullRun();
        }
      }
      t := Look(base + strstart, |read|, base, window[strstart], [], 0, base + strstart - 1,
                if matchLength >= 3 then matchLength else 2);
      FoundRun(t);
    }

    /** The run at strstart, as far as there are bytes. */
    method FullRun()
      requires strstart + MAX_MATCH < window.Length && Held() && lookahead >= 3 && strstart > 0
      requires window[strstart - 1] == window[strstart] == window[strstart + 1] == window[strstart + 2]
      modifies this`matchLength
      ensures 3 <= matchLength <= lookahead && matchLength <= MAX_MATCH && Alike(strstart - 1, matchLength)
      ensures matchLength < MAX_MATCH && matchLength < lookahead ==> !Alike(strstart - 1, matchLength + 1)
    {
      hide *;
      Sizes();
      matchLength := RunLength();
      if matchLength > lookahead {
        AlikeFewer(strstart - 1, matchLength, lookahead);
        matchLength := lookahead;
      } else if matchLength < MAX_MATCH {
        NotAlike(strstart - 1, matchLength);
      }
    }

    lemma FoundRun(t: Turn)
      requires Held() && t.Look? && t.pos == base + strstart && t.low == base && t.at == t.pos - 1
      requires strstart > 0 && lookahead >= 3 && Alike(strstart - 1, 3) ==>
        3 <= matchLength <= lookahead && matchLength <= MAX_MATCH && Alike(strstart - 1, matchLength)
        && (matchLength < MAX_MATCH && matchLength < lookahead ==> !Alike(strstart - 1, matchLength + 1))
      requires !(strstart > 0 && lookahead >= 3 && Alike(strstart - 1, 3)) ==> matchLength == 0
      requires t.len == if matchLength >= 3 then matchLength else 2
      ensures RunLook(read, t)
    {
      hide *;
      if strstart > 0 {
        AgreesIs(strstart - 1, 3);
        AgreesIs(strstart - 1, matchLength);
        AgreesIs(strstart - 1, matchLength + 1);
      }
      RunLookIs(read, t);
    }

    lemma ThreeOfRun()
      requires 1 <= strstart && strstart + 3 <= window.Length
      ensures Alike(strstart - 1, 3) <==>
        window[strstart - 1] == window[strstart] == window[strstart + 1] == window[strstart + 2]
    {
      var a, b := window[strstart - 1..strstart - 1 + 3], window[strstart..strstart + 3];
      assert a == [window[strstart - 1], window[strstart], window[strstart + 1]];
      assert b == [window[strstart], window[strstart + 1], window[strstart + 2]];
    }

    lemma NotAlike(m: nat, n: nat)
      requires m + n < window.Length && strstart + n < window.Length && window[m + n] != window[strstart + n]
      ensures !Alike(m, n + 1)
    {
      hide Alike;
      if Alike(m, n + 1) {
        AlikeAt(m, n + 1, n);
      }
    }

    lemma AlikeFewer(m: int, n: nat, k: nat)
      requires Alike(m, n) && k <= n
      ensures Alike(m, k)
    {
      assert window[m..m + k] == window[m..m + n][..k];
      assert window[strstart..strstart + k] == window[strstart..strstart + n][..k];
    }

    /** One run or literal. */
    method RleStep() returns (bflush: bool)
      requires Settled(base + strstart) && Room() && lookahead > 0 && strstart + MAX_MATCH < window.Length
      requires tuning.strategy.Rle? && !matchAvailable && Parses() && InSight()
      modifies enc.Repr(), this`strstart, this`lookahead, this`matchLength, this`missed, this`tokens, this`turns
      ensures Settled(base + strstart) && (bflush <==> !Room())
      ensures strstart + lookahead == old(strstart + lookahead) && lookahead < old(lookahead)
        && strstart < window.Length
      ensures Parses() && |turns| == |old(turns)| + 1
    {
      hide *;
      ShapeIsSettled(base + strstart);
      enc.ReprHas();
      ParsesHas();
      NowIs();
      ghost var now, was := Now(), missed;
      ghost var t := RleDecide();
      bflush := RleEmit(now, t);
      Record(t, now, was);
    }

    /** Look for a run; the decision is t. */
    method RleDecide() returns (ghost t: Turn)
      requires Settled(base + strstart) && lookahead > 0 && strstart + MAX_MATCH < window.Length
      requires tuning.strategy.Rle? && !matchAvailable && Parses() && InSight()
      modifies this`matchLength
      ensures Settled(base + strstart)
      ensures matchLength == 0
        || (3 <= matchLength <= lookahead && matchLength <= MAX_MATCH && 1 <= strstart
            && Alike(strstart - 1, matchLength))
      ensures t.Look? && t.pos == base + strstart && t.lit == window[strstart] && t.at == base + strstart - 1
        && t.len == if matchLength >= 3 then matchLength else 2
      ensures LawfulTurn(TheRules(), read, Marks(ends, starts), turns, old(Now()), t)
    {
      hide *;
      SettledHas(base + strstart);
      HeldHas();
      InputAt(strstart);
      NowIs();
      ghost var now := Now();
      t := FindRun();
      RleLooked(t, now.len);
      LawfulNow(t, now);
      SettledIs(base + strstart);
    }

    /** Emit the run found, or the byte. */
    method RleEmit(ghost now: Parse, ghost t: Turn) returns (bflush: bool)
      requires Settled(base + strstart) && Room() && lookahead > 0 && strstart + MAX_MATCH < window.Length
      requires matchLength == 0
        || (3 <= matchLength <= lookahead && matchLength <= MAX_MATCH && 1 <= strstart
            && Alike(strstart - 1, matchLength))
      requires tuning.strategy.Rle? && !matchAvailable && t.Look? && t.pos == base + strstart
        && t.lit == window[strstart] && t.at == base + strstart - 1
        && t.len == if matchLength >= 3 then matchLength else 2
      requires now.tokens == tokens
      modifies enc.Repr(), this`strstart, this`lookahead, this`matchLength, this`missed, this`tokens
      ensures Settled(base + strstart) && (bflush <==> !Room())
      ensures strstart + lookahead == old(strstart + lookahead) && lookahead < old(lookahead)
        && strstart < window.Length
      ensures Now() == Next(tuning.strategy, now, t)
    {
      hide *;
      Sizes();
      ShapeIsSettled(base + strstart);
      enc.ReprHas();
      if matchLength >= MIN_MATCH {
        bflush := PlainRun(matchLength);
        matchLength := 0;
        SettledHas(base + strstart);
        SettledIs(base + strstart);
      } else {
        bflush := PlainLiteral();
      }
      NowIs();
      PlainNext(now, t);
    }

    lemma RleLooked(t: Turn, waiting: nat)
      requires tuning.strategy.Rle? && RunLook(read, t)
      ensures LookedFor(TheRules(), read, ends, turns, t, waiting)
    {
      hide RunLook;
    }

    /** One decision, and a block when the buffer is full. */
    method RleTurn() returns (full: bool)
      requires Settled(base + strstart) && Room() && lookahead > 0 && strstart + MAX_MATCH < window.Length
      requires tuning.strategy.Rle? && !matchAvailable && Parses() && InSight()
      modifies enc.Repr(), this`strstart, this`lookahead, this`matchLength, this`missed, this`tokens, this`turns,
        this`blockStart, this`blocks, this`made, this`output, this`avail
      ensures Settled(base + strstart) && Room()
      ensures strstart + lookahead == old(strstart + lookahead) && lookahead < old(lookahead)
      ensures old(output) <= output && |output| + avail == |old(output)| + old(avail)
      ensures full ==> avail == 0
      ensures Parses() && |turns| == |old(turns)| + 1
    {
      hide *;
      ShapeIsSettled(base + strstart);
      enc.ReprHas();
      var bflush := RleStep();
      full := false;
      if bflush {
        full := FlushBlock();
      }
    }

    /** One turn of the loop: go on, or come back when there is more input or room, or the input is at its end. */
    method RleRound(flush: Flush) returns (go: bool, need: bool)
      requires Settled(base + strstart) && Room()
      requires tuning.strategy.Rle? && !matchAvailable && Parses() && Noted(flush)
      modifies enc.Repr(), window, head, prev, this`strstart, this`lookahead, this`blockStart, this`matchStart,
        this`matchLength, this`insert, this`insH, this`highWater, this`nextIn, this`read, this`base, this`linked,
        this`blocks, this`made, this`tokens, this`turns, this`missed, this`output, this`avail
      ensures Settled(base + strstart) && Room()
      ensures old(output) <= output && |output| + avail == |old(output)| + old(avail)
      ensures old(read) <= read && read + nextIn == old(read) + old(nextIn) && Parses() && Noted(flush)
      ensures go ==> |nextIn| + lookahead < old(|nextIn| + lookahead)
      ensures !go && need ==> avail == 0 || (flush.NoFlush? && nextIn == [])
      ensures !go && !need ==> lookahead == 0 && nextIn == [] && !flush.NoFlush?
      ensures !go && !need ==> strstart + MIN_LOOKAHEAD <= window.Length
    {
      hide *;
      Sizes();
      AheadIs();
      ShapeIsSettled(base + strstart);
      enc.ReprHas();
      go, need := false, true;
      var wait := Refill(MAX_MATCH, flush);
      if !wait {
        if lookahead == 0 {
          need := false;
        } else {
          var full := RleTurn();
          go := !full;
        }
      }
    }

    /** Runs of one byte only (deflate_rle). */
    method DeflateRle(flush: Flush) returns (state: BlockState)
      requires Settled(base + strstart) && Room()
      requires tuning.strategy.Rle? && !matchAvailable && Parses() && Noted(flush)
      modifies enc.Repr(), window, head, prev, this`strstart, this`lookahead, this`blockStart, this`matchStart,
        this`matchLength, this`insert, this`insH, this`highWater, this`nextIn, this`read, this`base, this`linked,
        this`blocks, this`made, this`tokens, this`turns, this`missed, this`output, this`avail
      ensures old(read) <= read && read + nextIn == old(read) + old(nextIn) && Parses()
      ensures state.FinishStarted? || state.FinishDone? ==>
        flush.Finish? && Closed() && lookahead == 0 && nextIn == [] && Over()
      ensures state.BlockDone? ==> !flush.Finish?
      ensures state.NeedMore? || state.BlockDone? ==> Settled(base + strstart) && Room()
      ensures state.BlockDone? ==> lookahead == 0 && nextIn == [] && blockStart == strstart && enc.symNext == 0
      ensures old(output) <= output && |output| + avail == |old(output)| + old(avail)
      ensures state.NeedMore? ==> avail == 0 || (flush.NoFlush? && nextIn == [])
      ensures state.FinishStarted? ==> avail == 0
      ensures state.FinishDone? ==> avail != 0 && output == enc.w.pending
    {
      hide *;
      Sizes();
      AheadIs();
      ShapeIsSettled(base + strstart);
      while true
        invariant Settled(base + strstart) && Room()
        invariant old(output) <= output && |output| + avail == |old(output)| + old(avail)
        invariant old(read) <= read && read + nextIn == old(read) + old(nextIn) && Parses() && Noted(flush)
        decreases |nextIn| + lookahead
      {
        var go, need := RleRound(flush);
        if !go {
          if need {
            return NeedMore;
          }
          break;
        }
      }
      state := EndPlain(flush);
      OverHas();
    }

    // ---------- deflate_slow ----------

    /** The byte before strstart, or a match that starts there, may still be to be emitted. */
    ghost predicate Lazy()
      reads this`strstart, this`base, this`read, this`insert, this`matchStart, this`matchLength, this`matchAvailable,
        this`anew
    {
      2 <= matchLength <= MAX_MATCH && (matchAvailable ==> strstart >= 1)
      && (matchLength >= 3 ==> matchAvailable && insert == 0 && Waiting(matchStart, matchLength))
    }

    /** A match for the string before strstart. */
    ghost predicate Waiting(m: int, n: nat)
      reads this`strstart, this`base, this`read, this`anew
    {
      strstart >= 1 && 1 <= strstart - 1 - m <= wsize - MIN_LOOKAHEAD && anew.since <= base + m
      && Repeats(read, base + strstart - 1, strstart - 1 - m, n)
    }

    /** Up to where the input has been turned into symbols. */
    ghost function Upto(): (p: int)
      reads this`strstart, this`base, this`matchAvailable
    {
      base + strstart - if matchAvailable then 1 else 0
    }

    lemma LazyHas()
      requires Lazy()
      ensures 2 <= matchLength <= MAX_MATCH && (matchAvailable ==> strstart >= 1)
      ensures matchLength >= 3 ==> matchAvailable && insert == 0 && Waiting(matchStart, matchLength)
      ensures Upto() == base + strstart - (if matchAvailable then 1 else 0) >= 0
    {
      hide Waiting;
    }

    lemma LazyIs()
      requires 2 <= matchLength <= MAX_MATCH && (matchAvailable ==> strstart >= 1)
      requires matchLength >= 3 ==> matchAvailable && insert == 0 && Waiting(matchStart, matchLength)
      ensures Lazy() && Upto() == base + strstart - (if matchAvailable then 1 else 0) >= 0
    {
      hide Waiting;
    }

    lemma WaitingHas(m: int, n: nat)
      requires Waiting(m, n)
      ensures strstart >= 1 && 1 <= strstart - 1 - m <= wsize - MIN_LOOKAHEAD && anew.since <= base + m
      ensures Repeats(read, base + strstart - 1, strstart - 1 - m, n) && base + strstart - 1 + n <= |read|
    {
    }

    /** More input does not disturb a waiting match, nor does sliding. */
    lemma WaitingKept(m: int, n: nat, r: seq<Byte>, pos: nat, dist: int)
      requires Repeats(r, pos, dist, n) && 1 <= dist <= wsize - MIN_LOOKAHEAD && r <= read
      requires strstart >= 1 && pos == base + strstart - 1 && dist == strstart - 1 - m && anew.since <= base + m
      ensures Waiting(m, n)
    {
      forall i | pos <= i < pos + n ensures read[i] == read[i - dist] {
        assert r[i] == r[i - dist] && read[i] == r[i] && read[i - dist] == r[i - dist];
      }
    }

    /** Have the lookahead filled. */
    method PrepareLazy() returns (short: bool)
      requires Settled(Upto()) && Ready() && Room() && Lazy()
      modifies window, head, prev, this`strstart, this`lookahead, this`blockStart, this`matchStart, this`insert,
        this`insH, this`highWater, this`nextIn, this`read, this`base, this`linked
      ensures Settled(Upto()) && Ready() && Room() && Lazy() && strstart + MIN_LOOKAHEAD <= window.Length
      ensures old(read) <= read && read + nextIn == old(read) + old(nextIn)
        && |nextIn| + lookahead == old(|nextIn| + lookahead)
      ensures short == (lookahead < MIN_LOOKAHEAD) && (short ==> nextIn == []) && (old(Parses()) ==> Parses())
    {
      hide *;
      Sizes();
      LazyHas();
      ghost var r, pos, dist := read, base + strstart - 1, strstart - 1 - matchStart;
      if matchLength >= 3 {
        WaitingHas(matchStart, matchLength);
      }
      short := Prepare(MIN_LOOKAHEAD - 1, Upto());
      if matchLength >= 3 {
        WaitingKept(matchStart, matchLength, r, pos, dist);
      }
      LazyIs();
    }

    /** Insert the string at strstart and look for a match better than the waiting one; the decision is t. */
    method SlowFind() returns (ghost t: Turn)
      requires Shape() && Held() && insert <= strstart && Chained(strstart - insert) && Ready() && AllExcused()
      requires strstart + MIN_LOOKAHEAD <= window.Length && 2 <= matchLength <= MAX_MATCH
      modifies this`insH, this`linked, this`matchStart, this`matchLength, this`prevLength, this`prevMatch, head, prev
      ensures lookahead >= 3 ==>
        insert == 0 && Chained(strstart + 1) && Primed(hashBits, insH, window[..], strstart + 1)
      ensures lookahead < 3 ==> Chained(strstart - insert)
      ensures prevLength == old(matchLength) && prevMatch == old(matchStart)
      ensures 2 <= matchLength <= MAX_MATCH && (matchLength <= prevLength || Found(matchStart, matchLength))
      ensures t.Look? && t.pos == base + strstart && t.end == |read| && t.low == base
        && t.at == base + matchStart && t.len == matchLength
        && t.lit == if strstart > 0 then window[strstart - 1] else 0
      ensures SlowLook(TheRules(), read, ends, turns, t, prevLength)
    {
      hide *;
      Sizes();
      RulesIs();
      var hashHead := InsertHere();
      HeldHas();
      prevLength, prevMatch := matchLength, matchStart;
      matchLength := MIN_MATCH - 1;
      t := Look(base + strstart, |read|, base, if strstart > 0 then window[strstart - 1] else 0, [], 0,
                base + matchStart, 2);
      if lookahead >= 3 {
        InsertedHas(hashHead);
      }
      if hashHead != 0 && prevLength < tuning.maxLazy && strstart - hashHead <= wsize - MIN_LOOKAHEAD {
        t := SlowSearch(hashHead, t.lit);
      } else {
        if lookahead >= 3 && prevLength < tuning.maxLazy {
          ListedNone(hashHead);
        }
        SlowLookNone(TheRules(), read, ends, turns, t, prevLength);
      }
    }

    /** Look for a match better than the waiting one, and drop it if it is of little use. */
    method SlowSearch(hashHead: nat, ghost lit: Byte) returns (ghost t: Turn)
      requires Shape() && Held() && Inserted(hashHead) && AllExcused() && Candidate(hashHead)
      requires strstart + MIN_LOOKAHEAD <= window.Length && 2 <= prevLength <= MAX_MATCH && prevLength < tuning.maxLazy
      modifies this`matchStart, this`matchLength
      ensures 2 <= matchLength <= MAX_MATCH && (matchLength <= prevLength || Found(matchStart, matchLength))
      ensures t.Look? && t.pos == base + strstart && t.end == |read| && t.low == base
        && t.at == base + matchStart && t.len == matchLength && t.lit == lit
      ensures SlowLook(TheRules(), read, ends, turns, t, prevLength)
    {
      hide *;
      Sizes();
      RulesIs();
      HeldHas();
      InsertedHas(hashHead);
      ghost var tried, best, before;
      matchLength, tried, best, before := LongestMatch(hashHead);
      ghost var found := matchLength;
      if matchLength > prevLength {
        FoundIs(matchStart, matchLength);
      }
      if matchLength <= 5 && (tuning.filtered || (matchLength == MIN_MATCH && strstart - matchStart > TOO_FAR)) {
        matchLength := MIN_MATCH - 1;
      }
      t := Look(base + strstart, |read|, base, lit, Raised(tried, base), found, base + matchStart, matchLength);
      RaisedIs(tried, base);
      SearchSought(hashHead, tried, best, before, t);
      SearchedHas(hashHead, tried, best, before);
      LeastIs(best, lookahead);
      WorthIs(tuning, found, strstart - matchStart);
      SlowLookSought(TheRules(), read, ends, turns, t, prevLength);
    }

    /** Pass over the rest of the waiting match, inserting its strings as far as there are bytes for them. */
    method InsertRest()
      requires Shape() && Held() && insert == 0 && 3 <= prevLength && prevLength - 1 <= lookahead
      requires lookahead >= 3 ==> Chained(strstart + 1) && Primed(hashBits, insH, window[..], strstart + 1)
      requires lookahead < 3 ==> Chained(strstart)
      modifies this`strstart, this`lookahead, this`prevLength, this`insH, this`linked, this`missed, head, prev
      ensures Held() && Chained(strstart) && Ready()
      ensures strstart == old(strstart) + old(prevLength) - 1 && lookahead == old(lookahead) - (old(prevLength) - 1)
      ensures EndOnly(missed, old(missed), |read|) && (lookahead >= 3 ==> missed == old(missed))
    {
      hide *;
      Sizes();
      HeldHas();
      ghost var end := strstart + lookahead;
      var maxInsert := strstart + lookahead - MIN_MATCH;
      ghost var was := missed;
      EndOnlyNone(was, |read|);
      MissHere(was);
      prevLength := prevLength - 2;
      ghost var n := prevLength;
      while prevLength != 0
        invariant prevLength <= n && strstart == old(strstart) + (n - prevLength) && strstart + lookahead == end
        invariant Held() && Chained(strstart + 1) && prevLength + 1 <= lookahead
        invariant lookahead >= 3 ==> Primed(hashBits, insH, window[..], strstart + 1)
        invariant EndOnly(missed, was, |read|) && (lookahead >= 3 ==> missed == was)
        decreases prevLength
      {
        Advance(1, strstart + 1, strstart + 1);
        HeldHas();
        if strstart <= maxInsert {
          var hashHead := InsertString(strstart);
        } else {
          MissOne(was);
        }
        prevLength := prevLength - 1;
      }
      Advance(1, strstart + 1, strstart + 1);
      ReadyIs();
    }

    /** The string at strstart is not inserted if it has fewer than three bytes. */
    ghost method MissHere(was: set<nat>)
      requires Held() && 1 <= lookahead && missed == was
      requires lookahead >= 3 ==> Chained(strstart + 1)
      requires lookahead < 3 ==> Chained(strstart)
      modifies this`missed
      ensures Held() && Chained(strstart + 1) && EndOnly(missed, was, |read|) && (lookahead >= 3 ==> missed == was)
    {
      hide *;
      EndOnlyNone(was, |read|);
      if lookahead < 3 {
        MissOne(was);
      }
    }

    /** The string at strstart has fewer than three bytes and is not inserted. */
    ghost method MissOne(was: set<nat>)
      requires Held() && 1 <= lookahead < 3 && Chained(strstart) && EndOnly(missed, was, |read|)
      modifies this`missed
      ensures Held() && Chained(strstart + 1) && EndOnly(missed, was, |read|)
    {
      hide *;
      HeldHas();
      ghost var m := missed;
      Raise(strstart, strstart + 1);
      EndOnlyStretch(m, base + strstart, base + strstart + 1, |read|);
      EndOnlyMore(missed, m, was, |read|);
    }

    /** Go on behind a match that has been emitted. */
    method AfterMatch()
      requires Shape() && Held() && insert == 0 && 3 <= prevLength <= MAX_MATCH && prevLength - 1 <= lookahead
      requires Story(base + strstart - 1 + prevLength)
      requires lookahead >= 3 ==> Chained(strstart + 1) && Primed(hashBits, insH, window[..], strstart + 1)
      requires lookahead < 3 ==> Chained(strstart)
      modifies this`strstart, this`lookahead, this`matchLength, this`matchAvailable, this`prevLength, this`insH,
        this`linked, this`missed, head, prev
      ensures Settled(base + strstart) && Ready() && Lazy() && !matchAvailable && Upto() == base + strstart
      ensures strstart == old(strstart) + old(prevLength) - 1 && lookahead == old(lookahead) - (old(prevLength) - 1)
      ensures matchLength == 2 && EndOnly(missed, old(missed), |read|) && (lookahead >= 3 ==> missed == old(missed))
    {
      hide *;
      Sizes();
      ShapeHas();
      enc.ReprHas();
      ghost var upto := base + strstart - 1 + prevLength;
      InsertRest();
      AfterRest(upto);
      matchAvailable := false;
      matchLength := MIN_MATCH - 1;
      LazyIs();
    }

    lemma AfterRest(upto: int)
      requires Shape() && Held() && insert == 0 && Chained(strstart) && Story(upto) && upto == base + strstart
      ensures Settled(base + strstart)
    {
      hide *;
      SettledIs(base + strstart);
    }

    /** The waiting match is the better one: emit it. */
    method SlowMatch() returns (full: bool)
      requires Shape() && Held() && Story(base + strstart - 1) && Room() && insert == 0
      requires 3 <= prevLength <= MAX_MATCH && Waiting(prevMatch, prevLength)
      requires lookahead >= 3 ==> Chained(strstart + 1) && Primed(hashBits, insH, window[..], strstart + 1)
      requires lookahead < 3 ==> Chained(strstart)
      requires strstart + MIN_LOOKAHEAD <= window.Length
      modifies enc.Repr(), this`strstart, this`lookahead, this`matchLength, this`matchAvailable, this`prevLength,
        this`insH, this`linked, this`missed, this`tokens, head, prev
      ensures Settled(base + strstart) && Ready() && Lazy() && (full <==> !Room()) && !matchAvailable
        && Upto() == base + strstart
      ensures strstart + lookahead == old(strstart + lookahead) && lookahead < old(lookahead)
        && strstart < window.Length
      ensures strstart == old(strstart) + old(prevLength) - 1 && matchLength == 2
      ensures prevMatch < old(strstart) - 1
        && tokens == old(tokens) + [Match(old(prevLength), old(strstart) - 1 - prevMatch)]
      ensures EndOnly(missed, old(missed), |read|) && (lookahead >= 3 ==> missed == old(missed))
    {
      hide *;
      Sizes();
      ShapeHas();
      enc.ReprHas();
      WaitingHas(prevMatch, prevLength);
      HeldHas();
      full := TallyDist(strstart - 1 - prevMatch, prevLength, base + strstart - 1);
      AfterMatch();
    }

    /** A match found for the string at strstart waits when strstart moves on. */
    lemma FoundWaits(m: nat, n: nat, before: nat, r: seq<Byte>)
      requires before + 1 == strstart && r == read && m < before && before - m <= wsize - MIN_LOOKAHEAD
      requires anew.since <= base
      requires Repeats(read, base + before, before - m, n)
      ensures Waiting(m, n)
    {
    }

    /** The string at strstart starts something better, or nothing was waiting: go on, and let it wait. */
    method Defer()
      requires Shape() && Held() && Story(base + strstart) && lookahead > 0 && insert <= 2 && insert <= strstart
      requires lookahead >= 3 ==>
        insert == 0 && Chained(strstart + 1) && Primed(hashBits, insH, window[..], strstart + 1)
      requires lookahead < 3 ==> Chained(strstart - insert) && (insert == 0 || lookahead + insert < 3)
      requires 2 <= matchLength <= MAX_MATCH && (matchLength >= 3 ==> Found(matchStart, matchLength))
      modifies this`strstart, this`lookahead, this`matchAvailable, this`missed
      ensures Settled(Upto()) && Ready() && Lazy() && matchAvailable
      ensures strstart == old(strstart) + 1 && lookahead == old(lookahead) - 1
      ensures EndOnly(missed, old(missed), |read|) && (old(lookahead) >= 3 ==> missed == old(missed))
    {
      hide *;
      Sizes();
      HeldHas();
      ghost var p := strstart;
      SinceBase(base + strstart);
      if matchLength >= 3 {
        FoundHas(matchStart, matchLength);
        AlikeRepeats(matchStart, matchLength);
      }
      matchAvailable := true;
      AdvanceOne();
      if matchLength >= 3 {
        FoundWaits(matchStart, matchLength, p, read);
      }
      ReadyIs();
      LazyIs();
      SettledIs(Upto());
    }

    /** Emit the byte before strstart. */
    method SlowLiteral() returns (bflush: bool)
      requires Shape() && Held() && Story(base + strstart - 1) && Room() && strstart >= 1
      modifies enc.Repr(), this`tokens
      ensures Story(base + strstart) && (bflush <==> !Room())
      ensures strstart <= window.Length && tokens == old(tokens) + [Literal(window[strstart - 1])]
    {
      hide *;
      ShapeHas();
      HeldHas();
      InputAt(strstart - 1);
      bflush := TallyLit(window[strstart - 1], base + strstart - 1);
    }

    /** One decision of the lazy evaluation. */
    method SlowStep() returns (stop: bool)
      requires Settled(Upto()) && Ready() && Room() && Lazy() && strstart + MIN_LOOKAHEAD <= window.Length
      requires tuning.strategy.Slow? && Parses() && InSight()
      modifies enc.Repr(), head, prev, this`strstart, this`lookahead, this`matchStart, this`matchLength,
        this`matchAvailable, this`prevLength, this`prevMatch, this`insH, this`linked, this`missed, this`tokens,
        this`turns, this`blockStart, this`blocks, this`made, this`output, this`avail
      ensures Settled(Upto()) && Ready() && Room() && Lazy()
      ensures strstart + lookahead == old(strstart + lookahead) && lookahead < old(lookahead)
      ensures old(output) <= output && |output| + avail == |old(output)| + old(avail)
      ensures stop ==> avail == 0
      ensures Parses() && |turns| == |old(turns)| + 1
    {
      hide *;
      ShapeIsSettled(Upto());
      ParsesHas();
      InSightHas();
      AheadIs();
      Sizes();
      ghost var now, was, seen := Now(), missed, lookahead;
      ghost var t := SlowDecide();
      stop := SlowEmit(now, t);
      SlowExcused(t, was, seen);
      Record(t, now, was);
    }

    /** Look for a match; the decision is t. */
    method SlowDecide() returns (ghost t: Turn)
      requires Settled(Upto()) && Ready() && Room() && Lazy() && strstart + MIN_LOOKAHEAD <= window.Length
      requires tuning.strategy.Slow? && Parses() && InSight()
      modifies head, prev, this`matchStart, this`matchLength, this`prevLength, this`prevMatch, this`insH, this`linked
      ensures Shape() && Held() && Story(Upto()) && Room() && insert <= 2 && insert <= strstart
      ensures matchAvailable ==> strstart >= 1
      ensures lookahead >= 3 ==>
        insert == 0 && Chained(strstart + 1) && Primed(hashBits, insH, window[..], strstart + 1)
      ensures lookahead < 3 ==> Chained(strstart - insert) && (insert == 0 || lookahead + insert < 3)
      ensures 2 <= matchLength <= MAX_MATCH && (matchLength <= prevLength || Found(matchStart, matchLength))
      ensures 2 <= prevLength <= MAX_MATCH
      ensures prevLength >= 3 ==> matchAvailable && insert == 0 && Waiting(prevMatch, prevLength)
      ensures t.Look? && t.pos == base + strstart && t.len == matchLength && t.at == base + matchStart
        && t.lit == if strstart > 0 then window[strstart - 1] else 0
      ensures old(Now()) == Parse(tokens, base + strstart, matchAvailable, prevLength,
                                  if prevLength >= 3 then base + prevMatch else 0)
      ensures LawfulTurn(TheRules(), read, Marks(ends, starts), turns, old(Now()), t)
    {
      hide *;
      Sizes();
      LazyHas();
      SettledHas(Upto());
      ShapeHas();
      enc.ReprHas();
      ReadyHas();
      InSightHas();
      HeldHas();
      ParsesHas();
      NowIs();
      ghost var now := Now();
      t := SlowFind();
      SlowLawful(t, now);
    }

    /** What is to be done after a look: emit the waiting match, or the waiting byte, or nothing. */
    method SlowEmit(ghost now: Parse, ghost t: Turn) returns (stop: bool)
      requires Shape() && Held() && Story(Upto()) && Room() && lookahead > 0
        && strstart + MIN_LOOKAHEAD <= window.Length
      requires insert <= 2 && insert <= strstart && (matchAvailable ==> strstart >= 1)
      requires lookahead >= 3 ==>
        insert == 0 && Chained(strstart + 1) && Primed(hashBits, insH, window[..], strstart + 1)
      requires lookahead < 3 ==> Chained(strstart - insert) && (insert == 0 || lookahead + insert < 3)
      requires 2 <= matchLength <= MAX_MATCH && (matchLength <= prevLength || Found(matchStart, matchLength))
      requires 2 <= prevLength <= MAX_MATCH
      requires prevLength >= 3 ==> matchAvailable && insert == 0 && Waiting(prevMatch, prevLength)
      requires tuning.strategy.Slow? && t.Look? && t.pos == base + strstart && t.len == matchLength
        && t.at == base + matchStart && t.lit == if strstart > 0 then window[strstart - 1] else 0
      requires now == Parse(tokens, base + strstart, matchAvailable, prevLength,
                            if prevLength >= 3 then base + prevMatch else 0)
      modifies enc.Repr(), head, prev, this`strstart, this`lookahead, this`matchLength, this`matchAvailable,
        this`prevLength, this`insH, this`linked, this`missed, this`tokens, this`blockStart, this`blocks, this`made,
        this`output, this`avail
      ensures Settled(Upto()) && Ready() && Room() && Lazy()
      ensures strstart + lookahead == old(strstart + lookahead) && lookahead < old(lookahead)
      ensures old(output) <= output && |output| + avail == |old(output)| + old(avail)
      ensures stop ==> avail == 0
      ensures Now() == Next(tuning.strategy, now, t)
      ensures EndOnly(missed, old(missed), |read|) && (missed == old(missed) || old(lookahead) < MIN_LOOKAHEAD)
    {
      hide *;
      Sizes();
      UptoIs();
      if prevLength >= MIN_MATCH && matchLength <= prevLength {
        stop := EmitWaiting(now, t);
      } else if matchAvailable {
        stop := EmitLiteral(now, t);
      } else {
        Defer();
        stop := false;
        NowIs();
        SlowNext(now, t);
      }
    }

    lemma SlowLawful(t: Turn, now: Parse)
      requires Held() && InSight() && tuning.strategy.Slow? && (now.waits ==> strstart >= 1)
      requires t.Look? && t.pos == base + strstart == now.pos && t.end == |read| && t.low == base
        && t.lit == if strstart > 0 then window[strstart - 1] else 0
      requires SlowLook(TheRules(), read, ends, turns, t, now.len)
      ensures LawfulTurn(TheRules(), read, Marks(ends, starts), turns, now, t)
    {
      hide *;
      InSightHas();
      if strstart > 0 {
        InputAt(strstart - 1);
      }
      SlowLooked(t, now.len);
      LawfulNow(t, now);
    }

    lemma SlowLooked(t: Turn, waiting: nat)
      requires tuning.strategy.Slow? && SlowLook(TheRules(), read, ends, turns, t, waiting)
      ensures LookedFor(TheRules(), read, ends, turns, t, waiting)
    {
      hide SlowLook;
    }

    /** What a decision of the lazy evaluation leads to. */
    lemma SlowNext(p: Parse, t: Turn)
      requires t.Look? && tuning.strategy.Slow?
      ensures p.len >= 3 && t.len <= p.len ==>
        Next(tuning.strategy, p, t)
          == Parse(p.tokens + [Match(p.len, Back(t.pos - 1, p.at))], t.pos + p.len - 1, false, 2, 0)
      ensures !(p.len >= 3 && t.len <= p.len) ==>
        Next(tuning.strategy, p, t)
          == Parse(if p.waits then p.tokens + [Literal(t.lit)] else p.tokens, t.pos + 1, true, t.len,
                   if t.len >= 3 then t.at else 0)
      ensures t.pos - 1 > p.at ==> Back(t.pos - 1, p.at) == t.pos - 1 - p.at
    {
    }

    lemma SlowExcused(t: Turn, was: set<nat>, seen: nat)
      requires tuning.strategy.Slow? && (seen >= Ahead(tuning.strategy) || |read| in ends)
      requires EndOnly(missed, was, |read|) && (missed == was || seen < Ahead(tuning.strategy))
      ensures forall q :: q in missed && q !in was ==> Excused(TheRules(), ends, turns + [t], q)
    {
      hide *;
      if missed != was {
        EndExcused(TheRules(), ends, turns + [t], missed, was, |read|);
      }
    }

    method EmitWaiting(ghost now: Parse, ghost t: Turn) returns (stop: bool)
      requires Shape() && Held() && Story(base + strstart - 1) && Room() && insert == 0
      requires 3 <= prevLength <= MAX_MATCH && Waiting(prevMatch, prevLength)
      requires lookahead >= 3 ==> Chained(strstart + 1) && Primed(hashBits, insH, window[..], strstart + 1)
      requires lookahead < 3 ==> Chained(strstart)
      requires strstart + MIN_LOOKAHEAD <= window.Length && tuning.strategy.Slow?
      requires t.Look? && t.pos == base + strstart && t.len <= now.len == prevLength && now.at == base + prevMatch
      requires now.tokens == tokens
      modifies enc.Repr(), this`strstart, this`lookahead, this`matchLength, this`matchAvailable, this`prevLength,
        this`insH, this`linked, this`missed, this`tokens, this`blockStart, this`blocks, this`made, this`output,
        this`avail, head, prev
      ensures Settled(Upto()) && Ready() && Room() && Lazy()
      ensures strstart + lookahead == old(strstart + lookahead) && lookahead < old(lookahead)
      ensures old(output) <= output && |output| + avail == |old(output)| + old(avail)
      ensures stop ==> avail == 0
      ensures Now() == Next(tuning.strategy, now, t)
      ensures EndOnly(missed, old(missed), |read|) && (missed == old(missed) || old(lookahead) < MIN_LOOKAHEAD)
    {
      hide *;
      Sizes();
      ShapeHas();
      var bflush := SlowMatch();
      NowIs();
      SlowNext(now, t);
      stop := false;
      if bflush {
        stop := FlushBlock();
      }
    }

    /** Emit the byte before strstart, and a block when the buffer is full. */
    method SlowLiteralOut()
      requires Shape() && Held() && Story(base + strstart - 1) && Room() && strstart >= 1 && lookahead > 0
      requires strstart + MIN_LOOKAHEAD <= window.Length
      modifies enc.Repr(), this`tokens, this`blockStart, this`blocks, this`made, this`output, this`avail
      ensures Story(base + strstart) && Room()
      ensures old(output) <= output && |output| + avail == |old(output)| + old(avail)
      ensures strstart <= window.Length && tokens == old(tokens) + [Literal(window[strstart - 1])]
    {
      hide *;
      Sizes();
      ShapeHas();
      enc.ReprHas();
      var bflush := SlowLiteral();
      if bflush {
        FlushBlockOnly(false);
      }
    }

    method EmitLiteral(ghost now: Parse, ghost t: Turn) returns (stop: bool)
      requires Shape() && Held() && Story(base + strstart - 1) && Room() && strstart >= 1 && lookahead > 0
      requires insert <= 2 && insert <= strstart && strstart + MIN_LOOKAHEAD <= window.Length
      requires lookahead >= 3 ==>
        insert == 0 && Chained(strstart + 1) && Primed(hashBits, insH, window[..], strstart + 1)
      requires lookahead < 3 ==> Chained(strstart - insert) && (insert == 0 || lookahead + insert < 3)
      requires 2 <= matchLength <= MAX_MATCH && (matchLength >= 3 ==> Found(matchStart, matchLength)) && matchAvailable
      requires tuning.strategy.Slow? && t.Look? && t.pos == base + strstart && t.len == matchLength
        && t.at == base + matchStart && t.lit == window[strstart - 1]
      requires now.tokens == tokens && now.waits && !(now.len >= 3 && t.len <= now.len)
      modifies enc.Repr(), this`strstart, this`lookahead, this`matchAvailable, this`missed, this`tokens,
        this`blockStart, this`blocks, this`made, this`output, this`avail
      ensures Settled(Upto()) && Ready() && Room() && Lazy()
      ensures strstart + lookahead == old(strstart + lookahead) && lookahead < old(lookahead)
      ensures old(output) <= output && |output| + avail == |old(output)| + old(avail)
      ensures stop ==> avail == 0
      ensures Now() == Next(tuning.strategy, now, t)
      ensures EndOnly(missed, old(missed), |read|) && (missed == old(missed) || old(lookahead) < MIN_LOOKAHEAD)
    {
      hide *;
      Sizes();
      ShapeHas();
      enc.ReprHas();
      SlowLiteralOut();
      Defer();
      NowIs();
      SlowNext(now, t);
      stop := avail == 0;
    }

    /** Emit the byte before strstart at the end of the input. */
    method LastLiteral()
      requires Settled(Upto()) && Room() && Lazy() && lookahead == 0
      requires tuning.strategy.Slow? && Parses() && |read| in ends
      modifies enc.Repr(), this`matchAvailable, this`tokens, this`turns
      ensures Settled(base + strstart) && Lazy() && !matchAvailable && Upto() == base + strstart
      ensures Parses() && |turns| == |old(turns)| + 1
    {
      hide *;
      LazyHas();
      SettledHas(Upto());
      ShapeHas();
      enc.ReprHas();
      HeldHas();
      ParsesHas();
      NowIs();
      ghost var now, was := Now(), missed;
      ghost var t := Rest(if strstart > 0 then window[strstart - 1] else 0);
      if strstart > 0 {
        InputAt(strstart - 1);
      }
      RestLawful(t, now);
      if matchLength >= 3 {
        WaitingHas(matchStart, matchLength);
      }
      EmitRest();
      LazyIs();
      SettledIs(base + strstart);
      NowIs();
      RestNext(now, t);
      Record(t, now, was);
    }

    method EmitRest()
      requires Shape() && Held() && Story(Upto()) && Room() && (matchAvailable ==> strstart >= 1)
      modifies enc.Repr(), this`matchAvailable, this`tokens
      ensures Story(base + strstart) && !matchAvailable
      ensures old(matchAvailable) ==>
        strstart <= window.Length && tokens == old(tokens) + [Literal(window[strstart - 1])]
      ensures !old(matchAvailable) ==> tokens == old(tokens)
    {
      hide *;
      UptoIs();
      ShapeHas();
      enc.ReprHas();
      if matchAvailable {
        var bflush := SlowLiteral();
        matchAvailable := false;
      }
    }

    lemma RestLawful(t: Turn, now: Parse)
      requires tuning.strategy.Slow? && t.Rest? && now.pos == |read| && |read| in ends
      requires now.waits ==> |read| >= 1 && t.lit == read[|read| - 1]
      ensures LawfulTurn(TheRules(), read, Marks(ends, starts), turns, now, t)
    {
    }

    lemma RestNext(p: Parse, t: Turn)
      requires t.Rest?
      ensures Next(tuning.strategy, p, t)
        == Parse(if p.waits then p.tokens + [Literal(t.lit)] else p.tokens, p.pos, false, p.len, p.at)
    {
    }

    /** The end of the input: what is still waiting, and the last block. */
    method EndSlow(flush: Flush) returns (state: BlockState)
      requires Settled(Upto()) && Room() && Lazy() && lookahead == 0 && strstart <= 65535
      requires tuning.strategy.Slow? && Parses() && |read| in ends
      modifies enc.Repr(), this`matchAvailable, this`insert, this`tokens, this`turns, this`blockStart, this`blocks,
        this`made, this`output, this`avail
      ensures state.FinishStarted? || state.FinishDone? <==> flush.Finish?
      ensures flush.Finish? ==> Closed()
      ensures !flush.Finish? ==> Settled(Upto()) && Ready() && Room() && Lazy()
      ensures !flush.Finish? ==> !matchAvailable && blockStart == strstart && enc.symNext == 0
      ensures old(output) <= output && |output| + avail == |old(output)| + old(avail)
      ensures state.NeedMore? || state.FinishStarted? ==> avail == 0
      ensures state.FinishDone? ==> avail != 0 && output == enc.w.pending
      ensures Over()
    {
      hide *;
      ShapeIsSettled(Upto());
      enc.ReprHas();
      LastLiteral();
      AtEnd(base + strstart);
      LazyHas();
      SetInsert();
      LazyIs();
      state := EndBlocks(flush);
      LazyIs();
    }

    /** Compress with lazy evaluation of matches (deflate_slow). */
    method DeflateSlow(flush: Flush) returns (state: BlockState)
      requires Settled(Upto()) && Ready() && Room() && Lazy()
      requires tuning.strategy.Slow? && Parses() && Noted(flush)
      modifies enc.Repr(), window, head, prev, this`strstart, this`lookahead, this`blockStart, this`matchStart,
        this`matchLength, this`matchAvailable, this`prevLength, this`prevMatch, this`insert, this`insH,
        this`highWater, this`nextIn, this`read, this`base, this`linked, this`blocks, this`made, this`tokens,
        this`turns, this`missed, this`output, this`avail
      ensures old(read) <= read && read + nextIn == old(read) + old(nextIn) && Parses()
      ensures state.FinishStarted? || state.FinishDone? ==>
        flush.Finish? && Closed() && lookahead == 0 && nextIn == [] && Over()
      ensures state.BlockDone? ==> !flush.Finish?
      ensures state.NeedMore? || state.BlockDone? ==> Settled(Upto()) && Ready() && Room() && Lazy()
      ensures state.BlockDone? ==>
        lookahead == 0 && nextIn == [] && !matchAvailable && blockStart == strstart && enc.symNext == 0
      ensures old(output) <= output && |output| + avail == |old(output)| + old(avail)
      ensures state.NeedMore? ==> avail == 0 || (flush.NoFlush? && nextIn == [])
      ensures state.FinishStarted? ==> avail == 0
      ensures state.FinishDone? ==> avail != 0 && output == enc.w.pending
    {
      hide *;
      Sizes();
      AheadIs();
      LazyHas();
      ShapeIsSettled(Upto());
      while true
        invariant Settled(Upto()) && Ready() && Room() && Lazy()
        invariant old(output) <= output && |output| + avail == |old(output)| + old(avail)
        invariant old(read) <= read && read + nextIn == old(read) + old(nextIn) && Parses() && Noted(flush)
        decreases |nextIn| + lookahead
      {
        ghost var n := |read| + |nextIn|;
        if !flush.NoFlush? {
          NotedHas(flush);
        }
        var short := PrepareLazy();
        NotedStill(flush, n);
        if short && flush.NoFlush? {
          return NeedMore;
        }
        if lookahead == 0 {
          break;
        }
        InSightIs();
        var stop := SlowStep();
        if stop {
          return NeedMore;
        }
      }
      NotedHas(flush);
      state := EndSlow(flush);
      OverHas();
    }

    // ---------- deflate ----------

    /** More input can be taken. */
    ghost predicate Running()
      reads this`strstart, this`lookahead, this`insert, this`read, this`base, this`linked, this`blocks,
        this`blockStart, this`output, this`insH, this`prevLength, this`matchLength, this`matchAvailable,
        this`matchStart, this`made, this`tokens, this`turns, this`missed, this`ends, this`starts, this`anew, window,
        head, prev, enc, enc.symBuf, enc.lfc, enc.dfc, enc.bfc, enc.b, enc.w, enc.slfc, enc.sldl, enc.sdfc, enc.sddl
    {
      Settled(Upto()) && Room() && Parses()
      && match tuning.strategy
         case Fast => Ready() && prevLength == 2 && matchLength < 3 && !matchAvailable
         case Slow => Ready() && Lazy()
         case Rle => !matchAvailable
         case Huff => !matchAvailable && enc.symNext == 3 * (strstart - blockStart)
    }

    /** The compressor between two calls. */
    ghost predicate Valid()
      reads this, window, head, prev, enc, enc.symBuf, enc.lfc, enc.dfc, enc.bfc, enc.b, enc.w, enc.slfc, enc.sldl,
        enc.sdfc, enc.sddl
    {
      Shape() && if finished then Closed() && nextIn == [] && lookahead == 0 && Over() else Running()
    }

    lemma RunningHas()
      requires Running()
      ensures Settled(Upto()) && Room() && Parses()
      ensures !matchAvailable ==> Upto() == base + strstart
      ensures tuning.strategy.Fast? ==> Ready() && prevLength == 2 && matchLength < 3 && !matchAvailable
      ensures tuning.strategy.Slow? ==> Ready() && Lazy()
      ensures tuning.strategy.Rle? ==> !matchAvailable
      ensures tuning.strategy.Huff? ==> !matchAvailable && enc.symNext == 3 * (strstart - blockStart)
    {
      hide Settled, Room, Ready, Lazy, Parses;
    }

    lemma RunningIs()
      requires Settled(Upto()) && Room() && Parses()
      requires tuning.strategy.Fast? ==> Ready() && prevLength == 2 && matchLength < 3 && !matchAvailable
      requires tuning.strategy.Slow? ==> Ready() && Lazy()
      requires tuning.strategy.Rle? ==> !matchAvailable
      requires tuning.strategy.Huff? ==> !matchAvailable && enc.symNext == 3 * (strstart - blockStart)
      ensures Running()
    {
      hide Settled, Room, Ready, Lazy, Parses;
    }

    lemma ValidHas()
      requires Valid()
      ensures Shape() && (finished ==> Closed() && nextIn == [] && lookahead == 0 && Over())
      ensures !finished ==> Running()
    {
      hide Shape, Closed, Running, Over;
    }

    lemma ValidIs()
      requires Shape() && (finished ==> Closed() && nextIn == [] && lookahead == 0 && Over())
      requires !finished ==> Running()
      ensures Valid()
    {
      hide Shape, Closed, Running, Over;
    }

    lemma UptoIs()
      ensures Upto() == base + strstart - (if matchAvailable then 1 else 0)
    {
    }

    /** One call of the function that the strategy chooses. */
    method RunStrategy(flush: Flush) returns (state: BlockState)
      requires Shape() && Running() && Noted(flush)
      modifies enc.Repr(), window, head, prev, this`strstart, this`lookahead, this`blockStart, this`matchStart,
        this`matchLength, this`matchAvailable, this`prevLength, this`prevMatch, this`insert, this`insH,
        this`highWater, this`nextIn, this`read, this`base, this`linked, this`blocks, this`made, this`tokens,
        this`turns, this`missed, this`output, this`avail
      ensures old(read) <= read && read + nextIn == old(read) + old(nextIn)
      ensures state.FinishStarted? || state.FinishDone? ==>
        flush.Finish? && Closed() && lookahead == 0 && nextIn == [] && Over()
      ensures state.BlockDone? ==> !flush.Finish?
      ensures state.NeedMore? || state.BlockDone? ==> Running()
      ensures state.BlockDone? ==>
        lookahead == 0 && nextIn == [] && !matchAvailable && blockStart == strstart && enc.symNext == 0
      ensures old(output) <= output && |output| + avail == |old(output)| + old(avail)
      ensures state.NeedMore? ==> avail == 0 || (flush.NoFlush? && nextIn == [])
      ensures state.FinishStarted? ==> avail == 0
      ensures state.FinishDone? ==> avail != 0 && output == enc.w.pending
    {
      hide *;
      RunningHas();
      match tuning.strategy {
        case Fast => state := RunFast(flush);
        case Slow => state := RunSlow(flush);
        case Rle => state := RunRle(flush);
        case Huff => state := RunHuff(flush);
      }
    }

    method RunFast(flush: Flush) returns (state: BlockState)
      requires Shape() && Running() && tuning.strategy.Fast? && Noted(flush)
      modifies enc.Repr(), window, head, prev, this`strstart, this`lookahead, this`blockStart, this`matchStart,
        this`matchLength, this`insert, this`insH, this`highWater, this`nextIn, this`read, this`base, this`linked,
        this`blocks, this`made, this`tokens, this`turns, this`missed, this`output, this`avail
      ensures old(read) <= read && read + nextIn == old(read) + old(nextIn)
      ensures state.FinishStarted? || state.FinishDone? ==>
        flush.Finish? && Closed() && lookahead == 0 && nextIn == [] && Over()
      ensures state.BlockDone? ==> !flush.Finish?
      ensures state.NeedMore? || state.BlockDone? ==> Running()
      ensures state.BlockDone? ==>
        lookahead == 0 && nextIn == [] && !matchAvailable && blockStart == strstart && enc.symNext == 0
      ensures old(output) <= output && |output| + avail == |old(output)| + old(avail)
      ensures state.NeedMore? ==> avail == 0 || (flush.NoFlush? && nextIn == [])
      ensures state.FinishStarted? ==> avail == 0
      ensures state.FinishDone? ==> avail != 0 && output == enc.w.pending
    {
      hide *;
      ShapeHas();
      RunningHas();
      state := DeflateFast(flush);
      if state.NeedMore? || state.BlockDone? {
        UptoIs();
        RunningIs();
      }
    }

    method RunSlow(flush: Flush) returns (state: BlockState)
      requires Shape() && Running() && tuning.strategy.Slow? && Noted(flush)
      modifies enc.Repr(), window, head, prev, this`strstart, this`lookahead, this`blockStart, this`matchStart,
        this`matchLength, this`matchAvailable, this`prevLength, this`prevMatch, this`insert, this`insH,
        this`highWater, this`nextIn, this`read, this`base, this`linked, this`blocks, this`made, this`tokens,
        this`turns, this`missed, this`output, this`avail
      ensures old(read) <= read && read + nextIn == old(read) + old(nextIn)
      ensures state.FinishStarted? || state.FinishDone? ==>
        flush.Finish? && Closed() && lookahead == 0 && nextIn == [] && Over()
      ensures state.BlockDone? ==> !flush.Finish?
      ensures state.NeedMore? || state.BlockDone? ==> Running()
      ensures state.BlockDone? ==>
        lookahead == 0 && nextIn == [] && !matchAvailable && blockStart == strstart && enc.symNext == 0
      ensures old(output) <= output && |output| + avail == |old(output)| + old(avail)
      ensures state.NeedMore? ==> avail == 0 || (flush.NoFlush? && nextIn == [])
      ensures state.FinishStarted? ==> avail == 0
      ensures state.FinishDone? ==> avail != 0 && output == enc.w.pending
    {
      hide *;
      RunningHas();
      state := DeflateSlow(flush);
      if state.NeedMore? || state.BlockDone? {
        RunningIs();
      }
    }

    method RunHuff(flush: Flush) returns (state: BlockState)
      requires Shape() && Running() && tuning.strategy.Huff? && Noted(flush)
      modifies enc.Repr(), window, head, prev, this`strstart, this`lookahead, this`blockStart, this`matchStart,
        this`matchLength, this`insert, this`insH, this`highWater, this`nextIn, this`read, this`base, this`linked,
        this`blocks, this`made, this`tokens, this`turns, this`missed, this`output, this`avail
      ensures old(read) <= read && read + nextIn == old(read) + old(nextIn)
      ensures state.FinishStarted? || state.FinishDone? ==>
        flush.Finish? && Closed() && lookahead == 0 && nextIn == [] && Over()
      ensures state.BlockDone? ==> !flush.Finish?
      ensures state.NeedMore? || state.BlockDone? ==> Running()
      ensures state.BlockDone? ==>
        lookahead == 0 && nextIn == [] && !matchAvailable && blockStart == strstart && enc.symNext == 0
      ensures old(output) <= output && |output| + avail == |old(output)| + old(avail)
      ensures state.NeedMore? ==> avail == 0 || (flush.NoFlush? && nextIn == [])
      ensures state.FinishStarted? ==> avail == 0
      ensures state.FinishDone? ==> avail != 0 && output == enc.w.pending
    {
      hide *;
      ShapeHas();
      RunningHas();
      state := DeflateHuff(flush);
      if state.NeedMore? || state.BlockDone? {
        UptoIs();
        RunningIs();
      }
    }

    method RunRle(flush: Flush) returns (state: BlockState)
      requires Shape() && Running() && tuning.strategy.Rle? && Noted(flush)
      modifies enc.Repr(), window, head, prev, this`strstart, this`lookahead, this`blockStart, this`matchStart,
        this`matchLength, this`insert, this`insH, this`highWater, this`nextIn, this`read, this`base, this`linked,
        this`blocks, this`made, this`tokens, this`turns, this`missed, this`output, this`avail
      ensures old(read) <= read && read + nextIn == old(read) + old(nextIn)
      ensures state.FinishStarted? || state.FinishDone? ==>
        flush.Finish? && Closed() && lookahead == 0 && nextIn == [] && Over()
      ensures state.BlockDone? ==> !flush.Finish?
      ensures state.NeedMore? || state.BlockDone? ==> Running()
      ensures state.BlockDone? ==>
        lookahead == 0 && nextIn == [] && !matchAvailable && blockStart == strstart && enc.symNext == 0
      ensures old(output) <= output && |output| + avail == |old(output)| + old(avail)
      ensures state.NeedMore? ==> avail == 0 || (flush.NoFlush? && nextIn == [])
      ensures state.FinishStarted? ==> avail == 0
      ensures state.FinishDone? ==> avail != 0 && output == enc.w.pending
    {
      hide *;
      ShapeHas();
      RunningHas();
      state := DeflateRle(flush);
      if state.NeedMore? || state.BlockDone? {
        UptoIs();
        RunningIs();
      }
    }

    /** The last block is an empty one, and those before it stand for all that has been read. */
    ghost predicate EmptyBehind()
      reads this`blocks, this`read
    {
      blocks != [] && blocks[|blocks| - 1] == FixedBlock([])
      && Told(wsize, blocks[..|blocks| - 1], [], |read|, |read|, read)
    }

    /** The last block is an empty stored one. */
    ghost predicate MarkBehind()
      reads this`blocks
    {
      blocks != [] && blocks[|blocks| - 1] == StoredBlock([])
    }

    lemma MarkBehindIs(bs: seq<Block>)
      requires blocks == bs + [StoredBlock([])]
      ensures MarkBehind()
    {
    }

    lemma MarkBehindHas()
      requires MarkBehind()
      ensures blocks != [] && blocks[|blocks| - 1] == StoredBlock([])
    {
    }

    /** Nothing is tallied, and all has been read: the blocks stand for all of it. */
    lemma AllTold()
      requires Shape() && Running() && !matchAvailable && lookahead == 0 && blockStart == strstart && enc.symNext == 0
      ensures AllWritable(blocks) && Told(wsize, blocks, [], |read|, |read|, read)
      ensures enc.w.Valid() && enc.w.Stream() == Sent(blocks, false)
    {
      hide *;
      RunningHas();
      SettledHas(Upto());
      StoryHas(Upto());
      HeldHas();
      enc.NothingTallied();
      enc.ValidParts();
    }

    lemma EmptyBehindIs(bs: seq<Block>)
      requires blocks == bs + [FixedBlock([])] && Told(wsize, bs, [], |read|, |read|, read)
      ensures EmptyBehind()
    {
      assert blocks[..|blocks| - 1] == bs;
    }

    lemma SentHas()
      requires Running()
      ensures enc.w.Valid() && AllWritable(blocks) && enc.w.Stream() == Sent(blocks, false)
    {
      hide *;
      RunningHas();
      SettledHas(Upto());
      StoryHas(Upto());
      enc.ValidParts();
    }

    lemma EmptyBehindHas()
      requires EmptyBehind()
      ensures blocks != [] && blocks[|blocks| - 1] == FixedBlock([])
      ensures Told(wsize, blocks[..|blocks| - 1], [], |read|, |read|, read)
    {
    }

    /** Complete a flush: an empty block that brings the stream to a byte boundary. */
    method EndFlush(flush: Flush)
      requires Shape() && Running() && !matchAvailable && lookahead == 0 && blockStart == strstart && enc.symNext == 0
      modifies enc.Repr(), head, this`strstart, this`blockStart, this`insert, this`base, this`linked, this`blocks,
        this`made, this`starts, this`anew, this`output, this`avail
      ensures starts == old(starts) + if flush.FullFlush? then {|read|} else {}
      ensures if flush.FullFlush? then anew.since == |read| && anew.mark == |enc.w.pending| else anew == old(anew)
      ensures Running() && lookahead == 0 && enc.symNext == 0 && blockStart == strstart
      ensures flush.SyncFlush? || flush.FullFlush? ==>
        enc.w.Stream() == BytesToBits(enc.w.pending) && MarkBehind()
      ensures enc.w.biValid <= 7
      ensures flush.PartialFlush? ==> EmptyBehind()
      ensures old(output) <= output && |output| + avail == |old(output)| + old(avail)
      ensures avail == 0 || output == enc.w.pending
    {
      hide *;
      ShapeHas();
      enc.ReprHas();
      EndMarker(flush);
      FlushRunning();
    }

    /** The empty block that a flush ends with; a full flush forgets the history. */
    method EndMarker(flush: Flush)
      requires Shape() && Running() && !matchAvailable && lookahead == 0 && blockStart == strstart && enc.symNext == 0
      modifies enc.Repr(), head, this`strstart, this`blockStart, this`insert, this`base, this`linked, this`blocks,
        this`made, this`starts, this`anew
      ensures starts == old(starts) + if flush.FullFlush? then {|read|} else {}
      ensures if flush.FullFlush? then anew.since == |read| && anew.mark == |enc.w.pending| else anew == old(anew)
      ensures Running() && lookahead == 0 && enc.symNext == 0 && blockStart == strstart
      ensures flush.SyncFlush? || flush.FullFlush? ==>
        enc.w.Stream() == BytesToBits(enc.w.pending) && MarkBehind()
      ensures flush.PartialFlush? ==> EmptyBehind()
    {
      hide *;
      ShapeHas();
      enc.ReprHas();
      if flush.PartialFlush? {
        ghost var bs := blocks;
        AllTold();
        SendEmpty(true);
        EmptyBehindIs(bs);
      } else if !flush.BlockFlush? {
        ghost var bs := blocks;
        SendEmpty(false);
        MarkBehindIs(bs);
        if flush.FullFlush? {
          ForgetAll();
        }
      }
    }

    /** Hand out what there is room for, between two blocks. */
    method FlushRunning()
      requires Shape() && Running()
      modifies enc.w, this`output, this`avail
      ensures Running()
      ensures old(enc.w.Stream() == BytesToBits(enc.w.pending)) ==>
        enc.w.Stream() == BytesToBits(enc.w.pending) && enc.w.pending == old(enc.w.pending)
      ensures old(output) <= output && |output| + avail == |old(output)| + old(avail)
      ensures enc.w.biValid <= 7
      ensures avail == 0 || output == enc.w.pending
    {
      hide *;
      ShapeHas();
      RunningHas();
      SettledHas(Upto());
      enc.ReprHas();
      if tuning.strategy.Slow? {
        LazyHas();
      }
      FlushStory(Upto());
      SettledIs(Upto());
      RunningIs();
    }

    method SendMarker(fixed: bool)
      requires enc.Valid()
      modifies enc.w
      ensures enc.Valid() && enc.Tokens() == old(enc.Tokens()) && old(enc.w.pending) <= enc.w.pending
      ensures var b := if fixed then FixedBlock([]) else StoredBlock([]);
              Writable(b) && enc.w.Stream() == BlockSent(old(enc.w.Stream()), b, false)
      ensures !fixed ==> enc.w.Stream() == BytesToBits(enc.w.pending)
    {
      hide *;
      if fixed {
        enc.TrAlign();
      } else {
        enc.TrStoredBlock([]);
      }
    }

    /** An empty block. */
    method SendEmpty(fixed: bool)
      requires Shape() && Running() && !matchAvailable && lookahead == 0 && blockStart == strstart && enc.symNext == 0
      modifies enc.Repr(), this`blocks, this`made
      ensures Running() && enc.symNext == 0 && (!fixed ==> enc.w.Stream() == BytesToBits(enc.w.pending))
      ensures blocks == old(blocks) + [if fixed then FixedBlock([]) else StoredBlock([])]
    {
      hide *;
      ShapeHas();
      RunningHas();
      SettledHas(Upto());
      enc.ReprHas();
      RoomHas();
      if tuning.strategy.Slow? {
        LazyHas();
      }
      TellMarker(fixed, Upto());
      RoomHas();
      SettledIs(Upto());
      RunningIs();
    }

    method TellMarker(fixed: bool, ghost upto: int)
      requires Shape() && Story(upto) && upto == base + blockStart && enc.symNext == 0
      modifies enc.w, this`blocks, this`made
      ensures Story(upto) && enc.symNext == 0 && (!fixed ==> enc.w.Stream() == BytesToBits(enc.w.pending))
      ensures blocks == old(blocks) + [if fixed then FixedBlock([]) else StoredBlock([])]
    {
      hide *;
      ShapeHas();
      StoryHas(upto);
      enc.ReprHas();
      enc.NothingTallied();
      ghost var p := enc.w.pending;
      ghost var b := if fixed then FixedBlock([]) else StoredBlock([]);
      SendMarker(fixed);
      Prefixes(output, p, enc.w.pending);
      ToldEmpty(wsize, blocks, base + blockStart, read, b);
      SentMore(blocks, b, false);
      MarkerIs(b, tuning.fixed);
      AccountedBlock(blocks, made, tuning.fixed, tokens, [], b, Marker);
      AfreshEmpty(wsize, blocks, base + blockStart, read, p, anew, b);
      AfreshPending(wsize, blocks + [b], [], base + blockStart, base + blockStart, read, p, anew, enc.w.pending);
      blocks, made := blocks + [b], made + [Marker];
      StoryIs(upto);
    }

    /** Empty the hash table (CLEAR_HASH). */
    method ClearHash()
      modifies head
      ensures forall h :: 0 <= h < head.Length ==> head[h] == 0
    {
      forall h | 0 <= h < head.Length {
        head[h] := 0;
      }
    }

    /** Forget the history, so that decoding can start afresh here. */
    method ForgetAll()
      requires Shape() && Running() && !matchAvailable && lookahead == 0 && blockStart == strstart && enc.symNext == 0
      requires enc.w.Stream() == BytesToBits(enc.w.pending)
      modifies head, this`strstart, this`blockStart, this`insert, this`base, this`linked, this`starts, this`anew
      ensures Running() && lookahead == 0 && enc.symNext == 0 && blockStart == strstart && !matchAvailable
      ensures starts == old(starts) + {|read|} && base == |read|
      ensures anew == Anew(|read|, |blocks|, |enc.w.pending|)
    {
      hide *;
      ShapeHas();
      RunningHas();
      SettledHas(Upto());
      StoryHas(Upto());
      HeldHas();
      enc.ReprHas();
      if tuning.strategy.Slow? {
        LazyHas();
      }
      RootedAnew(starts, base, strstart, wsize);
      enc.NothingTallied();
      AfreshHere(wsize, blocks, read, enc.w.pending);
      ClearHash();
      StartAfresh();
      Forgotten();
    }

    /** The window is empty, and starts where the input read so far ends. */
    method StartAfresh()
      requires Parses() && base + strstart == |read| && (tuning.strategy.Slow? ==> matchLength < 3)
      modifies this`strstart, this`blockStart, this`insert, this`base, this`linked, this`starts, this`anew
      ensures strstart == insert == 0 && blockStart == 0 && base == old(base + strstart) && linked == {}
      ensures Parses() && starts == old(starts) + {|read|} && anew == Anew(|read|, |blocks|, |enc.w.pending|)
    {
      hide *;
      NowIs();
      ParsesHas();
      ghost var now, was := Now(), Marks(ends, starts);
      ResetPositions();
      starts, anew := starts + {|read|}, Anew(|read|, |blocks|, |enc.w.pending|);
      ParsedMore(TheRules(), read, was, turns, missed, now, read, Marks(ends, starts));
      NowIs();
      ParsesIs();
    }

    method ResetPositions()
      modifies this`strstart, this`blockStart, this`insert, this`base, this`linked
      ensures strstart == insert == 0 && blockStart == 0 && base == old(base + strstart) && linked == {}
    {
      linked := {};
      base := base + strstart;
      strstart, blockStart, insert := 0, 0, 0;
    }

    lemma Forgotten()
      requires Shape() && strstart == lookahead == insert == 0 && blockStart == 0 && linked == {} && !matchAvailable
        && base == |read|
      requires forall h :: 0 <= h < head.Length ==> head[h] == 0
      requires enc.Valid() && enc.Syms() && AllWritable(blocks) && Told(wsize, blocks, enc.Tokens(), base, base, read)
      requires enc.w.Stream() == Sent(blocks, false) && output <= enc.w.pending && Room() && enc.symNext == 0
      requires Accounted(blocks, made, tuning.fixed, tokens, enc.Tokens()) && Rooted(starts, base, 0, wsize) && Parses()
      requires anew.since in starts && Afresh(wsize, blocks, enc.Tokens(), base, base, read, enc.w.pending, anew)
      requires tuning.strategy.Fast? ==> prevLength == 2 && matchLength < 3
      requires tuning.strategy.Slow? ==> 2 <= matchLength <= MAX_MATCH && matchLength < 3
      ensures Running()
    {
      hide *;
      Sizes();
      ShapeHas();
      assert forall h :: 0 <= h < |head[..]| ==> head[..][h] == 0;
      assert window[..0] == read[base..];
      HeldIs();
      NoChains(hashBits, head[..], prev[..], window[..]);
      CoversNothing(linked, missed, base);
      ChainedIs(0);
      UptoIs();
      StoryIs(base);
      SettledIs(base);
      ReadyIs();
      if tuning.strategy.Slow? {
        LazyIs();
      }
      RunningIs();
    }

    /** All that has been read has been compressed and handed out, up to a byte boundary. */
    ghost predicate Flushed()
      reads this, window, head, prev, enc, enc.symBuf, enc.lfc, enc.dfc, enc.bfc, enc.b, enc.w, enc.slfc, enc.sldl,
        enc.sdfc, enc.sddl
    {
      Shape() && Running() && lookahead == 0 && nextIn == [] && !matchAvailable && enc.symNext == 0
          && blockStart == strstart
      && enc.w.Stream() == BytesToBits(enc.w.pending) && output == enc.w.pending && MarkBehind()
    }

    /** All that has been read has been compressed, and handed out but for less than a byte of an empty block. */
    ghost predicate PartlyFlushed()
      reads this, window, head, prev, enc, enc.symBuf, enc.lfc, enc.dfc, enc.bfc, enc.b, enc.w, enc.slfc, enc.sldl,
        enc.sdfc, enc.sddl
    {
      Shape() && Running() && EmptyBehind() && enc.w.biValid <= 7 && output == enc.w.pending
    }

    lemma PartlyFlushedIs()
      requires Shape() && Running() && EmptyBehind() && enc.w.biValid <= 7 && output == enc.w.pending
      ensures PartlyFlushed()
    {
      hide Shape, Running, EmptyBehind;
    }

    lemma PartlyFlushedHas()
      requires PartlyFlushed()
      ensures Shape() && Running() && EmptyBehind() && enc.w.biValid <= 7 && output == enc.w.pending
    {
      hide Shape, Running, EmptyBehind;
    }

    lemma FlushedIs()
      requires Shape() && Running() && lookahead == 0 && nextIn == [] && !matchAvailable && enc.symNext == 0
        && blockStart == strstart
      requires enc.w.Stream() == BytesToBits(enc.w.pending) && output == enc.w.pending && MarkBehind()
      ensures Flushed()
    {
      hide Shape, Running, BytesToBits, MarkBehind;
    }

    lemma FlushedHas()
      requires Flushed()
      ensures Shape() && Running() && lookahead == 0 && nextIn == [] && !matchAvailable && enc.symNext == 0
        && blockStart == strstart
      ensures enc.w.Stream() == BytesToBits(enc.w.pending) && output == enc.w.pending && MarkBehind()
    {
      hide Shape, Running, BytesToBits, MarkBehind;
    }

    /** The call can do nothing: no input, nothing left to hand out, and no flush that was not asked for before. */
    predicate Useless(data: seq<Byte>, flush: Flush)
      reads this`nextIn, this`output, this`lastFlush, enc.w`pending
    {
      nextIn + data == [] && !flush.Finish? && output == enc.w.pending && Rank(FlushValue(flush)) <= Rank(lastFlush)
    }

    /** Compress (deflate): `data` is the input of this call, behind what an earlier call has not taken, and there is
        room for so many bytes of output. */
    method Deflate(data: seq<Byte>, flush: Flush, room: nat) returns (ret: int)
      requires Valid()
      modifies enc.Repr(), window, head, prev, this
      ensures Valid() && old(read) <= read && (finished && !old(finished) ==> flush.Finish?)
        && (old(finished) ==> finished)
      ensures old(output) <= output <= enc.w.pending && |output| + avail == |old(output)| + room
      ensures ret in {Z_OK, Z_STREAM_END, Z_STREAM_ERROR, Z_BUF_ERROR}
      ensures ret == Z_STREAM_ERROR <==> old(finished) && !flush.Finish?
      ensures ret == Z_BUF_ERROR <==>
        (!old(finished) || flush.Finish?)
        && (room == 0 || old(Useless(data, flush)) || (old(finished) && data != [] && avail != 0))
      ensures ret == Z_STREAM_ERROR || ret == Z_BUF_ERROR ==>
        read == old(read) && nextIn == old(nextIn) && finished == old(finished)
      ensures ret == Z_OK || ret == Z_STREAM_END ==>
        read + nextIn == old(read) + (old(nextIn) + if old(finished) then [] else data)
      ensures ret == Z_OK ==> avail == 0 || (nextIn == [] && !flush.Finish?)
      ensures ret == Z_OK && (flush.SyncFlush? || flush.FullFlush?) ==> avail == 0 || Flushed()
      ensures ret == Z_OK && flush.PartialFlush? ==> avail == 0 || PartlyFlushed()
      ensures ret == Z_STREAM_END ==> finished && flush.Finish? && output == enc.w.pending && avail != 0
      ensures ends == old(ends) || (!flush.NoFlush? && ends == old(ends) + {|read| + |nextIn|})
      ensures starts == old(starts) || (flush.FullFlush? && nextIn == [] && starts == old(starts) + {|read|})
      ensures ret == Z_OK && flush.FullFlush? ==>
        avail == 0 || (|read| in starts && anew.since == |read| && anew.mark == |output|)
      ensures flush.FullFlush? || anew == old(anew)
    {
      hide *;
      ReturnCodes();
      enc.ReprHas();
      var go;
      go, ret := BeginDeflate(data, flush, room);
      if go {
        nextIn := nextIn + data;
        NoteEnd(flush);
        ret := Work(flush);
        ValidHas();
        OutputHas();
      }
    }

    /** Note where the input at hand ends, if a flush is asked for. */
    ghost method NoteEnd(flush: Flush)
      requires Shape() && (finished ==> Closed() && lookahead == 0 && Over()) && (!finished ==> Running())
      modifies this`ends
      ensures (finished ==> Closed() && lookahead == 0 && Over()) && (!finished ==> Running()) && Noted(flush)
      ensures ends == old(ends) + if flush.NoFlush? then {} else {|read| + |nextIn|}
    {
      hide *;
      NowIs();
      ghost var now, was := Now(), Marks(ends, starts);
      if finished {
        OverHas();
        ParsesHas();
      } else {
        RunningHas();
        ParsesHas();
      }
      ends := ends + if flush.NoFlush? then {} else {|read| + |nextIn|};
      NowIs();
      ParsedMore(TheRules(), read, was, turns, missed, now, read, Marks(ends, starts));
      ParsesIs();
      NotedStill(flush, |read| + |nextIn|);
      if finished {
        OverIs();
      } else {
        RunningIs();
      }
    }

    /** The checks at the start of a call, and what is still to be handed out from before; whether to go on. */
    method BeginDeflate(data: seq<Byte>, flush: Flush, room: nat) returns (go: bool, ret: int)
      requires Valid()
      modifies enc.w, this`output, this`avail, this`lastFlush, this`nextIn
      ensures old(output) <= output <= enc.w.pending && |output| + avail == |old(output)| + room
      ensures !go ==> Valid()
      ensures !go ==> ret in {Z_OK, Z_STREAM_ERROR, Z_BUF_ERROR}
      ensures !go ==> (ret == Z_STREAM_ERROR <==> finished && !flush.Finish?)
      ensures !go ==> (ret == Z_BUF_ERROR <==>
        (!finished || flush.Finish?)
            && (room == 0 || old(Useless(data, flush)) || (finished && data != [] && avail != 0)))
      ensures !go ==> (ret == Z_OK ==> avail == 0)
      ensures nextIn == old(nextIn) + if !go && ret == Z_OK && !finished then data else []
      ensures go ==> Shape()
      ensures go ==>
        (finished ==> Closed() && nextIn == [] && lookahead == 0 && Over() && flush.Finish? && data == [])
      ensures go ==>
        (!finished ==> Running()) && avail != 0 && output == enc.w.pending && room != 0 && !old(Useless(data, flush))
    {
      hide *;
      ValidHas();
      ShapeHas();
      ReturnCodes();
      enc.ReprHas();
      OutputHas();
      UselessIs(data, flush);
      avail := room;
      go, ret := false, Z_OK;
      if finished && !flush.Finish? {
        ret := Z_STREAM_ERROR;
        ValidIs();
      } else if avail == 0 {
        ret := Z_BUF_ERROR;
        ValidIs();
      } else {
        go, ret := HandOut(data, flush);
      }
    }

    /** Hand out what is left from before. */
    method Drain()
      requires Shape() && (finished ==> Closed() && Over()) && (!finished ==> Running())
      modifies enc.w, this`output, this`avail, this`lastFlush
      ensures (finished ==> Closed() && Over()) && (!finished ==> Running())
      ensures old(output) <= output <= enc.w.pending && |output| + avail == |old(output)| + old(avail)
      ensures avail == 0 || output == enc.w.pending
    {
      hide *;
      ShapeHas();
      enc.ReprHas();
      FlushBetween();
      OutputHas();
      if avail == 0 {
        lastFlush := -1;
      }
    }

    method HandOut(data: seq<Byte>, flush: Flush) returns (go: bool, ret: int)
      requires Shape() && (finished ==> Closed() && nextIn == [] && lookahead == 0 && Over() && flush.Finish?)
        && (!finished ==> Running())
      requires avail != 0
      modifies enc.w, this`output, this`avail, this`lastFlush, this`nextIn
      ensures old(output) <= output <= enc.w.pending && |output| + avail == |old(output)| + old(avail)
      ensures !go ==> Valid() && (ret == Z_OK || ret == Z_BUF_ERROR)
      ensures !go ==> (ret == Z_BUF_ERROR <==> old(Useless(data, flush)) || (finished && data != [] && avail != 0))
      ensures !go ==> (ret == Z_OK ==> avail == 0)
      ensures nextIn == old(nextIn) + if !go && ret == Z_OK && !finished then data else []
      ensures go ==> Shape()
      ensures go ==>
        (finished ==> Closed() && nextIn == [] && lookahead == 0 && Over() && flush.Finish? && data == [])
      ensures go ==> (!finished ==> Running()) && avail != 0 && output == enc.w.pending && !old(Useless(data, flush))
    {
      hide *;
      ReturnCodes();
      ShapeHas();
      enc.ReprHas();
      OutputHas();
      UselessIs(data, flush);
      go, ret := false, Z_OK;
      var oldFlush := lastFlush;
      lastFlush := FlushValue(flush);
      if output != enc.w.pending {
        Drain();
        if avail == 0 {
          nextIn := nextIn + if finished then [] else data;
          ValidIs();
          return;
        }
      } else if nextIn + data == [] && Rank(FlushValue(flush)) <= Rank(oldFlush) && !flush.Finish? {
        ret := Z_BUF_ERROR;
        ValidIs();
        return;
      }
      if finished && data != [] {
        ret := Z_BUF_ERROR;
        ValidIs();
      } else {
        go := true;
      }
    }

    /** All that was read has been compressed: complete the flush. */
    method CompleteFlush(flush: Flush)
      requires Shape() && Running() && !matchAvailable && lookahead == 0 && blockStart == strstart && enc.symNext == 0
      requires !finished && nextIn == []
      modifies enc.Repr(), head, this`strstart, this`blockStart, this`insert, this`base, this`linked, this`blocks,
        this`made, this`starts, this`anew, this`output, this`avail, this`lastFlush
      ensures Valid() && Running() && starts == old(starts) + (if flush.FullFlush? then {|read|} else {})
      ensures if flush.FullFlush? then anew.since == |read| && (avail == 0 || anew.mark == |output|)
              else anew == old(anew)
      ensures old(output) <= output && |output| + avail == |old(output)| + old(avail)
      ensures flush.SyncFlush? || flush.FullFlush? ==> avail == 0 || Flushed()
      ensures flush.PartialFlush? ==> avail == 0 || PartlyFlushed()
    {
      hide *;
      ShapeHas();
      EndFlush(flush);
      ValidIs();
      if avail == 0 {
        lastFlush := -1;
        ValidIs();
        return;
      }
      if flush.SyncFlush? || flush.FullFlush? {
        FlushedIs();
      } else if flush.PartialFlush? {
        PartlyFlushedIs();
      }
    }

    /** What comes after the strategy has done its work; whether the call may go on to its end. */
    method AfterRun(state: BlockState, flush: Flush) returns (done: bool)
      requires Shape() && (finished ==> state.FinishStarted? || state.FinishDone?)
      requires state.FinishStarted? || state.FinishDone? ==>
        flush.Finish? && Closed() && lookahead == 0 && nextIn == [] && Over()
      requires state.BlockDone? ==> !flush.Finish? && nextIn == []
      requires state.NeedMore? || state.BlockDone? ==> Running()
      requires state.BlockDone? ==> lookahead == 0 && !matchAvailable && blockStart == strstart && enc.symNext == 0
      requires state.NeedMore? ==> avail == 0 || (flush.NoFlush? && nextIn == [])
      requires state.FinishStarted? ==> avail == 0
      requires state.FinishDone? ==> avail != 0 && output == enc.w.pending
      modifies enc.Repr(), head, this`finished, this`strstart, this`blockStart, this`insert, this`base, this`linked,
        this`blocks, this`made, this`starts, this`anew, this`output, this`avail, this`lastFlush
      ensures Valid() && finished == (state.FinishStarted? || state.FinishDone?)
      ensures done ==> avail != 0 && (state.FinishDone? || state.BlockDone?)
      ensures !done ==> avail == 0 || (flush.NoFlush? && nextIn == [])
      ensures state.FinishDone? ==> output == enc.w.pending
      ensures old(output) <= output && |output| + avail == |old(output)| + old(avail)
      ensures starts == old(starts) || (flush.FullFlush? && nextIn == [] && starts == old(starts) + {|read|})
      ensures flush.FullFlush? || anew == old(anew)
      ensures done && flush.FullFlush? ==> |read| in starts && anew.since == |read| && anew.mark == |output|
      ensures done && (flush.SyncFlush? || flush.FullFlush?) ==> Flushed()
      ensures done && flush.PartialFlush? ==> PartlyFlushed()
    {
      hide *;
      ShapeHas();
      enc.ReprHas();
      finished := state.FinishStarted? || state.FinishDone?;
      done := state.FinishDone? || state.BlockDone?;
      if state.BlockDone? {
        CompleteFlush(flush);
        done := avail != 0;
      } else {
        if state.NeedMore? && avail == 0 {
          lastFlush := -1;
        } else if state.FinishStarted? {
          lastFlush := -1;
        }
        ValidIs();
      }
    }

    /** What Deflate does once it is clear that there is something to do. */
    method Work(flush: Flush) returns (ret: int)
      requires Shape() && (finished ==> Closed() && nextIn == [] && lookahead == 0 && Over() && flush.Finish?)
        && (!finished ==> Running())
      requires avail != 0 && output == enc.w.pending && Noted(flush)
      modifies enc.Repr(), window, head, prev, this
      ensures ends == old(ends)
      ensures starts == old(starts) || (flush.FullFlush? && nextIn == [] && starts == old(starts) + {|read|})
      ensures ret == Z_OK && flush.FullFlush? ==>
        avail == 0 || (|read| in starts && anew.since == |read| && anew.mark == |output|)
      ensures flush.FullFlush? || anew == old(anew)
      ensures Valid() && old(read) <= read && (finished && !old(finished) ==> flush.Finish?)
        && (old(finished) ==> finished)
      ensures read + nextIn == old(read) + old(nextIn)
      ensures old(output) <= output && |output| + avail == |old(output)| + old(avail)
      ensures ret == Z_OK || ret == Z_STREAM_END
      ensures ret == Z_OK ==> avail == 0 || (nextIn == [] && !flush.Finish?)
      ensures ret == Z_OK && (flush.SyncFlush? || flush.FullFlush?) ==> avail == 0 || Flushed()
      ensures ret == Z_OK && flush.PartialFlush? ==> avail == 0 || PartlyFlushed()
      ensures ret == Z_STREAM_END ==> finished && flush.Finish? && output == enc.w.pending && avail != 0
    {
      hide *;
      ShapeHas();
      ReturnCodes();
      if nextIn != [] || lookahead != 0 || (!flush.NoFlush? && !finished) {
        var state := RunStrategy(flush);
        var done := AfterRun(state, flush);
        if !done {
          return Z_OK;
        }
      } else {
        ValidIs();
      }
      return if flush.Finish? then Z_STREAM_END else Z_OK;
    }

    /** Hand out what there is room for, between two calls. */
    method FlushBetween()
      requires Shape() && (finished ==> Closed()) && (!finished ==> Running())
      modifies enc.w, this`output, this`avail
      ensures (finished ==> Closed()) && (!finished ==> Running())
      ensures old(output) <= output && |output| + avail == |old(output)| + old(avail)
      ensures avail == 0 || output == enc.w.pending
    {
      hide *;
      if finished {
        FlushClosed();
      } else {
        FlushRunning();
      }
    }

    lemma OutputHas()
      requires Shape() && (finished ==> Closed()) && (!finished ==> Running())
      ensures output <= enc.w.pending
    {
      hide *;
      if finished {
        ClosedHas();
      } else {
        RunningHas();
        SettledHas(Upto());
        StoryHas(Upto());
      }
    }

    lemma UselessIs(data: seq<Byte>, flush: Flush)
      ensures Useless(data, flush) <==>
        nextIn + data == [] && !flush.Finish? && output == enc.w.pending
        && Rank(FlushValue(flush)) <= Rank(lastFlush)
    {
    }

    lemma ReturnCodes()
      ensures Z_OK == 0 && Z_STREAM_END == 1 && Z_STREAM_ERROR == -2 && Z_BUF_ERROR == -5
    {
    }

    lemma BufferBound()
      requires Settled(base + strstart) && Room()
      ensures enc.symNext <= 3 * 32767
    {
      hide *;
      SettledHas(base + strstart);
      StoryHas(base + strstart);
      enc.ValidParts();
      LayoutRoom(enc);
      RoomHas();
    }

    lemma EncoderRoom()
      requires enc.Valid()
      ensures enc.litBufsize >= 128
    {
      hide *;
      enc.ValidParts();
      LayoutRoom(enc);
    }
  }

  lemma LayoutRoom(e: Encoder)
    requires e.Layout()
    ensures 128 <= e.litBufsize <= 32768
  {
  }
}
