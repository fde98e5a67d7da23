/** What the strategies of the compressor make of the input (deflate.c: longest_match, deflate_fast, deflate_slow,
    deflate_rle, deflate_huff), said of the input alone: which earlier strings are compared with the one at hand, which
    of them is taken, and what is emitted. */
module Parsing {
  import opened Bits
  import opened Lz77
  import opened Decoder
  import opened BlockStream
  import opened Optimality
  import opened Encoder
  import opened ShortestCode
  import opened Hashing
  import opened HashChains

  const MAX_MATCH: nat := 258
  const MIN_LOOKAHEAD: nat := MAX_MATCH + MIN_MATCH + 1
  const TOO_FAR: nat := 4096

  datatype Strategy = Fast | Slow | Rle | Huff

  /** What level and strategy choose. */
  datatype Tuning = Tuning(strategy: Strategy, goodMatch: nat, maxLazy: nat, niceMatch: nat, maxChain: nat,
                           filtered: bool, fixed: bool)

  /** What the parse depends on besides the input. */
  datatype Rules = Rules(tuning: Tuning, bits: nat, wsize: nat)

  /** How many strings are tried at most: the counter of 32 bits is lowered before it is compared. */
  function Tries(t: Tuning, prevLength: nat): (n: nat)
  {
    var chain := if prevLength >= t.goodMatch then t.maxChain / 4 else t.maxChain;
    if chain == 0 then 0x1_0000_0000 else chain
  }

  lemma TriesIs(t: Tuning, prevLength: nat)
    ensures var chain := if prevLength >= t.goodMatch then t.maxChain / 4 else t.maxChain;
            Tries(t, prevLength) == if chain == 0 then 0x1_0000_0000 else chain
  {
  }

  /** The smaller of two numbers. */
  function Least(a: nat, b: nat): (n: nat)
  {
    if a <= b then a else b
  }

  // ---------- decisions and what comes of them ----------

  /** One decision.  Look: at position pos, with the input known up to end and the window starting at low, the strings
      at the positions tried were compared with the one at pos; the search ended with the length found, at position at,
      and len is what was made of it (2: nothing).  Rest: the end of the input at hand.  The byte that goes out if no
      match does is lit. */
  datatype Turn =
    | Look(pos: nat, end: nat, low: nat, lit: Byte, tried: seq<nat>, found: nat, at: int, len: nat)
    | Rest(lit: Byte)

  /** The symbols so far, the next position, and whether the byte before it, or a match of length len (from position
      at) that starts there, is still waiting. */
  datatype Parse = Parse(tokens: seq<Token>, pos: nat, waits: bool, len: nat, at: int)

  function Back(from: int, to: int): (d: nat)
  {
    if from >= to then from - to else 0
  }

  /** What a decision leads to.  With lazy evaluation a match waits for one byte, and goes out if the next string has no
      longer one; if it has, the byte in front of that goes out instead. */
  function Next(s: Strategy, p: Parse, t: Turn): (r: Parse)
  {
    match t
    case Rest(lit) => Parse(p.tokens + if p.waits then [Literal(lit)] else [], p.pos, false, p.len, p.at)
    case Look(pos, _, _, lit, _, _, at, len) =>
      if s.Slow? then
        if p.len >= 3 && len <= p.len then
          Parse(p.tokens + [Match(p.len, Back(pos - 1, p.at))], pos + p.len - 1, false, 2, 0)
        else
          Parse(p.tokens + if p.waits then [Literal(lit)] else [], pos + 1, true, len, if len >= 3 then at else 0)
      else if len >= 3 then Parse(p.tokens + [Match(len, Back(pos, at))], pos + len, false, 2, 0)
      else Parse(p.tokens + [Literal(lit)], pos + 1, false, 2, 0)
  }

  /** What a sequence of decisions leads to. */
  function Replay(s: Strategy, turns: seq<Turn>): (p: Parse)
  {
    if turns == [] then Parse([], 0, false, 2, 0)
    else Next(s, Replay(s, turns[..|turns| - 1]), turns[|turns| - 1])
  }

  // ---------- the strings that are compared ----------

  /** The n bytes at a are those at b, which comes later. */
  ghost predicate Agrees(text: seq<Byte>, a: int, b: nat, n: nat)
  {
    0 <= a < b && b + n <= |text| && text[a..a + n] == text[b..b + n]
  }

  /** The string at q has the key of the one at pos and is near enough, and not at the very start of the window. */
  ghost predicate Near(r: Rules, text: seq<Byte>, low: nat, pos: nat, q: nat)
  {
    low < q < pos && pos - q <= r.wsize - MIN_LOOKAHEAD && pos + 2 < |text|
    && HashAt(r.bits, text, q) == HashAt(r.bits, text, pos)
  }

  /** The string at q begins in the last two bytes before a place where the input at hand came to its end. */
  ghost predicate NearEnd(ends: set<nat>, q: nat)
  {
    exists e :: e in ends && q < e < q + 3
  }

  /** The string at q lies in a match that was too long, or too close to the end, for its strings to be inserted. */
  ghost predicate PassedBy(maxInsert: nat, t: Turn, q: nat)
  {
    t.Look? && t.len >= 3 && t.pos < q < t.pos + t.len && (t.len > maxInsert || t.end < t.pos + t.len + 3)
  }

  /** The string at q need not be on a chain. */
  ghost predicate Excused(r: Rules, ends: set<nat>, before: seq<Turn>, q: nat)
  {
    NearEnd(ends, q)
    || (r.tuning.strategy.Fast? && exists i :: 0 <= i < |before| && PassedBy(r.tuning.maxLazy, before[i], q))
  }

  /** The strings tried are near ones, the last one first, and none was left out. */
  ghost predicate Listed(r: Rules, text: seq<Byte>, ends: set<nat>, before: seq<Turn>, low: nat, pos: nat,
                         tried: seq<nat>)
  {
    (forall i :: 0 <= i < |tried| ==> Near(r, text, low, pos, tried[i]))
    && (forall i, j :: 0 <= i < j < |tried| ==> tried[j] < tried[i])
    && forall q: nat :: Near(r, text, low, pos, q) && (tried == [] || q >= tried[|tried| - 1]) ==>
         q in tried || Excused(r, ends, before, q)
  }

  /** No more strings are near.  Only the first one may be as far back as can be. */
  ghost predicate Exhausted(r: Rules, text: seq<Byte>, ends: set<nat>, before: seq<Turn>, low: nat, pos: nat,
                            tried: seq<nat>)
  {
    forall q: nat :: Near(r, text, low, pos, q) && pos - q < r.wsize - MIN_LOOKAHEAD ==>
      q in tried || Excused(r, ends, before, q)
  }

  /** The string at `at` is the first of those tried that agrees for n bytes. */
  ghost predicate FirstAt(text: seq<Byte>, tried: seq<nat>, pos: nat, at: int, n: nat)
  {
    exists i :: 0 <= i < |tried| && tried[i] == at && Agrees(text, at, pos, n)
                && forall j :: 0 <= j < i ==> !Agrees(text, tried[j], pos, n)
  }

  /** None of the strings tried agrees for more than n bytes. */
  ghost predicate NoneLonger(text: seq<Byte>, tried: seq<nat>, pos: nat, n: nat)
  {
    forall i, k: nat :: 0 <= i < |tried| && k <= MAX_MATCH && Agrees(text, tried[i], pos, k) ==> k <= n
  }

  /** The search (longest_match) for something longer than prevLength has gone as far as it should: the length found is
      the greatest among the strings tried, at the first of them that has it; the search ends with the chain, after
      its number of tries, or with a match that is good enough or goes on to the end of the text, and not before. */
  ghost predicate Sought(r: Rules, text: seq<Byte>, ends: set<nat>, before: seq<Turn>, t: Turn, prevLength: nat)
  {
    t.Look? && t.tried != [] && t.pos <= |text| && Listed(r, text, ends, before, t.low, t.pos, t.tried)
    && |t.tried| <= Tries(r.tuning, prevLength)
    && NoneLonger(text, t.tried, t.pos, t.found)
    && (if t.found > prevLength then FirstAt(text, t.tried, t.pos, t.at, t.found)
        else t.found == Least(prevLength, |text| - t.pos))
    && (|t.tried| == Tries(r.tuning, prevLength) || Exhausted(r, text, ends, before, t.low, t.pos, t.tried)
        || t.found == |text| - t.pos || (t.found > prevLength && t.found >= r.tuning.niceMatch))
    && Early(r, text, t, prevLength)
  }

  /** All strings tried but the last were not good enough. */
  ghost predicate Early(r: Rules, text: seq<Byte>, t: Turn, prevLength: nat)
    requires t.Look? && t.pos <= |text|
  {
    forall i :: 0 <= i < |t.tried| - 1 ==>
      NotEnough(text, t.tried[i], t.pos, prevLength, Least(r.tuning.niceMatch, |text| - t.pos))
  }

  /** The string at q does not agree for more than prevLength bytes and for as many as would do. */
  ghost predicate NotEnough(text: seq<Byte>, q: nat, pos: nat, prevLength: nat, nice: nat)
  {
    forall k: nat :: prevLength < k <= MAX_MATCH && nice <= k ==> !Agrees(text, q, pos, k)
  }

  /** There is nothing to search for, or nothing to search in. */
  ghost predicate NoSearch(r: Rules, text: seq<Byte>, ends: set<nat>, before: seq<Turn>, t: Turn)
  {
    t.Look? && t.tried == []
    && (t.pos + 3 > |text| || Listed(r, text, ends, before, t.low, t.pos, []))
  }

  /** With lazy evaluation: no search when the match waiting is good enough; a short match is dropped when strings are
      known to be of little use or it is far back. */
  ghost predicate SlowLook(r: Rules, text: seq<Byte>, ends: set<nat>, before: seq<Turn>, t: Turn, waiting: nat)
  {
    t.Look?
    && if t.tried == [] then t.len == 2 && (waiting >= r.tuning.maxLazy || NoSearch(r, text, ends, before, t))
       else
         t.pos + 3 <= |text| && waiting < r.tuning.maxLazy && Sought(r, text, ends, before, t, waiting)
         && if t.found > waiting then t.len == Worth(r.tuning, t.found, t.pos - t.at) else t.len <= waiting
  }

  function Worth(t: Tuning, found: nat, dist: int): (len: nat)
  {
    if found <= 5 && (t.filtered || (found == 3 && dist > TOO_FAR)) then 2 else found
  }

  lemma WorthIs(t: Tuning, found: nat, dist: int)
    ensures Worth(t, found, dist) == if found <= 5 && (t.filtered || (found == 3 && dist > TOO_FAR)) then 2 else found
  {
  }

  lemma SlowLookSought(r: Rules, text: seq<Byte>, ends: set<nat>, before: seq<Turn>, t: Turn, waiting: nat)
    requires t.Look? && t.tried != [] && t.pos + 3 <= |text| && waiting < r.tuning.maxLazy
    requires Sought(r, text, ends, before, t, waiting)
    requires if t.found > waiting then t.len == Worth(r.tuning, t.found, t.pos - t.at) else t.len <= waiting
    ensures SlowLook(r, text, ends, before, t, waiting)
  {
    hide Sought, Worth;
  }

  lemma SlowLookNone(r: Rules, text: seq<Byte>, ends: set<nat>, before: seq<Turn>, t: Turn, waiting: nat)
    requires t.Look? && t.tried == [] && t.len == 2
    requires waiting >= r.tuning.maxLazy || t.pos + 3 > |text| || Listed(r, text, ends, before, t.low, t.pos, [])
    ensures SlowLook(r, text, ends, before, t, waiting)
  {
    hide Sought, Listed;
  }

  lemma FastLookSought(r: Rules, text: seq<Byte>, ends: set<nat>, before: seq<Turn>, t: Turn)
    requires t.Look? && t.tried != [] && t.pos + 3 <= |text| && Sought(r, text, ends, before, t, 2) && t.len == t.found
    ensures FastLook(r, text, ends, before, t)
  {
    hide Sought;
  }

  lemma FastLookNone(r: Rules, text: seq<Byte>, ends: set<nat>, before: seq<Turn>, t: Turn)
    requires t.Look? && t.tried == [] && t.len == 2
    requires t.pos + 3 > |text| || Listed(r, text, ends, before, t.low, t.pos, [])
    ensures FastLook(r, text, ends, before, t)
  {
    hide Sought, Listed;
  }

  ghost predicate FastLook(r: Rules, text: seq<Byte>, ends: set<nat>, before: seq<Turn>, t: Turn)
  {
    t.Look?
    && if t.tried == [] then t.len == 2 && NoSearch(r, text, ends, before, t)
       else t.pos + 3 <= |text| && Sought(r, text, ends, before, t, 2) && t.len == t.found
  }

  /** How far the byte before goes on. */
  ghost predicate RunLook(text: seq<Byte>, t: Turn)
  {
    t.Look?
    && if t.low < t.pos && Agrees(text, t.pos - 1, t.pos, 3) then
         t.at == t.pos - 1 && 3 <= t.len <= MAX_MATCH && Agrees(text, t.at, t.pos, t.len)
         && (t.len < MAX_MATCH ==> !Agrees(text, t.at, t.pos, t.len + 1))
       else t.len == 2
  }

  lemma RunLookIs(text: seq<Byte>, t: Turn)
    requires t.Look? && t.at == t.pos - 1
    requires if t.low < t.pos && Agrees(text, t.pos - 1, t.pos, 3) then
               3 <= t.len <= MAX_MATCH && Agrees(text, t.at, t.pos, t.len)
               && (t.len < MAX_MATCH ==> !Agrees(text, t.at, t.pos, t.len + 1))
             else t.len == 2
    ensures RunLook(text, t)
  {
    hide Agrees;
  }

  ghost predicate LookedFor(r: Rules, text: seq<Byte>, ends: set<nat>, before: seq<Turn>, t: Turn, waiting: nat)
  {
    match r.tuning.strategy
    case Slow => SlowLook(r, text, ends, before, t, waiting)
    case Fast => FastLook(r, text, ends, before, t)
    case Rle => RunLook(text, t)
    case Huff => t.Look? && t.len == 2
  }

  // ---------- these notions one at a time ----------

  lemma AgreesFits(text: seq<Byte>, a: int, b: nat, n: nat)
    ensures Agrees(text, a, b, n) ==> b + n <= |text|
  {
  }

  lemma NearIs(r: Rules, text: seq<Byte>, low: nat, pos: nat, q: nat)
    requires low < q < pos && pos - q <= r.wsize - MIN_LOOKAHEAD && pos + 2 < |text|
    requires HashAt(r.bits, text, q) == HashAt(r.bits, text, pos)
    ensures Near(r, text, low, pos, q)
  {
    hide HashAt;
  }

  lemma NearHas(r: Rules, text: seq<Byte>, low: nat, pos: nat, q: nat)
    requires Near(r, text, low, pos, q)
    ensures low < q < pos && pos - q <= r.wsize - MIN_LOOKAHEAD && pos + 2 < |text|
    ensures HashAt(r.bits, text, q) == HashAt(r.bits, text, pos)
  {
    hide HashAt;
  }

  lemma ListedEmpty(r: Rules, text: seq<Byte>, ends: set<nat>, before: seq<Turn>, low: nat, pos: nat)
    requires forall q: nat :: Near(r, text, low, pos, q) ==> Excused(r, ends, before, q)
    ensures Listed(r, text, ends, before, low, pos, [])
  {
    hide Near, Excused;
  }

  lemma ListedIs(r: Rules, text: seq<Byte>, ends: set<nat>, before: seq<Turn>, low: nat, pos: nat, tried: seq<nat>)
    requires forall i :: 0 <= i < |tried| ==> Near(r, text, low, pos, tried[i])
    requires forall i, j :: 0 <= i < j < |tried| ==> tried[j] < tried[i]
    requires forall q: nat :: Near(r, text, low, pos, q) && (tried == [] || q >= tried[|tried| - 1]) ==>
      q in tried || Excused(r, ends, before, q)
    ensures Listed(r, text, ends, before, low, pos, tried)
  {
    hide Near, Excused;
  }

  lemma ExhaustedIs(r: Rules, text: seq<Byte>, ends: set<nat>, before: seq<Turn>, low: nat, pos: nat, tried: seq<nat>)
    requires forall q: nat :: Near(r, text, low, pos, q) && pos - q < r.wsize - MIN_LOOKAHEAD ==>
      q in tried || Excused(r, ends, before, q)
    ensures Exhausted(r, text, ends, before, low, pos, tried)
  {
    hide Near, Excused;
  }

  lemma NoneLongerIs(text: seq<Byte>, tried: seq<nat>, pos: nat, n: nat)
    requires forall i, k: nat :: 0 <= i < |tried| && k <= MAX_MATCH && Agrees(text, tried[i], pos, k) ==> k <= n
    ensures NoneLonger(text, tried, pos, n)
  {
    hide Agrees;
  }

  lemma FirstAtIs(text: seq<Byte>, tried: seq<nat>, pos: nat, at: int, n: nat, i: nat)
    requires i < |tried| && tried[i] == at && Agrees(text, at, pos, n)
    requires forall j :: 0 <= j < i ==> !Agrees(text, tried[j], pos, n)
    ensures FirstAt(text, tried, pos, at, n)
  {
    hide Agrees;
  }

  lemma EarlyIs(r: Rules, text: seq<Byte>, t: Turn, prevLength: nat)
    requires t.Look? && t.pos <= |text|
    requires forall i :: 0 <= i < |t.tried| - 1 ==>
      NotEnough(text, t.tried[i], t.pos, prevLength, Least(r.tuning.niceMatch, |text| - t.pos))
    ensures Early(r, text, t, prevLength)
  {
    hide NotEnough, Least;
  }

  lemma NotEnoughIs(text: seq<Byte>, q: nat, pos: nat, prevLength: nat, nice: nat)
    requires forall k: nat :: prevLength < k <= MAX_MATCH && nice <= k ==> !Agrees(text, q, pos, k)
    ensures NotEnough(text, q, pos, prevLength, nice)
  {
    hide Agrees;
  }

  lemma SoughtIs(r: Rules, text: seq<Byte>, ends: set<nat>, before: seq<Turn>, t: Turn, prevLength: nat)
    requires t.Look? && t.tried != [] && t.pos <= |text| && Listed(r, text, ends, before, t.low, t.pos, t.tried)
    requires |t.tried| <= Tries(r.tuning, prevLength) && NoneLonger(text, t.tried, t.pos, t.found)
    requires if t.found > prevLength then FirstAt(text, t.tried, t.pos, t.at, t.found)
             else t.found == Least(prevLength, |text| - t.pos)
    requires |t.tried| == Tries(r.tuning, prevLength) || Exhausted(r, text, ends, before, t.low, t.pos, t.tried)
      || t.found == |text| - t.pos || (t.found > prevLength && t.found >= r.tuning.niceMatch)
    requires Early(r, text, t, prevLength)
    ensures Sought(r, text, ends, before, t, prevLength)
  {
    hide Listed, NoneLonger, FirstAt, Exhausted, Early, Tries, Least;
  }

  // ---------- lawful decisions ----------

  /** Where the input at hand came to its end in a call that asked for a flush, and where the history was forgotten. */
  datatype Marks = Marks(ends: set<nat>, starts: set<nat>)

  /** How much of the input has to be known. */
  function Ahead(s: Strategy): (n: nat)
  {
    match s case Slow => MIN_LOOKAHEAD case Fast => MIN_LOOKAHEAD case Rle => MAX_MATCH + 1 case Huff => 1
  }

  /** A decision is made where the parse stands, with enough of the input in sight, and with a window that starts where
      the history was last forgotten, or far enough back. */
  ghost predicate Sighted(r: Rules, text: seq<Byte>, marks: Marks, p: Parse, t: Turn)
  {
    t.Look? && t.pos == p.pos < t.end <= |text|
    && (t.end - t.pos >= Ahead(r.tuning.strategy) || t.end in marks.ends)
    && t.low <= t.pos && (t.low in marks.starts || t.pos - t.low >= r.wsize - MIN_LOOKAHEAD)
    && (forall o :: o in marks.starts && o <= t.pos ==> o <= t.low)
    && if r.tuning.strategy.Slow? then p.waits ==> t.pos >= 1 && t.lit == text[t.pos - 1] else t.lit == text[t.pos]
  }

  ghost predicate LawfulTurn(r: Rules, text: seq<Byte>, marks: Marks, before: seq<Turn>, p: Parse, t: Turn)
  {
    match t
    case Rest(lit) =>
      r.tuning.strategy.Slow? && p.pos in marks.ends && p.pos <= |text|
      && (p.waits ==> p.pos >= 1 && lit == text[p.pos - 1])
    case Look(_, end, _, _, _, _, _, _) =>
      Sighted(r, text, marks, p, t) && LookedFor(r, text[..end], marks.ends, before, t, p.len)
  }

  ghost predicate LawfulAt(r: Rules, text: seq<Byte>, marks: Marks, turns: seq<Turn>, i: nat)
    requires i < |turns|
  {
    LawfulTurn(r, text, marks, turns[..i], Replay(r.tuning.strategy, turns[..i]), turns[i])
  }

  /** Every decision is the one that the strategy calls for. */
  ghost predicate Lawful(r: Rules, text: seq<Byte>, marks: Marks, turns: seq<Turn>)
  {
    forall i :: 0 <= i < |turns| ==> LawfulAt(r, text, marks, turns, i)
  }

  /** The parse stands at `now` after these decisions, and only excused strings have been kept off the chains. */
  ghost predicate Parsed(r: Rules, text: seq<Byte>, marks: Marks, turns: seq<Turn>, missed: set<nat>, now: Parse)
  {
    Lawful(r, text, marks, turns) && Replay(r.tuning.strategy, turns) == now
    && (r.tuning.strategy.Slow? || r.tuning.strategy.Fast? ==>
          forall q :: q in missed ==> Excused(r, marks.ends, turns, q))
  }

  lemma ParsedHas(r: Rules, text: seq<Byte>, marks: Marks, turns: seq<Turn>, missed: set<nat>, now: Parse)
    requires Parsed(r, text, marks, turns, missed, now)
    ensures Lawful(r, text, marks, turns) && Replay(r.tuning.strategy, turns) == now
  {
    hide Lawful, Replay, Excused;
  }

  lemma NothingParsed(r: Rules, marks: Marks)
    ensures Parsed(r, [], marks, [], {}, Parse([], 0, false, 2, 0))
  {
  }

  // ---------- more input, more decisions ----------

  lemma ExcusedMore(r: Rules, ends: set<nat>, before: seq<Turn>, q: nat, ends': set<nat>, before': seq<Turn>)
    requires Excused(r, ends, before, q) && ends <= ends' && before <= before'
    ensures Excused(r, ends', before', q)
  {
    hide PassedBy;
    if NearEnd(ends, q) {
      var e :| e in ends && q < e < q + 3;
      assert e in ends';
    } else {
      var i :| 0 <= i < |before| && PassedBy(r.tuning.maxLazy, before[i], q);
      assert before'[i] == before[i];
    }
  }

  lemma ListedMore(r: Rules, text: seq<Byte>, ends: set<nat>, before: seq<Turn>, low: nat, pos: nat, tried: seq<nat>,
                   ends': set<nat>)
    requires Listed(r, text, ends, before, low, pos, tried) && ends <= ends'
    ensures Listed(r, text, ends', before, low, pos, tried)
  {
    hide Near, Excused;
    forall q: nat | Near(r, text, low, pos, q) && (tried == [] || q >= tried[|tried| - 1])
      ensures q in tried || Excused(r, ends', before, q)
    {
      if q !in tried {
        ExcusedMore(r, ends, before, q, ends', before);
      }
    }
  }

  lemma ExhaustedMore(r: Rules, text: seq<Byte>, ends: set<nat>, before: seq<Turn>, low: nat, pos: nat,
                      tried: seq<nat>, ends': set<nat>)
    requires Exhausted(r, text, ends, before, low, pos, tried) && ends <= ends'
    ensures Exhausted(r, text, ends', before, low, pos, tried)
  {
    hide Near, Excused;
    forall q: nat | Near(r, text, low, pos, q) && pos - q < r.wsize - MIN_LOOKAHEAD
      ensures q in tried || Excused(r, ends', before, q)
    {
      if q !in tried {
        ExcusedMore(r, ends, before, q, ends', before);
      }
    }
  }

  lemma SoughtMore(r: Rules, text: seq<Byte>, ends: set<nat>, before: seq<Turn>, t: Turn, prevLength: nat,
                   ends': set<nat>)
    requires Sought(r, text, ends, before, t, prevLength) && ends <= ends'
    ensures Sought(r, text, ends', before, t, prevLength)
  {
    hide Listed, Exhausted, FirstAt, NoneLonger, Early, Tries;
    ListedMore(r, text, ends, before, t.low, t.pos, t.tried, ends');
    if Exhausted(r, text, ends, before, t.low, t.pos, t.tried) {
      ExhaustedMore(r, text, ends, before, t.low, t.pos, t.tried, ends');
    }
  }

  lemma NoSearchMore(r: Rules, text: seq<Byte>, ends: set<nat>, before: seq<Turn>, t: Turn, ends': set<nat>)
    requires NoSearch(r, text, ends, before, t) && ends <= ends'
    ensures NoSearch(r, text, ends', before, t)
  {
    hide Listed;
    if Listed(r, text, ends, before, t.low, t.pos, []) {
      ListedMore(r, text, ends, before, t.low, t.pos, [], ends');
    }
  }

  lemma LookedForMore(r: Rules, text: seq<Byte>, ends: set<nat>, before: seq<Turn>, t: Turn, waiting: nat,
                      ends': set<nat>)
    requires LookedFor(r, text, ends, before, t, waiting) && ends <= ends'
    ensures LookedFor(r, text, ends', before, t, waiting)
  {
    hide Sought, NoSearch, RunLook;
    if t.Look? && (r.tuning.strategy.Slow? || r.tuning.strategy.Fast?) {
      var n := if r.tuning.strategy.Slow? then waiting else 2;
      if NoSearch(r, text, ends, before, t) {
        NoSearchMore(r, text, ends, before, t, ends');
      }
      if Sought(r, text, ends, before, t, n) {
        SoughtMore(r, text, ends, before, t, n, ends');
      }
    }
  }

  /** More input, and more places where it came to its end, do not make a decision unlawful. */
  lemma TurnMore(r: Rules, text: seq<Byte>, marks: Marks, before: seq<Turn>, p: Parse, t: Turn, text': seq<Byte>,
                 marks': Marks)
    requires LawfulTurn(r, text, marks, before, p, t) && text <= text' && marks.ends <= marks'.ends
    requires marks.starts <= marks'.starts && forall o :: o in marks'.starts && o !in marks.starts ==> o >= |text|
    ensures LawfulTurn(r, text', marks', before, p, t)
  {
    hide LookedFor;
    if t.Look? {
      assert text'[..t.end] == text[..t.end];
      LookedForMore(r, text[..t.end], marks.ends, before, t, p.len, marks'.ends);
    }
  }

  lemma ParsedMore(r: Rules, text: seq<Byte>, marks: Marks, turns: seq<Turn>, missed: set<nat>, now: Parse,
                   text': seq<Byte>, marks': Marks)
    requires Parsed(r, text, marks, turns, missed, now) && text <= text' && marks.ends <= marks'.ends
    requires marks.starts <= marks'.starts && forall o :: o in marks'.starts && o !in marks.starts ==> o >= |text|
    ensures Parsed(r, text', marks', turns, missed, now)
  {
    hide LawfulTurn, Excused, Replay;
    forall i | 0 <= i < |turns| ensures LawfulAt(r, text', marks', turns, i) {
      assert LawfulAt(r, text, marks, turns, i);
      TurnMore(r, text, marks, turns[..i], Replay(r.tuning.strategy, turns[..i]), turns[i], text', marks');
    }
    if r.tuning.strategy.Slow? || r.tuning.strategy.Fast? {
      forall q | q in missed ensures Excused(r, marks'.ends, turns, q) {
        ExcusedMore(r, marks.ends, turns, q, marks'.ends, turns);
      }
    }
  }

  /** One more decision. */
  lemma ParsedTurn(r: Rules, text: seq<Byte>, marks: Marks, turns: seq<Turn>, missed: set<nat>, now: Parse, t: Turn,
                   missed': set<nat>)
    requires Parsed(r, text, marks, turns, missed, now) && LawfulTurn(r, text, marks, turns, now, t)
    requires r.tuning.strategy.Slow? || r.tuning.strategy.Fast? ==>
               forall q :: q in missed' && q !in missed ==> Excused(r, marks.ends, turns + [t], q)
    ensures Parsed(r, text, marks, turns + [t], missed', Next(r.tuning.strategy, now, t))
  {
    hide LawfulTurn, Excused, Next;
    var more := turns + [t];
    assert more[..|turns|] == turns;
    forall i | 0 <= i < |more| ensures LawfulAt(r, text, marks, more, i) {
      if i < |turns| {
        assert LawfulAt(r, text, marks, turns, i);
        assert more[..i] == turns[..i];
      }
    }
    if r.tuning.strategy.Slow? || r.tuning.strategy.Fast? {
      forall q | q in missed' ensures Excused(r, marks.ends, more, q) {
        if q in missed {
          ExcusedMore(r, marks.ends, turns, q, marks.ends, more);
        }
      }
    }
  }

  // ---------- the window ----------

  /** Every string before `next` in the window, but for the very first, is on a chain or has been missed. */
  ghost predicate Covers(linked: set<nat>, missed: set<nat>, base: nat, next: nat)
  {
    forall p: nat :: 0 < p < next ==> p in linked || Missing(missed, base, p)
  }

  ghost predicate Missing(missed: set<nat>, base: nat, p: nat)
  {
    base + p in missed
  }

  /** The positions from a up to b. */
  ghost function Stretch(a: nat, b: nat): (s: set<nat>)
    ensures forall q: nat :: q in s <==> a <= q < b
    decreases b
  {
    if b <= a then {} else Stretch(a, b - 1) + {b - 1}
  }

  lemma CoversNothing(linked: set<nat>, missed: set<nat>, base: nat)
    ensures Covers(linked, missed, base, 0)
  {
  }

  lemma CoversOne(linked: set<nat>, missed: set<nat>, base: nat, p: nat)
    requires Covers(linked, missed, base, p)
    ensures Covers(linked + {p}, missed, base, p + 1)
  {
  }

  lemma CoversHas(linked: set<nat>, missed: set<nat>, base: nat, next: nat, p: nat)
    requires Covers(linked, missed, base, next) && 0 < p < next
    ensures p in linked || base + p in missed
  {
  }

  lemma CoversFewer(linked: set<nat>, missed: set<nat>, base: nat, next: nat, next': nat)
    requires Covers(linked, missed, base, next) && next' <= next
    ensures Covers(linked, missed, base, next')
  {
  }

  lemma CoversMissed(linked: set<nat>, missed: set<nat>, base: nat, next: nat, next': nat)
    requires Covers(linked, missed, base, next)
    ensures Covers(linked, missed + Stretch(base + next, base + next'), base, next')
  {
  }

  lemma CoversSlides(linked: set<nat>, missed: set<nat>, base: nat, next: nat, n: nat)
    requires Covers(linked, missed, base, next) && n <= next
    ensures Covers(SlidSet(linked, n, next - n), missed, base + n, next - n)
  {
    var slid, base' := SlidSet(linked, n, next - n), base + n;
    forall p: nat | 0 < p < next - n ensures p in slid || Missing(missed, base', p) {
      if p + n in linked {
        assert Above(linked, n, p);
      } else {
        assert Missing(missed, base, p + n);
      }
    }
  }

  /** The window starts where the history was last forgotten, or far enough back from position `at` in it. */
  ghost predicate Rooted(starts: set<nat>, base: nat, at: nat, wsize: nat)
  {
    (forall o :: o in starts ==> o <= base) && (base in starts || at >= wsize - MIN_LOOKAHEAD)
  }

  lemma NoStretch(m: set<nat>, a: nat)
    ensures m + Stretch(a, a) == m
  {
  }

  /** Only strings that begin in the last two bytes before `end` are added. */
  ghost predicate EndOnly(missed: set<nat>, was: set<nat>, end: nat)
  {
    forall q :: q in missed && q !in was ==> q < end < q + 3
  }

  lemma EndOnlyNone(missed: set<nat>, end: nat)
    ensures EndOnly(missed, missed, end)
  {
  }

  lemma EndOnlyStretch(was: set<nat>, a: nat, b: nat, end: nat)
    requires b <= end < a + 3
    ensures EndOnly(was + Stretch(a, b), was, end)
  {
  }

  lemma EndOnlyMore(missed: set<nat>, between: set<nat>, was: set<nat>, end: nat)
    requires EndOnly(missed, between, end) && EndOnly(between, was, end)
    ensures EndOnly(missed, was, end)
  {
  }

  lemma EndExcused(r: Rules, ends: set<nat>, turns: seq<Turn>, missed: set<nat>, was: set<nat>, end: nat)
    requires EndOnly(missed, was, end) && end in ends
    ensures forall q :: q in missed && q !in was ==> Excused(r, ends, turns, q)
  {
    forall q | q in missed && q !in was ensures NearEnd(ends, q) {
      assert end in ends && q < end < q + 3;
    }
  }

  lemma PassedExcused(r: Rules, ends: set<nat>, turns: seq<Turn>, t: Turn, was: set<nat>)
    requires r.tuning.strategy.Fast? && t.Look? && t.len >= 3
      && (t.len > r.tuning.maxLazy || t.end < t.pos + t.len + 3)
    ensures forall q :: q in was + Stretch(t.pos + 1, t.pos + t.len) && q !in was ==>
      Excused(r, ends, turns + [t], q)
  {
    forall q | q in was + Stretch(t.pos + 1, t.pos + t.len) && q !in was ensures Excused(r, ends, turns + [t], q) {
      assert (turns + [t])[|turns|] == t && PassedBy(r.tuning.maxLazy, t, q);
    }
  }

  lemma RootedHas(starts: set<nat>, base: nat, at: nat, wsize: nat)
    requires Rooted(starts, base, at, wsize)
    ensures forall o :: o in starts ==> o <= base
    ensures base in starts || at >= wsize - MIN_LOOKAHEAD
  {
  }

  lemma RootedStart(wsize: nat)
    ensures Rooted({0}, 0, 0, wsize)
  {
  }

  lemma RootedOn(starts: set<nat>, base: nat, at: nat, wsize: nat, at': nat)
    requires Rooted(starts, base, at, wsize) && at <= at'
    ensures Rooted(starts, base, at', wsize)
  {
  }

  lemma RootedSlides(starts: set<nat>, base: nat, at: nat, wsize: nat)
    requires Rooted(starts, base, at, wsize) && at >= wsize + (wsize - MIN_LOOKAHEAD) && at >= wsize
    ensures Rooted(starts, base + wsize, at - wsize, wsize)
  {
  }

  lemma RootedAnew(starts: set<nat>, base: nat, at: nat, wsize: nat)
    requires Rooted(starts, base, at, wsize)
    ensures Rooted(starts + {base + at}, base + at, 0, wsize)
  {
  }

  // ---------- blocks ----------

  /** What a block was made from: the symbols, the dynamic block and its trees, and the raw bytes if they were still
      there; or nothing but the marker of a flush. */
  datatype Made =
    | Made(ts: seq<Token>, dyn: Block, lt: Tree, dt: Tree, buf: Option<seq<Byte>>, last: bool, pos: nat)
    | Marker

  ghost predicate MadeFrom(b: Block, m: Made, fixed: bool)
  {
    match m
    case Marker => b == FixedBlock([]) || b == StoredBlock([])
    case Made(ts, dyn, lt, dt, buf, last, pos) =>
      Chosen(b, dyn, ts, buf, last, pos, true, fixed) && BuiltFrom(dyn, lt, dt)
  }

  lemma MadeFromIs(b: Block, m: Made, fixed: bool)
    requires m.Made? && Chosen(b, m.dyn, m.ts, m.buf, m.last, m.pos, true, fixed) && BuiltFrom(m.dyn, m.lt, m.dt)
    ensures MadeFrom(b, m, fixed)
  {
    hide Chosen, BuiltFrom;
  }

  lemma MarkerIs(b: Block, fixed: bool)
    requires b == FixedBlock([]) || b == StoredBlock([])
    ensures MadeFrom(b, Marker, fixed)
  {
  }

  /** The symbols of all blocks. */
  function AllTokens(made: seq<Made>): (ts: seq<Token>)
  {
    if made == [] then []
    else AllTokens(made[..|made| - 1]) + match made[|made| - 1] case Marker => [] case Made(ts, _, _, _, _, _, _) => ts
  }

  /** Every block is the cheapest for its symbols, and the symbols are those of the blocks and those tallied. */
  ghost predicate Accounted(bs: seq<Block>, made: seq<Made>, fixed: bool, tokens: seq<Token>, tallied: seq<Token>)
  {
    |made| == |bs| && tokens == AllTokens(made) + tallied
    && forall i :: 0 <= i < |bs| ==> MadeFrom(bs[i], made[i], fixed)
  }

  lemma AccountedHas(bs: seq<Block>, made: seq<Made>, fixed: bool, tokens: seq<Token>, tallied: seq<Token>, i: nat)
    requires Accounted(bs, made, fixed, tokens, tallied) && i < |bs|
    ensures |made| == |bs| && MadeFrom(bs[i], made[i], fixed)
  {
    hide MadeFrom, AllTokens;
  }

  lemma MadeFromHas(b: Block, m: Made, fixed: bool)
    requires MadeFrom(b, m, fixed)
    ensures if m.Marker? then b == FixedBlock([]) || b == StoredBlock([])
            else BuiltFrom(m.dyn, m.lt, m.dt) && Cheapest(b, m.dyn, m.ts, m.buf, m.last, m.pos, fixed)
                 && (b.StoredBlock? ==> m.buf == Some(b.data)) && (!b.StoredBlock? ==> b.tokens == m.ts)
  {
    hide Cheapest, BuiltFrom, BlockBits, Writable;
  }

  lemma NothingMade(fixed: bool)
    ensures Accounted([], [], fixed, [], [])
  {
  }

  lemma AccountedToken(bs: seq<Block>, made: seq<Made>, fixed: bool, tokens: seq<Token>, tallied: seq<Token>, t: Token)
    requires Accounted(bs, made, fixed, tokens, tallied)
    ensures Accounted(bs, made, fixed, tokens + [t], tallied + [t])
  {
    hide MadeFrom, AllTokens;
    assert AllTokens(made) + tallied + [t] == AllTokens(made) + (tallied + [t]);
  }

  lemma AccountedBlock(bs: seq<Block>, made: seq<Made>, fixed: bool, tokens: seq<Token>, tallied: seq<Token>, b: Block,
                       m: Made)
    requires Accounted(bs, made, fixed, tokens, tallied) && MadeFrom(b, m, fixed)
    requires if m.Marker? then tallied == [] else m.ts == tallied
    ensures Accounted(bs + [b], made + [m], fixed, tokens, [])
  {
    hide MadeFrom;
    assert (made + [m])[..|made|] == made;
    assert AllTokens(made + [m]) == AllTokens(made) + tallied;
  }
}
