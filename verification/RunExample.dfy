/** What lazy evaluation makes of six equal bytes: two literals, since the string at the very start of the window is
    never compared, and then one match with the byte before (deflate.c: deflate_slow). */
module RunExample {
  import opened Bits
  import opened Lz77
  import opened Hashing
  import opened HashChains
  import opened Parsing

  const RUN: seq<Byte> := [97, 97, 97, 97, 97, 97]

  /** Any tuning that looks behind a short match and drops none. */
  predicate Eager(r: Rules)
  {
    r.tuning.strategy.Slow? && !r.tuning.filtered && r.tuning.maxLazy >= 3 && r.wsize >= 512
  }

  const MARKS: Marks := Marks({6}, {0})

  lemma RunIs()
    ensures |RUN| == 6 && RUN[..6] == RUN && forall i :: 0 <= i < 6 ==> RUN[i] == 97
    ensures MARKS.ends == {6} && MARKS.starts == {0}
  {
  }

  lemma RunAgrees(a: nat, b: nat, n: nat)
    requires a < b && b + n <= 6
    ensures Agrees(RUN, a, b, n)
  {
    assert RUN[a..a + n] == RUN[b..b + n];
  }

  lemma NotExcused(r: Rules, before: seq<Turn>, q: nat)
    requires Eager(r) && q <= 3
    ensures !Excused(r, MARKS.ends, before, q)
  {
  }

  lemma RunNear(r: Rules, pos: nat, q: nat)
    requires Eager(r) && 0 < q < pos <= 3
    ensures Near(r, RUN, 0, pos, q)
  {
    hide Hash3;
    assert HashAt(r.bits, RUN, q) == Hash3(r.bits, 97, 97, 97) == HashAt(r.bits, RUN, pos);
  }

  /** A decision before the end of the run. */
  lemma Seen(r: Rules, before: seq<Turn>, p: Parse, t: Turn)
    requires Eager(r) && LawfulTurn(r, RUN, MARKS, before, p, t) && p.pos <= 3
    ensures t.Look? && t.pos == p.pos && t.end == 6 && t.low == 0 && (p.waits ==> p.pos >= 1 && t.lit == 97)
    ensures SlowLook(r, RUN, MARKS.ends, before, t, p.len)
  {
    hide SlowLook;
    RunIs();
  }

  lemma OneListed(r: Rules, text: seq<Byte>, ends: set<nat>, before: seq<Turn>, low: nat, pos: nat, tried: seq<nat>)
    requires Listed(r, text, ends, before, low, pos, tried) && tried != []
    ensures low < tried[0] < pos
  {
    hide HashAt, Excused;
  }

  lemma NoneUnlisted(r: Rules, text: seq<Byte>, ends: set<nat>, before: seq<Turn>, low: nat, pos: nat, q: nat)
    requires Listed(r, text, ends, before, low, pos, []) && Near(r, text, low, pos, q)
    ensures Excused(r, ends, before, q)
  {
    hide HashAt, Excused;
  }

  /** At the first two positions there is nothing to compare with. */
  lemma NothingYet(r: Rules, before: seq<Turn>, t: Turn)
    requires Eager(r) && t.Look? && t.pos <= 1 && t.low == 0 && SlowLook(r, RUN, MARKS.ends, before, t, 2)
    ensures t.len == 2
  {
    hide Excused, HashAt, FirstAt, NoneLonger, Early, Exhausted, Listed;
    if t.tried != [] {
      OneListed(r, RUN, MARKS.ends, before, t.low, t.pos, t.tried);
    }
  }

  /** At the third position the second is found, four bytes long. */
  lemma FourFound(r: Rules, before: seq<Turn>, t: Turn)
    requires Eager(r) && t.Look? && t.pos == 2 && t.low == 0 && SlowLook(r, RUN, MARKS.ends, before, t, 2)
    ensures t.len == 4 && t.at == 1
  {
    hide Excused, HashAt, Early, Exhausted;
    RunIs();
    RunNear(r, 2, 1);
    NotExcused(r, before, 1);
    if t.tried == [] {
      NoneUnlisted(r, RUN, MARKS.ends, before, 0, 2, 1);
    } else {
      OneListed(r, RUN, MARKS.ends, before, 0, 2, t.tried);
      RunAgrees(1, 2, 4);
      assert Agrees(RUN, t.tried[0], 2, 4);
      var i :| 0 <= i < |t.tried| && t.tried[i] == t.at && Agrees(RUN, t.at, 2, t.found);
      assert Near(r, RUN, 0, 2, t.tried[i]);
    }
  }

  /** At the fourth nothing longer is found. */
  lemma NoneLongerLeft(r: Rules, before: seq<Turn>, t: Turn)
    requires t.Look? && t.pos == 3 && SlowLook(r, RUN, MARKS.ends, before, t, 4)
    ensures t.len <= 4
  {
    hide Listed, NoneLonger, Early, Exhausted;
    RunIs();
  }

  lemma Replayed(s: Strategy, turns: seq<Turn>, n: nat)
    requires n < |turns|
    ensures Replay(s, turns[..n + 1]) == Next(s, Replay(s, turns[..n]), turns[n])
  {
    hide Next;
    assert turns[..n + 1][..n] == turns[..n];
  }

  /** The first four decisions. */
  lemma FirstFour(r: Rules, turns: seq<Turn>, n: nat)
    requires Eager(r) && Lawful(r, RUN, MARKS, turns) && n <= |turns| && n <= 4
    ensures Replay(r.tuning.strategy, turns[..n])
         == [Parse([], 0, false, 2, 0), Parse([], 1, true, 2, 0), Parse([Literal(97)], 2, true, 2, 0),
             Parse([Literal(97), Literal(97)], 3, true, 4, 1),
             Parse([Literal(97), Literal(97), Match(4, 1)], 6, false, 2, 0)][n]
  {
    hide LawfulTurn, SlowLook, Eager;
    if n > 0 {
      FirstFour(r, turns, n - 1);
      Replayed(r.tuning.strategy, turns, n - 1);
      assert LawfulAt(r, RUN, MARKS, turns, n - 1);
      var p, t := Replay(r.tuning.strategy, turns[..n - 1]), turns[n - 1];
      Seen(r, turns[..n - 1], p, t);
      EagerIs(r);
      if n <= 2 {
        NothingYet(r, turns[..n - 1], t);
      } else if n == 3 {
        FourFound(r, turns[..n - 1], t);
      } else {
        NoneLongerLeft(r, turns[..n - 1], t);
      }
    }
  }

  lemma EagerIs(r: Rules)
    requires Eager(r)
    ensures r.tuning.strategy.Slow?
  {
  }

  /** At the end nothing more is emitted. */
  lemma {:induction false} NothingMore(r: Rules, turns: seq<Turn>, n: nat)
    requires Eager(r) && Lawful(r, RUN, MARKS, turns) && 4 <= n <= |turns|
    ensures Replay(r.tuning.strategy, turns[..n]) == Parse([Literal(97), Literal(97), Match(4, 1)], 6, false, 2, 0)
    decreases n
  {
    hide Next, LookedFor, Eager;
    if n == 4 {
      FirstFour(r, turns, 4);
    } else {
      NothingMore(r, turns, n - 1);
      Replayed(r.tuning.strategy, turns, n - 1);
      assert LawfulAt(r, RUN, MARKS, turns, n - 1);
      RunIs();
      AtRest(r.tuning.strategy, Replay(r.tuning.strategy, turns[..n - 1]), turns[n - 1]);
    }
  }

  lemma AtRest(s: Strategy, p: Parse, t: Turn)
    requires t.Rest? && !p.waits
    ensures Next(s, p, t) == p
  {
  }

  /** Every lawful parse of the run to its end emits these three symbols. */
  lemma SixAlike(r: Rules, turns: seq<Turn>)
    requires Eager(r) && Lawful(r, RUN, MARKS, turns) && Replay(r.tuning.strategy, turns).pos == 6
    ensures Replay(r.tuning.strategy, turns).tokens == [Literal(97), Literal(97), Match(4, 1)]
  {
    hide Lawful, Replay, Eager;
    assert turns[..|turns|] == turns;
    if |turns| <= 4 {
      FirstFour(r, turns, |turns|);
    } else {
      NothingMore(r, turns, |turns|);
    }
  }
}
