/** The decoder machine takes no more input than it needs: where it had to wait, the next step uses
    up everything it was waiting with.  This is what bounds the bits inflate() holds between states
    (inflate.c: NEEDBITS, PULLBYTE; inffast.c: the entry assumption on state->bits). */
module NeededInput {
  import opened Bits
  import opened Canonical
  import opened Symbols
  import opened Decoder
  import opened MoreInput
  import opened Windowed

  /** If u is too short for a code, the code in a longer stream is longer than u. */
  lemma FindNeeds(kind: CodeKind, lens: seq<nat>, u: BitString, v: BitString)
    requires Acceptable(kind, lens) && Find(lens, u) == Wait
    ensures Find(lens, u + v).Found? ==> lens[Find(lens, u + v).sym] > |u|
    ensures Find(lens, u + v).Nothing? ==> |u| == 0
  {
    hide Rev, FromBits, Kraft, Pos, Low;
    AcceptableKraft(kind, lens);
    match Find(lens, u + v)
    case Found(s) =>
      if lens[s] <= |u| {
        MatchIffOwns(lens, s, FromBits(u));
        MatchIffOwns(lens, s, FromBits(u + v));
        LowOfExtended(u, v, lens[s]);
        FoundIs(lens, u, s);
      }
    case Nothing =>
      if |u| >= 1 {
        NothingIs(lens, u);
        NothingIs(lens, u + v);
        NothingByFirstBit(kind, lens, FromBits(u));
        NothingByFirstBit(kind, lens, FromBits(u + v));
        Parity(u);
        Parity(u + v);
      }
    case Wait =>
  }

  lemma CodeLensNeeds(st: State, u: BitString, v: BitString)
    requires Sound(st) && st.mode.CodeLens? && StepCodeLens(st, u).None? && StepCodeLens(st, u + v).Some?
    ensures var d := StepCodeLens(st, u + v).value; d.st.mode.Bad? || |d.unread| < |v|
  {
    hide Field, Acceptable, Find;
    if Find(st.clens, u) == Wait {
      FindNeeds(CODES, st.clens, u, v);
    } else {
      FindStable(CODES, st.clens, u, v);
    }
  }

  lemma LenNeeds(st: State, u: BitString, v: BitString)
    requires Sound(st) && st.mode.Len? && StepLen(st, u).None? && StepLen(st, u + v).Some?
    ensures |StepLen(st, u + v).value.unread| < |v|
  {
    hide Acceptable, Find, LenBase, LenExtra;
    FindNeeds(LENS, st.llens, u, v);
  }

  lemma DistNeeds(st: State, u: BitString, v: BitString)
    requires Sound(st) && st.mode.Dist? && StepDist(st, u).None? && StepDist(st, u + v).Some?
    ensures |StepDist(st, u + v).value.unread| < |v|
  {
    hide Acceptable, Find, DistBase, DistExtra;
    FindNeeds(DISTS, st.dlens, u, v);
  }

  /** A step that was not possible on u uses up u, or is the discovery of an error. */
  lemma StepNeeds(st: State, u: BitString, v: BitString)
    requires Sound(st) && Step(Config(st, u)).None? && Step(Config(st, u + v)).Some? && |v| % 8 == 0
    ensures var d := Step(Config(st, u + v)).value; d.st.mode.Bad? || |d.unread| < |v|
  {
    hide Acceptable, Find, Field, FromBits, Permuted, FixedLitLens, FixedDistLens, Sound, StepCodeLens, StepLen,
      StepDist;
    match st.mode
    case CodeLens => CodeLensNeeds(st, u, v);
    case Len => LenNeeds(st, u, v);
    case Dist => DistNeeds(st, u, v);
    case Type =>
    case Stored =>
    case Copying =>
    case Table =>
    case LenLens =>
    case LenExt =>
    case DistExt =>
    case Matching =>
    case Lit =>
  }

  // ---------- what is unread shrinks from the front ----------

  ghost predicate Suffix(u: BitString, v: BitString)
  {
    |u| <= |v| && u == v[|v| - |u|..]
  }

  lemma SuffixTrans(u: BitString, v: BitString, w: BitString)
    requires Suffix(u, v) && Suffix(v, w)
    ensures Suffix(u, w)
  {
  }

  lemma SuffixDrop(v: BitString, k: nat)
    requires k <= |v|
    ensures Suffix(v[k..], v)
  {
  }

  lemma CodeLensSuffix(st: State, u: BitString)
    requires StepCodeLens(st, u).Some?
    ensures Suffix(StepCodeLens(st, u).value.unread, u)
  {
    hide Field, Acceptable, Find;
  }

  lemma TypeSuffix(st: State, u: BitString)
    requires StepType(st, u).Some?
    ensures Suffix(StepType(st, u).value.unread, u)
  {
    hide Field, FixedLitLens, FixedDistLens;
    if !st.last {
      assert Aligned(u[3..]) == u[3 + |u[3..]| % 8..];
    }
  }

  lemma HeaderSuffix(st: State, u: BitString)
    ensures StepStored(st, u).Some? ==> Suffix(StepStored(st, u).value.unread, u)
    ensures StepCopying(st, u).Some? ==> Suffix(StepCopying(st, u).value.unread, u)
    ensures StepTable(st, u).Some? ==> Suffix(StepTable(st, u).value.unread, u)
    ensures StepLenLens(st, u).Some? ==> Suffix(StepLenLens(st, u).value.unread, u)
  {
    hide Field, FromBits, Acceptable, Permuted;
  }

  lemma BodySuffix(st: State, u: BitString)
    ensures StepLen(st, u).Some? ==> Suffix(StepLen(st, u).value.unread, u)
    ensures StepDist(st, u).Some? ==> Suffix(StepDist(st, u).value.unread, u)
    ensures StepLenExt(st, u).Some? ==> Suffix(StepLenExt(st, u).value.unread, u)
    ensures StepDistExt(st, u).Some? ==> Suffix(StepDistExt(st, u).value.unread, u)
  {
    hide Field, Find, LenBase, LenExtra, DistBase, DistExtra;
  }

  lemma StepSuffix(c: Config, floor: nat)
    requires StepIn(c, floor).Some?
    ensures Suffix(StepIn(c, floor).value.unread, c.unread)
  {
    hide StepType, StepStored, StepCopying, StepTable, StepLenLens, StepCodeLens, StepLen, StepLenExt, StepDist,
      StepDistExt, Suffix;
    match c.st.mode
    case Type => TypeSuffix(c.st, c.unread);
    case CodeLens => CodeLensSuffix(c.st, c.unread);
    case Stored => HeaderSuffix(c.st, c.unread);
    case Copying => HeaderSuffix(c.st, c.unread);
    case Table => HeaderSuffix(c.st, c.unread);
    case LenLens => HeaderSuffix(c.st, c.unread);
    case Len => BodySuffix(c.st, c.unread);
    case LenExt => BodySuffix(c.st, c.unread);
    case Dist => BodySuffix(c.st, c.unread);
    case DistExt => BodySuffix(c.st, c.unread);
    case Matching => SuffixDrop(c.unread, 0);
    case Lit => SuffixDrop(c.unread, 0);
  }

  lemma {:induction false} RunSuffix(c: Config, floor: nat, n: nat)
    ensures Suffix(RunIn(c, floor, n).unread, c.unread)
    decreases n
  {
    hide StepIn;
    if n > 0 && StepIn(c, floor).Some? {
      var d := StepIn(c, floor).value;
      StepSuffix(c, floor);
      RunSuffix(d, floor, n - 1);
      SuffixTrans(RunIn(d, floor, n - 1).unread, d.unread, c.unread);
    }
  }

  lemma LeadsSuffix(c: Config, floor: nat, d: Config)
    requires LeadsIn(c, floor, d)
    ensures Suffix(d.unread, c.unread)
  {
    hide RunIn, Suffix;
    var n: nat :| RunIn(c, floor, n) == d;
    RunSuffix(c, floor, n);
  }

  /** The first u of the stream were not enough for a step: what a run takes is more than that. */
  lemma LeadsNeeds(c: Config, floor: nat, d: Config, u: BitString, v: BitString)
    requires Sound(c.st) && LeadsIn(c, floor, d) && d != c && c.unread == u + v && |v| % 8 == 0
    requires Step(Config(c.st, u)).None?
    ensures d.st.mode.Bad? || |d.unread| < |v|
  {
    hide Step, Sound;
    var n: nat :| RunIn(c, floor, n) == d;
    if StepIn(c, floor).None? {
      StuckIn(c, floor, n);
    } else {
      var e := StepIn(c, floor).value;
      WaitsNoMatch(c.st, u);
      StepNeeds(c.st, u, v);
      RunSuffix(e, floor, n - 1);
      if e.st.mode.Bad? {
        BadStops(e, floor);
        StuckIn(e, floor, n - 1);
      }
    }
  }

  /** The same for a code, where an error also takes what was there. */
  lemma LenLeadsNeeds(c: Config, floor: nat, d: Config, u: BitString, v: BitString)
    requires Sound(c.st) && c.st.mode.Len? && LeadsIn(c, floor, d) && d != c && c.unread == u + v
    requires Step(Config(c.st, u)).None?
    ensures |d.unread| < |v|
  {
    hide StepLen, Sound;
    var n: nat :| RunIn(c, floor, n) == d;
    if StepIn(c, floor).None? {
      StuckIn(c, floor, n);
    } else {
      LenNeeds(c.st, u, v);
      RunSuffix(StepIn(c, floor).value, floor, n - 1);
    }
  }

  lemma WaitsNoMatch(st: State, u: BitString)
    ensures Step(Config(st, u)).None? ==> !st.mode.Matching?
  {
  }

  lemma BadStops(c: Config, floor: nat)
    requires c.st.mode.Bad?
    ensures StepIn(c, floor).None?
  {
  }
}
