/** The decoder machine as one call of inflate() runs it: only what the window still holds of the
    output of earlier calls, and the output of this call, can be copied (inflate.c: MATCH). */
module Windowed {
  import opened Bits
  import opened Symbols
  import opened Lz77
  import opened Decoder
  import opened MoreInput

  /** The first byte of the output that can still be copied during a call that starts after n bytes,
      with a window of wsize bytes. */
  function Floor(n: nat, wsize: nat): (f: nat)
    ensures f <= n
  {
    if n <= wsize then 0 else n - wsize
  }

  /** One step of a call whose matches must not reach below floor. */
  ghost function StepIn(c: Config, floor: nat): (r: Option<Config>)
  {
    if c.st.mode.Matching? && c.st.offset + floor > |c.st.out| then Some(Config(c.st.(mode := Bad), c.unread))
    else Step(c)
  }

  ghost function RunIn(c: Config, floor: nat, n: nat): (r: Config)
    decreases n
  {
    if n == 0 then c
    else match StepIn(c, floor) case None => c case Some(d) => RunIn(d, floor, n - 1)
  }

  ghost predicate LeadsIn(c: Config, floor: nat, d: Config)
  {
    exists n: nat :: RunIn(c, floor, n) == d
  }

  lemma {:induction false} RunInRunIn(c: Config, floor: nat, m: nat, n: nat)
    ensures RunIn(RunIn(c, floor, m), floor, n) == RunIn(c, floor, m + n)
    decreases m
  {
    hide StepIn;
    if m > 0 {
      match StepIn(c, floor)
      case None =>
        StuckIn(c, floor, n);
      case Some(d) => RunInRunIn(d, floor, m - 1, n);
    }
  }

  lemma StuckIn(c: Config, floor: nat, n: nat)
    requires StepIn(c, floor).None?
    ensures RunIn(c, floor, n) == c
  {
    hide StepIn;
  }

  lemma LeadsInTrans(c: Config, floor: nat, d: Config, e: Config)
    requires LeadsIn(c, floor, d) && LeadsIn(d, floor, e)
    ensures LeadsIn(c, floor, e)
  {
    hide RunIn;
    var m: nat :| RunIn(c, floor, m) == d;
    var n: nat :| RunIn(d, floor, n) == e;
    RunInRunIn(c, floor, m, n);
    assert RunIn(c, floor, m + n) == e;
  }

  lemma LeadsInRefl(c: Config, floor: nat)
    ensures LeadsIn(c, floor, c)
  {
    assert RunIn(c, floor, 0) == c;
  }

  lemma LeadsInStep(c: Config, floor: nat)
    requires StepIn(c, floor).Some?
    ensures LeadsIn(c, floor, StepIn(c, floor).value)
  {
    hide StepIn;
    assert RunIn(StepIn(c, floor).value, floor, 0) == StepIn(c, floor).value;
    assert RunIn(c, floor, 1) == StepIn(c, floor).value;
  }

  // ---------- how far back a match can ask to go ----------

  /** Lengths and distances stay in the range the format allows. */
  ghost predicate InRange(st: State)
  {
    (st.mode.LenExt? ==> st.length >= 3 && st.length + Pow2(st.extra) <= 259)
    && (st.mode.Dist? || st.mode.DistExt? ==> 3 <= st.length <= 258)
    && (st.mode.DistExt? ==> st.offset >= 1 && st.offset + Pow2(st.extra) <= 32769)
    && (st.mode.Matching? ==> 1 <= st.length <= 258 && 1 <= st.offset <= 32768)
  }

  lemma {:induction false} LengthRange(k: nat)
    requires k < 29
    ensures LenBase(k) >= 3 && LenBase(k) + Pow2(LenExtra(k)) <= 259
    decreases 29 - k
  {
    hide Pow2, LenBase, LenExtra;
    LenZero();
    Pow2Values();
    LenAtLeast(k);
    if k < 28 {
      LenTiles(k);
      LengthRange(k + 1);
      PowNonzero(LenExtra(k + 1));
    }
  }

  lemma PowNonzero(n: nat)
    ensures Pow2(n) >= 1
  {
  }

  lemma LenAtLeast(k: nat)
    requires k < 29
    ensures LenBase(k) >= 3
  {
  }

  lemma {:induction false} DistRange(k: nat)
    requires k < 30
    ensures DistBase(k) >= 1 && DistBase(k) + Pow2(DistExtra(k)) <= 32769
    decreases 30 - k
  {
    hide Pow2, DistBase, DistExtra;
    DistTiles(k);
    DistAtLeast(k);
    if k < 29 {
      DistRange(k + 1);
      PowNonzero(DistExtra(k + 1));
    }
  }

  lemma DistAtLeast(k: nat)
    requires k < 30
    ensures DistBase(k) >= 1
  {
  }

  lemma FieldBound(u: BitString, from: nat, n: nat)
    requires from + n <= |u|
    ensures Field(u, from, n) < Pow2(n)
  {
    FromBitsBound(u[from..from + n]);
  }

  lemma LenInRange(st: State, u: BitString)
    requires StepLen(st, u).Some?
    ensures InRange(StepLen(st, u).value.st)
  {
    hide Pow2, LenBase, LenExtra, Find;
    if Find(st.llens, u).Found? {
      var s := Find(st.llens, u).sym;
      if 257 <= s < 286 {
        LengthRange(s - 257);
      }
    }
  }

  lemma DistInRange(st: State, u: BitString)
    requires st.mode.Dist? && InRange(st) && StepDist(st, u).Some?
    ensures InRange(StepDist(st, u).value.st)
  {
    hide Pow2, DistBase, DistExtra, Find;
    if Find(st.dlens, u).Found? {
      var s := Find(st.dlens, u).sym;
      if s < 30 {
        DistRange(s);
      }
    }
  }

  lemma ExtraInRange(st: State, u: BitString)
    requires InRange(st) && st.extra <= |u|
    ensures st.mode.LenExt? && StepLenExt(st, u).Some? ==> InRange(StepLenExt(st, u).value.st)
    ensures st.mode.DistExt? && StepDistExt(st, u).Some? ==> InRange(StepDistExt(st, u).value.st)
  {
    hide Pow2, Field;
    FieldBound(u, 0, st.extra);
  }

  /** The modes outside of a match put no bounds on lengths and distances. */
  lemma OtherInRange(c: Config, floor: nat)
    requires StepIn(c, floor).Some?
    requires !c.st.mode.Len? && !c.st.mode.LenExt? && !c.st.mode.Dist? && !c.st.mode.DistExt? && !c.st.mode.Matching?
    ensures var m := StepIn(c, floor).value.st.mode;
            !m.LenExt? && !m.Dist? && !m.DistExt? && !m.Matching?
  {
    hide Pow2, Find, Field, FromBits, Aligned, Acceptable, FixedLitLens, FixedDistLens, Permuted, StepLen, StepLenExt,
      StepDist, StepDistExt, StepMatching;
  }

  /** Every step stays in range. */
  lemma StepInRange(c: Config, floor: nat)
    requires InRange(c.st) && StepIn(c, floor).Some?
    ensures InRange(StepIn(c, floor).value.st)
  {
    hide Pow2, StepType, StepStored, StepCopying, StepTable, StepLenLens, StepCodeLens, StepLen, StepLenExt, StepDist,
      StepDistExt, StepLit;
    var st, u := c.st, c.unread;
    match st.mode
    case Len => LenInRange(st, u);
    case LenExt =>
      ExtraNeeded(st, u);
      ExtraInRange(st, u);
    case Dist => DistInRange(st, u);
    case DistExt =>
      ExtraNeeded(st, u);
      ExtraInRange(st, u);
    case Matching =>
    case Type => OtherInRange(c, floor);
    case Stored => OtherInRange(c, floor);
    case Copying => OtherInRange(c, floor);
    case Table => OtherInRange(c, floor);
    case LenLens => OtherInRange(c, floor);
    case CodeLens => OtherInRange(c, floor);
    case Lit => OtherInRange(c, floor);
  }

  lemma ExtraNeeded(st: State, u: BitString)
    ensures StepLenExt(st, u).Some? || StepDistExt(st, u).Some? ==> st.extra <= |u|
  {
    hide Field;
  }

  /** With a window of 32768 bytes no distance the format can express reaches below what is kept:
      a call behaves as the machine that remembers all output. */
  lemma FullWindowStep(c: Config, n: nat)
    requires InRange(c.st) && n <= |c.st.out|
    ensures StepIn(c, Floor(n, 32768)) == Step(c)
  {
    hide Step, StepIn;
    NearStep(c, n, 32768);
  }

  lemma OutGrows(c: Config, floor: nat)
    requires StepIn(c, floor).Some?
    ensures |c.st.out| <= |StepIn(c, floor).value.st.out|
  {
    hide Pow2, Find, LenBase, LenExtra, DistBase, DistExtra, Field, FromBits, Aligned, Acceptable, FixedLitLens,
      FixedDistLens, Permuted;
  }

  /** Where no match reaches further back than the window, a call behaves as the machine that remembers all output. */
  lemma NearStep(c: Config, n: nat, wsize: nat)
    requires Tame(wsize, c) && n <= |c.st.out|
    ensures StepIn(c, Floor(n, wsize)) == Step(c)
  {
    hide StepType, StepStored, StepCopying, StepTable, StepLenLens, StepCodeLens, StepLen, StepLenExt, StepDist,
      StepDistExt, Pow2;
  }

  /** Whatever is decoded from here on, no match reaches further back. */
  ghost predicate AllTame(c: Config, far: nat)
  {
    forall e :: Leads(c, e) ==> Tame(far, e)
  }

  lemma AllTameHere(c: Config, far: nat)
    requires AllTame(c, far)
    ensures Tame(far, c)
  {
    hide Leads, Tame;
    LeadsRefl(c);
  }

  lemma AllTameNext(c: Config, far: nat)
    requires AllTame(c, far) && Step(c).Some?
    ensures AllTame(Step(c).value, far)
  {
    hide Leads, Tame, Step;
    LeadsStep(c);
    forall e | Leads(Step(c).value, e)
      ensures Tame(far, e)
    {
      LeadsTrans(c, Step(c).value, e);
    }
  }

  lemma {:induction false} NearRun(c: Config, n: nat, wsize: nat, k: nat)
    requires AllTame(c, wsize) && n <= |c.st.out|
    ensures RunIn(c, Floor(n, wsize), k) == Run(c, k)
    decreases k
  {
    hide Step, StepIn, AllTame, Tame;
    if k > 0 {
      AllTameHere(c, wsize);
      NearStep(c, n, wsize);
      if StepIn(c, Floor(n, wsize)).Some? {
        AllTameNext(c, wsize);
        OutGrows(c, Floor(n, wsize));
        NearRun(StepIn(c, Floor(n, wsize)).value, n, wsize, k - 1);
      }
    }
  }

  /** So a whole call is then a run of the machine. */
  lemma NearLeads(c: Config, n: nat, wsize: nat, d: Config)
    requires AllTame(c, wsize) && n <= |c.st.out| && LeadsIn(c, Floor(n, wsize), d)
    ensures Leads(c, d)
  {
    hide Run, RunIn, AllTame;
    var k: nat :| RunIn(c, Floor(n, wsize), k) == d;
    NearRun(c, n, wsize, k);
  }
}
