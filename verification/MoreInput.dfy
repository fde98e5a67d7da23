/** More input never changes a step the decoder could already take. */
module MoreInput {
  import opened Bits
  import opened Canonical
  import opened Symbols
  import opened Decoder

  // ---------- code look-up ----------

  /** Adding bits behind a stream does not change its first n bits. */
  lemma LowOfExtended(b: BitString, more: BitString, n: nat)
    requires n <= |b|
    ensures Low(FromBits(b + more), n) == Low(FromBits(b), n)
  {
    hide FromBits, Pow2;
    FromBitsPrefix(b, n);
    FromBitsPrefix(b + more, n);
    assert (b + more)[..n] == b[..n];
  }

  /** A point is below 2^14 exactly when the first bit is 0. */
  lemma FirstBitHalf(v: nat)
    ensures Rev(15, v) < Pow2(15)
    ensures Rev(15, v) < Pow2(14) <==> v % 2 == 0
  {
    hide Pow2;
    RevBound(15, v);
    RevBound(14, v / 2);
    assert Rev(15, v) == (if v % 2 == 1 then Pow2(14) else 0) + Rev(14, v / 2);
  }

  /** Whether a point has an owner is decided by the Kraft sum alone. */
  lemma OwnedIff(lens: seq<nat>, x: nat)
    ensures Owned(lens, x) <==> x < Kraft(lens)
  {
    hide Pos, FirstPos, Width, Pow2;
    if x < Kraft(lens) {
      assert Kraft(lens) == FirstPos(lens, 16);
      var s := OwnerExists(lens, x, 16);
    } else if s :| Owns(lens, s, x) {
      PosBound(lens, s);
    }
  }

  /** With an acceptable code, nothing decodes only if the first bit already says so. */
  lemma NothingByFirstBit(kind: CodeKind, lens: seq<nat>, v: nat)
    requires Acceptable(kind, lens)
    ensures !Owned(lens, Rev(15, v)) <==>
            Kraft(lens) == 0 || (Kraft(lens) == Pow2(14) && v % 2 == 1)
  {
    hide Kraft, Pow2, Rev;
    OwnedIff(lens, Rev(15, v));
    FirstBitHalf(v);
    Pow2Values();
  }

  lemma Parity(b: BitString)
    requires |b| >= 1
    ensures FromBits(b) % 2 == 1 <==> b[0]
  {
  }

  lemma FoundIs(lens: seq<nat>, b: BitString, s: nat)
    requires Owns(lens, s, Rev(15, FromBits(b)))
    ensures Find(lens, b) == if lens[s] <= |b| then Found(s) else Wait
  {
    hide Pos, Width, Rev, FromBits;
    var x := Rev(15, FromBits(b));
    forall t | Owns(lens, t, x) ensures t == s {
      OwnerUnique(lens, s, t, x);
    }
  }

  lemma NothingIs(lens: seq<nat>, b: BitString)
    requires |b| >= 1
    ensures Find(lens, b).Nothing? <==> !Owned(lens, Rev(15, FromBits(b)))
  {
    hide Owns, Owned, Rev, FromBits;
  }

  lemma AcceptableKraft(kind: CodeKind, lens: seq<nat>)
    requires Acceptable(kind, lens)
    ensures Kraft(lens) <= Pow2(15)
  {
    hide Kraft;
    Pow2Values();
  }

  /** What a decoder finds in a stream it still finds when the stream goes on. */
  lemma FindStable(kind: CodeKind, lens: seq<nat>, b: BitString, more: BitString)
    requires Acceptable(kind, lens) && Find(lens, b) != Wait
    ensures Find(lens, b + more) == Find(lens, b)
  {
    var v, w := FromBits(b), FromBits(b + more);
    hide Rev, FromBits, Kraft, Pos, Low;
    AcceptableKraft(kind, lens);
    match Find(lens, b)
    case Found(s) =>
      assert Owns(lens, s, Rev(15, v));
      MatchIffOwns(lens, s, v);
      MatchIffOwns(lens, s, w);
      LowOfExtended(b, more, lens[s]);
      FoundIs(lens, b + more, s);
    case Nothing =>
      NothingIs(lens, b);
      NothingIs(lens, b + more);
      NothingByFirstBit(kind, lens, v);
      NothingByFirstBit(kind, lens, w);
      Parity(b);
      Parity(b + more);
  }

  // ---------- the invariant of states ----------

  ghost predicate Decoding(m: Mode)
  {
    m.Len? || m.LenExt? || m.Dist? || m.DistExt? || m.Matching? || m.Lit?
  }

  /** The codes in use are acceptable. */
  ghost predicate Sound(st: State)
  {
    (st.mode.CodeLens? ==> Acceptable(CODES, st.clens))
    && (Decoding(st.mode) ==> Acceptable(LENS, st.llens) && Acceptable(DISTS, st.dlens))
  }

  lemma FixedLitCount(n: nat)
    ensures Count(FixedLitLens(), n) == if n == 7 then 24 else if n == 8 then 152 else if n == 9 then 112 else 0
  {
    hide Count;
    var a, b, c, d := seq<nat>(144, _ => 8), seq<nat>(112, _ => 9), seq<nat>(24, _ => 7), seq<nat>(8, _ => 8);
    CountConstant(a, 8, n);
    CountConstant(b, 9, n);
    CountConstant(c, 7, n);
    CountConstant(d, 8, n);
    CountAppend(a, b, n);
    CountAppend(a + b, c, n);
    CountAppend(a + b + c, d, n);
    assert FixedLitLens() == a + b + c + d;
  }

  lemma FixedLitComplete()
    ensures Complete(FixedLitLens())
  {
    var l := FixedLitLens();
    hide Count, FixedLitLens;
    forall n: nat ensures Count(l, n) == if n == 7 then 24 else if n == 8 then 152 else if n == 9 then 112 else 0 {
      FixedLitCount(n);
    }
    SumBefore(l, 7);
    SumAfter(l, 10, 16);
    FixedUnfold(l);
    FixedLitValid();
  }

  lemma FixedUnfold(l: seq<nat>)
    ensures FirstPos(l, 10) == FirstPos(l, 7) + Count(l, 7) * 256 + Count(l, 8) * 128 + Count(l, 9) * 64
    ensures FirstPos(l, 6) == FirstPos(l, 5) + Count(l, 5) * 1024
    ensures Pow2(15) == 32768
  {
    hide Count;
    Pow2Values();
    assert FirstPos(l, 10) == FirstPos(l, 9) + Count(l, 9) * Width(9);
    assert FirstPos(l, 9) == FirstPos(l, 8) + Count(l, 8) * Width(8);
    assert FirstPos(l, 8) == FirstPos(l, 7) + Count(l, 7) * Width(7);
    PowTen();
  }

  lemma PowTen()
    ensures Pow2(10) == 1024
  {
  }

  lemma FixedLitValid()
    ensures ValidLens(FixedLitLens())
    ensures forall i :: 0 <= i < 288 ==>
      FixedLitLens()[i] == if i < 144 then 8 else if i < 256 then 9 else if i < 280 then 7 else 8
  {
  }

  lemma FixedDistComplete()
    ensures Complete(FixedDistLens())
  {
    var l := FixedDistLens();
    hide Count;
    forall n: nat ensures Count(l, n) == if n == 5 then 32 else 0 {
      CountConstant(l, 5, n);
    }
    SumBefore(l, 5);
    SumAfter(l, 6, 16);
    FixedUnfold(l);
  }

  lemma CompleteAcceptable(kind: CodeKind, lens: seq<nat>)
    requires Complete(lens)
    ensures Acceptable(kind, lens)
  {
  }

  /** Every step keeps the invariant. */
  lemma StepSound(c: Config)
    requires Sound(c.st) && Step(c).Some?
    ensures Sound(Step(c).value.st)
  {
    hide Acceptable, Find, FixedLitLens, FixedDistLens, Permuted, LenBase, LenExtra, DistBase, DistExtra, FromBits,
      Aligned, Field;
    if c.st.mode.Type? {
      FixedAcceptable();
    }
  }

  lemma FixedAcceptable()
    ensures Acceptable(LENS, FixedLitLens()) && Acceptable(DISTS, FixedDistLens())
  {
    hide FixedLitLens, FixedDistLens, Acceptable, Complete;
    FixedLitComplete();
    FixedDistComplete();
    CompleteAcceptable(LENS, FixedLitLens());
    CompleteAcceptable(DISTS, FixedDistLens());
  }

  // ---------- one step ----------

  function With(c: Config, more: BitString): (r: Config)
  {
    Config(c.st, c.unread + more)
  }

  lemma FieldOfExtended(u: BitString, more: BitString, from: nat, n: nat)
    requires from + n <= |u|
    ensures Field(u + more, from, n) == Field(u, from, n)
    ensures (u + more)[from + n..] == u[from + n..] + more
  {
    assert (u + more)[from..from + n] == u[from..from + n];
  }

  lemma AlignedExtended(u: BitString, more: BitString)
    requires |more| % 8 == 0
    ensures Aligned(u + more) == Aligned(u) + more
  {
    assert |u + more| % 8 == |u| % 8;
  }

  lemma TypeExtends(st: State, u: BitString, more: BitString)
    requires |more| % 8 == 0 && StepType(st, u).Some?
    ensures StepType(st, u + more) == Some(With(StepType(st, u).value, more))
  {
    hide FixedLitLens, FixedDistLens, Field, Aligned;
    AlignedExtended(u, more);
    if !st.last {
      FieldOfExtended(u, more, 1, 2);
      AlignedExtended(u[3..], more);
    }
  }

  lemma StoredExtends(st: State, u: BitString, more: BitString)
    requires StepStored(st, u).Some?
    ensures StepStored(st, u + more) == Some(With(StepStored(st, u).value, more))
  {
    hide Field;
    FieldOfExtended(u, more, 0, 16);
    FieldOfExtended(u, more, 16, 16);
  }

  lemma CopyingExtends(st: State, u: BitString, more: BitString)
    requires StepCopying(st, u).Some?
    ensures StepCopying(st, u + more) == Some(With(StepCopying(st, u).value, more))
  {
    hide FromBits;
    if st.length > 0 {
      assert (u + more)[..8] == u[..8] && (u + more)[8..] == u[8..] + more;
    }
  }

  lemma TableExtends(st: State, u: BitString, more: BitString)
    requires StepTable(st, u).Some?
    ensures StepTable(st, u + more) == Some(With(StepTable(st, u).value, more))
  {
    hide Field;
    FieldOfExtended(u, more, 0, 5);
    FieldOfExtended(u, more, 5, 5);
    FieldOfExtended(u, more, 10, 4);
  }

  lemma LenLensExtends(st: State, u: BitString, more: BitString)
    requires StepLenLens(st, u).Some?
    ensures StepLenLens(st, u + more) == Some(With(StepLenLens(st, u).value, more))
  {
    hide Field, Acceptable, Permuted;
    if |st.got| < st.ncode {
      FieldOfExtended(u, more, 0, 3);
    }
  }

  lemma RepeatExtends(st: State, u: BitString, s: nat, l: nat, more: BitString)
    requires l <= |u| && StepRepeat(st, u, s, l).Some?
    ensures StepRepeat(st, u + more, s, l) == Some(With(StepRepeat(st, u, s, l).value, more))
  {
    hide Field;
    var n := if s == 16 then 2 else if s == 17 then 3 else 7;
    FieldOfExtended(u, more, l, n);
    assert (u + more)[l..] == u[l..] + more;
  }

  lemma CodeLensExtends(st: State, u: BitString, more: BitString)
    requires Sound(st) && st.mode.CodeLens? && StepCodeLens(st, u).Some?
    ensures StepCodeLens(st, u + more) == Some(With(StepCodeLens(st, u).value, more))
  {
    hide Field, Acceptable, StepRepeat;
    if |st.got| < st.nlen + st.ndist {
      FindStable(CODES, st.clens, u, more);
      match Find(st.clens, u)
      case Found(s) =>
        var l := st.clens[s];
        assert (u + more)[l..] == u[l..] + more;
        if s >= 16 {
          RepeatExtends(st, u, s, l, more);
        }
      case Nothing =>
        assert (u + more)[1..] == u[1..] + more;
    }
  }

  lemma LenExtends(st: State, u: BitString, more: BitString)
    requires Sound(st) && st.mode.Len? && StepLen(st, u).Some?
    ensures StepLen(st, u + more) == Some(With(StepLen(st, u).value, more))
  {
    hide Acceptable, LenBase, LenExtra;
    FindStable(LENS, st.llens, u, more);
    match Find(st.llens, u)
    case Found(s) =>
      assert (u + more)[st.llens[s]..] == u[st.llens[s]..] + more;
    case Nothing =>
      assert (u + more)[1..] == u[1..] + more;
  }

  lemma DistExtends(st: State, u: BitString, more: BitString)
    requires Sound(st) && st.mode.Dist? && StepDist(st, u).Some?
    ensures StepDist(st, u + more) == Some(With(StepDist(st, u).value, more))
  {
    hide Acceptable, DistBase, DistExtra;
    FindStable(DISTS, st.dlens, u, more);
    match Find(st.dlens, u)
    case Found(s) =>
      assert (u + more)[st.dlens[s]..] == u[st.dlens[s]..] + more;
    case Nothing =>
      assert (u + more)[1..] == u[1..] + more;
  }

  lemma ExtraExtends(st: State, u: BitString, more: BitString)
    ensures StepLenExt(st, u).Some? ==> StepLenExt(st, u + more) == Some(With(StepLenExt(st, u).value, more))
    ensures StepDistExt(st, u).Some? ==> StepDistExt(st, u + more) == Some(With(StepDistExt(st, u).value, more))
  {
    hide Field;
    if st.extra <= |u| {
      FieldOfExtended(u, more, 0, st.extra);
    }
  }

  /** A step taken on the bits at hand is the step taken when whole bytes follow them. */
  lemma StepExtends(c: Config, more: BitString)
    requires Sound(c.st) && Step(c).Some? && |more| % 8 == 0
    ensures Step(With(c, more)) == Some(With(Step(c).value, more))
  {
    hide Acceptable, StepType, StepStored, StepCopying, StepTable, StepLenLens, StepCodeLens, StepLen, StepLenExt,
      StepDist, StepDistExt;
    var st, u := c.st, c.unread;
    match st.mode
    case Type => TypeExtends(st, u, more);
    case Stored => StoredExtends(st, u, more);
    case Copying => CopyingExtends(st, u, more);
    case Table => TableExtends(st, u, more);
    case LenLens => LenLensExtends(st, u, more);
    case CodeLens => CodeLensExtends(st, u, more);
    case Len => LenExtends(st, u, more);
    case LenExt => ExtraExtends(st, u, more);
    case Dist => DistExtends(st, u, more);
    case DistExt => ExtraExtends(st, u, more);
    case Matching =>
    case Lit =>
  }

  // ---------- runs ----------

  lemma {:induction false} RunExtends(c: Config, n: nat, more: BitString)
    requires Sound(c.st) && |more| % 8 == 0
    ensures Sound(Run(c, n).st)
    ensures Leads(With(c, more), With(Run(c, n), more))
    decreases n
  {
    hide Step, Sound;
    if n == 0 || Step(c).None? {
      LeadsRefl(With(c, more));
    } else {
      var d := Step(c).value;
      StepSound(c);
      StepExtends(c, more);
      RunExtends(d, n - 1, more);
      LeadsStep(With(c, more));
      LeadsTrans(With(c, more), With(d, more), With(Run(d, n - 1), more));
    }
  }

  /** Decoding a first chunk and then more is decoding the whole. */
  lemma LeadsExtends(c: Config, d: Config, more: BitString)
    requires Sound(c.st) && |more| % 8 == 0 && Leads(c, d)
    ensures Sound(d.st) && Leads(With(c, more), With(d, more))
  {
    hide Step, Sound, Run;
    var n: nat :| Run(c, n) == d;
    RunExtends(c, n, more);
  }
}
