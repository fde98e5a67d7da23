/** The deflate decoder as a small-step machine over bits.

    One configuration is everything inflate() keeps: the state, with all output so far, and the
    bits not yet consumed.  A step needs a fixed prefix of the unread bits; when they are not
    there yet the machine waits, and more input never changes a step that was possible without
    it.  The machine knows nothing of lookup tables, bit buffers or windows: codes are read by
    the canonical rule of section 3.2.2 of RFC 1951. */
module Decoder {
  import opened Bits
  import opened Canonical
  import opened Symbols

  datatype Option<T> = None | Some(value: T)

  // ---------- codes ----------

  datatype CodeKind = CODES | LENS | DISTS

  /** The sets of lengths a decoder takes: no codes at all, a complete code, or, except for the
      code length code, a single code of one bit. */
  ghost predicate Acceptable(kind: CodeKind, lens: seq<nat>)
  {
    ValidLens(lens)
    && (Kraft(lens) == 0 || Kraft(lens) == Pow2(15)
        || (kind != CODES && Kraft(lens) == Pow2(14) && forall i :: 0 <= i < |lens| ==> lens[i] <= 1))
  }

  datatype Lookup = Found(sym: nat) | Wait | Nothing

  /** The symbol whose code starts the stream, if the bits there are enough to tell. */
  ghost function Find(lens: seq<nat>, b: BitString): (r: Lookup)
    ensures r.Found? ==> Coded(lens, r.sym) && lens[r.sym] <= |b|
    ensures r.Nothing? ==> |b| >= 1
  {
    var x := Rev(15, FromBits(b));
    if Owned(lens, x) then
      var s :| Owns(lens, s, x);
      if lens[s] <= |b| then Found(s) else Wait
    else if |b| >= 1 then Nothing else Wait
  }

  // ---------- states ----------

  datatype Mode =
    | Type | Stored | Copying | Table | LenLens | CodeLens
    | Len | LenExt | Dist | DistExt | Matching | Lit | Done | Bad

  datatype State = State(
    mode: Mode, last: bool,
    length: nat, offset: nat, extra: nat,
    nlen: nat, ndist: nat, ncode: nat, got: seq<nat>,
    clens: seq<nat>, llens: seq<nat>, dlens: seq<nat>,
    out: seq<Byte>)

  datatype Config = Config(st: State, unread: BitString)

  ghost const InitState: State := State(Type, false, 0, 0, 0, 0, 0, 0, [], [], [], [], [])

  // ---------- constant code lengths ----------

  function FixedLitLens(): (l: seq<nat>)
    ensures |l| == 288
  {
    seq(144, _ => 8) + seq(112, _ => 9) + seq(24, _ => 7) + seq(8, _ => 8)
  }

  function FixedDistLens(): (l: seq<nat>)
    ensures |l| == 32
  {
    seq(32, _ => 5)
  }

  /** The order in which the code length code lengths are sent. */
  function BlOrder(i: nat): (s: nat)
    requires i < 19
    ensures s < 19
  {
    [16, 17, 18, 0, 8, 7, 9, 6, 10, 5, 11, 4, 12, 3, 13, 2, 14, 1, 15][i]
  }

  /** Where symbol s comes in that order. */
  function BlRank(s: nat): (i: nat)
    requires s < 19
    ensures i < 19 && BlOrder(i) == s
  {
    [3, 17, 15, 13, 11, 9, 7, 5, 4, 6, 8, 10, 12, 14, 16, 18, 0, 1, 2][s]
  }

  /** The nineteen code length code lengths from the 3-bit values sent. */
  function Permuted(got: seq<nat>): (l: seq<nat>)
    ensures |l| == 19
    ensures forall s :: 0 <= s < 19 ==> l[s] == if BlRank(s) < |got| then got[BlRank(s)] else 0
  {
    seq(19, s requires 0 <= s < 19 => if BlRank(s) < |got| then got[BlRank(s)] else 0)
  }

  // ---------- steps ----------

  function Field(u: BitString, from: nat, n: nat): (v: nat)
    requires from + n <= |u|
  {
    FromBits(u[from..from + n])
  }

  /** Drop what is left of the current byte; the input comes in whole bytes. */
  function Aligned(u: BitString): (r: BitString)
  {
    u[|u| % 8..]
  }

  ghost function StepType(st: State, u: BitString): (r: Option<Config>)
  {
    if st.last then Some(Config(st.(mode := Done), Aligned(u)))
    else if |u| < 3 then None
    else
      var st1, kind, rest := st.(last := u[0]), Field(u, 1, 2), u[3..];
      if kind == 0 then Some(Config(st1.(mode := Stored), Aligned(rest)))
      else if kind == 1 then
        Some(Config(st1.(mode := Len, llens := FixedLitLens(), dlens := FixedDistLens()), rest))
      else if kind == 2 then Some(Config(st1.(mode := Table), rest))
      else Some(Config(st1.(mode := Bad), rest))
  }

  ghost function StepStored(st: State, u: BitString): (r: Option<Config>)
  {
    if |u| < 32 then None
    else if Field(u, 0, 16) + Field(u, 16, 16) != 65535 then Some(Config(st.(mode := Bad), u))
    else Some(Config(st.(mode := Copying, length := Field(u, 0, 16)), u[32..]))
  }

  ghost function StepCopying(st: State, u: BitString): (r: Option<Config>)
  {
    if st.length == 0 then Some(Config(st.(mode := Type), u))
    else if |u| < 8 then None
    else
      FromBitsBound(u[..8]); Pow2Values();
      var b: Byte := FromBits(u[..8]);
      Some(Config(st.(length := st.length - 1, out := st.out + [b]), u[8..]))
  }

  ghost function StepTable(st: State, u: BitString): (r: Option<Config>)
  {
    if |u| < 14 then None
    else
      var nlen, ndist, ncode := Field(u, 0, 5) + 257, Field(u, 5, 5) + 1, Field(u, 10, 4) + 4;
      var st1 := st.(nlen := nlen, ndist := ndist, ncode := ncode);
      if nlen > 286 || ndist > 30 then Some(Config(st1.(mode := Bad), u[14..]))
      else Some(Config(st1.(mode := LenLens, got := []), u[14..]))
  }

  ghost function StepLenLens(st: State, u: BitString): (r: Option<Config>)
  {
    if |st.got| < st.ncode then
      if |u| < 3 then None
      else Some(Config(st.(got := st.got + [Field(u, 0, 3)]), u[3..]))
    else
      var cl := Permuted(st.got);
      if Acceptable(CODES, cl) then Some(Config(st.(mode := CodeLens, got := [], clens := cl), u))
      else Some(Config(st.(mode := Bad), u))
  }

  /** The repeat symbols: 16 repeats the previous length, 17 and 18 repeat zero. */
  ghost function StepRepeat(st: State, u: BitString, s: nat, l: nat): (r: Option<Config>)
    requires l <= |u|
  {
    var n := if s == 16 then 2 else if s == 17 then 3 else 7;
    if |u| < l + n then None
    else if s == 16 && st.got == [] then Some(Config(st.(mode := Bad), u[l..]))
    else
      var val := if s == 16 then st.got[|st.got| - 1] else 0;
      var times := (if s == 18 then 11 else 3) + Field(u, l, n);
      if |st.got| + times > st.nlen + st.ndist then Some(Config(st.(mode := Bad), u[l + n..]))
      else Some(Config(st.(got := st.got + seq(times, _ => val)), u[l + n..]))
  }

  ghost function StepCodeLens(st: State, u: BitString): (r: Option<Config>)
  {
    if |st.got| < st.nlen + st.ndist then
      match Find(st.clens, u)
      case Wait => None
      case Nothing => Some(Config(st.(got := st.got + [0]), u[1..]))
      case Found(s) =>
        var l := st.clens[s];
        if s < 16 then Some(Config(st.(got := st.got + [s]), u[l..]))
        else StepRepeat(st, u, s, l)
    else if |st.got| <= 256 || st.nlen > |st.got| || st.got[256] == 0 then Some(Config(st.(mode := Bad), u))
    else
      var ll, dl := st.got[..st.nlen], st.got[st.nlen..];
      if Acceptable(LENS, ll) && Acceptable(DISTS, dl)
      then Some(Config(st.(mode := Len, llens := ll, dlens := dl), u))
      else Some(Config(st.(mode := Bad), u))
  }

  ghost function StepLen(st: State, u: BitString): (r: Option<Config>)
  {
    match Find(st.llens, u)
    case Wait => None
    case Nothing => Some(Config(st.(mode := Bad), u[1..]))
    case Found(s) =>
      var rest := u[st.llens[s]..];
      if s < 256 then Some(Config(st.(mode := Lit, length := s), rest))
      else if s == 256 then Some(Config(st.(mode := Type), rest))
      else if s < 286 then
        Some(Config(st.(mode := LenExt, length := LenBase(s - 257), extra := LenExtra(s - 257)), rest))
      else Some(Config(st.(mode := Bad), rest))
  }

  ghost function StepLenExt(st: State, u: BitString): (r: Option<Config>)
  {
    if |u| < st.extra then None
    else Some(Config(st.(mode := Dist, length := st.length + Field(u, 0, st.extra)), u[st.extra..]))
  }

  ghost function StepDist(st: State, u: BitString): (r: Option<Config>)
  {
    match Find(st.dlens, u)
    case Wait => None
    case Nothing => Some(Config(st.(mode := Bad), u[1..]))
    case Found(s) =>
      var rest := u[st.dlens[s]..];
      if s < 30 then Some(Config(st.(mode := DistExt, offset := DistBase(s), extra := DistExtra(s)), rest))
      else Some(Config(st.(mode := Bad), rest))
  }

  ghost function StepDistExt(st: State, u: BitString): (r: Option<Config>)
  {
    if |u| < st.extra then None
    else Some(Config(st.(mode := Matching, offset := st.offset + Field(u, 0, st.extra)), u[st.extra..]))
  }

  ghost function StepMatching(st: State, u: BitString): (r: Option<Config>)
  {
    if st.offset == 0 || st.offset > |st.out| then Some(Config(st.(mode := Bad), u))
    else
      var out := st.out + [st.out[|st.out| - st.offset]];
      if st.length <= 1 then Some(Config(st.(mode := Len, length := 0, out := out), u))
      else Some(Config(st.(length := st.length - 1, out := out), u))
  }

  ghost function StepLit(st: State, u: BitString): (r: Option<Config>)
  {
    Some(Config(st.(mode := Len, out := st.out + [st.length % 256]), u))
  }

  /** One step; None when the machine has stopped or must wait for input. */
  ghost function Step(c: Config): (r: Option<Config>)
  {
    var st, u := c.st, c.unread;
    match st.mode
    case Type => StepType(st, u)
    case Stored => StepStored(st, u)
    case Copying => StepCopying(st, u)
    case Table => StepTable(st, u)
    case LenLens => StepLenLens(st, u)
    case CodeLens => StepCodeLens(st, u)
    case Len => StepLen(st, u)
    case LenExt => StepLenExt(st, u)
    case Dist => StepDist(st, u)
    case DistExt => StepDistExt(st, u)
    case Matching => StepMatching(st, u)
    case Lit => StepLit(st, u)
    case Done => None
    case Bad => None
  }

  /** What a step is in the modes of a block's beginning. */
  lemma StepBegins(c: Config)
    ensures c.st.mode.Type? ==> Step(c) == StepType(c.st, c.unread)
    ensures c.st.mode.Stored? ==> Step(c) == StepStored(c.st, c.unread)
    ensures c.st.mode.Copying? ==> Step(c) == StepCopying(c.st, c.unread)
    ensures c.st.mode.Table? ==> Step(c) == StepTable(c.st, c.unread)
  {
    hide StepType, StepStored, StepCopying, StepTable, StepLenLens, StepCodeLens, StepLen, StepLenExt, StepDist,
      StepDistExt, StepMatching, StepLit;
  }

  // ---------- runs ----------

  /** n steps from c, stopping early where no step is possible. */
  ghost function Run(c: Config, n: nat): (r: Config)
    decreases n
  {
    if n == 0 then c
    else match Step(c) case None => c case Some(d) => Run(d, n - 1)
  }

  ghost predicate Leads(c: Config, d: Config)
  {
    exists n: nat :: Run(c, n) == d
  }

  lemma {:induction false} RunRun(c: Config, m: nat, n: nat)
    ensures Run(Run(c, m), n) == Run(c, m + n)
    decreases m
  {
    hide Step;
    if m > 0 {
      match Step(c)
      case None => RunStuck(c, n);
      case Some(d) => RunRun(d, m - 1, n);
    }
  }

  lemma RunStuck(c: Config, n: nat)
    requires Step(c).None?
    ensures Run(c, n) == c
  {
  }

  lemma LeadsTrans(c: Config, d: Config, e: Config)
    requires Leads(c, d) && Leads(d, e)
    ensures Leads(c, e)
  {
    hide Run;
    var m: nat :| Run(c, m) == d;
    var n: nat :| Run(d, n) == e;
    RunRun(c, m, n);
    assert Run(c, m + n) == e;
  }

  lemma LeadsStep(c: Config)
    requires Step(c).Some?
    ensures Leads(c, Step(c).value)
  {
    hide Step;
    assert Run(Step(c).value, 0) == Step(c).value;
    assert Run(c, 1) == Step(c).value;
  }

  lemma LeadsRefl(c: Config)
    ensures Leads(c, c)
  {
    assert Run(c, 0) == c;
  }

  /** A run that ends where no step is possible ends in the same place however long it is. */
  lemma Confluent(c: Config, d: Config, e: Config)
    requires Leads(c, d) && Leads(c, e)
    requires Step(e).None?
    ensures Leads(d, e)
  {
    hide Step, Run;
    var m: nat :| Run(c, m) == d;
    var n: nat :| Run(c, n) == e;
    if m <= n {
      RunRun(c, m, n - m);
      assert Run(d, n - m) == e;
    } else {
      RunRun(c, n, m - n);
      RunStuck(e, m - n);
      assert d == e;
      LeadsRefl(e);
    }
  }

  // ---------- runs that do not reach far back ----------

  /** No match reaches back more than `far` bytes, unless it reaches beyond everything. */
  ghost predicate Tame(far: nat, c: Config)
  {
    c.st.mode.Matching? ==> c.st.offset <= far || c.st.offset > |c.st.out|
  }

  ghost predicate TameRun(far: nat, c: Config, n: nat)
  {
    forall i: nat :: i <= n ==> Tame(far, Run(c, i))
  }

  /** c leads to d by way of tame configurations. */
  ghost predicate Via(far: nat, c: Config, d: Config)
  {
    exists n: nat :: Run(c, n) == d && TameRun(far, c, n)
  }

  lemma ViaTrans(far: nat, c: Config, d: Config, e: Config)
    requires Via(far, c, d) && Via(far, d, e)
    ensures Via(far, c, e)
  {
    hide Run, Tame;
    var m: nat :| Run(c, m) == d && TameRun(far, c, m);
    var n: nat :| Run(d, n) == e && TameRun(far, d, n);
    forall i: nat | i <= m + n
      ensures Tame(far, Run(c, i))
    {
      if i > m {
        RunRun(c, m, i - m);
      }
    }
    RunRun(c, m, n);
    assert Run(c, m + n) == e;
  }

  lemma ViaStep(far: nat, c: Config)
    requires Step(c).Some? && Tame(far, c) && Tame(far, Step(c).value)
    ensures Via(far, c, Step(c).value)
  {
    hide Step, Tame;
    var d := Step(c).value;
    assert Run(c, 0) == c;
    assert Run(d, 0) == d;
    assert Run(c, 1) == d;
    assert TameRun(far, c, 1);
  }

  lemma ViaRefl(far: nat, c: Config)
    requires Tame(far, c)
    ensures Via(far, c, c)
  {
    assert Run(c, 0) == c;
    assert TameRun(far, c, 0);
  }

  lemma ViaLeads(far: nat, c: Config, d: Config)
    requires Via(far, c, d)
    ensures Leads(c, d)
  {
    hide Run;
  }

  /** Everything on the way to a stop is tame. */
  lemma ViaAll(far: nat, c: Config, d: Config, e: Config)
    requires Via(far, c, d) && Step(d).None? && Leads(c, e)
    ensures Tame(far, e)
  {
    hide Run, Tame, Step;
    var n: nat :| Run(c, n) == d && TameRun(far, c, n);
    var m: nat :| Run(c, m) == e;
    if m > n {
      RunRun(c, n, m - n);
      RunStuck(d, m - n);
    }
  }
}
