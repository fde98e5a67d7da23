/** The header of a dynamic block: its bits, and how the decoder machine reads them back
    (section 3.2.7 of RFC 1951). */
module BlockHeader {
  import opened Bits
  import opened Canonical
  import opened Symbols
  import opened Lz77
  import opened CodeLengths
  import opened Decoder
  import opened MoreInput
  import opened BlockFormat

  // ---------- code lengths through the code length code ----------

  ghost predicate OpCoded(cl: seq<nat>, op: Op)
  {
    ValidOp(op) && Coded(cl, op.sym)
  }

  function OpBits(cl: seq<nat>, op: Op): (b: BitString)
    requires op.sym < |cl| && cl[op.sym] <= 15
  {
    CodeBits(cl, op.sym) + ToBits(op.extra, OpExtra(op.sym))
  }

  ghost predicate AllOpsCoded(cl: seq<nat>, ops: seq<Op>)
  {
    forall i :: 0 <= i < |ops| ==> OpCoded(cl, ops[i])
  }

  ghost function OpsBits(cl: seq<nat>, ops: seq<Op>): (b: BitString)
    requires AllOpsCoded(cl, ops)
  {
    if ops == [] then [] else OpBits(cl, ops[0]) + OpsBits(cl, ops[1..])
  }

  lemma {:induction false} OpsBitsAppend(cl: seq<nat>, a: seq<Op>, b: seq<Op>)
    requires AllOpsCoded(cl, a) && AllOpsCoded(cl, b)
    ensures AllOpsCoded(cl, a + b)
    ensures OpsBits(cl, a + b) == OpsBits(cl, a) + OpsBits(cl, b)
    decreases |a|
  {
    hide OpBits;
    if a == [] {
      assert a + b == b;
    } else {
      OpsBitsAppend(cl, a[1..], b);
      assert (a + b)[1..] == a[1..] + b;
    }
  }

  lemma OpDecodes(far: nat, c: Config, cl: seq<nat>, op: Op, rest: BitString) returns (d: Config)
    requires c.st.mode.CodeLens? && c.st.clens == cl && |cl| == 19
    requires Kraft(cl) <= Pow2(15) && OpCoded(cl, op)
    requires op.sym == 16 ==> c.st.got != []
    requires |ApplyOp(c.st.got, op)| <= c.st.nlen + c.st.ndist
    requires c.unread == OpBits(cl, op) + rest
    ensures Via(far, c, d) && d == Config(c.st.(got := ApplyOp(c.st.got, op)), rest)
  {
    hide Find, CodeBits, Kraft, Via, ToBits, Field, Pow2;
    var s := op.sym;
    var ext := ToBits(op.extra, OpExtra(s));
    var l := cl[s];
    assert c.unread == CodeBits(cl, s) + (ext + rest);
    FindCode(cl, s, ext + rest);
    assert c.unread[l..] == ext + rest;
    if s >= 16 {
      FieldOfBits(op.extra, OpExtra(s), rest);
      FieldOfExtendedAt(CodeBits(cl, s), ext + rest, OpExtra(s));
      assert c.unread[l + OpExtra(s)..] == rest;
    } else {
      assert ext == [];
    }
    d := Config(c.st.(got := ApplyOp(c.st.got, op)), rest);
    assert Step(c) == Some(d);
    ViaStep(far, c);
  }

  lemma FieldOfExtendedAt(a: BitString, b: BitString, n: nat)
    requires n <= |b|
    ensures Field(a + b, |a|, n) == Field(b, 0, n)
  {
    assert (a + b)[|a|..|a| + n] == b[0..0 + n];
  }

  lemma {:induction false} OpsDecode(far: nat, c: Config, cl: seq<nat>, ops: seq<Op>, rest: BitString)
      returns (d: Config)
    requires c.st.mode.CodeLens? && c.st.clens == cl && |cl| == 19
    requires Kraft(cl) <= Pow2(15) && AllOpsCoded(cl, ops)
    requires Applicable(c.st.got, ops)
    requires |ExpandOps(c.st.got, ops)| <= c.st.nlen + c.st.ndist
    requires c.unread == OpsBits(cl, ops) + rest
    ensures Via(far, c, d) && d == Config(c.st.(got := ExpandOps(c.st.got, ops)), rest)
    decreases |ops|
  {
    hide Via, Kraft, OpBits, ApplyOp, ValidOp;
    if ops == [] {
      d := c;
      ViaRefl(far, c);
      assert OpsBits(cl, ops) + rest == rest;
    } else {
      assert OpCoded(cl, ops[0]);
      var tail := OpsBits(cl, ops[1..]) + rest;
      assert c.unread == OpBits(cl, ops[0]) + tail;
      ExpandOpsGrows(ApplyOp(c.st.got, ops[0]), ops[1..]);
      var e := OpDecodes(far, c, cl, ops[0], tail);
      d := OpsDecode(far, e, cl, ops[1..], rest);
      ViaTrans(far, c, e, d);
    }
  }

  // ---------- the code length code itself ----------

  /** The first n code length code lengths, three bits each, in the transmission order. */
  function ClensBits(cl: seq<nat>, n: nat): (b: BitString)
    requires |cl| == 19 && n <= 19
    ensures |b| == 3 * n
  {
    if n == 0 then [] else ClensBits(cl, n - 1) + ToBits(cl[BlOrder(n - 1)], 3)
  }

  /** The bits of the lengths from i to n. */
  function ClensTail(cl: seq<nat>, i: nat, n: nat): (b: BitString)
    requires |cl| == 19 && i <= n <= 19
    decreases n - i
  {
    if i == n then [] else ToBits(cl[BlOrder(i)], 3) + ClensTail(cl, i + 1, n)
  }

  lemma {:induction false} ClensTailIs(cl: seq<nat>, i: nat, n: nat)
    requires |cl| == 19 && i <= n <= 19
    ensures ClensBits(cl, n) == ClensBits(cl, i) + ClensTail(cl, i, n)
    decreases n - i
  {
    hide ToBits, BlOrder;
    if i < n {
      ClensTailIs(cl, i + 1, n);
    }
  }

  function InOrder(cl: seq<nat>, n: nat): (l: seq<nat>)
    requires |cl| == 19 && n <= 19
    ensures |l| == n
  {
    seq(n, i requires 0 <= i < n => cl[BlOrder(i)])
  }

  lemma {:induction false} ClensDecode(far: nat, c: Config, cl: seq<nat>, n: nat, rest: BitString) returns (d: Config)
    requires |cl| == 19 && n <= 19 && forall s :: 0 <= s < 19 ==> cl[s] < 8
    requires c.st.mode.LenLens? && c.st.ncode == n && |c.st.got| <= n
    requires c.st.got == InOrder(cl, |c.st.got|)
    requires c.unread == ClensTail(cl, |c.st.got|, n) + rest
    ensures Via(far, c, d) && d == Config(c.st.(got := InOrder(cl, n)), rest)
    decreases n - |c.st.got|
  {
    hide Via, ToBits, Field, BlOrder;
    var i := |c.st.got|;
    if i == n {
      d := c;
      ViaRefl(far, c);
      assert ClensTail(cl, i, n) + rest == rest;
    } else {
      var v, tail := cl[BlOrder(i)], ClensTail(cl, i + 1, n) + rest;
      assert c.unread == ToBits(v, 3) + tail;
      Pow2Values();
      FieldOfBits(v, 3, tail);
      var e := Config(c.st.(got := c.st.got + [v]), tail);
      assert Step(c) == Some(e);
      ViaStep(far, c);
      assert e.st.got == InOrder(cl, i + 1);
      d := ClensDecode(far, e, cl, n, rest);
      ViaTrans(far, c, e, d);
    }
  }

  /** The decoder's permutation restores the lengths, provided those not sent are zero. */
  lemma PermutedInOrder(cl: seq<nat>, n: nat)
    requires |cl| == 19 && n <= 19
    requires forall i :: n <= i < 19 ==> cl[BlOrder(i)] == 0
    ensures Permuted(InOrder(cl, n)) == cl
  {
    hide BlOrder, BlRank;
    var p := Permuted(InOrder(cl, n));
    forall s | 0 <= s < 19 ensures p[s] == cl[s] {
      var i := BlRank(s);
      if i >= n {
        assert cl[BlOrder(i)] == 0;
      }
    }
  }

  // ---------- the header of a dynamic block ----------

  /** What send_all_trees needs of the codes it sends. */
  ghost predicate Sendable(cl: seq<nat>, n: nat, ll: seq<nat>, dl: seq<nat>)
  {
    |cl| == 19 && 4 <= n <= 19 && (forall s :: 0 <= s < 19 ==> cl[s] < 8)
    && (forall i :: n <= i < 19 ==> cl[BlOrder(i)] == 0)
    && 257 <= |ll| <= 286 && 1 <= |dl| <= 30 && ll[256] != 0
    && Complete(cl) && Complete(ll) && Complete(dl)
    && AllOpsCoded(cl, Rle(ll)) && AllOpsCoded(cl, Rle(dl))
  }

  function SizesBits(nl: nat, nd: nat, n: nat): (b: BitString)
    requires nl >= 257 && nd >= 1 && n >= 4
  {
    ToBits(nl - 257, 5) + ToBits(nd - 1, 5) + ToBits(n - 4, 4)
  }

  ghost function HeaderBits(cl: seq<nat>, n: nat, ll: seq<nat>, dl: seq<nat>): (b: BitString)
    requires Sendable(cl, n, ll, dl)
  {
    SizesBits(|ll|, |dl|, n) + ClensBits(cl, n) + OpsBits(cl, Rle(ll)) + OpsBits(cl, Rle(dl))
  }

  lemma SizesRegroup(nl: nat, nd: nat, n: nat, rest: BitString)
    requires 257 <= nl <= 286 && 1 <= nd <= 30 && 4 <= n <= 19
    ensures var a, b, e := ToBits(nl - 257, 5), ToBits(nd - 1, 5), ToBits(n - 4, 4);
            SizesBits(nl, nd, n) + rest == a + (b + (e + rest)) == (a + b) + (e + rest)
  {
    hide ToBits;
    var a, b, e := ToBits(nl - 257, 5), ToBits(nd - 1, 5), ToBits(n - 4, 4);
    assert a + b + e + rest == a + (b + (e + rest));
    assert a + b + e + rest == (a + b) + (e + rest);
  }

  /** A field behind n bits. */
  lemma FieldBehind(a: BitString, v: nat, n: nat, rest: BitString)
    requires v < Pow2(n)
    ensures Field(a + (ToBits(v, n) + rest), |a|, n) == v
  {
    hide ToBits, Field, Pow2;
    FieldOfExtendedAt(a, ToBits(v, n) + rest, n);
    FieldOfBits(v, n, rest);
  }

  lemma SizesRead(nl: nat, nd: nat, n: nat, rest: BitString)
    requires 257 <= nl <= 286 && 1 <= nd <= 30 && 4 <= n <= 19
    ensures var u := SizesBits(nl, nd, n) + rest;
            |u| >= 14 && Field(u, 0, 5) == nl - 257 && Field(u, 5, 5) == nd - 1 && Field(u, 10, 4) == n - 4
            && u[14..] == rest
  {
    hide ToBits, Field, Pow2, SizesBits;
    Pow2Values();
    var a, b, e := ToBits(nl - 257, 5), ToBits(nd - 1, 5), ToBits(n - 4, 4);
    SizesRegroup(nl, nd, n, rest);
    FieldOfBits(nl - 257, 5, b + (e + rest));
    FieldBehind(a, nd - 1, 5, e + rest);
    FieldBehind(a + b, n - 4, 4, rest);
  }

  lemma SizesDecode(far: nat, c: Config, nl: nat, nd: nat, n: nat, rest: BitString) returns (d: Config)
    requires 257 <= nl <= 286 && 1 <= nd <= 30 && 4 <= n <= 19
    requires c.st.mode.Table? && c.unread == SizesBits(nl, nd, n) + rest
    ensures Via(far, c, d)
    ensures d == Config(c.st.(mode := LenLens, nlen := nl, ndist := nd, ncode := n, got := []), rest)
  {
    hide Via, Field, Step, SizesBits;
    StepBegins(c);
    SizesRead(nl, nd, n, rest);
    d := Config(c.st.(mode := LenLens, nlen := nl, ndist := nd, ncode := n, got := []), rest);
    ViaStep(far, c);
  }

  /** All lengths are in: the decoder splits them and accepts both codes. */
  lemma CodesAccepted(c: Config, ll: seq<nat>, dl: seq<nat>)
    requires 257 <= |ll| && ll[256] != 0 && Complete(ll) && Complete(dl)
    requires c.st.mode.CodeLens? && c.st.nlen == |ll| && c.st.ndist == |dl| && c.st.got == ll + dl
    ensures Step(c) == Some(Config(c.st.(mode := Len, llens := ll, dlens := dl), c.unread))
  {
    hide Complete, Find, Acceptable;
    CompleteAcceptable(LENS, ll);
    CompleteAcceptable(DISTS, dl);
    assert (ll + dl)[..|ll|] == ll && (ll + dl)[|ll|..] == dl;
  }

  lemma CodeLensDecode(far: nat, c: Config, cl: seq<nat>, ll: seq<nat>, dl: seq<nat>, rest: BitString)
      returns (d: Config)
    requires |cl| == 19 && Complete(cl) && Complete(ll) && Complete(dl) && 257 <= |ll| && ll[256] != 0
    requires AllOpsCoded(cl, Rle(ll)) && AllOpsCoded(cl, Rle(dl))
    requires c.st.mode.CodeLens? && c.st.clens == cl && c.st.got == []
    requires c.st.nlen == |ll| && c.st.ndist == |dl|
    requires c.unread == OpsBits(cl, Rle(ll)) + OpsBits(cl, Rle(dl)) + rest
    ensures Via(far, c, d) && AtSymbol(d, ll, dl, c.st.out, rest) && d.st.last == c.st.last
  {
    hide Via, Kraft, Rle, Pow2, OpCoded, ExpandOps, Applicable, OpsBits, Step, AllOpsCoded;
    RleRoundTrip([], ll);
    RleRoundTrip(ll, dl);
    assert [] + ll == ll;
    var tail := OpsBits(cl, Rle(dl)) + rest;
    assert c.unread == OpsBits(cl, Rle(ll)) + tail;
    var e := OpsDecode(far, c, cl, Rle(ll), tail);
    var f := OpsDecode(far, e, cl, Rle(dl), rest);
    CodesAccepted(f, ll, dl);
    d := Step(f).value;
    ViaStep(far, f);
    ViaTrans(far, c, e, f);
    ViaTrans(far, c, f, d);
  }

  /** The decoder reads a dynamic header as the codes that were sent. */
  lemma HeaderDecodes(far: nat, c: Config, cl: seq<nat>, n: nat, ll: seq<nat>, dl: seq<nat>, rest: BitString)
      returns (d: Config)
    requires Sendable(cl, n, ll, dl)
    requires c.st.mode.Table? && c.unread == HeaderBits(cl, n, ll, dl) + rest
    ensures Via(far, c, d) && AtSymbol(d, ll, dl, c.st.out, rest) && d.st.last == c.st.last
  {
    hide Via, Kraft, Rle, OpsBits, ClensBits, SizesBits, ClensTail, Complete, Acceptable, BlOrder, AllOpsCoded;
    var ops := OpsBits(cl, Rle(ll)) + OpsBits(cl, Rle(dl)) + rest;
    ClensTailIs(cl, 0, n);
    ClensNone(cl);
    assert c.unread == SizesBits(|ll|, |dl|, n) + (ClensTail(cl, 0, n) + ops);
    var e := SizesDecode(far, c, |ll|, |dl|, n, ClensTail(cl, 0, n) + ops);
    var f := ClensDecode(far, e, cl, n, ops);
    PermutedInOrder(cl, n);
    CompleteAcceptable(CODES, cl);
    var g := Config(f.st.(mode := CodeLens, got := [], clens := cl), ops);
    assert Step(f) == Some(g);
    ViaStep(far, f);
    d := CodeLensDecode(far, g, cl, ll, dl, rest);
    ViaTrans(far, c, e, f);
    ViaTrans(far, c, f, g);
    ViaTrans(far, c, g, d);
  }

  lemma ClensNone(cl: seq<nat>)
    requires |cl| == 19
    ensures ClensBits(cl, 0) == [] && InOrder(cl, 0) == []
  {
  }
}
