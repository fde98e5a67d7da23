/** Streams written out byte by byte from sections 3.2.4 to 3.2.7 of RFC 1951, one for each kind of block, and the texts
    that the decoder makes of them.  What the other modules say of streams holds whatever the encoder and the decoder
    agree on; these streams fix what that is. */
module KnownAnswers {
  import opened Bits
  import opened Canonical
  import opened Symbols
  import opened Lz77
  import opened CodeLengths
  import opened Decoder
  import opened MoreInput
  import opened BlockFormat
  import opened BlockHeader
  import opened BlockStream
  import opened BitWriter
  import opened Sessions
  import opened Inflate

  // ---------- bits of bytes ----------

  /** The n low bits of v, and then the bytes from k on. */
  ghost function Held(v: nat, n: nat, s: seq<Byte>, k: nat): (u: BitString)
    requires k <= |s|
  {
    ToBits(v, n) + BytesToBits(s[k..])
  }

  lemma Powers()
    ensures Pow2(0) == 1 && Pow2(1) == 2 && Pow2(2) == 4 && Pow2(3) == 8 && Pow2(4) == 16 && Pow2(5) == 32
    ensures Pow2(6) == 64 && Pow2(7) == 128 && Pow2(8) == 256 && Pow2(9) == 512 && Pow2(10) == 1024
    ensures Pow2(11) == 2048 && Pow2(12) == 4096 && Pow2(13) == 8192 && Pow2(14) == 16384 && Pow2(15) == 32768
    ensures Pow2(16) == 65536
  {
    hide Pow2;
    Pow2Values();
    Pow2Add(8, 2);
    Pow2Add(8, 3);
    Pow2Add(8, 4);
  }

  lemma WholeStream(s: seq<Byte>)
    ensures BytesToBits(s) == Held(0, 0, s, 0)
  {
    hide BytesToBits;
    assert s[0..] == s;
    NoBits(0);
    var u := BytesToBits(s);
    assert [] + u == u;
  }

  /** One more byte. */
  lemma More(v: nat, n: nat, p: nat, s: seq<Byte>, k: nat, b: Byte)
    requires k < |s| && s[k] == b && Pow2(n) == p && v < p
    ensures Held(v, n, s, k) == Held(v + b * p, n + 8, s, k + 1)
  {
    hide ToBits, Pow2;
    JoinBits(v, n, b, 8);
    var t := s[k..];
    assert t[0] == b && t[1..] == s[k + 1..];
    assert BytesToBits(t) == ToBits(b, 8) + BytesToBits(s[k + 1..]);
    Regroup(ToBits(v, n), ToBits(b, 8), BytesToBits(s[k + 1..]));
  }

  /** The first m bits. */
  lemma Cut(x: nat, m: nat, p: nat, w: nat, v: nat, n: nat, s: seq<Byte>, k: nat)
    requires k <= |s| && m <= n && Pow2(m) == p && x < p && v == x + w * p
    ensures Held(v, n, s, k) == ToBits(x, m) + Held(w, n - m, s, k)
  {
    hide ToBits, Pow2, BytesToBits;
    var i: nat := n - m;
    JoinBits(x, m, w, i);
    assert m + i == n;
    Regroup(ToBits(x, m), ToBits(w, i), BytesToBits(s[k..]));
  }

  lemma {:induction false} BytesLength(s: seq<Byte>, k: nat, v: nat, n: nat)
    requires k <= |s|
    ensures |Held(v, n, s, k)| == n + 8 * (|s| - k)
  {
    hide ToBits, BytesToBits;
  }

  // ---------- steps ----------

  /** The three bits that begin a block. */
  lemma TypeRead(c: Config, kind: nat, last: bool, w: nat, n: nat, s: seq<Byte>, k: nat) returns (d: Config)
    requires k <= |s| && n >= 3 && 1 <= kind <= 2
    requires AtBlock(c, Held(2 * kind + (if last then 1 else 0) + w * 8, n, s, k))
    ensures Leads(c, d) && d.unread == Held(w, n - 3, s, k)
    ensures kind == 1 ==> d.st == c.st.(mode := Len, last := last, llens := FixedLitLens(), dlens := FixedDistLens())
    ensures kind == 2 ==> d.st == c.st.(mode := Table, last := last)
  {
    hide *;
    Powers();
    var x := 2 * kind + if last then 1 else 0;
    Cut(x, 3, 8, w, x + w * 8, n, s, k);
    TypeIs(kind, last);
    d := BlockBegins(c, kind, last, Held(w, n - 3, s, k));
  }

  lemma TypeIs(kind: nat, last: bool)
    ensures TypeBits(kind, last) == ToBits(2 * kind + (if last then 1 else 0), 3)
  {
    hide ToBits;
  }

  lemma BlockBegins(c: Config, kind: nat, last: bool, rest: BitString) returns (d: Config)
    requires 1 <= kind <= 2 && AtBlock(c, TypeBits(kind, last) + rest)
    ensures Leads(c, d) && d.unread == rest
    ensures kind == 1 ==> d.st == c.st.(mode := Len, last := last, llens := FixedLitLens(), dlens := FixedDistLens())
    ensures kind == 2 ==> d.st == c.st.(mode := Table, last := last)
  {
    hide Field, TypeBits, Leads, FixedLitLens, FixedDistLens, Step;
    StepBegins(c);
    TypeBitsRead(kind, last, rest);
    LeadsStep(c);
    d := Step(c).value;
  }

  /** The sizes of a dynamic header with all nineteen lengths of the code length code. */
  lemma SizesRead19(c: Config, nl: nat, nd: nat, w: nat, n: nat, s: seq<Byte>, k: nat) returns (d: Config)
    requires k <= |s| && n >= 14 && 257 <= nl <= 286 && 1 <= nd <= 30 && c.st.mode.Table?
    requires c.unread == Held(nl - 257 + (nd - 1 + (15 + w * 16) * 32) * 32, n, s, k)
    ensures Leads(c, d) && d.unread == Held(w, n - 14, s, k)
    ensures d.st == c.st.(mode := LenLens, nlen := nl, ndist := nd, ncode := 19, got := [])
  {
    hide *;
    Powers();
    var a, b: nat, e: nat := nl - 257, nd - 1, 15;
    var u := e + w * 16;
    var t := b + u * 32;
    Cut(a, 5, 32, t, a + t * 32, n, s, k);
    Cut(b, 5, 32, u, t, n - 5, s, k);
    Cut(e, 4, 16, w, u, n - 10, s, k);
    var rest := Held(w, n - 14, s, k);
    SizesIs(nl, nd, rest);
    d := SizesDecode(32768, c, nl, nd, 19, rest);
    ViaLeads(32768, c, d);
  }

  lemma SizesIs(nl: nat, nd: nat, rest: BitString)
    requires 257 <= nl <= 286 && 1 <= nd <= 30
    ensures SizesBits(nl, nd, 19) + rest == ToBits(nl - 257, 5) + (ToBits(nd - 1, 5) + (ToBits(15, 4) + rest))
  {
    hide ToBits;
    SizesRegroup(nl, nd, 19, rest);
  }

  /** One length of the code length code. */
  lemma LenLenRead(c: Config, x: nat, w: nat, n: nat, s: seq<Byte>, k: nat) returns (d: Config)
    requires k <= |s| && n >= 3 && x < 8 && c.st.mode.LenLens? && |c.st.got| < c.st.ncode
    requires c.unread == Held(x + w * 8, n, s, k)
    ensures Leads(c, d) && d == Config(c.st.(got := c.st.got + [x]), Held(w, n - 3, s, k))
  {
    hide *;
    Powers();
    Cut(x, 3, 8, w, x + w * 8, n, s, k);
    d := LenLenStep(c, x, Held(w, n - 3, s, k));
  }

  lemma LenLenStep(c: Config, x: nat, rest: BitString) returns (d: Config)
    requires x < 8 && c.st.mode.LenLens? && |c.st.got| < c.st.ncode && c.unread == ToBits(x, 3) + rest
    ensures Leads(c, d) && d == Config(c.st.(got := c.st.got + [x]), rest)
  {
    hide Leads, ToBits, Field, Pow2;
    Powers();
    FieldOfBits(x, 3, rest);
    d := Config(c.st.(got := c.st.got + [x]), rest);
    assert Step(c) == Some(d);
    LeadsStep(c);
  }

  /** All lengths of the code length code are there. */
  lemma LenLensRead(c: Config, cl: seq<nat>) returns (d: Config)
    requires c.st.mode.LenLens? && |c.st.got| == c.st.ncode && Permuted(c.st.got) == cl && Complete(cl)
    ensures Leads(c, d) && d == Config(c.st.(mode := CodeLens, got := [], clens := cl), c.unread)
  {
    hide Leads, Permuted, Complete, Acceptable;
    CompleteAcceptable(CODES, cl);
    d := Config(c.st.(mode := CodeLens, got := [], clens := cl), c.unread);
    assert Step(c) == Some(d);
    LeadsStep(c);
  }

  /** A symbol of the code length alphabet, whose code is x in m bits, and its extra bits. */
  lemma OpRead(c: Config, sym: nat, extra: nat, x: nat, m: nat, p: nat, q: nat, w: nat, u: nat, v: nat, n: nat,
               s: seq<Byte>, k: nat)
      returns (d: Config)
    requires c.st.mode.CodeLens? && |c.st.clens| == 19 && Kraft(c.st.clens) <= Pow2(15)
    requires k <= |s| && HasCode(c.st.clens, sym, x, m) && Pow2(m) == p && Pow2(OpExtra(sym)) == q && extra < q
    requires (sym == 16 ==> c.st.got != []) && m + OpExtra(sym) <= n
    requires |ApplyOp(c.st.got, Op(sym, extra))| <= c.st.nlen + c.st.ndist
    requires v == x + u * p && u == extra + w * q && c.unread == Held(v, n, s, k)
    ensures Leads(c, d)
    ensures d == Config(c.st.(got := ApplyOp(c.st.got, Op(sym, extra))), Held(w, n - m - OpExtra(sym), s, k))
  {
    hide *;
    var e, cl, op := OpExtra(sym), c.st.clens, Op(sym, extra);
    CodeIs(cl, sym, x, m);
    Cut(x, m, p, u, v, n, s, k);
    Cut(extra, e, q, w, u, n - m, s, k);
    var rest := Held(w, n - m - e, s, k);
    OpIs(cl, op, rest);
    d := OpDecodes(32768, c, cl, op, rest);
    ViaLeads(32768, c, d);
  }

  lemma OpIs(cl: seq<nat>, op: Op, rest: BitString)
    requires |cl| == 19 && Coded(cl, op.sym) && op.extra < Pow2(OpExtra(op.sym))
    ensures OpCoded(cl, op)
    ensures OpBits(cl, op) + rest == CodeBits(cl, op.sym) + (ToBits(op.extra, OpExtra(op.sym)) + rest)
  {
    hide ToBits, CodeBits, Pow2, OpExtra;
  }

  /** Symbol s has a code of m bits, which as stored is x. */
  ghost predicate HasCode(lens: seq<nat>, s: nat, x: nat, m: nat)
  {
    Coded(lens, s) && lens[s] == m && CodeVal(lens, s) == x && Kraft(lens) <= Pow2(15)
  }

  lemma CodeIs(lens: seq<nat>, s: nat, x: nat, m: nat)
    requires HasCode(lens, s, x, m)
    ensures Coded(lens, s) && lens[s] == m && CodeBits(lens, s) == ToBits(x, m) && x < Pow2(m)
  {
    hide ToBits, CodeVal, Pow2, Kraft;
    CodeFits(lens, s);
  }

  /** All lengths are there. */
  lemma LensRead(c: Config, ll: seq<nat>, dl: seq<nat>) returns (d: Config)
    requires 257 <= |ll| && ll[256] != 0 && Complete(ll) && Complete(dl)
    requires c.st.mode.CodeLens? && c.st.nlen == |ll| && c.st.ndist == |dl| && c.st.got == ll + dl
    ensures Leads(c, d) && d == Config(c.st.(mode := Len, llens := ll, dlens := dl), c.unread)
  {
    hide *;
    CodesAccepted(c, ll, dl);
    LeadsStep(c);
    d := Config(c.st.(mode := Len, llens := ll, dlens := dl), c.unread);
  }

  /** A literal whose code is x in m bits. */
  lemma LiteralRead(c: Config, b: Byte, x: nat, m: nat, p: nat, w: nat, v: nat, n: nat, s: seq<Byte>, k: nat)
      returns (d: Config)
    requires c.st.mode.Len? && Usable(c.st.llens, c.st.dlens)
    requires k <= |s| && HasCode(c.st.llens, b, x, m) && Pow2(m) == p && m <= n && v == x + w * p
      && c.unread == Held(v, n, s, k)
    ensures Leads(c, d) && d.unread == Held(w, n - m, s, k) && d.st.last == c.st.last && d.st.mode.Len?
    ensures d.st.llens == c.st.llens && d.st.dlens == c.st.dlens && d.st.out == c.st.out + [b]
  {
    hide *;
    var ll, dl := c.st.llens, c.st.dlens;
    CodeIs(ll, b, x, m);
    Cut(x, m, p, w, v, n, s, k);
    SymbolIs(c);
    d := LiteralDecodes(32768, c, ll, dl, b, Held(w, n - m, s, k));
    SymbolHas(d, ll, dl);
    ViaLeads(32768, c, d);
  }

  lemma SymbolIs(c: Config)
    requires c.st.mode.Len?
    ensures AtSymbol(c, c.st.llens, c.st.dlens, c.st.out, c.unread)
  {
  }

  lemma SymbolHas(c: Config, ll: seq<nat>, dl: seq<nat>)
    ensures forall out, u :: AtSymbol(c, ll, dl, out, u) ==>
      c.st.mode.Len? && c.st.llens == ll && c.st.dlens == dl && c.st.out == out && c.unread == u
  {
  }

  /** The fields of a match: length code and extra bits, distance code and extra bits. */
  datatype Fields = Fields(x: nat, m: nat, e: nat, a: nat, y: nat, i: nat, f: nat, b: nat)

  ghost predicate MatchFields(ll: seq<nat>, dl: seq<nat>, len: nat, dist: nat, t: Fields)
  {
    3 <= len <= 258 && 1 <= dist <= 32768
    && t.a == LenExtra(LengthCode(len)) && len == LenBase(LengthCode(len)) + t.e && t.e < Pow2(t.a)
    && t.b == DistExtra(DistCode(dist)) && dist == DistBase(DistCode(dist)) + t.f && t.f < Pow2(t.b)
    && HasCode(ll, 257 + LengthCode(len), t.x, t.m) && HasCode(dl, DistCode(dist), t.y, t.i)
  }

  lemma MatchRead(c: Config, len: nat, dist: nat, t: Fields, v: nat, v1: nat, v2: nat, v3: nat, w: nat, n: nat,
                  s: seq<Byte>, k: nat)
      returns (d: Config)
    requires c.st.mode.Len? && Usable(c.st.llens, c.st.dlens) && k <= |s| && dist <= |c.st.out|
    requires MatchFields(c.st.llens, c.st.dlens, len, dist, t) && t.m + t.a + t.i + t.b <= n
    requires v == t.x + v1 * Pow2(t.m) && v1 == t.e + v2 * Pow2(t.a)
    requires v2 == t.y + v3 * Pow2(t.i) && v3 == t.f + w * Pow2(t.b) && c.unread == Held(v, n, s, k)
    ensures Leads(c, d) && d.st.last == c.st.last && d.st.mode.Len?
    ensures d.st.llens == c.st.llens && d.st.dlens == c.st.dlens
    ensures 1 <= dist <= |c.st.out| && d.st.out == Copy(c.st.out, dist, len)
    ensures d.unread == Held(w, n - t.m - t.a - t.i - t.b, s, k)
  {
    hide *;
    var ll, dl := c.st.llens, c.st.dlens;
    var rest := Held(w, n - t.m - t.a - t.i - t.b, s, k);
    MatchBits(ll, dl, len, dist, t, rest);
    Cut(t.x, t.m, Pow2(t.m), v1, v, n, s, k);
    Cut(t.e, t.a, Pow2(t.a), v2, v1, n - t.m, s, k);
    Cut(t.y, t.i, Pow2(t.i), v3, v2, n - t.m - t.a, s, k);
    Cut(t.f, t.b, Pow2(t.b), w, v3, n - t.m - t.a - t.i, s, k);
    SymbolIs(c);
    d := MatchDecodes(32768, c, ll, dl, len, dist, rest);
    SymbolHas(d, ll, dl);
    ViaLeads(32768, c, d);
  }

  lemma MatchParts(ll: seq<nat>, dl: seq<nat>, len: nat, dist: nat, t: Fields)
    requires MatchFields(ll, dl, len, dist, t)
    ensures TokenCoded(ll, dl, Match(len, dist)) && 1 <= dist <= 32768
    ensures t.x < Pow2(t.m) && t.e < Pow2(t.a) && t.y < Pow2(t.i) && t.f < Pow2(t.b)
    ensures TokenBits(ll, dl, Match(len, dist))
      == (ToBits(t.x, t.m) + ToBits(t.e, t.a)) + (ToBits(t.y, t.i) + ToBits(t.f, t.b))
  {
    hide CodeBits, CodeVal, ToBits, LengthCode, LenBase, LenExtra, DistCode, DistBase, DistExtra, Pow2, HasCode;
    CodeIs(ll, 257 + LengthCode(len), t.x, t.m);
    CodeIs(dl, DistCode(dist), t.y, t.i);
  }

  lemma MatchRegroup(a: BitString, b: BitString, c: BitString, d: BitString, e: BitString)
    ensures (a + b) + (c + d) + e == a + (b + (c + (d + e)))
  {
    Regroup(a + b, c + d, e);
    Regroup(a, b, c + d + e);
    Regroup(c, d, e);
  }

  lemma MatchBits(ll: seq<nat>, dl: seq<nat>, len: nat, dist: nat, t: Fields, rest: BitString)
    requires MatchFields(ll, dl, len, dist, t)
    ensures TokenCoded(ll, dl, Match(len, dist)) && 1 <= dist <= 32768
    ensures t.x < Pow2(t.m) && t.e < Pow2(t.a) && t.y < Pow2(t.i) && t.f < Pow2(t.b)
    ensures TokenBits(ll, dl, Match(len, dist)) + rest
      == ToBits(t.x, t.m) + (ToBits(t.e, t.a) + (ToBits(t.y, t.i) + (ToBits(t.f, t.b) + rest)))
  {
    hide *;
    MatchParts(ll, dl, len, dist, t);
    MatchRegroup(ToBits(t.x, t.m), ToBits(t.e, t.a), ToBits(t.y, t.i), ToBits(t.f, t.b), rest);
  }

  /** The end of a block. */
  lemma EndRead(c: Config, x: nat, m: nat, p: nat, w: nat, v: nat, n: nat, s: seq<Byte>, k: nat) returns (d: Config)
    requires c.st.mode.Len? && Usable(c.st.llens, c.st.dlens)
    requires k <= |s| && HasCode(c.st.llens, 256, x, m) && Pow2(m) == p && m <= n && v == x + w * p
      && c.unread == Held(v, n, s, k)
    ensures Leads(c, d) && d == Config(c.st.(mode := Type), Held(w, n - m, s, k))
  {
    hide *;
    var ll, dl := c.st.llens, c.st.dlens;
    CodeIs(ll, 256, x, m);
    Cut(x, m, p, w, v, n, s, k);
    SymbolIs(c);
    d := EndDecodes(32768, c, ll, dl, Held(w, n - m, s, k));
    ViaLeads(32768, c, d);
  }

  /** The end of the stream: less than a byte is left. */
  lemma LastRead(c: Config, v: nat, n: nat, s: seq<Byte>) returns (d: Config)
    requires c.st.mode.Type? && c.st.last && n < 8 && c.unread == Held(v, n, s, |s|)
    ensures Leads(c, d) && d == Config(c.st.(mode := Done), [])
  {
    hide Leads, ToBits, BytesToBits, Step;
    StepBegins(c);
    BytesLength(s, |s|, v, n);
    assert |c.unread| == n && Aligned(c.unread) == [];
    LeadsStep(c);
    d := Config(c.st.(mode := Done), []);
  }

  // ---------- codes ----------

  /** The first i lengths hold n[b] codes of each length b. */
  ghost predicate Tallied(lens: seq<nat>, i: nat, n: seq<nat>)
  {
    i <= |lens| && |n| == 16 && forall b :: 1 <= b <= 15 ==> Count(lens[..i], b) == n[b]
  }

  lemma TallyNone(lens: seq<nat>)
    ensures Tallied(lens, 0, seq(16, _ => 0))
  {
    assert lens[..0] == [];
  }

  /** A run of equal lengths. */
  lemma {:induction false} TallyRun(lens: seq<nat>, i: nat, j: nat, l: nat, n: seq<nat>)
    requires i <= j <= |lens| && l <= 15 && (forall s :: i <= s < j ==> lens[s] == l) && Tallied(lens, i, n)
    ensures Tallied(lens, j, if l == 0 then n else n[l := n[l] + (j - i)])
    decreases j - i
  {
    hide Count;
    if i < j {
      TallyRun(lens, i, j - 1, l, n);
      var m := if l == 0 then n else n[l := n[l] + (j - 1 - i)];
      forall b | 1 <= b <= 15
        ensures Count(lens[..j], b) == m[b] + if l == b then 1 else 0
      {
        CountStep(lens, j - 1, b);
        assert lens[..j - 1 + 1] == lens[..j];
      }
    }
  }

  /** The first point behind the codes of fewer than b bits, for all lengths up to nine. */
  lemma FirstPoints(lens: seq<nat>, n: seq<nat>)
    requires Tallied(lens, |lens|, n)
    ensures FirstPos(lens, 1) == 0 && FirstPos(lens, 2) == n[1] * 16384
    ensures FirstPos(lens, 3) == n[1] * 16384 + n[2] * 8192
    ensures FirstPos(lens, 4) == n[1] * 16384 + n[2] * 8192 + n[3] * 4096
    ensures FirstPos(lens, 5) == n[1] * 16384 + n[2] * 8192 + n[3] * 4096 + n[4] * 2048
    ensures FirstPos(lens, 6) == FirstPos(lens, 5) + n[5] * 1024
    ensures FirstPos(lens, 7) == FirstPos(lens, 6) + n[6] * 512
    ensures FirstPos(lens, 8) == FirstPos(lens, 7) + n[7] * 256
    ensures FirstPos(lens, 9) == FirstPos(lens, 8) + n[8] * 128
    ensures FirstPos(lens, 10) == FirstPos(lens, 9) + n[9] * 64
  {
    hide Count, Pow2;
    Powers();
    assert lens[..|lens|] == lens;
    assert FirstPos(lens, 1) == 0;
    assert FirstPos(lens, 2) == FirstPos(lens, 1) + Count(lens, 1) * Width(1);
    assert FirstPos(lens, 3) == FirstPos(lens, 2) + Count(lens, 2) * Width(2);
    assert FirstPos(lens, 4) == FirstPos(lens, 3) + Count(lens, 3) * Width(3);
    assert FirstPos(lens, 5) == FirstPos(lens, 4) + Count(lens, 4) * Width(4);
    assert FirstPos(lens, 6) == FirstPos(lens, 5) + Count(lens, 5) * Width(5);
    assert FirstPos(lens, 7) == FirstPos(lens, 6) + Count(lens, 6) * Width(6);
    assert FirstPos(lens, 8) == FirstPos(lens, 7) + Count(lens, 7) * Width(7);
    assert FirstPos(lens, 9) == FirstPos(lens, 8) + Count(lens, 8) * Width(8);
    assert FirstPos(lens, 10) == FirstPos(lens, 9) + Count(lens, 9) * Width(9);
  }

  /** No codes of ten bits or more. */
  lemma AllPoints(lens: seq<nat>, n: seq<nat>)
    requires Tallied(lens, |lens|, n) && forall b :: 10 <= b <= 15 ==> n[b] == 0
    ensures Kraft(lens) == FirstPos(lens, 10)
  {
    hide Count, Pow2;
    assert lens[..|lens|] == lens;
    assert FirstPos(lens, 11) == FirstPos(lens, 10) + Count(lens, 10) * Width(10);
    assert FirstPos(lens, 12) == FirstPos(lens, 11) + Count(lens, 11) * Width(11);
    assert FirstPos(lens, 13) == FirstPos(lens, 12) + Count(lens, 12) * Width(12);
    assert FirstPos(lens, 14) == FirstPos(lens, 13) + Count(lens, 13) * Width(13);
    assert FirstPos(lens, 15) == FirstPos(lens, 14) + Count(lens, 14) * Width(14);
    assert FirstPos(lens, 16) == FirstPos(lens, 15) + Count(lens, 15) * Width(15);
  }

  /** The code of the symbol that comes behind r others of its length l: as a number c, and as it is stored, x. */
  lemma CodeAt(lens: seq<nat>, s: nat, l: nat, r: nat, w: nat, c: nat, x: nat)
    requires s < |lens| && lens[s] == l && 1 <= l <= 15 && Count(lens[..s], l) == r && Pow2(15 - l) == w
    requires FirstPos(lens, l) + r * w == w * c && Rev(l, c) == x && Kraft(lens) <= Pow2(15)
    ensures HasCode(lens, s, x, l)
  {
    hide Count, FirstPos, Rev, Kraft, Pow2;
    RevAligned(l, c);
  }

  lemma RankIs(lens: seq<nat>, s: nat, l: nat, n: seq<nat>)
    requires Tallied(lens, s, n) && 1 <= l <= 15
    ensures Count(lens[..s], l) == n[l]
  {
    hide Count;
  }

  // ---------- a stored block ----------

  /** Section 3.2.4: the last block, stored, with five bytes. */
  const STORED: seq<Byte> :=
    [0x01, 0x05, 0x00, 0xFA, 0xFF, 0x68, 0x65, 0x6C, 0x6C, 0x6F]

  /** The bytes of "hello". */
  const HELLO: seq<Byte> :=
    [0x68, 0x65, 0x6C, 0x6C, 0x6F]

  lemma StoredBytes0()
    ensures |STORED| == 10
    ensures STORED[0] == 0x01 && STORED[1] == 0x05 && STORED[2] == 0x00 && STORED[3] == 0xFA && STORED[4] == 0xFF
    ensures STORED[5] == 0x68 && STORED[6] == 0x65 && STORED[7] == 0x6C && STORED[8] == 0x6C && STORED[9] == 0x6F
  {
  }

  lemma HelloIs()
    ensures STORED[5..] == HELLO && |HELLO| == 5
  {
  }

  lemma StoredSizesHeld() returns (tail: BitString)
    ensures Held(0, 0, STORED, 1) == ToBits(5, 16) + ToBits(65535 - 5, 16) + tail && tail == BytesToBits(HELLO)
  {
    hide *;
    Powers();
    StoredBytes0();
    HelloIs();
    More(0, 0, 1, STORED, 1, 0x05);
    More(5, 8, 256, STORED, 2, 0x00);
    Behind(5, 16, STORED, 3);
    More(0, 0, 1, STORED, 3, 0xFA);
    More(0xFA, 8, 256, STORED, 4, 0xFF);
    tail := BytesToBits(HELLO);
    HeldIs(0xFFFA, 16, STORED, 5);
    Regroup(ToBits(5, 16), ToBits(0xFFFA, 16), tail);
  }

  lemma HeldIs(v: nat, n: nat, s: seq<Byte>, k: nat)
    requires k <= |s|
    ensures Held(v, n, s, k) == ToBits(v, n) + BytesToBits(s[k..])
  {
    hide ToBits, BytesToBits;
  }

  lemma Behind(v: nat, n: nat, s: seq<Byte>, k: nat)
    requires k <= |s|
    ensures Held(v, n, s, k) == ToBits(v, n) + Held(0, 0, s, k)
  {
    hide ToBits, BytesToBits;
    NoBits(0);
    var u := BytesToBits(s[k..]);
    assert [] + u == u;
  }

  /** The stored block is read as its bytes. */
  lemma StoredAnswer()
    ensures DecodesTo(STORED, HELLO)
  {
    hide *;
    Powers();
    StoredBytes0();
    WholeStream(STORED);
    More(0, 0, 1, STORED, 0, 0x01);
    Cut(1, 3, 8, 0, 1, 8, STORED, 1);
    Behind(0, 5, STORED, 1);
    TypeIs(0, true);
    BytesLength(STORED, 1, 0, 0);
    var s := Config(InitState, BytesToBits(STORED));
    var pad, body := ToBits(0, 5), Held(0, 0, STORED, 1);
    BytesLength(STORED, 1, 0, 5);
    PadLength(0, 5);
    AtStart(BytesToBits(STORED));
    StoredStarts(s, true, pad, body);
    LeadsStep(s);
    var e := Config(s.st.(mode := Stored, last := true), body);
    var tail := StoredSizesHeld();
    StoredSizes(e, 5, tail);
    LeadsStep(e);
    var f := Config(e.st.(mode := Copying, length := 5), tail);
    HelloIs();
    NothingBehind(tail);
    var g := CopyingDecodes(32768, f, HELLO, []);
    ViaLeads(32768, f, g);
    HeldNone(STORED);
    var d := LastRead(g, 0, 0, STORED);
    LeadsTrans(s, e, f);
    LeadsTrans(s, f, g);
    LeadsTrans(s, g, d);
    StartOut();
    assert [] + HELLO == HELLO;
    DecodesToSet(STORED, d);
  }

  lemma PadLength(v: nat, n: nat)
    ensures |ToBits(v, n)| == n
  {
    hide ToBits;
  }

  lemma AtStart(u: BitString)
    ensures AtBlock(Config(InitState, u), u) && InitState.mode.Type?
  {
  }

  lemma StartOut()
    ensures InitState.out == [] && InitState.got == [] && !InitState.last
  {
  }

  lemma NothingBehind(u: BitString)
    ensures u + [] == u
  {
  }

  lemma HeldNone(s: seq<Byte>)
    ensures Held(0, 0, s, |s|) == []
  {
    assert s[|s|..] == [];
    NoBits(0);
  }

  lemma ValidOf(l: seq<nat>)
    requires forall i :: 0 <= i < |l| ==> l[i] <= 15
    ensures ValidLens(l) && (Kraft(l) == Pow2(15) ==> Complete(l))
  {
    hide Kraft, Pow2;
  }

  // ---------- a block with the fixed codes ----------

  /** Section 3.2.6: the last block, with the fixed codes, four of whose lengths it uses. */
  const FIXED: seq<Byte> :=
    [0x4B, 0x79, 0x99, 0x96, 0xF3, 0x1F, 0x99, 0x00, 0x92, 0x00]

  /** Five literals, then 12 bytes from 5 back and 3 from 6 back. */
  const FIXEDTEXT: seq<Byte> :=
    [0x64, 0xE9, 0x66, 0x6C, 0xFF, 0x64, 0xE9, 0x66, 0x6C, 0xFF, 0x64, 0xE9, 0x66,
    0x6C, 0xFF, 0x64, 0xE9, 0xE9, 0x66, 0x6C]

  lemma FixedBytes0()
    ensures |FIXED| == 10
    ensures FIXED[0] == 0x4B && FIXED[1] == 0x79 && FIXED[2] == 0x99 && FIXED[3] == 0x96 && FIXED[4] == 0xF3
    ensures FIXED[5] == 0x1F && FIXED[6] == 0x99 && FIXED[7] == 0x00 && FIXED[8] == 0x92 && FIXED[9] == 0x00
  {
  }

  /** The fixed lengths of section 3.2.6 of RFC 1951. */
  lemma FixedLens()
    ensures |FixedLitLens()| == 288 && |FixedDistLens()| == 32
    ensures forall i :: 0 <= i < 144 ==> FixedLitLens()[i] == 8
    ensures forall i :: 144 <= i < 256 ==> FixedLitLens()[i] == 9
    ensures forall i :: 256 <= i < 280 ==> FixedLitLens()[i] == 7
    ensures forall i :: 280 <= i < 288 ==> FixedLitLens()[i] == 8
    ensures forall i :: 0 <= i < 32 ==> FixedDistLens()[i] == 5
  {
  }

  lemma FixedLitCodesTally0()
    ensures |FixedLitLens()| == 288
      && Tallied(FixedLitLens(), 288, [0, 0, 0, 0, 0, 0, 0, 24, 152, 112, 0, 0, 0, 0, 0, 0])
    ensures Count(FixedLitLens()[..100], 8) == 100
    ensures Count(FixedLitLens()[..102], 8) == 102
    ensures Count(FixedLitLens()[..108], 8) == 108
    ensures Count(FixedLitLens()[..233], 9) == 89
    ensures Count(FixedLitLens()[..255], 9) == 111
    ensures Count(FixedLitLens()[..256], 7) == 0
    ensures Count(FixedLitLens()[..257], 7) == 1
    ensures Count(FixedLitLens()[..265], 7) == 9
  {
    hide *;
    FixedLens();
    var l := FixedLitLens();
    TallyNone(l);
    var n0 := seq(16, _ => 0);
    TallyRun(l, 0, 100, 8, n0);
    RankIs(l, 100, 8, n0[8 := n0[8] + 100]);
    TallyRun(l, 0, 102, 8, n0);
    RankIs(l, 102, 8, n0[8 := n0[8] + 102]);
    TallyRun(l, 0, 108, 8, n0);
    RankIs(l, 108, 8, n0[8 := n0[8] + 108]);
    TallyRun(l, 0, 144, 8, n0);
    var n1 := n0[8 := n0[8] + 144];
    TallyRun(l, 144, 233, 9, n1);
    RankIs(l, 233, 9, n1[9 := n1[9] + 89]);
    TallyRun(l, 144, 255, 9, n1);
    RankIs(l, 255, 9, n1[9 := n1[9] + 111]);
    TallyRun(l, 144, 256, 9, n1);
    var n2 := n1[9 := n1[9] + 112];
    RankIs(l, 256, 7, n2);
    TallyRun(l, 256, 257, 7, n2);
    RankIs(l, 257, 7, n2[7 := n2[7] + 1]);
    TallyRun(l, 256, 265, 7, n2);
    RankIs(l, 265, 7, n2[7 := n2[7] + 9]);
    TallyRun(l, 256, 280, 7, n2);
    var n3 := n2[7 := n2[7] + 24];
    TallyRun(l, 280, 288, 8, n3);
    var n4 := n3[8 := n3[8] + 8];
    assert n4 == [0, 0, 0, 0, 0, 0, 0, 24, 152, 112, 0, 0, 0, 0, 0, 0];
  }

  /** Codes of the fixed literal code. */
  lemma FixedLitCodes()
    ensures |FixedLitLens()| == 288 && Complete(FixedLitLens()) && Kraft(FixedLitLens()) <= Pow2(15)
    ensures HasCode(FixedLitLens(), 100, 41, 8)
    ensures HasCode(FixedLitLens(), 102, 105, 8)
    ensures HasCode(FixedLitLens(), 108, 57, 8)
    ensures HasCode(FixedLitLens(), 233, 303, 9)
    ensures HasCode(FixedLitLens(), 255, 511, 9)
    ensures HasCode(FixedLitLens(), 256, 0, 7)
    ensures HasCode(FixedLitLens(), 257, 64, 7)
    ensures HasCode(FixedLitLens(), 265, 72, 7)
  {
    hide *;
    Powers();
    FixedLens();
    FixedLitCodesTally0();
    var l := FixedLitLens();
    FirstPoints(l, [0, 0, 0, 0, 0, 0, 0, 24, 152, 112, 0, 0, 0, 0, 0, 0]);
    AllPoints(l, [0, 0, 0, 0, 0, 0, 0, 24, 152, 112, 0, 0, 0, 0, 0, 0]);
    ValidOf(l);
    Rev8x148();
    CodeAt(l, 100, 8, 100, 128, 148, 41);
    Rev8x150();
    CodeAt(l, 102, 8, 102, 128, 150, 105);
    Rev8x156();
    CodeAt(l, 108, 8, 108, 128, 156, 57);
    Rev9x489();
    CodeAt(l, 233, 9, 89, 64, 489, 303);
    Rev9x511();
    CodeAt(l, 255, 9, 111, 64, 511, 511);
    Rev7x0();
    CodeAt(l, 256, 7, 0, 256, 0, 0);
    Rev7x1();
    CodeAt(l, 257, 7, 1, 256, 1, 64);
    Rev7x9();
    CodeAt(l, 265, 7, 9, 256, 9, 72);
  }

  lemma FixedDistCodesTally0()
    ensures |FixedDistLens()| == 32 && Tallied(FixedDistLens(), 32, [0, 0, 0, 0, 0, 32, 0, 0, 0, 0, 0, 0, 0, 0, 0, 0])
    ensures Count(FixedDistLens()[..4], 5) == 4
  {
    hide *;
    FixedLens();
    var l := FixedDistLens();
    TallyNone(l);
    var n0 := seq(16, _ => 0);
    TallyRun(l, 0, 4, 5, n0);
    RankIs(l, 4, 5, n0[5 := n0[5] + 4]);
    TallyRun(l, 0, 32, 5, n0);
    var n1 := n0[5 := n0[5] + 32];
    assert n1 == [0, 0, 0, 0, 0, 32, 0, 0, 0, 0, 0, 0, 0, 0, 0, 0];
  }

  /** Codes of the fixed distance code. */
  lemma FixedDistCodes()
    ensures |FixedDistLens()| == 32 && Complete(FixedDistLens()) && Kraft(FixedDistLens()) <= Pow2(15)
    ensures HasCode(FixedDistLens(), 4, 4, 5)
  {
    hide *;
    Powers();
    FixedLens();
    FixedDistCodesTally0();
    var l := FixedDistLens();
    FirstPoints(l, [0, 0, 0, 0, 0, 32, 0, 0, 0, 0, 0, 0, 0, 0, 0, 0]);
    AllPoints(l, [0, 0, 0, 0, 0, 32, 0, 0, 0, 0, 0, 0, 0, 0, 0, 0]);
    ValidOf(l);
    Rev5x4();
    CodeAt(l, 4, 5, 4, 1024, 4, 4);
  }

  lemma UsableIs(ll: seq<nat>, dl: seq<nat>)
    requires Complete(ll) && Complete(dl)
    ensures Usable(ll, dl)
  {
    hide Kraft, Pow2, ValidLens;
  }

  lemma FixedUsable()
    ensures Usable(FixedLitLens(), FixedDistLens())
  {
    hide *;
    FixedLitCodes();
    FixedDistCodes();
    UsableIs(FixedLitLens(), FixedDistLens());
  }

  lemma FixedBegins(c: Config) returns (d: Config)
    requires c == Config(InitState, BytesToBits(FIXED))
    ensures Leads(c, d) && d.st.mode.Len? && d.st.last && d.st.llens == FixedLitLens() && d.st.dlens == FixedDistLens()
    ensures d.st.out == [0x64, 0xE9, 0x66, 0x6C, 0xFF]
    ensures d.unread == Held(0, 3, FIXED, 6)
  {
    hide *;
    Powers();
    FixedBytes0();
    StartOut();
    FixedLitCodes();
    FixedDistCodes();
    FixedUsable();
    More(0, 0, 1, FIXED, 0, 0x4B);
    WholeStream(FIXED);
    AtStart(BytesToBits(FIXED));
    var c1 := TypeRead(c, 1, true, 9, 8, FIXED, 1);
    More(9, 5, 32, FIXED, 1, 0x79);
    var c2 := LiteralRead(c1, 0x64, 41, 8, 256, 15, 3881, 13, FIXED, 2);
    LeadsTrans(c, c1, c2);
    More(15, 5, 32, FIXED, 2, 0x99);
    var c3 := LiteralRead(c2, 0xE9, 303, 9, 512, 9, 4911, 13, FIXED, 3);
    LeadsTrans(c, c2, c3);
    More(9, 4, 16, FIXED, 3, 0x96);
    var c4 := LiteralRead(c3, 0x66, 105, 8, 256, 9, 2409, 12, FIXED, 4);
    LeadsTrans(c, c3, c4);
    More(9, 4, 16, FIXED, 4, 0xF3);
    var c5 := LiteralRead(c4, 0x6C, 57, 8, 256, 15, 3897, 12, FIXED, 5);
    LeadsTrans(c, c4, c5);
    More(15, 4, 16, FIXED, 5, 0x1F);
    var c6 := LiteralRead(c5, 0xFF, 511, 9, 512, 0, 511, 12, FIXED, 6);
    LeadsTrans(c, c5, c6);
    assert c6.st.out == [0x64, 0xE9, 0x66, 0x6C, 0xFF];
    d := c6;
  }

  lemma Rev1x0()
    ensures Rev(1, 0) == 0
  {
    hide Pow2;
    Powers();
    assert Rev(1, 0) == 0;
  }

  lemma Rev1x1()
    ensures Rev(1, 1) == 1
  {
    hide Pow2;
    Powers();
    assert Rev(1, 1) == 1;
  }

  lemma Rev2x0()
    ensures Rev(2, 0) == 0
  {
    hide Pow2;
    Powers();
    assert Rev(1, 0) == 0;
    assert Rev(2, 0) == 0;
  }

  lemma Rev2x2()
    ensures Rev(2, 2) == 1
  {
    hide Pow2;
    Powers();
    assert Rev(1, 1) == 1;
    assert Rev(2, 2) == 1;
  }

  lemma Rev2x3()
    ensures Rev(2, 3) == 3
  {
    hide Pow2;
    Powers();
    assert Rev(1, 1) == 1;
    assert Rev(2, 3) == 3;
  }

  lemma Rev3x4()
    ensures Rev(3, 4) == 1
  {
    hide Pow2;
    Powers();
    assert Rev(1, 1) == 1;
    assert Rev(2, 2) == 1;
    assert Rev(3, 4) == 1;
  }

  lemma Rev3x5()
    ensures Rev(3, 5) == 5
  {
    hide Pow2;
    Powers();
    assert Rev(1, 1) == 1;
    assert Rev(2, 2) == 1;
    assert Rev(3, 5) == 5;
  }

  lemma Rev3x6()
    ensures Rev(3, 6) == 3
  {
    hide Pow2;
    Powers();
    assert Rev(1, 1) == 1;
    assert Rev(2, 3) == 3;
    assert Rev(3, 6) == 3;
  }

  lemma Rev3x7()
    ensures Rev(3, 7) == 7
  {
    hide Pow2;
    Powers();
    assert Rev(1, 1) == 1;
    assert Rev(2, 3) == 3;
    assert Rev(3, 7) == 7;
  }

  lemma Rev4x13()
    ensures Rev(4, 13) == 11
  {
    hide Pow2;
    Powers();
    assert Rev(1, 1) == 1;
    assert Rev(2, 3) == 3;
    assert Rev(3, 6) == 3;
    assert Rev(4, 13) == 11;
  }

  lemma Rev5x4()
    ensures Rev(5, 4) == 4
  {
    hide Pow2;
    Powers();
    assert Rev(1, 0) == 0;
    assert Rev(2, 0) == 0;
    assert Rev(3, 1) == 4;
    assert Rev(4, 2) == 4;
    assert Rev(5, 4) == 4;
  }

  lemma Rev5x28()
    ensures Rev(5, 28) == 7
  {
    hide Pow2;
    Powers();
    assert Rev(1, 1) == 1;
    assert Rev(2, 3) == 3;
    assert Rev(3, 7) == 7;
    assert Rev(4, 14) == 7;
    assert Rev(5, 28) == 7;
  }

  lemma Rev5x29()
    ensures Rev(5, 29) == 23
  {
    hide Pow2;
    Powers();
    assert Rev(1, 1) == 1;
    assert Rev(2, 3) == 3;
    assert Rev(3, 7) == 7;
    assert Rev(4, 14) == 7;
    assert Rev(5, 29) == 23;
  }

  lemma Rev7x0()
    ensures Rev(7, 0) == 0
  {
    hide Pow2;
    Powers();
    assert Rev(1, 0) == 0;
    assert Rev(2, 0) == 0;
    assert Rev(3, 0) == 0;
    assert Rev(4, 0) == 0;
    assert Rev(5, 0) == 0;
    assert Rev(6, 0) == 0;
    assert Rev(7, 0) == 0;
  }

  lemma Rev7x1()
    ensures Rev(7, 1) == 64
  {
    hide Pow2;
    Powers();
    assert Rev(1, 0) == 0;
    assert Rev(2, 0) == 0;
    assert Rev(3, 0) == 0;
    assert Rev(4, 0) == 0;
    assert Rev(5, 0) == 0;
    assert Rev(6, 0) == 0;
    assert Rev(7, 1) == 64;
  }

  lemma Rev7x9()
    ensures Rev(7, 9) == 72
  {
    hide Pow2;
    Powers();
    assert Rev(1, 0) == 0;
    assert Rev(2, 0) == 0;
    assert Rev(3, 0) == 0;
    assert Rev(4, 1) == 8;
    assert Rev(5, 2) == 8;
    assert Rev(6, 4) == 8;
    assert Rev(7, 9) == 72;
  }

  lemma Rev7x124()
    ensures Rev(7, 124) == 31
  {
    hide Pow2;
    Powers();
    assert Rev(1, 1) == 1;
    assert Rev(2, 3) == 3;
    assert Rev(3, 7) == 7;
    assert Rev(4, 15) == 15;
    assert Rev(5, 31) == 31;
    assert Rev(6, 62) == 31;
    assert Rev(7, 124) == 31;
  }

  lemma Rev7x125()
    ensures Rev(7, 125) == 95
  {
    hide Pow2;
    Powers();
    assert Rev(1, 1) == 1;
    assert Rev(2, 3) == 3;
    assert Rev(3, 7) == 7;
    assert Rev(4, 15) == 15;
    assert Rev(5, 31) == 31;
    assert Rev(6, 62) == 31;
    assert Rev(7, 125) == 95;
  }

  lemma Rev7x127()
    ensures Rev(7, 127) == 127
  {
    hide Pow2;
    Powers();
    assert Rev(1, 1) == 1;
    assert Rev(2, 3) == 3;
    assert Rev(3, 7) == 7;
    assert Rev(4, 15) == 15;
    assert Rev(5, 31) == 31;
    assert Rev(6, 63) == 63;
    assert Rev(7, 127) == 127;
  }

  lemma Rev8x148()
    ensures Rev(8, 148) == 41
  {
    hide Pow2;
    Powers();
    assert Rev(1, 1) == 1;
    assert Rev(2, 2) == 1;
    assert Rev(3, 4) == 1;
    assert Rev(4, 9) == 9;
    assert Rev(5, 18) == 9;
    assert Rev(6, 37) == 41;
    assert Rev(7, 74) == 41;
    assert Rev(8, 148) == 41;
  }

  lemma Rev8x150()
    ensures Rev(8, 150) == 105
  {
    hide Pow2;
    Powers();
    assert Rev(1, 1) == 1;
    assert Rev(2, 2) == 1;
    assert Rev(3, 4) == 1;
    assert Rev(4, 9) == 9;
    assert Rev(5, 18) == 9;
    assert Rev(6, 37) == 41;
    assert Rev(7, 75) == 105;
    assert Rev(8, 150) == 105;
  }

  lemma Rev8x156()
    ensures Rev(8, 156) == 57
  {
    hide Pow2;
    Powers();
    assert Rev(1, 1) == 1;
    assert Rev(2, 2) == 1;
    assert Rev(3, 4) == 1;
    assert Rev(4, 9) == 9;
    assert Rev(5, 19) == 25;
    assert Rev(6, 39) == 57;
    assert Rev(7, 78) == 57;
    assert Rev(8, 156) == 57;
  }

  lemma Rev9x489()
    ensures Rev(9, 489) == 303
  {
    hide Pow2;
    Powers();
    assert Rev(1, 1) == 1;
    assert Rev(2, 3) == 3;
    assert Rev(3, 7) == 7;
    assert Rev(4, 15) == 15;
    assert Rev(5, 30) == 15;
    assert Rev(6, 61) == 47;
    assert Rev(7, 122) == 47;
    assert Rev(8, 244) == 47;
    assert Rev(9, 489) == 303;
  }

  lemma Rev9x511()
    ensures Rev(9, 511) == 511
  {
    hide Pow2;
    Powers();
    assert Rev(1, 1) == 1;
    assert Rev(2, 3) == 3;
    assert Rev(3, 7) == 7;
    assert Rev(4, 15) == 15;
    assert Rev(5, 31) == 31;
    assert Rev(6, 63) == 63;
    assert Rev(7, 127) == 127;
    assert Rev(8, 255) == 255;
    assert Rev(9, 511) == 511;
  }

  lemma FieldsAre(ll: seq<nat>, dl: seq<nat>, len: nat, dist: nat, t: Fields)
    requires 3 <= len <= 258 && 1 <= dist <= 32768
    requires t.a == LenExtra(LengthCode(len)) && len == LenBase(LengthCode(len)) + t.e && t.e < Pow2(t.a)
    requires t.b == DistExtra(DistCode(dist)) && dist == DistBase(DistCode(dist)) + t.f && t.f < Pow2(t.b)
    requires HasCode(ll, 257 + LengthCode(len), t.x, t.m) && HasCode(dl, DistCode(dist), t.y, t.i)
    ensures MatchFields(ll, dl, len, dist, t)
  {
    hide HasCode, LengthCode, DistCode, LenBase, LenExtra, DistBase, DistExtra, Pow2;
  }

  lemma {:induction false} LenAbove(k: nat, j: nat)
    requires k < j < 28
    ensures LenBase(j) >= LenBase(k) + Pow2(LenExtra(k))
    decreases j - k
  {
    hide LenBase, LenExtra, Pow2;
    LenTiles(j - 1);
    if k < j - 1 {
      LenAbove(k, j - 1);
    }
  }

  lemma {:induction false} LenFound(len: nat, k: nat, j: nat)
    requires k <= j < 28 && LenBase(k) <= len < LenBase(k) + Pow2(LenExtra(k))
    ensures LenSearch(len, j) == k
    decreases j
  {
    hide LenBase, LenExtra, Pow2;
    if k < j {
      LenAbove(k, j);
      LenFound(len, k, j - 1);
    }
  }

  lemma {:induction false} DistAbove(k: nat, j: nat)
    requires k < j < 30
    ensures DistBase(j) >= DistBase(k) + Pow2(DistExtra(k))
    decreases j - k
  {
    hide DistBase, DistExtra, Pow2;
    DistTiles(j - 1);
    if k < j - 1 {
      DistAbove(k, j - 1);
    }
  }

  lemma {:induction false} DistFound(dist: nat, k: nat, j: nat)
    requires k <= j < 30 && DistBase(k) <= dist < DistBase(k) + Pow2(DistExtra(k))
    ensures DistSearch(dist, j) == k
    decreases j
  {
    hide DistBase, DistExtra, Pow2;
    if k < j {
      DistAbove(k, j);
      DistFound(dist, k, j - 1);
    }
  }

  lemma Length3()
    ensures LengthCode(3) == 0 && LenBase(0) == 3 && LenExtra(0) == 0
  {
    hide Pow2, LenSearch;
    Powers();
    LenFound(3, 0, 27);
  }

  lemma Length12()
    ensures LengthCode(12) == 8 && LenBase(8) == 11 && LenExtra(8) == 1
  {
    hide Pow2, LenSearch;
    Powers();
    LenFound(12, 8, 27);
  }

  lemma Distance4()
    ensures DistCode(4) == 3 && DistBase(3) == 4 && DistExtra(3) == 0
  {
    hide Pow2, DistSearch;
    Powers();
    DistFound(4, 3, 29);
  }

  lemma Distance5()
    ensures DistCode(5) == 4 && DistBase(4) == 5 && DistExtra(4) == 1
  {
    hide Pow2, DistSearch;
    Powers();
    DistFound(5, 4, 29);
  }

  lemma Distance6()
    ensures DistCode(6) == 4 && DistBase(4) == 5 && DistExtra(4) == 1
  {
    hide Pow2, DistSearch;
    Powers();
    DistFound(6, 4, 29);
  }

  lemma {:induction false} CopyLength(s: seq<Byte>, dist: nat, len: nat)
    requires 1 <= dist <= |s|
    ensures |Copy(s, dist, len)| == |s| + len
  {
  }

  lemma CopyOne(s: seq<Byte>, dist: nat, len: nat)
    requires 1 <= dist <= |s| && len > 0
    ensures Copy(s, dist, len) == Copy(s + [s[|s| - dist]], dist, len - 1)
  {
  }

  lemma CopyThree(s: seq<Byte>, dist: nat)
    requires 3 <= dist <= |s|
    ensures Copy(s, dist, 3) == s + [s[|s| - dist], s[|s| - dist + 1], s[|s| - dist + 2]]
  {
    hide Copy;
    var a := s + [s[|s| - dist]];
    var b := a + [a[|a| - dist]];
    var c := b + [b[|b| - dist]];
    CopyOne(s, dist, 3);
    CopyOne(a, dist, 2);
    CopyOne(b, dist, 1);
    CopyNone(c, dist);
  }

  lemma CopyNone(s: seq<Byte>, dist: nat)
    requires 1 <= dist <= |s|
    ensures Copy(s, dist, 0) == s
  {
  }

  lemma MatchFixed12x5()
    ensures MatchFields(FixedLitLens(), FixedDistLens(), 12, 5, Fields(72, 7, 1, 1, 4, 5, 0, 1))
  {
    hide *;
    Powers();
    FixedLitCodes();
    FixedDistCodes();
    Length12();
    Distance5();
    FieldsAre(FixedLitLens(), FixedDistLens(), 12, 5, Fields(72, 7, 1, 1, 4, 5, 0, 1));
  }

  lemma MatchFixed3x6()
    ensures MatchFields(FixedLitLens(), FixedDistLens(), 3, 6, Fields(64, 7, 0, 0, 4, 5, 1, 1))
  {
    hide *;
    Powers();
    FixedLitCodes();
    FixedDistCodes();
    Length3();
    Distance6();
    FieldsAre(FixedLitLens(), FixedDistLens(), 3, 6, Fields(64, 7, 0, 0, 4, 5, 1, 1));
  }

  lemma FixedCopies()
    ensures Copy(Copy([0x64, 0xE9, 0x66, 0x6C, 0xFF], 5, 12), 6, 3) == FIXEDTEXT
  {
    var s := [0x64, 0xE9, 0x66, 0x6C, 0xFF];
    var t := [0x64, 0xE9, 0x66, 0x6C, 0xFF, 0x64, 0xE9, 0x66, 0x6C, 0xFF, 0x64, 0xE9, 0x66, 0x6C, 0xFF, 0x64, 0xE9];
    assert Copy(s, 5, 12) == t by { CopyTwelve(s, t); }
    assert Copy(t, 6, 3) == FIXEDTEXT by { CopyThree(t, 6); }
  }

  lemma CopyTwelve(s: seq<Byte>, t: seq<Byte>)
    requires |s| == 5 && t == s + s + s + s[..2]
    ensures Copy(s, 5, 12) == t
  {
    hide Copy;
    CopyParts(s, 5, 3, 9);
    CopyThree(s, 5);
    var a := Copy(s, 5, 3);
    CopyParts(a, 5, 3, 6);
    CopyThree(a, 5);
    var b := Copy(a, 5, 3);
    CopyParts(b, 5, 3, 3);
    CopyThree(b, 5);
    var c := Copy(b, 5, 3);
    CopyThree(c, 5);
  }

  lemma {:induction false} CopyParts(s: seq<Byte>, dist: nat, m: nat, n: nat)
    requires 1 <= dist <= |s|
    ensures |Copy(s, dist, m)| == |s| + m && Copy(s, dist, m + n) == Copy(Copy(s, dist, m), dist, n)
    decreases m
  {
    CopyLength(s, dist, m);
    if m > 0 {
      CopyParts(s + [s[|s| - dist]], dist, m - 1, n);
    }
  }

  lemma FixedEnds(c: Config) returns (d: Config)
    requires c.st.mode.Len? && c.st.last && c.st.llens == FixedLitLens() && c.st.dlens == FixedDistLens()
    requires c.st.out == [0x64, 0xE9, 0x66, 0x6C, 0xFF]
    requires c.unread == Held(0, 3, FIXED, 6)
    ensures Leads(c, d) && d.st.mode.Done? && d.st.out == FIXEDTEXT && d.unread == []
  {
    hide *;
    Powers();
    FixedBytes0();
    FixedLitCodes();
    FixedDistCodes();
    FixedUsable();
    FixedCopies();
    CopyLength(c.st.out, 5, 12);
    More(0, 3, 8, FIXED, 6, 0x99);
    More(1224, 11, 2048, FIXED, 7, 0x00);
    MatchFixed12x5();
    var c1 := MatchRead(c, 12, 5, Fields(72, 7, 1, 1, 4, 5, 0, 1),
                       1224, 9, 4, 0, 0, 19, FIXED, 8);
    More(0, 5, 32, FIXED, 8, 0x92);
    MatchFixed3x6();
    var c2 := MatchRead(c1, 3, 6, Fields(64, 7, 0, 0, 4, 5, 1, 1),
                       4672, 36, 36, 1, 0, 13, FIXED, 9);
    LeadsTrans(c, c1, c2);
    More(0, 0, 1, FIXED, 9, 0x00);
    var c3 := EndRead(c2, 0, 7, 128, 0, 0, 8, FIXED, 10);
    LeadsTrans(c, c2, c3);
    var c4 := LastRead(c3, 0, 1, FIXED);
    LeadsTrans(c, c3, c4);
    d := c4;
  }

  /** The fixed block is read as its text. */
  lemma FixedAnswer()
    ensures DecodesTo(FIXED, FIXEDTEXT)
  {
    hide *;
    var s := Config(InitState, BytesToBits(FIXED));
    var e := FixedBegins(s);
    var d := FixedEnds(e);
    LeadsTrans(s, e, d);
    DecodesToSet(FIXED, d);
  }

  // ---------- two blocks with codes of their own ----------

  /** The order in which the lengths of the code length code are sent. */
  const SENT_ORDER: seq<nat> := [16, 17, 18, 0, 8, 7, 9, 6, 10, 5, 11, 4, 12, 3, 13, 2, 14, 1, 15]

  /** However many are sent, each length goes to the symbol whose turn it is, and the others are zero. */
  lemma OrderOfLengths(got: seq<nat>, i: nat)
    requires i < 19 == |SENT_ORDER|
    ensures Permuted(got)[SENT_ORDER[i]] == if i < |got| then got[i] else 0
  {
    assert BlRank(SENT_ORDER[i]) == i;
  }

  /** Section 3.2.7: two blocks, both with all nineteen lengths of the code length code; no two of its symbols have the
      same lengths in both. */
  const DYNAMIC: seq<Byte> :=
    [0x04, 0xE1, 0xBB, 0x03, 0xA8, 0x65, 0x70, 0xFF, 0x29, 0xFC, 0xAD, 0xDF, 0xCB, 0xFF,
    0xDF, 0x97, 0x40, 0xBA, 0x6B, 0x20, 0x0F, 0x9E, 0x7E, 0x07, 0xE0, 0x92, 0x8B, 0xEF, 0xDF, 0xFE, 0xFC, 0xF9, 0xE7,
    0x2C, 0x3E, 0x1F, 0xFB, 0x00]

  /** Four literals; one more, then 3 bytes from 4 back and 3 from 6 back. */
  const DYNAMICTEXT: seq<Byte> :=
    [0x61, 0x62, 0x63, 0x64, 0x78, 0x62, 0x63, 0x64, 0x63, 0x64, 0x78]

  lemma DynamicBytes0()
    ensures |DYNAMIC| == 38
    ensures DYNAMIC[0] == 0x04 && DYNAMIC[1] == 0xE1 && DYNAMIC[2] == 0xBB && DYNAMIC[3] == 0x03 && DYNAMIC[4] == 0xA8
    ensures DYNAMIC[5] == 0x65 && DYNAMIC[6] == 0x70 && DYNAMIC[7] == 0xFF && DYNAMIC[8] == 0x29 && DYNAMIC[9] == 0xFC
  {
  }

  lemma DynamicBytes1()
    ensures |DYNAMIC| == 38
    ensures DYNAMIC[10] == 0xAD && DYNAMIC[11] == 0xDF && DYNAMIC[12] == 0xCB && DYNAMIC[13] == 0xFF
      && DYNAMIC[14] == 0xDF
    ensures DYNAMIC[15] == 0x97 && DYNAMIC[16] == 0x40 && DYNAMIC[17] == 0xBA && DYNAMIC[18] == 0x6B
      && DYNAMIC[19] == 0x20
  {
  }

  lemma DynamicBytes2()
    ensures |DYNAMIC| == 38
    ensures DYNAMIC[20] == 0x0F && DYNAMIC[21] == 0x9E && DYNAMIC[22] == 0x7E && DYNAMIC[23] == 0x07
      && DYNAMIC[24] == 0xE0
    ensures DYNAMIC[25] == 0x92 && DYNAMIC[26] == 0x8B && DYNAMIC[27] == 0xEF && DYNAMIC[28] == 0xDF
      && DYNAMIC[29] == 0xFE
  {
  }

  lemma DynamicBytes3()
    ensures |DYNAMIC| == 38
    ensures DYNAMIC[30] == 0xFC && DYNAMIC[31] == 0xF9 && DYNAMIC[32] == 0xE7 && DYNAMIC[33] == 0x2C
      && DYNAMIC[34] == 0x3E
    ensures DYNAMIC[35] == 0x1F && DYNAMIC[36] == 0xFB && DYNAMIC[37] == 0x00
  {
  }

  function Zeros(n: nat): (l: seq<nat>)
  {
    seq(n, _ => 0)
  }

  lemma Applied(got: seq<nat>, sym: nat, extra: nat)
    requires sym < 19
    ensures sym < 16 ==> ApplyOp(got, Op(sym, extra)) == got + [sym]
    ensures sym == 16 && got != [] ==>
      ApplyOp(got, Op(sym, extra)) == got + seq(3 + extra, _ => got[|got| - 1])
    ensures sym == 17 ==> ApplyOp(got, Op(sym, extra)) == got + Zeros(3 + extra)
    ensures sym == 18 ==> ApplyOp(got, Op(sym, extra)) == got + Zeros(11 + extra)
    ensures OpExtra(sym) == if sym == 16 then 2 else if sym == 17 then 3 else if sym == 18 then 7 else 0
  {
  }

  lemma ZerosLength(n: nat)
    ensures |Zeros(n)| == n
  {
  }

  lemma BlockIs(c: Config)
    requires c.st.mode.Type? && !c.st.last
    ensures AtBlock(c, c.unread)
  {
  }

  lemma LastThree(g: seq<nat>)
    ensures g != [] && g[|g| - 1] == 3 ==> seq(3, _ => g[|g| - 1]) == [3, 3, 3]
  {
  }

  const CL_A: seq<nat> := [0, 2, 7, 7, 4, 6, 6, 0, 0, 5, 2, 0, 3, 7, 4, 0, 5, 3, 7]

  const DIST_A: seq<nat> := [1, 1]

  lemma ClAIs()
    ensures |CL_A| == 19
    ensures CL_A[0] == 0 && CL_A[1] == 2 && CL_A[2] == 7 && CL_A[3] == 7 && CL_A[4] == 4 && CL_A[5] == 6 && CL_A[6] == 6
    ensures CL_A[7] == 0 && CL_A[8] == 0 && CL_A[9] == 5 && CL_A[10] == 2 && CL_A[11] == 0 && CL_A[12] == 3
      && CL_A[13] == 7
    ensures CL_A[14] == 4 && CL_A[15] == 0 && CL_A[16] == 5 && CL_A[17] == 3 && CL_A[18] == 7
  {
  }

  lemma DistAIs()
    ensures |DIST_A| == 2
    ensures DIST_A[0] == 1 && DIST_A[1] == 1
  {
  }

  /** Literal lengths of the first block. */
  function LitLensA(): (l: seq<nat>)
  {
    Zeros(97) + [3, 3, 3, 3] + Zeros(155) + [1]
  }

  lemma LitLensAIs()
    ensures |LitLensA()| == 257
    ensures forall i :: 0 <= i < 97 ==> LitLensA()[i] == 0
    ensures forall i :: 97 <= i < 101 ==> LitLensA()[i] == 3
    ensures forall i :: 101 <= i < 256 ==> LitLensA()[i] == 0
    ensures LitLensA()[256] == 1
  {
  }

  lemma ClCodesATally0()
    ensures |CL_A| == 19 && Tallied(CL_A, 7, [0, 0, 1, 0, 1, 0, 2, 2, 0, 0, 0, 0, 0, 0, 0, 0])
    ensures Count(CL_A[..1], 2) == 0
    ensures Count(CL_A[..3], 7) == 1
  {
    hide *;
    ClAIs();
    var l := CL_A;
    TallyNone(l);
    var n0 := seq(16, _ => 0);
    TallyRun(l, 0, 1, 0, n0);
    var n1 := n0;
    RankIs(l, 1, 2, n1);
    TallyRun(l, 1, 2, 2, n1);
    var n2 := n1[2 := n1[2] + 1];
    TallyRun(l, 2, 3, 7, n2);
    var n3 := n2[7 := n2[7] + 1];
    RankIs(l, 3, 7, n3);
    TallyRun(l, 3, 4, 7, n3);
    var n4 := n3[7 := n3[7] + 1];
    TallyRun(l, 4, 5, 4, n4);
    var n5 := n4[4 := n4[4] + 1];
    TallyRun(l, 5, 6, 6, n5);
    var n6 := n5[6 := n5[6] + 1];
    TallyRun(l, 6, 7, 6, n6);
    var n7 := n6[6 := n6[6] + 1];
    assert n7 == [0, 0, 1, 0, 1, 0, 2, 2, 0, 0, 0, 0, 0, 0, 0, 0];
  }

  lemma ClCodesATally1()
    ensures |CL_A| == 19 && Tallied(CL_A, 14, [0, 0, 2, 1, 1, 1, 2, 3, 0, 0, 0, 0, 0, 0, 0, 0])
  {
    hide *;
    ClAIs();
    var l := CL_A;
    ClCodesATally0();
    var n0 := [0, 0, 1, 0, 1, 0, 2, 2, 0, 0, 0, 0, 0, 0, 0, 0];
    TallyRun(l, 7, 8, 0, n0);
    var n1 := n0;
    TallyRun(l, 8, 9, 0, n1);
    var n2 := n1;
    TallyRun(l, 9, 10, 5, n2);
    var n3 := n2[5 := n2[5] + 1];
    TallyRun(l, 10, 11, 2, n3);
    var n4 := n3[2 := n3[2] + 1];
    TallyRun(l, 11, 12, 0, n4);
    var n5 := n4;
    TallyRun(l, 12, 13, 3, n5);
    var n6 := n5[3 := n5[3] + 1];
    TallyRun(l, 13, 14, 7, n6);
    var n7 := n6[7 := n6[7] + 1];
    assert n7 == [0, 0, 2, 1, 1, 1, 2, 3, 0, 0, 0, 0, 0, 0, 0, 0];
  }

  lemma ClCodesATally2()
    ensures |CL_A| == 19 && Tallied(CL_A, 19, [0, 0, 2, 2, 2, 2, 2, 4, 0, 0, 0, 0, 0, 0, 0, 0])
    ensures Count(CL_A[..16], 5) == 1
    ensures Count(CL_A[..17], 3) == 1
    ensures Count(CL_A[..18], 7) == 3
  {
    hide *;
    ClAIs();
    var l := CL_A;
    ClCodesATally1();
    var n0 := [0, 0, 2, 1, 1, 1, 2, 3, 0, 0, 0, 0, 0, 0, 0, 0];
    TallyRun(l, 14, 15, 4, n0);
    var n1 := n0[4 := n0[4] + 1];
    TallyRun(l, 15, 16, 0, n1);
    var n2 := n1;
    RankIs(l, 16, 5, n2);
    TallyRun(l, 16, 17, 5, n2);
    var n3 := n2[5 := n2[5] + 1];
    RankIs(l, 17, 3, n3);
    TallyRun(l, 17, 18, 3, n3);
    var n4 := n3[3 := n3[3] + 1];
    RankIs(l, 18, 7, n4);
    TallyRun(l, 18, 19, 7, n4);
    var n5 := n4[7 := n4[7] + 1];
    assert n5 == [0, 0, 2, 2, 2, 2, 2, 4, 0, 0, 0, 0, 0, 0, 0, 0];
  }

  /** Codes of its code length code. */
  lemma ClCodesA()
    ensures |CL_A| == 19 && Complete(CL_A) && Kraft(CL_A) <= Pow2(15)
    ensures HasCode(CL_A, 1, 0, 2)
    ensures HasCode(CL_A, 3, 95, 7)
    ensures HasCode(CL_A, 16, 23, 5)
    ensures HasCode(CL_A, 17, 5, 3)
    ensures HasCode(CL_A, 18, 127, 7)
  {
    hide *;
    Powers();
    ClAIs();
    ClCodesATally0();
    ClCodesATally1();
    ClCodesATally2();
    var l := CL_A;
    FirstPoints(l, [0, 0, 2, 2, 2, 2, 2, 4, 0, 0, 0, 0, 0, 0, 0, 0]);
    AllPoints(l, [0, 0, 2, 2, 2, 2, 2, 4, 0, 0, 0, 0, 0, 0, 0, 0]);
    ValidOf(l);
    Rev2x0();
    CodeAt(l, 1, 2, 0, 8192, 0, 0);
    Rev7x125();
    CodeAt(l, 3, 7, 1, 256, 125, 95);
    Rev5x29();
    CodeAt(l, 16, 5, 1, 1024, 29, 23);
    Rev3x5();
    CodeAt(l, 17, 3, 1, 4096, 5, 5);
    Rev7x127();
    CodeAt(l, 18, 7, 3, 256, 127, 127);
  }

  lemma LitCodesATally0()
    ensures |LitLensA()| == 257 && Tallied(LitLensA(), 257, [0, 1, 0, 4, 0, 0, 0, 0, 0, 0, 0, 0, 0, 0, 0, 0])
    ensures Count(LitLensA()[..97], 3) == 0
    ensures Count(LitLensA()[..98], 3) == 1
    ensures Count(LitLensA()[..99], 3) == 2
    ensures Count(LitLensA()[..100], 3) == 3
    ensures Count(LitLensA()[..256], 1) == 0
  {
    hide *;
    LitLensAIs();
    var l := LitLensA();
    TallyNone(l);
    var n0 := seq(16, _ => 0);
    TallyRun(l, 0, 97, 0, n0);
    var n1 := n0;
    RankIs(l, 97, 3, n1);
    TallyRun(l, 97, 98, 3, n1);
    RankIs(l, 98, 3, n1[3 := n1[3] + 1]);
    TallyRun(l, 97, 99, 3, n1);
    RankIs(l, 99, 3, n1[3 := n1[3] + 2]);
    TallyRun(l, 97, 100, 3, n1);
    RankIs(l, 100, 3, n1[3 := n1[3] + 3]);
    TallyRun(l, 97, 101, 3, n1);
    var n2 := n1[3 := n1[3] + 4];
    TallyRun(l, 101, 256, 0, n2);
    var n3 := n2;
    RankIs(l, 256, 1, n3);
    TallyRun(l, 256, 257, 1, n3);
    var n4 := n3[1 := n3[1] + 1];
    assert n4 == [0, 1, 0, 4, 0, 0, 0, 0, 0, 0, 0, 0, 0, 0, 0, 0];
  }

  /** Codes of its literal code. */
  lemma LitCodesA()
    ensures |LitLensA()| == 257 && Complete(LitLensA()) && Kraft(LitLensA()) <= Pow2(15)
    ensures HasCode(LitLensA(), 97, 1, 3)
    ensures HasCode(LitLensA(), 98, 5, 3)
    ensures HasCode(LitLensA(), 99, 3, 3)
    ensures HasCode(LitLensA(), 100, 7, 3)
    ensures HasCode(LitLensA(), 256, 0, 1)
  {
    hide *;
    Powers();
    LitLensAIs();
    LitCodesATally0();
    var l := LitLensA();
    FirstPoints(l, [0, 1, 0, 4, 0, 0, 0, 0, 0, 0, 0, 0, 0, 0, 0, 0]);
    AllPoints(l, [0, 1, 0, 4, 0, 0, 0, 0, 0, 0, 0, 0, 0, 0, 0, 0]);
    ValidOf(l);
    Rev3x4();
    CodeAt(l, 97, 3, 0, 4096, 4, 1);
    Rev3x5();
    CodeAt(l, 98, 3, 1, 4096, 5, 5);
    Rev3x6();
    CodeAt(l, 99, 3, 2, 4096, 6, 3);
    Rev3x7();
    CodeAt(l, 100, 3, 3, 4096, 7, 7);
    Rev1x0();
    CodeAt(l, 256, 1, 0, 16384, 0, 0);
  }

  lemma DistCodesATally0()
    ensures |DIST_A| == 2 && Tallied(DIST_A, 2, [0, 2, 0, 0, 0, 0, 0, 0, 0, 0, 0, 0, 0, 0, 0, 0])
  {
    hide *;
    DistAIs();
    var l := DIST_A;
    TallyNone(l);
    var n0 := seq(16, _ => 0);
    TallyRun(l, 0, 2, 1, n0);
    var n1 := n0[1 := n0[1] + 2];
    assert n1 == [0, 2, 0, 0, 0, 0, 0, 0, 0, 0, 0, 0, 0, 0, 0, 0];
  }

  /** Codes of its distance code. */
  lemma DistCodesA()
    ensures |DIST_A| == 2 && Complete(DIST_A) && Kraft(DIST_A) <= Pow2(15)
  {
    hide *;
    Powers();
    DistAIs();
    DistCodesATally0();
    var l := DIST_A;
    FirstPoints(l, [0, 2, 0, 0, 0, 0, 0, 0, 0, 0, 0, 0, 0, 0, 0, 0]);
    AllPoints(l, [0, 2, 0, 0, 0, 0, 0, 0, 0, 0, 0, 0, 0, 0, 0, 0]);
    ValidOf(l);
  }

  lemma UsableA()
    ensures Usable(LitLensA(), DIST_A)
  {
    hide *;
    LitCodesA();
    DistCodesA();
    UsableIs(LitLensA(), DIST_A);
  }

  lemma BeginsA(c: Config) returns (d: Config)
    requires c == Config(InitState, BytesToBits(DYNAMIC))
    ensures Leads(c, d)
    ensures d.st == c.st.(mode := LenLens, last := false, nlen := 257, ndist := 2, ncode := 19, got := [])
    ensures d.unread == Held(93, 7, DYNAMIC, 3)
  {
    hide *;
    Powers();
    DynamicBytes0();
    StartOut();
    WholeStream(DYNAMIC);
    AtStart(BytesToBits(DYNAMIC));
    More(0, 0, 1, DYNAMIC, 0, 0x04);
    var c1 := TypeRead(c, 2, false, 0, 8, DYNAMIC, 1);
    More(0, 5, 32, DYNAMIC, 1, 0xE1);
    More(7200, 13, 8192, DYNAMIC, 2, 0xBB);
    var c2 := SizesRead19(c1, 257, 2, 93, 21, DYNAMIC, 3);
    LeadsTrans(c, c1, c2);
    d := c2;
  }

  lemma LensA0(c: Config) returns (d: Config)
    requires c.st.mode.LenLens? && c.st.ncode == 19 && c.st.got == []
    requires c.unread == Held(93, 7, DYNAMIC, 3)
    ensures Leads(c, d)
    ensures d == Config(c.st.(got := [5, 3, 7, 0, 0, 0, 5]), Held(2, 2, DYNAMIC, 5))
  {
    hide *;
    Powers();
    DynamicBytes0();
    var c1 := LenLenRead(c, 5, 11, 7, DYNAMIC, 3);
    var c2 := LenLenRead(c1, 3, 1, 4, DYNAMIC, 3);
    LeadsTrans(c, c1, c2);
    More(1, 1, 2, DYNAMIC, 3, 0x03);
    var c3 := LenLenRead(c2, 7, 0, 9, DYNAMIC, 4);
    LeadsTrans(c, c2, c3);
    var c4 := LenLenRead(c3, 0, 0, 6, DYNAMIC, 4);
    LeadsTrans(c, c3, c4);
    var c5 := LenLenRead(c4, 0, 0, 3, DYNAMIC, 4);
    LeadsTrans(c, c4, c5);
    More(0, 0, 1, DYNAMIC, 4, 0xA8);
    var c6 := LenLenRead(c5, 0, 21, 8, DYNAMIC, 5);
    LeadsTrans(c, c5, c6);
    var c7 := LenLenRead(c6, 5, 2, 5, DYNAMIC, 5);
    LeadsTrans(c, c6, c7);
    assert c7.st.got == [5, 3, 7, 0, 0, 0, 5];
    d := c7;
  }

  lemma LensA1(c: Config) returns (d: Config)
    requires c.st.mode.LenLens? && c.st.ncode == 19 && c.st.got == [5, 3, 7, 0, 0, 0, 5]
    requires c.unread == Held(2, 2, DYNAMIC, 5)
    ensures Leads(c, d)
    ensures d == Config(c.st.(got := [5, 3, 7, 0, 0, 0, 5, 6, 2, 6, 0, 4, 3]), Held(0, 0, DYNAMIC, 7))
  {
    hide *;
    Powers();
    DynamicBytes0();
    More(2, 2, 4, DYNAMIC, 5, 0x65);
    var c1 := LenLenRead(c, 6, 50, 10, DYNAMIC, 6);
    var c2 := LenLenRead(c1, 2, 6, 7, DYNAMIC, 6);
    LeadsTrans(c, c1, c2);
    var c3 := LenLenRead(c2, 6, 0, 4, DYNAMIC, 6);
    LeadsTrans(c, c2, c3);
    More(0, 1, 2, DYNAMIC, 6, 0x70);
    var c4 := LenLenRead(c3, 0, 28, 9, DYNAMIC, 7);
    LeadsTrans(c, c3, c4);
    var c5 := LenLenRead(c4, 4, 3, 6, DYNAMIC, 7);
    LeadsTrans(c, c4, c5);
    var c6 := LenLenRead(c5, 3, 0, 3, DYNAMIC, 7);
    LeadsTrans(c, c5, c6);
    assert c6.st.got == [5, 3, 7, 0, 0, 0, 5, 6, 2, 6, 0, 4, 3];
    d := c6;
  }

  lemma LensA2(c: Config) returns (d: Config)
    requires c.st.mode.LenLens? && c.st.ncode == 19 && c.st.got == [5, 3, 7, 0, 0, 0, 5, 6, 2, 6, 0, 4, 3]
    requires c.unread == Held(0, 0, DYNAMIC, 7)
    ensures Leads(c, d)
    ensures d == Config(c.st.(got := [5, 3, 7, 0, 0, 0, 5, 6, 2, 6, 0, 4, 3, 7, 7, 7, 4, 2, 0]),
                        Held(63, 6, DYNAMIC, 10))
  {
    hide *;
    Powers();
    DynamicBytes0();
    More(0, 0, 1, DYNAMIC, 7, 0xFF);
    var c1 := LenLenRead(c, 7, 31, 8, DYNAMIC, 8);
    var c2 := LenLenRead(c1, 7, 3, 5, DYNAMIC, 8);
    LeadsTrans(c, c1, c2);
    More(3, 2, 4, DYNAMIC, 8, 0x29);
    var c3 := LenLenRead(c2, 7, 20, 10, DYNAMIC, 9);
    LeadsTrans(c, c2, c3);
    var c4 := LenLenRead(c3, 4, 2, 7, DYNAMIC, 9);
    LeadsTrans(c, c3, c4);
    var c5 := LenLenRead(c4, 2, 0, 4, DYNAMIC, 9);
    LeadsTrans(c, c4, c5);
    More(0, 1, 2, DYNAMIC, 9, 0xFC);
    var c6 := LenLenRead(c5, 0, 63, 9, DYNAMIC, 10);
    LeadsTrans(c, c5, c6);
    assert c6.st.got == [5, 3, 7, 0, 0, 0, 5, 6, 2, 6, 0, 4, 3, 7, 7, 7, 4, 2, 0];
    d := c6;
  }

  /** The lengths come in the order 16, 17, 18, 0, 8, 7, 9, 6, 10, 5, 11, 4, 12, 3, 13, 2, 14, 1, 15. */
  lemma PermutedA()
    ensures Permuted([5, 3, 7, 0, 0, 0, 5, 6, 2, 6, 0, 4, 3, 7, 7, 7, 4, 2, 0]) == CL_A
  {
    var l := Permuted([5, 3, 7, 0, 0, 0, 5, 6, 2, 6, 0, 4, 3, 7, 7, 7, 4, 2, 0]);
    assert |l| == |CL_A|;
    assert forall s :: 0 <= s < 19 ==> l[s] == CL_A[s];
  }

  /** What has been read of the lengths. */
  function GotA0(): (l: seq<nat>)
  {
    [] + Zeros(97) + [3] + [3, 3, 3] + Zeros(138) + Zeros(10)
  }

  lemma GotA0Is(g: seq<nat>)
    requires g == [] + Zeros(97) + [3] + [3, 3, 3] + Zeros(138) + Zeros(10)
    ensures g == GotA0() && |g| == 249
  {
  }

  lemma OpsA0(c: Config) returns (d: Config)
    requires c.st.mode.CodeLens? && c.st.clens == CL_A && c.st.nlen == 257 && c.st.ndist == 2
    requires c.st.got == [] && |c.st.got| == 0
    requires c.unread == Held(63, 6, DYNAMIC, 10)
    ensures Leads(c, d)
    ensures d == Config(c.st.(got := GotA0()), Held(37, 6, DYNAMIC, 16)) && |d.st.got| == 249
  {
    hide *;
    Powers();
    DynamicBytes1();
    ClCodesA();
    More(63, 6, 64, DYNAMIC, 10, 0xAD);
    Applied(c.st.got, 18, 86);
    ZerosLength(97);
    var c1 := OpRead(c, 18, 86, 127, 7, 128, 128, 0, 86, 11135, 14, DYNAMIC, 11);
    More(0, 0, 1, DYNAMIC, 11, 0xDF);
    Applied(c1.st.got, 3, 0);
    var c2 := OpRead(c1, 3, 0, 95, 7, 128, 1, 1, 1, 223, 8, DYNAMIC, 12);
    LeadsTrans(c, c1, c2);
    More(1, 1, 2, DYNAMIC, 12, 0xCB);
    LastThree(c2.st.got);
    Applied(c2.st.got, 16, 0);
    var c3 := OpRead(c2, 16, 0, 23, 5, 32, 4, 3, 12, 407, 9, DYNAMIC, 13);
    LeadsTrans(c, c2, c3);
    More(3, 2, 4, DYNAMIC, 13, 0xFF);
    More(1023, 10, 1024, DYNAMIC, 14, 0xDF);
    Applied(c3.st.got, 18, 127);
    ZerosLength(138);
    var c4 := OpRead(c3, 18, 127, 127, 7, 128, 128, 13, 1791, 229375, 18, DYNAMIC, 15);
    LeadsTrans(c, c3, c4);
    More(13, 4, 16, DYNAMIC, 15, 0x97);
    Applied(c4.st.got, 17, 7);
    ZerosLength(10);
    var c5 := OpRead(c4, 17, 7, 5, 3, 8, 8, 37, 303, 2429, 12, DYNAMIC, 16);
    LeadsTrans(c, c4, c5);
    GotA0Is(c5.st.got);
    d := c5;
  }

  /** What has been read of the lengths. */
  function GotA1(): (l: seq<nat>)
  {
    [] + Zeros(97) + [3] + [3, 3, 3] + Zeros(138) + Zeros(10) + Zeros(7) + [1] + [1] + [1]
  }

  lemma GotA1Is(g: seq<nat>)
    requires g == GotA0() + Zeros(7) + [1] + [1] + [1]
    ensures g == GotA1() && |g| == 259
  {
  }

  lemma OpsA1(c: Config) returns (d: Config)
    requires c.st.mode.CodeLens? && c.st.clens == CL_A && c.st.nlen == 257 && c.st.ndist == 2
    requires c.st.got == GotA0() && |c.st.got| == 249
    requires c.unread == Held(37, 6, DYNAMIC, 16)
    ensures Leads(c, d)
    ensures d == Config(c.st.(got := GotA1()), Held(1, 2, DYNAMIC, 17)) && |d.st.got| == 259
  {
    hide *;
    Powers();
    DynamicBytes1();
    ClCodesA();
    Applied(c.st.got, 17, 4);
    ZerosLength(7);
    var c1 := OpRead(c, 17, 4, 5, 3, 8, 8, 0, 4, 37, 6, DYNAMIC, 16);
    More(0, 0, 1, DYNAMIC, 16, 0x40);
    Applied(c1.st.got, 1, 0);
    var c2 := OpRead(c1, 1, 0, 0, 2, 4, 1, 16, 16, 64, 8, DYNAMIC, 17);
    LeadsTrans(c, c1, c2);
    Applied(c2.st.got, 1, 0);
    var c3 := OpRead(c2, 1, 0, 0, 2, 4, 1, 4, 4, 16, 6, DYNAMIC, 17);
    LeadsTrans(c, c2, c3);
    Applied(c3.st.got, 1, 0);
    var c4 := OpRead(c3, 1, 0, 0, 2, 4, 1, 1, 1, 4, 4, DYNAMIC, 17);
    LeadsTrans(c, c3, c4);
    GotA1Is(c4.st.got);
    d := c4;
  }

  lemma LengthsA()
    ensures GotA1() == LitLensA() + DIST_A
  {
    var g, l := GotA1(), LitLensA() + DIST_A;
    assert |g| == |l|;
    assert forall i :: 0 <= i < |g| ==> g[i] == l[i];
  }

  lemma BodyA(c: Config) returns (d: Config)
    requires c.st.mode.Len? && c.st.llens == LitLensA() && c.st.dlens == DIST_A && c.st.out == []
    requires c.unread == Held(1, 2, DYNAMIC, 17)
    ensures Leads(c, d) && d.st.mode.Type? && d.st.last == c.st.last
    ensures d.st.out == [0x61, 0x62, 0x63, 0x64]
    ensures d.unread == Held(13, 5, DYNAMIC, 19)
  {
    hide *;
    Powers();
    DynamicBytes1();
    LitCodesA();
    DistCodesA();
    UsableA();
    More(1, 2, 4, DYNAMIC, 17, 0xBA);
    var c1 := LiteralRead(c, 0x61, 1, 3, 8, 93, 745, 10, DYNAMIC, 18);
    var c2 := LiteralRead(c1, 0x62, 5, 3, 8, 11, 93, 7, DYNAMIC, 18);
    LeadsTrans(c, c1, c2);
    var c3 := LiteralRead(c2, 0x63, 3, 3, 8, 1, 11, 4, DYNAMIC, 18);
    LeadsTrans(c, c2, c3);
    More(1, 1, 2, DYNAMIC, 18, 0x6B);
    var c4 := LiteralRead(c3, 0x64, 7, 3, 8, 26, 215, 9, DYNAMIC, 19);
    LeadsTrans(c, c3, c4);
    var c5 := EndRead(c4, 0, 1, 2, 13, 26, 6, DYNAMIC, 19);
    LeadsTrans(c, c4, c5);
    assert c5.st.out == [0x61, 0x62, 0x63, 0x64];
    d := c5;
  }

  lemma BlockA(c: Config) returns (d: Config)
    requires c == Config(InitState, BytesToBits(DYNAMIC))
    ensures Leads(c, d) && d.st.mode.Type? && !d.st.last
    ensures d.st.out == [0x61, 0x62, 0x63, 0x64]
    ensures d.unread == Held(13, 5, DYNAMIC, 19)
  {
    hide *;
    StartOut();
    ClCodesA();
    LitCodesA();
    DistCodesA();
    LitLensAIs();
    DistAIs();
    PermutedA();
    LengthsA();
    var c1 := BeginsA(c);
    var c2 := LensA0(c1);
    LeadsTrans(c, c1, c2);
    var c3 := LensA1(c2);
    LeadsTrans(c, c2, c3);
    var c4 := LensA2(c3);
    LeadsTrans(c, c3, c4);
    var c5 := LenLensRead(c4, CL_A);
    LeadsTrans(c, c4, c5);
    var c6 := OpsA0(c5);
    LeadsTrans(c, c5, c6);
    var c7 := OpsA1(c6);
    LeadsTrans(c, c6, c7);
    var c8 := LensRead(c7, LitLensA(), DIST_A);
    LeadsTrans(c, c7, c8);
    d := BodyA(c8);
    LeadsTrans(c, c8, d);
  }

  lemma DynamicCopies()
    ensures Copy(Copy([0x61, 0x62, 0x63, 0x64, 0x78], 4, 3), 6, 3) == DYNAMICTEXT
  {
    var s := [0x61, 0x62, 0x63, 0x64, 0x78];
    var t := [0x61, 0x62, 0x63, 0x64, 0x78, 0x62, 0x63, 0x64];
    assert Copy(s, 4, 3) == t by { CopyThree(s, 4); }
    assert Copy(t, 6, 3) == DYNAMICTEXT by { CopyThree(t, 6); }
  }

  const CL_B: seq<nat> := [4, 7, 5, 2, 7, 0, 3, 7, 6, 5, 0, 0, 2, 6, 0, 3, 0, 4, 7]

  const DIST_B: seq<nat> := [0, 0, 0, 1, 1]

  lemma ClBIs()
    ensures |CL_B| == 19
    ensures CL_B[0] == 4 && CL_B[1] == 7 && CL_B[2] == 5 && CL_B[3] == 2 && CL_B[4] == 7 && CL_B[5] == 0 && CL_B[6] == 3
    ensures CL_B[7] == 7 && CL_B[8] == 6 && CL_B[9] == 5 && CL_B[10] == 0 && CL_B[11] == 0 && CL_B[12] == 2
      && CL_B[13] == 6
    ensures CL_B[14] == 0 && CL_B[15] == 3 && CL_B[16] == 0 && CL_B[17] == 4 && CL_B[18] == 7
  {
  }

  lemma DistBIs()
    ensures |DIST_B| == 5
    ensures DIST_B[0] == 0 && DIST_B[1] == 0 && DIST_B[2] == 0 && DIST_B[3] == 1 && DIST_B[4] == 1
  {
  }

  /** Literal lengths of the second block. */
  function LitLensB(): (l: seq<nat>)
  {
    Zeros(120) + [1] + Zeros(135) + [2, 2]
  }

  lemma LitLensBIs()
    ensures |LitLensB()| == 258
    ensures forall i :: 0 <= i < 120 ==> LitLensB()[i] == 0
    ensures LitLensB()[120] == 1
    ensures forall i :: 121 <= i < 256 ==> LitLensB()[i] == 0
    ensures forall i :: 256 <= i < 258 ==> LitLensB()[i] == 2
  {
  }

  lemma ClCodesBTally0()
    ensures |CL_B| == 19 && Tallied(CL_B, 7, [0, 0, 1, 1, 1, 1, 0, 2, 0, 0, 0, 0, 0, 0, 0, 0])
    ensures Count(CL_B[..1], 7) == 0
    ensures Count(CL_B[..2], 5) == 0
  {
    hide *;
    ClBIs();
    var l := CL_B;
    TallyNone(l);
    var n0 := seq(16, _ => 0);
    TallyRun(l, 0, 1, 4, n0);
    var n1 := n0[4 := n0[4] + 1];
    RankIs(l, 1, 7, n1);
    TallyRun(l, 1, 2, 7, n1);
    var n2 := n1[7 := n1[7] + 1];
    RankIs(l, 2, 5, n2);
    TallyRun(l, 2, 3, 5, n2);
    var n3 := n2[5 := n2[5] + 1];
    TallyRun(l, 3, 4, 2, n3);
    var n4 := n3[2 := n3[2] + 1];
    TallyRun(l, 4, 5, 7, n4);
    var n5 := n4[7 := n4[7] + 1];
    TallyRun(l, 5, 6, 0, n5);
    var n6 := n5;
    TallyRun(l, 6, 7, 3, n6);
    var n7 := n6[3 := n6[3] + 1];
    assert n7 == [0, 0, 1, 1, 1, 1, 0, 2, 0, 0, 0, 0, 0, 0, 0, 0];
  }

  lemma ClCodesBTally1()
    ensures |CL_B| == 19 && Tallied(CL_B, 14, [0, 0, 2, 1, 1, 2, 2, 3, 0, 0, 0, 0, 0, 0, 0, 0])
  {
    hide *;
    ClBIs();
    var l := CL_B;
    ClCodesBTally0();
    var n0 := [0, 0, 1, 1, 1, 1, 0, 2, 0, 0, 0, 0, 0, 0, 0, 0];
    TallyRun(l, 7, 8, 7, n0);
    var n1 := n0[7 := n0[7] + 1];
    TallyRun(l, 8, 9, 6, n1);
    var n2 := n1[6 := n1[6] + 1];
    TallyRun(l, 9, 10, 5, n2);
    var n3 := n2[5 := n2[5] + 1];
    TallyRun(l, 10, 11, 0, n3);
    var n4 := n3;
    TallyRun(l, 11, 12, 0, n4);
    var n5 := n4;
    TallyRun(l, 12, 13, 2, n5);
    var n6 := n5[2 := n5[2] + 1];
    TallyRun(l, 13, 14, 6, n6);
    var n7 := n6[6 := n6[6] + 1];
    assert n7 == [0, 0, 2, 1, 1, 2, 2, 3, 0, 0, 0, 0, 0, 0, 0, 0];
  }

  lemma ClCodesBTally2()
    ensures |CL_B| == 19 && Tallied(CL_B, 19, [0, 0, 2, 2, 2, 2, 2, 4, 0, 0, 0, 0, 0, 0, 0, 0])
    ensures Count(CL_B[..17], 4) == 1
    ensures Count(CL_B[..18], 7) == 3
  {
    hide *;
    ClBIs();
    var l := CL_B;
    ClCodesBTally1();
    var n0 := [0, 0, 2, 1, 1, 2, 2, 3, 0, 0, 0, 0, 0, 0, 0, 0];
    TallyRun(l, 14, 15, 0, n0);
    var n1 := n0;
    TallyRun(l, 15, 16, 3, n1);
    var n2 := n1[3 := n1[3] + 1];
    TallyRun(l, 16, 17, 0, n2);
    var n3 := n2;
    RankIs(l, 17, 4, n3);
    TallyRun(l, 17, 18, 4, n3);
    var n4 := n3[4 := n3[4] + 1];
    RankIs(l, 18, 7, n4);
    TallyRun(l, 18, 19, 7, n4);
    var n5 := n4[7 := n4[7] + 1];
    assert n5 == [0, 0, 2, 2, 2, 2, 2, 4, 0, 0, 0, 0, 0, 0, 0, 0];
  }

  /** Codes of its code length code. */
  lemma ClCodesB()
    ensures |CL_B| == 19 && Complete(CL_B) && Kraft(CL_B) <= Pow2(15)
    ensures HasCode(CL_B, 1, 31, 7)
    ensures HasCode(CL_B, 2, 7, 5)
    ensures HasCode(CL_B, 17, 11, 4)
    ensures HasCode(CL_B, 18, 127, 7)
  {
    hide *;
    Powers();
    ClBIs();
    ClCodesBTally0();
    ClCodesBTally1();
    ClCodesBTally2();
    var l := CL_B;
    FirstPoints(l, [0, 0, 2, 2, 2, 2, 2, 4, 0, 0, 0, 0, 0, 0, 0, 0]);
    AllPoints(l, [0, 0, 2, 2, 2, 2, 2, 4, 0, 0, 0, 0, 0, 0, 0, 0]);
    ValidOf(l);
    Rev7x124();
    CodeAt(l, 1, 7, 0, 256, 124, 31);
    Rev5x28();
    CodeAt(l, 2, 5, 0, 1024, 28, 7);
    Rev4x13();
    CodeAt(l, 17, 4, 1, 2048, 13, 11);
    Rev7x127();
    CodeAt(l, 18, 7, 3, 256, 127, 127);
  }

  lemma LitCodesBTally0()
    ensures |LitLensB()| == 258 && Tallied(LitLensB(), 258, [0, 1, 2, 0, 0, 0, 0, 0, 0, 0, 0, 0, 0, 0, 0, 0])
    ensures Count(LitLensB()[..120], 1) == 0
    ensures Count(LitLensB()[..256], 2) == 0
    ensures Count(LitLensB()[..257], 2) == 1
  {
    hide *;
    LitLensBIs();
    var l := LitLensB();
    TallyNone(l);
    var n0 := seq(16, _ => 0);
    TallyRun(l, 0, 120, 0, n0);
    var n1 := n0;
    RankIs(l, 120, 1, n1);
    TallyRun(l, 120, 121, 1, n1);
    var n2 := n1[1 := n1[1] + 1];
    TallyRun(l, 121, 256, 0, n2);
    var n3 := n2;
    RankIs(l, 256, 2, n3);
    TallyRun(l, 256, 257, 2, n3);
    RankIs(l, 257, 2, n3[2 := n3[2] + 1]);
    TallyRun(l, 256, 258, 2, n3);
    var n4 := n3[2 := n3[2] + 2];
    assert n4 == [0, 1, 2, 0, 0, 0, 0, 0, 0, 0, 0, 0, 0, 0, 0, 0];
  }

  /** Codes of its literal code. */
  lemma LitCodesB()
    ensures |LitLensB()| == 258 && Complete(LitLensB()) && Kraft(LitLensB()) <= Pow2(15)
    ensures HasCode(LitLensB(), 120, 0, 1)
    ensures HasCode(LitLensB(), 256, 1, 2)
    ensures HasCode(LitLensB(), 257, 3, 2)
  {
    hide *;
    Powers();
    LitLensBIs();
    LitCodesBTally0();
    var l := LitLensB();
    FirstPoints(l, [0, 1, 2, 0, 0, 0, 0, 0, 0, 0, 0, 0, 0, 0, 0, 0]);
    AllPoints(l, [0, 1, 2, 0, 0, 0, 0, 0, 0, 0, 0, 0, 0, 0, 0, 0]);
    ValidOf(l);
    Rev1x0();
    CodeAt(l, 120, 1, 0, 16384, 0, 0);
    Rev2x2();
    CodeAt(l, 256, 2, 0, 8192, 2, 1);
    Rev2x3();
    CodeAt(l, 257, 2, 1, 8192, 3, 3);
  }

  lemma DistCodesBTally0()
    ensures |DIST_B| == 5 && Tallied(DIST_B, 5, [0, 2, 0, 0, 0, 0, 0, 0, 0, 0, 0, 0, 0, 0, 0, 0])
    ensures Count(DIST_B[..3], 1) == 0
    ensures Count(DIST_B[..4], 1) == 1
  {
    hide *;
    DistBIs();
    var l := DIST_B;
    TallyNone(l);
    var n0 := seq(16, _ => 0);
    TallyRun(l, 0, 3, 0, n0);
    var n1 := n0;
    RankIs(l, 3, 1, n1);
    TallyRun(l, 3, 4, 1, n1);
    RankIs(l, 4, 1, n1[1 := n1[1] + 1]);
    TallyRun(l, 3, 5, 1, n1);
    var n2 := n1[1 := n1[1] + 2];
    assert n2 == [0, 2, 0, 0, 0, 0, 0, 0, 0, 0, 0, 0, 0, 0, 0, 0];
  }

  /** Codes of its distance code. */
  lemma DistCodesB()
    ensures |DIST_B| == 5 && Complete(DIST_B) && Kraft(DIST_B) <= Pow2(15)
    ensures HasCode(DIST_B, 3, 0, 1)
    ensures HasCode(DIST_B, 4, 1, 1)
  {
    hide *;
    Powers();
    DistBIs();
    DistCodesBTally0();
    var l := DIST_B;
    FirstPoints(l, [0, 2, 0, 0, 0, 0, 0, 0, 0, 0, 0, 0, 0, 0, 0, 0]);
    AllPoints(l, [0, 2, 0, 0, 0, 0, 0, 0, 0, 0, 0, 0, 0, 0, 0, 0]);
    ValidOf(l);
    Rev1x0();
    CodeAt(l, 3, 1, 0, 16384, 0, 0);
    Rev1x1();
    CodeAt(l, 4, 1, 1, 16384, 1, 1);
  }

  lemma UsableB()
    ensures Usable(LitLensB(), DIST_B)
  {
    hide *;
    LitCodesB();
    DistCodesB();
    UsableIs(LitLensB(), DIST_B);
  }

  lemma BeginsB(c: Config) returns (d: Config)
    requires c.st.mode.Type? && !c.st.last
    requires c.unread == Held(13, 5, DYNAMIC, 19)
    ensures Leads(c, d)
    ensures d.st == c.st.(mode := LenLens, last := true, nlen := 258, ndist := 5, ncode := 19, got := [])
    ensures d.unread == Held(0, 4, DYNAMIC, 21)
  {
    hide *;
    Powers();
    DynamicBytes1();
    DynamicBytes2();
    BlockIs(c);
    var c1 := TypeRead(c, 2, true, 1, 5, DYNAMIC, 19);
    More(1, 2, 4, DYNAMIC, 19, 0x20);
    More(129, 10, 1024, DYNAMIC, 20, 0x0F);
    var c2 := SizesRead19(c1, 258, 5, 0, 18, DYNAMIC, 21);
    LeadsTrans(c, c1, c2);
    d := c2;
  }

  lemma LensB0(c: Config) returns (d: Config)
    requires c.st.mode.LenLens? && c.st.ncode == 19 && c.st.got == []
    requires c.unread == Held(0, 4, DYNAMIC, 21)
    ensures Leads(c, d)
    ensures d == Config(c.st.(got := [0, 4, 7, 4, 6, 7, 5]), Held(3, 7, DYNAMIC, 24))
  {
    hide *;
    Powers();
    DynamicBytes2();
    var c1 := LenLenRead(c, 0, 0, 4, DYNAMIC, 21);
    More(0, 1, 2, DYNAMIC, 21, 0x9E);
    var c2 := LenLenRead(c1, 4, 39, 9, DYNAMIC, 22);
    LeadsTrans(c, c1, c2);
    var c3 := LenLenRead(c2, 7, 4, 6, DYNAMIC, 22);
    LeadsTrans(c, c2, c3);
    var c4 := LenLenRead(c3, 4, 0, 3, DYNAMIC, 22);
    LeadsTrans(c, c3, c4);
    More(0, 0, 1, DYNAMIC, 22, 0x7E);
    var c5 := LenLenRead(c4, 6, 15, 8, DYNAMIC, 23);
    LeadsTrans(c, c4, c5);
    var c6 := LenLenRead(c5, 7, 1, 5, DYNAMIC, 23);
    LeadsTrans(c, c5, c6);
    More(1, 2, 4, DYNAMIC, 23, 0x07);
    var c7 := LenLenRead(c6, 5, 3, 10, DYNAMIC, 24);
    LeadsTrans(c, c6, c7);
    assert c7.st.got == [0, 4, 7, 4, 6, 7, 5];
    d := c7;
  }

  lemma LensB1(c: Config) returns (d: Config)
    requires c.st.mode.LenLens? && c.st.ncode == 19 && c.st.got == [0, 4, 7, 4, 6, 7, 5]
    requires c.unread == Held(3, 7, DYNAMIC, 24)
    ensures Leads(c, d)
    ensures d == Config(c.st.(got := [0, 4, 7, 4, 6, 7, 5, 3, 0, 0, 0, 7, 2]), Held(18, 5, DYNAMIC, 26))
  {
    hide *;
    Powers();
    DynamicBytes2();
    var c1 := LenLenRead(c, 3, 0, 7, DYNAMIC, 24);
    var c2 := LenLenRead(c1, 0, 0, 4, DYNAMIC, 24);
    LeadsTrans(c, c1, c2);
    More(0, 1, 2, DYNAMIC, 24, 0xE0);
    var c3 := LenLenRead(c2, 0, 56, 9, DYNAMIC, 25);
    LeadsTrans(c, c2, c3);
    var c4 := LenLenRead(c3, 0, 7, 6, DYNAMIC, 25);
    LeadsTrans(c, c3, c4);
    var c5 := LenLenRead(c4, 7, 0, 3, DYNAMIC, 25);
    LeadsTrans(c, c4, c5);
    More(0, 0, 1, DYNAMIC, 25, 0x92);
    var c6 := LenLenRead(c5, 2, 18, 8, DYNAMIC, 26);
    LeadsTrans(c, c5, c6);
    assert c6.st.got == [0, 4, 7, 4, 6, 7, 5, 3, 0, 0, 0, 7, 2];
    d := c6;
  }

  lemma LensB2(c: Config) returns (d: Config)
    requires c.st.mode.LenLens? && c.st.ncode == 19 && c.st.got == [0, 4, 7, 4, 6, 7, 5, 3, 0, 0, 0, 7, 2]
    requires c.unread == Held(18, 5, DYNAMIC, 26)
    ensures Leads(c, d)
    ensures d == Config(c.st.(got := [0, 4, 7, 4, 6, 7, 5, 3, 0, 0, 0, 7, 2, 2, 6, 5, 0, 7, 3]),
                        Held(7, 3, DYNAMIC, 28))
  {
    hide *;
    Powers();
    DynamicBytes2();
    var c1 := LenLenRead(c, 2, 2, 5, DYNAMIC, 26);
    More(2, 2, 4, DYNAMIC, 26, 0x8B);
    var c2 := LenLenRead(c1, 6, 69, 10, DYNAMIC, 27);
    LeadsTrans(c, c1, c2);
    var c3 := LenLenRead(c2, 5, 8, 7, DYNAMIC, 27);
    LeadsTrans(c, c2, c3);
    var c4 := LenLenRead(c3, 0, 1, 4, DYNAMIC, 27);
    LeadsTrans(c, c3, c4);
    More(1, 1, 2, DYNAMIC, 27, 0xEF);
    var c5 := LenLenRead(c4, 7, 59, 9, DYNAMIC, 28);
    LeadsTrans(c, c4, c5);
    var c6 := LenLenRead(c5, 3, 7, 6, DYNAMIC, 28);
    LeadsTrans(c, c5, c6);
    assert c6.st.got == [0, 4, 7, 4, 6, 7, 5, 3, 0, 0, 0, 7, 2, 2, 6, 5, 0, 7, 3];
    d := c6;
  }

  /** The lengths come in the order 16, 17, 18, 0, 8, 7, 9, 6, 10, 5, 11, 4, 12, 3, 13, 2, 14, 1, 15. */
  lemma PermutedB()
    ensures Permuted([0, 4, 7, 4, 6, 7, 5, 3, 0, 0, 0, 7, 2, 2, 6, 5, 0, 7, 3]) == CL_B
  {
    var l := Permuted([0, 4, 7, 4, 6, 7, 5, 3, 0, 0, 0, 7, 2, 2, 6, 5, 0, 7, 3]);
    assert |l| == |CL_B|;
    assert forall s :: 0 <= s < 19 ==> l[s] == CL_B[s];
  }

  /** What has been read of the lengths. */
  function GotB0(): (l: seq<nat>)
  {
    [] + Zeros(120) + [1] + Zeros(135) + [2]
  }

  lemma GotB0Is(g: seq<nat>)
    requires g == [] + Zeros(120) + [1] + Zeros(135) + [2]
    ensures g == GotB0() && |g| == 257
  {
  }

  lemma OpsB0(c: Config) returns (d: Config)
    requires c.st.mode.CodeLens? && c.st.clens == CL_B && c.st.nlen == 258 && c.st.ndist == 5
    requires c.st.got == [] && |c.st.got| == 0
    requires c.unread == Held(7, 3, DYNAMIC, 28)
    ensures Leads(c, d)
    ensures d == Config(c.st.(got := GotB0()), Held(7, 3, DYNAMIC, 33)) && |d.st.got| == 257
  {
    hide *;
    Powers();
    DynamicBytes2();
    DynamicBytes3();
    ClCodesB();
    More(7, 3, 8, DYNAMIC, 28, 0xDF);
    More(1791, 11, 2048, DYNAMIC, 29, 0xFE);
    Applied(c.st.got, 18, 109);
    ZerosLength(120);
    var c1 := OpRead(c, 18, 109, 127, 7, 128, 128, 31, 4077, 521983, 19, DYNAMIC, 30);
    More(31, 5, 32, DYNAMIC, 30, 0xFC);
    Applied(c1.st.got, 1, 0);
    var c2 := OpRead(c1, 1, 0, 31, 7, 128, 1, 63, 63, 8095, 13, DYNAMIC, 31);
    LeadsTrans(c, c1, c2);
    More(63, 6, 64, DYNAMIC, 31, 0xF9);
    Applied(c2.st.got, 18, 124);
    ZerosLength(135);
    var c3 := OpRead(c2, 18, 124, 127, 7, 128, 128, 0, 124, 15999, 14, DYNAMIC, 32);
    LeadsTrans(c, c2, c3);
    More(0, 0, 1, DYNAMIC, 32, 0xE7);
    Applied(c3.st.got, 2, 0);
    var c4 := OpRead(c3, 2, 0, 7, 5, 32, 1, 7, 7, 231, 8, DYNAMIC, 33);
    LeadsTrans(c, c3, c4);
    GotB0Is(c4.st.got);
    d := c4;
  }

  /** What has been read of the lengths. */
  function GotB1(): (l: seq<nat>)
  {
    [] + Zeros(120) + [1] + Zeros(135) + [2] + [2] + Zeros(3) + [1] + [1]
  }

  lemma GotB1Is(g: seq<nat>)
    requires g == GotB0() + [2] + Zeros(3) + [1] + [1]
    ensures g == GotB1() && |g| == 263
  {
  }

  lemma OpsB1(c: Config) returns (d: Config)
    requires c.st.mode.CodeLens? && c.st.clens == CL_B && c.st.nlen == 258 && c.st.ndist == 5
    requires c.st.got == GotB0() && |c.st.got| == 257
    requires c.unread == Held(7, 3, DYNAMIC, 33)
    ensures Leads(c, d)
    ensures d == Config(c.st.(got := GotB1()), Held(0, 1, DYNAMIC, 36)) && |d.st.got| == 263
  {
    hide *;
    Powers();
    DynamicBytes3();
    ClCodesB();
    More(7, 3, 8, DYNAMIC, 33, 0x2C);
    Applied(c.st.got, 2, 0);
    var c1 := OpRead(c, 2, 0, 7, 5, 32, 1, 11, 11, 359, 11, DYNAMIC, 34);
    More(11, 6, 64, DYNAMIC, 34, 0x3E);
    Applied(c1.st.got, 17, 0);
    ZerosLength(3);
    var c2 := OpRead(c1, 17, 0, 11, 4, 16, 8, 31, 248, 3979, 14, DYNAMIC, 35);
    LeadsTrans(c, c1, c2);
    Applied(c2.st.got, 1, 0);
    var c3 := OpRead(c2, 1, 0, 31, 7, 128, 1, 0, 0, 31, 7, DYNAMIC, 35);
    LeadsTrans(c, c2, c3);
    More(0, 0, 1, DYNAMIC, 35, 0x1F);
    Applied(c3.st.got, 1, 0);
    var c4 := OpRead(c3, 1, 0, 31, 7, 128, 1, 0, 0, 31, 8, DYNAMIC, 36);
    LeadsTrans(c, c3, c4);
    GotB1Is(c4.st.got);
    d := c4;
  }

  lemma LengthsB()
    ensures GotB1() == LitLensB() + DIST_B
  {
    var g, l := GotB1(), LitLensB() + DIST_B;
    assert |g| == |l|;
    assert forall i :: 0 <= i < |g| ==> g[i] == l[i];
  }

  lemma MatchDynamic3x4()
    ensures MatchFields(LitLensB(), DIST_B, 3, 4, Fields(3, 2, 0, 0, 0, 1, 0, 0))
  {
    hide *;
    Powers();
    LitCodesB();
    DistCodesB();
    Length3();
    Distance4();
    FieldsAre(LitLensB(), DIST_B, 3, 4, Fields(3, 2, 0, 0, 0, 1, 0, 0));
  }

  lemma MatchDynamic3x6()
    ensures MatchFields(LitLensB(), DIST_B, 3, 6, Fields(3, 2, 0, 0, 1, 1, 1, 1))
  {
    hide *;
    Powers();
    LitCodesB();
    DistCodesB();
    Length3();
    Distance6();
    FieldsAre(LitLensB(), DIST_B, 3, 6, Fields(3, 2, 0, 0, 1, 1, 1, 1));
  }

  lemma BodyB(c: Config) returns (d: Config)
    requires c.st.mode.Len? && c.st.llens == LitLensB() && c.st.dlens == DIST_B && c.st.out == [0x61, 0x62, 0x63, 0x64]
      && c.st.last
    requires c.unread == Held(0, 1, DYNAMIC, 36)
    ensures Leads(c, d) && d.st.mode.Done? && d.st.out == DYNAMICTEXT && d.unread == []
  {
    hide *;
    Powers();
    DynamicBytes3();
    LitCodesB();
    DistCodesB();
    UsableB();
    DynamicCopies();
    CopyLength([0x61, 0x62, 0x63, 0x64, 0x78], 4, 3);
    var c1 := LiteralRead(c, 0x78, 0, 1, 2, 0, 0, 1, DYNAMIC, 36);
    assert c1.st.out == [0x61, 0x62, 0x63, 0x64, 0x78];
    More(0, 0, 1, DYNAMIC, 36, 0xFB);
    MatchDynamic3x4();
    var c2 := MatchRead(c1, 3, 4, Fields(3, 2, 0, 0, 0, 1, 0, 0),
                       251, 62, 62, 31, 31, 8, DYNAMIC, 37);
    LeadsTrans(c, c1, c2);
    MatchDynamic3x6();
    var c3 := MatchRead(c2, 3, 6, Fields(3, 2, 0, 0, 1, 1, 1, 1),
                       31, 7, 7, 3, 1, 5, DYNAMIC, 37);
    LeadsTrans(c, c2, c3);
    More(1, 1, 2, DYNAMIC, 37, 0x00);
    var c4 := EndRead(c3, 1, 2, 4, 0, 1, 9, DYNAMIC, 38);
    LeadsTrans(c, c3, c4);
    var c5 := LastRead(c4, 0, 7, DYNAMIC);
    LeadsTrans(c, c4, c5);
    d := c5;
  }

  lemma BlockB(c: Config) returns (d: Config)
    requires c.st.mode.Type? && !c.st.last && c.st.out == [0x61, 0x62, 0x63, 0x64]
    requires c.unread == Held(13, 5, DYNAMIC, 19)
    ensures Leads(c, d) && d.st.mode.Done? && d.st.out == DYNAMICTEXT && d.unread == []
  {
    hide *;
    StartOut();
    ClCodesB();
    LitCodesB();
    DistCodesB();
    LitLensBIs();
    DistBIs();
    PermutedB();
    LengthsB();
    var c1 := BeginsB(c);
    var c2 := LensB0(c1);
    LeadsTrans(c, c1, c2);
    var c3 := LensB1(c2);
    LeadsTrans(c, c2, c3);
    var c4 := LensB2(c3);
    LeadsTrans(c, c3, c4);
    var c5 := LenLensRead(c4, CL_B);
    LeadsTrans(c, c4, c5);
    var c6 := OpsB0(c5);
    LeadsTrans(c, c5, c6);
    var c7 := OpsB1(c6);
    LeadsTrans(c, c6, c7);
    var c8 := LensRead(c7, LitLensB(), DIST_B);
    LeadsTrans(c, c7, c8);
    d := BodyB(c8);
    LeadsTrans(c, c8, d);
  }

  /** The two dynamic blocks are read as their text. */
  lemma DynamicAnswer()
    ensures DecodesTo(DYNAMIC, DYNAMICTEXT)
  {
    hide *;
    var s := Config(InitState, BytesToBits(DYNAMIC));
    var e := BlockA(s);
    var d := BlockB(e);
    LeadsTrans(s, e, d);
    DecodesToSet(DYNAMIC, d);
  }

  // ---------- the same by inflate() ----------

  /** One call of inflate() gives each of the three texts. */
  method InflateAnswers(wbits: nat) returns (hello: seq<Byte>, fixed: seq<Byte>, dynamic: seq<Byte>)
    requires 8 <= wbits <= 15
    ensures hello == [0x68, 0x65, 0x6C, 0x6C, 0x6F]
    ensures fixed == FIXEDTEXT && dynamic == DYNAMICTEXT
  {
    hide *;
    StoredAnswer();
    FixedAnswer();
    DynamicAnswer();
    TextSizes();
    var ret;
    ret, hello := WholeStreamCall(STORED, wbits, 5, HELLO);
    ret, fixed := WholeStreamCall(FIXED, wbits, 20, FIXEDTEXT);
    ret, dynamic := WholeStreamCall(DYNAMIC, wbits, 11, DYNAMICTEXT);
  }

  lemma TextSizes()
    ensures HELLO == [0x68, 0x65, 0x6C, 0x6C, 0x6F] && |FIXEDTEXT| == 20 && |DYNAMICTEXT| == 11
  {
  }
}
