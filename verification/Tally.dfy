/** The symbol buffer, the frequencies tallied from it, and what they say about the size of a block
    (trees.c: _tr_tally, init_block). */
module Tally {
  import opened Bits
  import opened Canonical
  import opened Symbols
  import opened Lz77
  import opened CodeLengths
  import opened Decoder
  import opened BlockFormat
  import opened BlockHeader
  import opened MergeTheory
  import opened TreeKinds
  import opened TreeDepths
  import opened BitLengths

  // ---------- the symbol buffer ----------

  /** Three bytes of the symbol buffer: a distance, low byte first, and a byte or a length less 3. */
  function TokenOf(lo: nat, hi: nat, lc: Byte): (t: Token)
  {
    if lo + 256 * hi == 0 then Literal(lc) else Match(lc + 3, lo + 256 * hi)
  }

  ghost predicate SymBytes(s: seq<nat>)
  {
    |s| % 3 == 0 && forall i :: 0 <= i < |s| ==> s[i] < 256
  }

  function TokensOf(s: seq<nat>): (ts: seq<Token>)
    requires SymBytes(s)
    ensures |s| == 3 * |ts|
  {
    if s == [] then []
    else
      var n := |s| - 3;
      TokensOf(s[..n]) + [TokenOf(s[n], s[n + 1], s[n + 2])]
  }

  lemma TokensOfMore(s: seq<nat>, lo: Byte, hi: Byte, lc: Byte)
    requires SymBytes(s)
    ensures SymBytes(s + [lo, hi, lc]) && TokensOf(s + [lo, hi, lc]) == TokensOf(s) + [TokenOf(lo, hi, lc)]
  {
    assert (s + [lo, hi, lc])[..|s|] == s;
  }

  /** A match distance survives being split into two bytes. */
  lemma TokenSplit(dist: nat, lc: Byte)
    requires dist < 65536
    ensures Low(dist, 8) < 256 && Low(Shr(dist, 8), 8) < 256
    ensures TokenOf(Low(dist, 8), Low(Shr(dist, 8), 8), lc) == if dist == 0 then Literal(lc) else Match(lc + 3, dist)
  {
    hide Low, Shr, Pow2;
    Pow2Values();
    LowBound(dist, 8);
    Split(dist, 8);
    ShrBound(dist, 8, 8);
    LowSmall(Shr(dist, 8), 8);
  }

  // ---------- frequencies ----------

  function LitSym(t: Token): (s: nat)
    ensures s < 286
  {
    match t case Literal(b) => b case Match(len, _) => 257 + LengthCode(len)
  }

  function LitFreq(ts: seq<Token>, s: nat): (n: nat)
  {
    if ts == [] then 0 else LitFreq(ts[..|ts| - 1], s) + if LitSym(ts[|ts| - 1]) == s then 1 else 0
  }

  function DistFreq(ts: seq<Token>, s: nat): (n: nat)
  {
    if ts == [] then 0
    else DistFreq(ts[..|ts| - 1], s) + if ts[|ts| - 1].Match? && DistCode(ts[|ts| - 1].dist) == s then 1 else 0
  }

  /** How often the literal/length tree is used for the tokens and the end of the block. */
  function LitFreqs(ts: seq<Token>): (f: seq<nat>)
    ensures |f| == 286
  {
    seq(286, s requires 0 <= s < 286 => LitFreq(ts, s) + if s == 256 then 1 else 0)
  }

  function DistFreqs(ts: seq<Token>): (f: seq<nat>)
    ensures |f| == 30
  {
    seq(30, s requires 0 <= s < 30 => DistFreq(ts, s))
  }

  function OpFreqs(ops: seq<Op>): (f: seq<nat>)
    ensures |f| == 19
  {
    seq(19, s requires 0 <= s < 19 => OpFreq(ops, s))
  }

  lemma LastToken(ts: seq<Token>, t: Token)
    ensures (ts + [t])[..|ts + [t]| - 1] == ts
  {
  }

  lemma LitFreqsMore(ts: seq<Token>, t: Token)
    ensures LitFreqs(ts + [t]) == LitFreqs(ts)[LitSym(t) := LitFreqs(ts)[LitSym(t)] + 1]
  {
    LastToken(ts, t);
  }

  lemma DistFreqsMore(ts: seq<Token>, t: Token)
    ensures t.Literal? ==> DistFreqs(ts + [t]) == DistFreqs(ts)
    ensures t.Match? ==> DistFreqs(ts + [t]) == DistFreqs(ts)[DistCode(t.dist) := DistFreqs(ts)[DistCode(t.dist)] + 1]
  {
    hide DistCode;
    LastToken(ts, t);
  }

  lemma NoTokens()
    ensures forall s :: 0 <= s < 286 ==> LitFreqs([])[s] == if s == 256 then 1 else 0
    ensures forall s :: 0 <= s < 30 ==> DistFreqs([])[s] == 0
    ensures forall s :: 0 <= s < 19 ==> OpFreqs([])[s] == 0
  {
  }

  // ---------- sums of one changed entry ----------

  lemma {:induction false} SumZero(v: seq<nat>)
    requires forall x :: 0 <= x < |v| ==> v[x] == 0
    ensures Sum(v) == 0
    decreases |v|
  {
    if v != [] {
      SumZero(v[..|v| - 1]);
    }
  }

  lemma {:induction false} SumBump(v: seq<nat>, w: seq<nat>, s: nat, delta: nat)
    requires s < |v| == |w| && w[s] == v[s] + delta && forall x :: 0 <= x < |v| && x != s ==> w[x] == v[x]
    ensures Sum(w) == Sum(v) + delta
    decreases |v|
  {
    var n := |v| - 1;
    if s < n {
      SumBump(v[..n], w[..n], s, delta);
    } else {
      assert v[..n] == w[..n];
    }
  }

  lemma CostBump(kind: Kind, f: seq<nat>, ls: seq<nat>, s: nat)
    requires |f| == |ls| == Elems(kind) && s < |f|
    ensures Sum(BitCost(kind, f[s := f[s] + 1], ls)) == Sum(BitCost(kind, f, ls)) + ls[s] + Xbits(kind, s)
  {
    hide Sum, BitCost, Xbits, Elems;
    var g := f[s := f[s] + 1];
    forall x | 0 <= x < |f| && x != s ensures BitCost(kind, g, ls)[x] == BitCost(kind, f, ls)[x] {
      CostAt(kind, f, ls, x);
      CostAt(kind, g, ls, x);
    }
    CostAt(kind, f, ls, s);
    CostAt(kind, g, ls, s);
    Distribute(ls[s] + Xbits(kind, s), f[s], 1);
    SumBump(BitCost(kind, f, ls), BitCost(kind, g, ls), s, ls[s] + Xbits(kind, s));
  }

  // ---------- the size of a block body ----------

  function TokenCost(ll: seq<nat>, dl: seq<nat>, t: Token): (n: nat)
    requires LitSym(t) < |ll| && (t.Match? ==> DistCode(t.dist) < |dl|)
  {
    match t
    case Literal(b) => ll[b]
    case Match(len, dist) =>
      ll[257 + LengthCode(len)] + LenExtra(LengthCode(len)) + dl[DistCode(dist)] + DistExtra(DistCode(dist))
  }

  lemma TokenBitsLen(ll: seq<nat>, dl: seq<nat>, t: Token)
    requires TokenCoded(ll, dl, t)
    ensures LitSym(t) < |ll| && (t.Match? ==> DistCode(t.dist) < |dl|)
    ensures |TokenBits(ll, dl, t)| == TokenCost(ll, dl, t)
  {
    hide LengthCode, DistCode, LenBase, DistBase, LenExtra, DistExtra, CodeBits, ToBits;
  }

  /** The vectors the encoder costs with agree with the codes it sends. */
  ghost predicate SameLens(ls: seq<nat>, lens: seq<nat>)
  {
    forall s :: 0 <= s < |ls| && s < |lens| ==> ls[s] == lens[s]
  }

  lemma TokenXbits(t: Token)
    ensures Xbits(LitTree, LitSym(t)) == if t.Match? then LenExtra(LengthCode(t.len)) else 0
    ensures t.Match? ==> Xbits(DistTree, DistCode(t.dist)) == DistExtra(DistCode(t.dist))
    ensures Xbits(LitTree, 256) == 0
  {
    hide LengthCode, DistCode, LenExtra, DistExtra;
  }

  lemma BodyCostStep(ls: seq<nat>, ds: seq<nat>, ll: seq<nat>, dl: seq<nat>, ts: seq<Token>, t: Token)
    requires |ls| == 286 && |ds| == 30 && SameLens(ls, ll) && SameLens(ds, dl) && TokenCoded(ll, dl, t)
    ensures Sum(BitCost(LitTree, LitFreqs(ts + [t]), ls)) + Sum(BitCost(DistTree, DistFreqs(ts + [t]), ds))
         == Sum(BitCost(LitTree, LitFreqs(ts), ls)) + Sum(BitCost(DistTree, DistFreqs(ts), ds)) + |TokenBits(ll, dl, t)|
  {
    hide LengthCode, DistCode, LenExtra, DistExtra, LitFreqs, DistFreqs, Sum, BitCost, Xbits, TokenBits;
    TokenBitsLen(ll, dl, t);
    TokenXbits(t);
    LitFreqsMore(ts, t);
    DistFreqsMore(ts, t);
    CostBump(LitTree, LitFreqs(ts), ls, LitSym(t));
    if t.Match? {
      CostBump(DistTree, DistFreqs(ts), ds, DistCode(t.dist));
    }
  }

  lemma EmptyBodyCost(ls: seq<nat>, ds: seq<nat>)
    requires |ls| == 286 && |ds| == 30
    ensures Sum(BitCost(LitTree, LitFreqs([]), ls)) == ls[256] && Sum(BitCost(DistTree, DistFreqs([]), ds)) == 0
  {
    hide Sum, BitCost, Xbits, LitFreqs, DistFreqs;
    NoTokens();
    var zero := seq(286, _ => 0);
    var f: seq<nat> := LitFreqs([]);
    forall x | 0 <= x < 286 ensures BitCost(LitTree, zero, ls)[x] == 0 {
      CostAt(LitTree, zero, ls, x);
    }
    SumZero(BitCost(LitTree, zero, ls));
    assert f == zero[256 := zero[256] + 1];
    CostBump(LitTree, zero, ls, 256);
    TokenXbits(Literal(0));
    forall x | 0 <= x < 30 ensures BitCost(DistTree, DistFreqs([]), ds)[x] == 0 {
      CostAt(DistTree, DistFreqs([]), ds, x);
    }
    SumZero(BitCost(DistTree, DistFreqs([]), ds));
  }

  /** What the trees cost is exactly what the block body takes. */
  lemma {:induction false} BodyCost(ls: seq<nat>, ds: seq<nat>, ll: seq<nat>, dl: seq<nat>, ts: seq<Token>)
    requires |ls| == 286 && |ds| == 30 && SameLens(ls, ll) && SameLens(ds, dl) && AllCoded(ll, dl, ts)
    ensures Sum(BitCost(LitTree, LitFreqs(ts), ls)) + Sum(BitCost(DistTree, DistFreqs(ts), ds))
         == |TokensBits(ll, dl, ts)| + ls[256]
    decreases |ts|
  {
    hide LitFreqs, DistFreqs, Sum, BitCost, TokenBits, TokenCoded;
    if ts == [] {
      EmptyBodyCost(ls, ds);
    } else {
      var n := |ts| - 1;
      assert ts == ts[..n] + [ts[n]];
      BodyCost(ls, ds, ll, dl, ts[..n]);
      BodyCostStep(ls, ds, ll, dl, ts[..n], ts[n]);
      TokensBitsAppend(ll, dl, ts[..n], [ts[n]]);
      OneToken(ll, dl, ts[n]);
    }
  }

  lemma OneToken(ll: seq<nat>, dl: seq<nat>, t: Token)
    requires TokenCoded(ll, dl, t)
    ensures AllCoded(ll, dl, [t]) && TokensBits(ll, dl, [t]) == TokenBits(ll, dl, t)
  {
    hide TokenBits, TokenCoded;
    assert [t][1..] == [];
    assert TokenBits(ll, dl, t) + [] == TokenBits(ll, dl, t);
  }

  // ---------- the size of the coded lengths ----------

  lemma OpFreqsMore(op: Op, ops: seq<Op>)
    requires op.sym < 19
    ensures OpFreqs([op] + ops) == OpFreqs(ops)[op.sym := OpFreqs(ops)[op.sym] + 1]
  {
    assert ([op] + ops)[1..] == ops;
  }

  lemma {:induction false} OpsCost(cl: seq<nat>, ops: seq<Op>)
    requires |cl| == 19 && AllOpsCoded(cl, ops)
    ensures Sum(BitCost(BlTree, OpFreqs(ops), cl)) == |OpsBits(cl, ops)|
    decreases |ops|
  {
    hide OpFreqs, Sum, BitCost, CodeBits, ToBits;
    if ops == [] {
      NoTokens();
      forall x | 0 <= x < 19 ensures BitCost(BlTree, OpFreqs([]), cl)[x] == 0 {
        CostAt(BlTree, OpFreqs([]), cl, x);
      }
      SumZero(BitCost(BlTree, OpFreqs([]), cl));
    } else {
      OpsCost(cl, ops[1..]);
      assert ops == [ops[0]] + ops[1..];
      OpFreqsMore(ops[0], ops[1..]);
      CostBump(BlTree, OpFreqs(ops[1..]), cl, ops[0].sym);
      assert OpCoded(cl, ops[0]);
    }
  }

  // ---------- totals of the frequencies ----------

  lemma {:induction false} FreqTotals(ts: seq<Token>)
    ensures Sum(LitFreqs(ts)) == |ts| + 1 && Sum(DistFreqs(ts)) <= |ts|
    decreases |ts|
  {
    hide LitFreqs, DistFreqs, Sum, LengthCode, DistCode;
    if ts == [] {
      NoTokens();
      var zero := seq(286, _ => 0);
      SumZero(zero);
      SumBump(zero, LitFreqs([]), 256, 1);
      SumZero(DistFreqs([]));
    } else {
      var n := |ts| - 1;
      var t := ts[n];
      assert ts == ts[..n] + [t];
      FreqTotals(ts[..n]);
      LitFreqsMore(ts[..n], t);
      DistFreqsMore(ts[..n], t);
      SumBump(LitFreqs(ts[..n]), LitFreqs(ts), LitSym(t), 1);
      if t.Match? {
        SumBump(DistFreqs(ts[..n]), DistFreqs(ts), DistCode(t.dist), 1);
      }
    }
  }

  lemma {:induction false} OpTotals(ops: seq<Op>)
    requires forall op :: op in ops ==> op.sym < 19
    ensures Sum(OpFreqs(ops)) == |ops|
    decreases |ops|
  {
    hide OpFreqs, Sum;
    if ops == [] {
      NoTokens();
      SumZero(OpFreqs([]));
    } else {
      OpTotals(ops[1..]);
      assert ops == [ops[0]] + ops[1..];
      OpFreqsMore(ops[0], ops[1..]);
      SumBump(OpFreqs(ops[1..]), OpFreqs(ops), ops[0].sym, 1);
    }
  }

  /** Coding lengths in runs never takes more symbols than there are lengths. */
  lemma {:induction false} RleShort(lens: seq<nat>, n: nat, prev: int, count: nat)
    requires n <= |lens| && (n < |lens| ==> count < MaxCount(prev, lens[n]))
    ensures |RleFrom(lens, n, prev, count)| <= |lens| - n + count
    decreases |lens| - n
  {
    hide MaxCount, RunOps;
    if n < |lens| {
      var cur, next := lens[n], NextLen(lens, n);
      if count + 1 < MaxCount(prev, cur) && cur == next && n + 1 < |lens| {
        RleShort(lens, n + 1, prev, count + 1);
      } else {
        RunShort(prev, cur, count + 1);
        RleShort(lens, n + 1, cur, 0);
      }
    }
  }

  lemma RunShort(prev: int, cur: nat, count: nat)
    requires 1 <= count <= MaxCount(prev, cur)
    ensures |RunOps(prev, cur, count)| <= count
  {
  }
}
