/** Sending the body of a block (trees.c: compress_block), and why the symbol buffer may share
    memory with the output (deflate.c: deflateInit2_). */
module BlockBody {
  import opened Bits
  import opened Canonical
  import opened Symbols
  import opened Lz77
  import opened Decoder
  import opened MoreInput
  import opened BlockFormat
  import opened BlockHeader
  import opened BlockStream
  import opened BitWriter
  import opened TreeSend
  import opened Tally

  lemma HeadParts(ll: seq<nat>, dl: seq<nat>, len: nat, dist: nat)
    requires TokenCoded(ll, dl, Match(len, dist))
    ensures Coded(ll, 257 + LengthCode(len)) && Coded(dl, DistCode(dist))
    ensures LenBase(LengthCode(len)) <= len < LenBase(LengthCode(len)) + Pow2(LenExtra(LengthCode(len)))
    ensures DistBase(DistCode(dist)) <= dist < DistBase(DistCode(dist)) + Pow2(DistExtra(DistCode(dist)))
    ensures TokenBits(ll, dl, Match(len, dist))
         == CodeBits(ll, 257 + LengthCode(len)) + ToBits(len - LenBase(LengthCode(len)), LenExtra(LengthCode(len)))
          + CodeBits(dl, DistCode(dist)) + ToBits(dist - DistBase(DistCode(dist)), DistExtra(DistCode(dist)))
  {
    hide LengthCode, DistCode, LenBase, DistBase, LenExtra, DistExtra, CodeBits, ToBits, Pow2;
    LengthCodeRange(len);
    DistCodeRange(dist);
  }

  lemma Constants()
    ensures LITERALS == 256 && END_BLOCK == 256
  {
  }

  lemma Appended(s: BitString, a: BitString, b: BitString, c: BitString, d: BitString)
    ensures s + a + b == s + (a + b)
    ensures s + a + b + c == s + (a + b + c)
    ensures s + a + b + c + d == s + (a + b + c + d)
  {
  }

  /** Send extra bits, if there are any. */
  method SendExtra(w: Writer, value: nat, n: nat)
    requires w.Valid() && n <= 13 && value < Pow2(n) && w.biValid >= 1
    modifies w
    ensures w.Valid() && w.Stream() == old(w.Stream()) + ToBits(value, n)
    ensures old(w.pending) <= w.pending && (|w.pending| - |old(w.pending)|) % 2 == 0 && w.biValid >= 1
  {
    hide *;
    if n != 0 {
      w.SendBits(value, n);
    } else {
      NoBits(value);
    }
  }

  /** Send one symbol of the buffer: a literal byte, or a length and distance pair. */
  method SendSymbol(w: Writer, dist: nat, lc: Byte, lfc: array<nat>, ldl: array<nat>, dfc: array<nat>, ddl: array<nat>,
                    ghost ll: seq<nat>, ghost dl: seq<nat>)
    requires w.Valid() && CodeTable(lfc[..], ldl[..], ll) && CodeTable(dfc[..], ddl[..], dl)
    requires lfc.Length >= 286 && dfc.Length >= 30
    requires TokenCoded(ll, dl, if dist == 0 then Literal(lc) else Match(lc + 3, dist))
    modifies w
    ensures w.Valid()
    ensures w.Stream() == old(w.Stream()) + TokenBits(ll, dl, if dist == 0 then Literal(lc) else Match(lc + 3, dist))
    ensures old(w.pending) <= w.pending && (|w.pending| - |old(w.pending)|) % 2 == 0 && w.biValid >= 1
  {
    hide *;
    Constants();
    if dist == 0 {
      LiteralBits(ll, dl, lc);
      SendCode(w, lc, lfc, ldl, ll);
    } else {
      HeadParts(ll, dl, lc + 3, dist);
      ExtraFits(LengthCode(lc + 3), DistCode(dist));
      CodedIs(ll, 257 + LengthCode(lc + 3));
      CodedIs(dl, DistCode(dist));
      var code := LengthCode(lc + 3);
      SendCode(w, code + LITERALS + 1, lfc, ldl, ll);
      SendExtra(w, lc + 3 - LenBase(code), LenExtra(code));
      var dcode := DistCode(dist);
      SendCode(w, dcode, dfc, ddl, dl);
      SendExtra(w, dist - DistBase(dcode), DistExtra(dcode));
      Appended(old(w.Stream()), CodeBits(ll, 257 + code), ToBits(lc + 3 - LenBase(code), LenExtra(code)),
               CodeBits(dl, dcode), ToBits(dist - DistBase(dcode), DistExtra(dcode)));
    }
  }

  lemma ExtraFits(code: nat, dcode: nat)
    requires code < 29 && dcode < 30
    ensures LenExtra(code) <= 13 && DistExtra(dcode) <= 13
  {
  }

  lemma CodedIs(lens: seq<nat>, s: nat)
    requires Coded(lens, s)
    ensures s < |lens| && lens[s] <= 15
  {
  }

  lemma LiteralBits(ll: seq<nat>, dl: seq<nat>, lc: Byte)
    requires TokenCoded(ll, dl, Literal(lc))
    ensures Coded(ll, lc) && TokenBits(ll, dl, Literal(lc)) == CodeBits(ll, lc)
  {
    hide CodeBits;
  }

  lemma PrefixCoded(ll: seq<nat>, dl: seq<nat>, ts: seq<Token>, k: nat)
    requires AllCoded(ll, dl, ts) && k < |ts|
    ensures AllCoded(ll, dl, ts[..k]) && AllCoded(ll, dl, ts[..k + 1]) && TokenCoded(ll, dl, ts[k])
    ensures TokensBits(ll, dl, ts[..k + 1]) == TokensBits(ll, dl, ts[..k]) + TokenBits(ll, dl, ts[k])
  {
    hide TokenCoded, TokenBits;
    assert ts[..k + 1] == ts[..k] + [ts[k]];
    OneToken(ll, dl, ts[k]);
    TokensBitsAppend(ll, dl, ts[..k], [ts[k]]);
  }

  lemma {:induction false} TokensOfPrefix(s: seq<nat>, k: nat)
    requires SymBytes(s) && 3 * k <= |s|
    ensures SymBytes(s[..3 * k]) && TokensOf(s[..3 * k]) == TokensOf(s)[..k]
    ensures 3 * k < |s| ==> TokensOf(s)[k] == TokenOf(s[3 * k], s[3 * k + 1], s[3 * k + 2])
    decreases |s|
  {
    if 3 * k == |s| {
      assert s[..3 * k] == s;
    } else {
      var n := |s| - 3;
      TokensOfPrefix(s[..n], k);
      assert s[..n][..3 * k] == s[..3 * k];
    }
  }

  lemma AllPrefix(ll: seq<nat>, dl: seq<nat>, ts: seq<Token>, k: nat)
    requires AllCoded(ll, dl, ts) && k <= |ts|
    ensures AllCoded(ll, dl, ts[..k])
    ensures k == 0 ==> TokensBits(ll, dl, ts[..k]) == []
    ensures k == |ts| ==> ts[..k] == ts
  {
    hide TokenCoded, TokenBits;
  }

  /** p is what has been put out of the bits v by a writer that had put out p0 bytes before: it puts out two bytes at a
      time, and only when more than sixteen bits are there. */
  ghost predicate PutOut(p: seq<Byte>, p0: nat, v: BitString)
  {
    && BytesToBits(p) <= v && 8 * |p| < |v| <= 8 * |p| + 16
    && p0 <= |p| && (|p| - p0) % 2 == 0
  }

  lemma PutOutNow(w: Writer, p0: nat)
    requires w.Valid() && w.biValid >= 1 && p0 <= |w.pending| && (|w.pending| - p0) % 2 == 0
    ensures PutOut(w.pending, p0, w.Stream())
  {
    hide ToBits;
  }

  /** There is only one such p. */
  lemma PutOutUnique(p: seq<Byte>, q: seq<Byte>, p0: nat, v: BitString)
    requires PutOut(p, p0, v) && PutOut(q, p0, v)
    ensures p == q
  {
    hide BytesToBits;
    assert |p| == |q|;
    assert BytesToBits(p) == v[..8 * |p|] == BytesToBits(q);
    SameBytes(p, q);
  }

  lemma {:induction false} SameBytes(p: seq<Byte>, q: seq<Byte>)
    requires |p| == |q| && BytesToBits(p) == BytesToBits(q)
    ensures p == q
    decreases |p|
  {
    hide ToBits;
    if p != [] {
      var a, b := ToBits(p[0], 8), ToBits(q[0], 8);
      var u := BytesToBits(p);
      assert a == u[..8] == b;
      Pow2Values();
      FromToBits(p[0], 8);
      FromToBits(q[0], 8);
      LowSmall(p[0], 8);
      LowSmall(q[0], 8);
      assert BytesToBits(p[1..]) == u[8..] == BytesToBits(q[1..]);
      SameBytes(p[1..], q[1..]);
    }
  }

  ghost predicate Mark(mark: seq<Byte>, p0: nat, start: BitString, ll: seq<nat>, dl: seq<nat>, ts: seq<Token>, i: nat)
    requires i < |ts|
  {
    AllCoded(ll, dl, ts[..i + 1]) && PutOut(mark, p0, start + TokensBits(ll, dl, ts[..i + 1]))
  }

  /** The bytes that had been put out after each symbol. */
  ghost predicate Marks(marks: seq<seq<Byte>>, p0: nat, start: BitString, ll: seq<nat>, dl: seq<nat>, ts: seq<Token>,
                        k: nat)
    requires AllCoded(ll, dl, ts) && k <= |ts|
  {
    |marks| == k && forall i :: 0 <= i < k ==> Mark(marks[i], p0, start, ll, dl, ts, i)
  }

  ghost predicate Within(marks: seq<seq<Byte>>, pending: seq<Byte>)
  {
    forall i :: 0 <= i < |marks| ==> marks[i] <= pending
  }

  lemma WithinMore(marks: seq<seq<Byte>>, p: seq<Byte>, q: seq<Byte>)
    requires Within(marks, p) && p <= q
    ensures Within(marks, q) && Within(marks + [q], q)
  {
    forall i | 0 <= i < |marks|
      ensures marks[i] <= q
    {
      assert marks[i] <= p;
    }
  }

  lemma MarksMore(marks: seq<seq<Byte>>, p0: nat, start: BitString, ll: seq<nat>, dl: seq<nat>, ts: seq<Token>, k: nat,
                  mark: seq<Byte>)
    requires AllCoded(ll, dl, ts) && k < |ts| && Marks(marks, p0, start, ll, dl, ts, k)
    requires AllCoded(ll, dl, ts[..k + 1]) && PutOut(mark, p0, start + TokensBits(ll, dl, ts[..k + 1]))
    ensures Marks(marks + [mark], p0, start, ll, dl, ts, k + 1)
  {
    hide AllCoded, TokensBits, PutOut;
  }

  /** Counting from an earlier point. */
  lemma MarksFrom(marks: seq<seq<Byte>>, p0: nat, p1: nat, start: BitString, ll: seq<nat>, dl: seq<nat>, ts: seq<Token>)
    requires AllCoded(ll, dl, ts) && Marks(marks, p1, start, ll, dl, ts, |ts|) && p0 <= p1 && (p1 - p0) % 2 == 0
    ensures Marks(marks, p0, start, ll, dl, ts, |ts|)
  {
    hide AllCoded, TokensBits, BytesToBits;
    forall i | 0 <= i < |ts|
      ensures Mark(marks[i], p0, start, ll, dl, ts, i)
    {
      assert Mark(marks[i], p1, start, ll, dl, ts, i);
    }
  }

  /** Send all symbols of the buffer and the end-of-block code. */
  method CompressBlock(w: Writer, symBuf: array<nat>, symNext: nat, lfc: array<nat>, ldl: array<nat>,
                       dfc: array<nat>, ddl: array<nat>, ghost ll: seq<nat>, ghost dl: seq<nat>)
      returns (ghost marks: seq<seq<Byte>>)
    requires w.Valid() && CodeTable(lfc[..], ldl[..], ll) && CodeTable(dfc[..], ddl[..], dl)
    requires lfc.Length >= 286 && dfc.Length >= 30
    requires symNext <= symBuf.Length && SymBytes(symBuf[..symNext])
    requires AllCoded(ll, dl, TokensOf(symBuf[..symNext])) && Coded(ll, 256)
    modifies w
    ensures w.Valid()
    ensures w.Stream() == old(w.Stream()) + BodyBits(ll, dl, TokensOf(symBuf[..symNext]))
    ensures Marks(marks, |old(w.pending)|, old(w.Stream()), ll, dl, TokensOf(symBuf[..symNext]),
                  |TokensOf(symBuf[..symNext])|)
    ensures Within(marks, w.pending) && old(w.pending) <= w.pending
  {
    hide *;
    Constants();
    ghost var s := symBuf[..symNext];
    ghost var ts := TokensOf(s);
    SymCount(s);
    var sx := 0;
    ghost var k := 0;
    ghost var p0, start := |w.pending|, w.Stream();
    marks := [];
    AllPrefix(ll, dl, ts, 0);
    NoMarks(p0, start, ll, dl, ts, w.pending);
    while sx < symNext
      invariant sx == 3 * k && k <= |ts| && symNext == 3 * |ts| && symBuf[..symNext] == s
      invariant w.Valid() && AllCoded(ll, dl, ts[..k])
      invariant w.Stream() == old(w.Stream()) + TokensBits(ll, dl, ts[..k])
      invariant Marks(marks, p0, start, ll, dl, ts, k) && Within(marks, w.pending)
      invariant old(w.pending) <= w.pending && (|w.pending| - p0) % 2 == 0
    {
      TokensOfPrefix(s, k);
      PrefixCoded(ll, dl, ts, k);
      SymByte(s, sx + 2);
      var dist, lc := symBuf[sx] + 256 * symBuf[sx + 1], symBuf[sx + 2];
      sx := sx + 3;
      assert s[3 * k] == symBuf[3 * k] && s[3 * k + 1] == symBuf[3 * k + 1] && s[3 * k + 2] == symBuf[3 * k + 2];
      TokenIs(s[3 * k], s[3 * k + 1], s[3 * k + 2]);
      ghost var before := w.pending;
      SendSymbol(w, dist, lc, lfc, ldl, dfc, ddl, ll, dl);
      Appended(start, TokensBits(ll, dl, ts[..k]), TokenBits(ll, dl, ts[k]), [], []);
      PutOutNow(w, p0);
      MarksMore(marks, p0, start, ll, dl, ts, k, w.pending);
      WithinMore(marks, before, w.pending);
      marks := marks + [w.pending];
      k := k + 1;
    }
    AllPrefix(ll, dl, ts, k);
    BodyIs(ll, dl, ts);
    CodedIs(ll, 256);
    ghost var before := w.pending;
    SendCode(w, END_BLOCK, lfc, ldl, ll);
    WithinMore(marks, before, w.pending);
    Appended(old(w.Stream()), TokensBits(ll, dl, ts), CodeBits(ll, 256), [], []);
  }

  lemma NoMarks(p0: nat, start: BitString, ll: seq<nat>, dl: seq<nat>, ts: seq<Token>, pending: seq<Byte>)
    requires AllCoded(ll, dl, ts)
    ensures Marks([], p0, start, ll, dl, ts, 0) && Within([], pending)
  {
  }

  lemma SymCount(s: seq<nat>)
    requires SymBytes(s)
    ensures |s| == 3 * |TokensOf(s)|
  {
    hide TokensOf;
  }

  lemma SymByte(s: seq<nat>, i: nat)
    requires SymBytes(s) && i < |s|
    ensures s[i] < 256
  {
  }

  lemma TokenIs(lo: nat, hi: nat, lc: Byte)
    ensures TokenOf(lo, hi, lc) == if lo + 256 * hi == 0 then Literal(lc) else Match(lc + 3, lo + 256 * hi)
  {
  }

  lemma BodyIs(ll: seq<nat>, dl: seq<nat>, ts: seq<Token>)
    requires AllCoded(ll, dl, ts) && Coded(ll, 256)
    ensures BodyBits(ll, dl, ts) == TokensBits(ll, dl, ts) + CodeBits(ll, 256)
  {
    hide CodeBits, TokensBits;
  }

  // ---------- the overlay of the symbol buffer on the output ----------

  /** A symbol takes at most 31 bits with the fixed codes. */
  lemma FixedTokenBits(t: Token)
    requires TokenCoded(FixedLitLens(), FixedDistLens(), t)
    ensures |TokenBits(FixedLitLens(), FixedDistLens(), t)| <= 31
  {
    hide TokenBits, TokenCoded, LengthCode, DistCode, LenExtra, DistExtra, CodeBits;
    var ll, dl := FixedLitLens(), FixedDistLens();
    TokenBitsLen(ll, dl, t);
    if t.Match? {
      assert ll[257 + LengthCode(t.len)] <= 8;
    }
  }

  lemma {:induction false} FixedTokensBits(ts: seq<Token>)
    requires AllCoded(FixedLitLens(), FixedDistLens(), ts)
    ensures |TokensBits(FixedLitLens(), FixedDistLens(), ts)| <= 31 * |ts|
  {
    hide TokenBits, TokenCoded, FixedLitLens, FixedDistLens;
    if ts != [] {
      FixedTokenBits(ts[0]);
      FixedTokensBits(ts[1..]);
    }
  }

  /** In a fixed block that starts when the caller has taken all whole bytes, so that at most seven
      bits are held, the output never reaches a symbol that is still to be read, although the symbol
      buffer starts litBufsize bytes into the output buffer: after symbol i, less than
      litBufsize + 3 (i + 1) bytes wait there. */
  lemma OverlaySafe(marks: seq<seq<Byte>>, p0: nat, start: BitString, taken: nat, ts: seq<Token>, litBufsize: nat)
    requires 128 <= litBufsize && |ts| <= litBufsize - 1
    requires |start| <= 8 * taken + 7 + 3
    requires AllCoded(FixedLitLens(), FixedDistLens(), ts)
    requires Marks(marks, p0, start, FixedLitLens(), FixedDistLens(), ts, |ts|)
    ensures |marks| == |ts| && forall i :: 0 <= i < |ts| ==> |marks[i]| - taken < litBufsize + 3 * (i + 1)
  {
    hide TokensBits, TokenCoded, FixedLitLens, FixedDistLens, AllCoded;
    forall i | 0 <= i < |ts| ensures |marks[i]| - taken < litBufsize + 3 * (i + 1) {
      MarkAt(marks, p0, start, FixedLitLens(), FixedDistLens(), ts, i);
      FixedTokensBits(ts[..i + 1]);
    }
  }

  lemma MarkAt(marks: seq<seq<Byte>>, p0: nat, start: BitString, ll: seq<nat>, dl: seq<nat>, ts: seq<Token>, i: nat)
    requires AllCoded(ll, dl, ts) && i < |ts| && Marks(marks, p0, start, ll, dl, ts, |ts|)
    ensures i < |marks| && AllCoded(ll, dl, ts[..i + 1])
    ensures 8 * |marks[i]| < |start| + |TokensBits(ll, dl, ts[..i + 1])|
  {
    hide AllCoded, TokensBits;
    assert Mark(marks[i], p0, start, ll, dl, ts, i);
  }
}
