/** The steps of the decoder machine in the form the states of inflate() take them (inflate.c). */
module InflateSteps {
  import opened Bits
  import opened Canonical
  import opened Symbols
  import opened Lz77
  import opened Decoder
  import opened MoreInput
  import opened DecodeTable
  import opened BitReader
  import opened Windowed

  /** The machine waits for input. */
  ghost predicate Waits(c: Config, floor: nat)
  {
    StepIn(c, floor).None?
  }

  ghost predicate Goes(c: Config, floor: nat, d: Config)
  {
    StepIn(c, floor) == Some(d)
  }

  lemma GoesLeads(c: Config, floor: nat, d: Config)
    requires Goes(c, floor, d)
    ensures LeadsIn(c, floor, d)
  {
    hide StepIn, LeadsIn;
    LeadsInStep(c, floor);
  }

  lemma OnTypeLast(c: Config, floor: nat)
    requires c.st.mode.Type? && c.st.last
    ensures Goes(c, floor, Config(c.st.(mode := Done), Aligned(c.unread)))
  {
    hide Aligned;
  }

  lemma OnType(c: Config, floor: nat)
    requires c.st.mode.Type? && !c.st.last
    ensures |c.unread| < 3 ==> Waits(c, floor)
    ensures |c.unread| >= 3 ==>
      (var kind, rest := Field(c.unread, 1, 2), c.unread[3..];
       Goes(c, floor, Config(BlockOpen(c.st.(last := c.unread[0]), kind), if kind == 0 then Aligned(rest) else rest)))
  {
    hide Aligned, Field, FixedLitLens, FixedDistLens;
  }

  /** The state after the type of a block is known. */
  ghost function BlockOpen(st: State, kind: nat): (r: State)
  {
    if kind == 0 then st.(mode := Stored)
    else if kind == 1 then st.(mode := Len, llens := FixedLitLens(), dlens := FixedDistLens())
    else if kind == 2 then st.(mode := Table)
    else st.(mode := Bad)
  }

  lemma BlockOpenIs(st: State, kind: nat, o: seq<Byte>)
    ensures var m := BlockOpen(st, kind).mode;
            m == if kind == 0 then Stored else if kind == 1 then Len else if kind == 2 then Table else Bad
    ensures BlockOpen(st, kind).last == st.last && BlockOpen(st.(out := o), kind) == BlockOpen(st, kind).(out := o)
    ensures kind == 1 ==> BlockOpen(st, kind).llens == FixedLitLens() && BlockOpen(st, kind).dlens == FixedDistLens()
  {
    hide FixedLitLens, FixedDistLens;
  }

  lemma OnStored(c: Config, floor: nat)
    requires c.st.mode.Stored?
    ensures |c.unread| < 32 ==> Waits(c, floor)
    ensures |c.unread| >= 32 ==>
      Goes(c, floor,
           if Field(c.unread, 0, 16) + Field(c.unread, 16, 16) != 65535 then Config(c.st.(mode := Bad), c.unread)
           else Config(c.st.(mode := Copying, length := Field(c.unread, 0, 16)), c.unread[32..]))
  {
    hide Field;
  }

  lemma OnCopying(c: Config, floor: nat, b: Byte, rest: seq<Byte>)
    requires c.st.mode.Copying? && c.st.length > 0 && c.unread == BytesToBits([b] + rest)
    ensures Goes(c, floor, Config(c.st.(length := c.st.length - 1, out := c.st.out + [b]), BytesToBits(rest)))
  {
    hide FromBits, ToBits, Low;
    assert ([b] + rest)[1..] == rest;
    assert c.unread[..8] == ToBits(b, 8) && c.unread[8..] == BytesToBits(rest);
    FromToBits(b, 8);
    Pow2Values();
    LowSmall(b, 8);
  }

  lemma OnCopyingWaits(c: Config, floor: nat)
    requires c.st.mode.Copying? && c.st.length > 0 && c.unread == []
    ensures Waits(c, floor)
  {
  }

  lemma OnCopied(c: Config, floor: nat)
    requires c.st.mode.Copying? && c.st.length == 0
    ensures Goes(c, floor, Config(c.st.(mode := Type), c.unread))
  {
  }

  lemma OnTable(c: Config, floor: nat)
    requires c.st.mode.Table?
    ensures |c.unread| < 14 ==> Waits(c, floor)
    ensures |c.unread| >= 14 ==>
      (var nlen, ndist, ncode := Field(c.unread, 0, 5) + 257, Field(c.unread, 5, 5) + 1, Field(c.unread, 10, 4) + 4;
       var st := c.st.(nlen := nlen, ndist := ndist, ncode := ncode);
       Goes(c, floor,
            if nlen > 286 || ndist > 30 then Config(st.(mode := Bad), c.unread[14..])
            else Config(st.(mode := LenLens, got := []), c.unread[14..])))
  {
    hide Field;
  }

  lemma OnLenLens(c: Config, floor: nat)
    requires c.st.mode.LenLens?
    ensures |c.st.got| < c.st.ncode && |c.unread| < 3 ==> Waits(c, floor)
    ensures |c.st.got| < c.st.ncode && |c.unread| >= 3 ==>
      Goes(c, floor, Config(c.st.(got := c.st.got + [Field(c.unread, 0, 3)]), c.unread[3..]))
    ensures |c.st.got| >= c.st.ncode ==>
      Goes(c, floor,
           if Acceptable(CODES, Permuted(c.st.got))
           then Config(c.st.(mode := CodeLens, got := [], clens := Permuted(c.st.got)), c.unread)
           else Config(c.st.(mode := Bad), c.unread))
  {
    hide Field, Acceptable, Permuted;
  }

  lemma OnCodeWaits(c: Config, floor: nat)
    requires c.st.mode.CodeLens? && |c.st.got| < c.st.nlen + c.st.ndist && Find(c.st.clens, c.unread) == Wait
    ensures Waits(c, floor)
  {
    hide Find;
  }

  /** A length, or an unused bit pattern of the empty code, which counts as 0. */
  lemma OnCodePlain(c: Config, floor: nat, e: Code)
    requires c.st.mode.CodeLens? && |c.st.got| < c.st.nlen + c.st.ndist
    requires Means(CODES, c.st.clens, c.unread, e) && e.val < 16
    ensures e.bits <= |c.unread|
    ensures Goes(c, floor, Config(c.st.(got := c.st.got + [e.val]), c.unread[e.bits..]))
  {
    hide Find;
  }

  function RepeatBits(s: nat): (n: nat)
  {
    if s == 16 then 2 else if s == 17 then 3 else 7
  }

  lemma OnCodeRepeat(c: Config, floor: nat, e: Code)
    requires c.st.mode.CodeLens? && |c.st.got| < c.st.nlen + c.st.ndist
    requires Means(CODES, c.st.clens, c.unread, e) && e.val >= 16
    ensures var s, u, l, n, got := e.val, c.unread, e.bits, RepeatBits(e.val), c.st.got;
            l <= |u| && s <= 18
            && (|u| < l + n ==> Waits(c, floor))
            && (|u| >= l + n ==>
                  (s == 16 && got == [] ==> Goes(c, floor, Config(c.st.(mode := Bad), u[l..])))
                  && (!(s == 16 && got == []) ==>
                        var val := if s == 16 then got[|got| - 1] else 0;
                        var times := (if s == 18 then 11 else 3) + Field(u, l, n);
                        Goes(c, floor,
                             if |got| + times > c.st.nlen + c.st.ndist then Config(c.st.(mode := Bad), u[l + n..])
                             else Config(c.st.(got := got + seq(times, _ => val)), u[l + n..]))))
  {
    hide Find, Field;
  }

  lemma OnCodesIn(c: Config, floor: nat)
    requires c.st.mode.CodeLens? && |c.st.got| == c.st.nlen + c.st.ndist && c.st.nlen >= 257
    ensures var ll, dl := c.st.got[..c.st.nlen], c.st.got[c.st.nlen..];
            Goes(c, floor,
                 if c.st.got[256] != 0 && Acceptable(LENS, ll) && Acceptable(DISTS, dl)
                 then Config(c.st.(mode := Len, llens := ll, dlens := dl), c.unread)
                 else Config(c.st.(mode := Bad), c.unread))
  {
    hide Find, Acceptable;
  }

  lemma OnLenWaits(c: Config, floor: nat)
    requires c.st.mode.Len? && Find(c.st.llens, c.unread) == Wait
    ensures Waits(c, floor)
  {
    hide Find;
  }

  /** What an entry of the literal/length table does. */
  lemma OnLen(c: Config, floor: nat, e: Code)
    requires c.st.mode.Len? && Means(LENS, c.st.llens, c.unread, e)
    ensures 1 <= e.bits <= |c.unread|
    ensures var rest := c.unread[e.bits..];
            if e.op == 0 then e.val < 256 && Goes(c, floor, Config(c.st.(mode := Lit, length := e.val), rest))
            else if Has(e.op, 32) then Goes(c, floor, Config(c.st.(mode := Type), rest))
            else if Has(e.op, 64) then Goes(c, floor, Config(c.st.(mode := Bad), rest))
            else
              e.op % 16 <= 5
              && Goes(c, floor, Config(c.st.(mode := LenExt, length := e.val, extra := e.op % 16), rest))
  {
    hide Find, LenBase, LenExtra, LBASE, LEXT;
    match Find(c.st.llens, c.unread)
    case Found(s) =>
      LitEntry(s, c.st.llens[s]);
    case Nothing =>
  }

  lemma LitEntry(s: nat, bits: nat)
    requires s < 288
    ensures var e := Entry(LENS, s, bits);
            (s < 256 ==> e.op == 0 && e.val == s)
            && (s == 256 ==> e.op != 0 && Has(e.op, 32))
            && (257 <= s < 286 ==>
                  e.op == 16 + LenExtra(s - 257) && e.op != 0 && !Has(e.op, 32) && !Has(e.op, 64)
                  && e.val == LenBase(s - 257) && e.op % 16 == LenExtra(s - 257))
            && (s >= 286 ==> e.op != 0 && !Has(e.op, 32) && Has(e.op, 64))
  {
    hide LenBase, LenExtra;
    if 257 <= s < 286 {
      LengthTable(s - 257);
    }
  }

  lemma OnLenExt(c: Config, floor: nat)
    requires c.st.mode.LenExt?
    ensures |c.unread| < c.st.extra ==> Waits(c, floor)
    ensures |c.unread| >= c.st.extra ==>
      Goes(c, floor,
           Config(c.st.(mode := Dist, length := c.st.length + Field(c.unread, 0, c.st.extra)), c.unread[c.st.extra..]))
  {
    hide Field;
  }

  lemma OnDistWaits(c: Config, floor: nat)
    requires c.st.mode.Dist? && Find(c.st.dlens, c.unread) == Wait
    ensures Waits(c, floor)
  {
    hide Find;
  }

  lemma OnDist(c: Config, floor: nat, e: Code)
    requires c.st.mode.Dist? && Means(DISTS, c.st.dlens, c.unread, e)
    ensures 1 <= e.bits <= |c.unread|
    ensures var rest := c.unread[e.bits..];
            if Has(e.op, 64) then Goes(c, floor, Config(c.st.(mode := Bad), rest))
            else
              e.op % 16 <= 13
              && Goes(c, floor, Config(c.st.(mode := DistExt, offset := e.val, extra := e.op % 16), rest))
  {
    hide Find, DistBase, DistExtra, DBASE, DEXT;
    match Find(c.st.dlens, c.unread)
    case Found(s) =>
      DistEntry(s, c.st.dlens[s]);
    case Nothing =>
  }

  lemma DistEntry(s: nat, bits: nat)
    requires s < 32
    ensures var e := Entry(DISTS, s, bits);
            (s < 30 ==>
             e.op == 16 + DistExtra(s) && !Has(e.op, 64) && e.val == DistBase(s) && e.op % 16 == DistExtra(s))
            && (s >= 30 ==> Has(e.op, 64))
  {
    hide DistBase, DistExtra;
    if s < 30 {
      DistanceTable(s);
    }
  }

  lemma OnDistExt(c: Config, floor: nat)
    requires c.st.mode.DistExt?
    ensures |c.unread| < c.st.extra ==> Waits(c, floor)
    ensures |c.unread| >= c.st.extra ==>
      Goes(c, floor,
           Config(c.st.(mode := Matching, offset := c.st.offset + Field(c.unread, 0, c.st.extra)),
                  c.unread[c.st.extra..]))
  {
    hide Field;
  }

  lemma OnTooFar(c: Config, floor: nat)
    requires c.st.mode.Matching? && c.st.offset + floor > |c.st.out|
    ensures Goes(c, floor, Config(c.st.(mode := Bad), c.unread))
  {
  }

  lemma OnMatching(c: Config, floor: nat)
    requires c.st.mode.Matching? && 1 <= c.st.offset && c.st.offset + floor <= |c.st.out| && c.st.length >= 1
    ensures var out := c.st.out + [c.st.out[|c.st.out| - c.st.offset]];
            Goes(c, floor,
                 if c.st.length == 1 then Config(c.st.(mode := Len, length := 0, out := out), c.unread)
                 else Config(c.st.(length := c.st.length - 1, out := out), c.unread))
  {
  }

  /** All the steps of a match: the copy of section 3.2.3 of RFC 1951. */
  lemma {:induction false} CopyLeads(c: Config, floor: nat, len: nat)
    requires c.st.mode.Matching? && c.st.length == len >= 1 && 1 <= c.st.offset && c.st.offset + floor <= |c.st.out|
    ensures LeadsIn(c, floor,
                    Config(c.st.(mode := Len, length := 0, out := Copy(c.st.out, c.st.offset, len)), c.unread))
    decreases len
  {
    hide Goes, LeadsIn;
    OnMatching(c, floor);
    var out := c.st.out + [c.st.out[|c.st.out| - c.st.offset]];
    if len == 1 {
      assert Copy(out, c.st.offset, 0) == out;
      GoesLeads(c, floor, Config(c.st.(mode := Len, length := 0, out := out), c.unread));
    } else {
      var d := Config(c.st.(length := len - 1, out := out), c.unread);
      GoesLeads(c, floor, d);
      CopyLeads(d, floor, len - 1);
      LeadsInTrans(c, floor, d,
                   Config(c.st.(mode := Len, length := 0, out := Copy(out, c.st.offset, len - 1)), c.unread));
    }
  }

  lemma OnLit(c: Config, floor: nat)
    requires c.st.mode.Lit? && c.st.length < 256
    ensures Goes(c, floor, Config(c.st.(mode := Len, out := c.st.out + [c.st.length]), c.unread))
  {
  }

  lemma OnStop(c: Config, floor: nat)
    requires c.st.mode.Done? || c.st.mode.Bad?
    ensures Waits(c, floor)
  {
  }
}
