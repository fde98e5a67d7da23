/** Two-level decoding tables: their entries, how they are read, and what they must hold
    (inftrees.h, inftrees.c, and the look-ups of inflate.c). */
module DecodeTable {
  import opened Bits
  import opened Canonical
  import opened Symbols
  import opened Decoder

  /** One entry: what to do, bits to drop, and a value. */
  datatype Code = Code(op: nat, bits: nat, val: nat)

  const INVALID: Code := Code(64, 1, 0)

  // ---------- the constant tables ----------

  const LBASE: seq<nat> := [
    3, 4, 5, 6, 7, 8, 9, 10, 11, 13, 15, 17, 19, 23, 27, 31,
    35, 43, 51, 59, 67, 83, 99, 115, 131, 163, 195, 227, 258, 0, 0]
  const LEXT: seq<nat> := [
    16, 16, 16, 16, 16, 16, 16, 16, 17, 17, 17, 17, 18, 18, 18, 18,
    19, 19, 19, 19, 20, 20, 20, 20, 21, 21, 21, 21, 16, 198, 203]
  const DBASE: seq<nat> := [
    1, 2, 3, 4, 5, 7, 9, 13, 17, 25, 33, 49, 65, 97, 129, 193,
    257, 385, 513, 769, 1025, 1537, 2049, 3073, 4097, 6145,
    8193, 12289, 16385, 24577, 0, 0]
  const DEXT: seq<nat> := [
    16, 16, 16, 16, 17, 17, 18, 18, 19, 19, 20, 20, 21, 21, 22, 22,
    23, 23, 24, 24, 25, 25, 26, 26, 27, 27,
    28, 28, 29, 29, 64, 64]

  /** The decoder's tables list the bases and extra bits of section 3.2.5 of RFC 1951, as the
      encoder computes them. */
  lemma {:induction false} LengthTable(k: nat)
    requires k < 29
    ensures LBASE[k] == LenBase(k) && LEXT[k] == 16 + LenExtra(k)
  {
    hide Pow2;
    Pow2Values();
  }

  lemma DistanceTable(k: nat)
    requires k < 30
    ensures DBASE[k] == DistBase(k) && DEXT[k] == 16 + DistExtra(k)
  {
    hide *;
    TablesFull();
    DistFormula(k);
    if k >= 4 {
      PowAt(k / 2 - 1);
      if k % 2 == 0 {
        EvenDistance(k / 2);
      } else {
        OddDistance(k / 2);
      }
    }
  }

  lemma TablesFull()
    ensures |LBASE| == |LEXT| == 31 && |DBASE| == |DEXT| == 32 && |POWERS| == 14
  {
  }

  lemma DistFormula(k: nat)
    requires k < 30
    ensures k < 4 ==> DBASE[k] == DistBase(k) && DEXT[k] == 16 + DistExtra(k)
    ensures k >= 4 ==> DistExtra(k) == k / 2 - 1
    ensures k >= 4 && k % 2 == 0 ==> DistBase(k) == 1 + 2 * Pow2(k / 2 - 1)
    ensures k >= 4 && k % 2 == 1 ==> DistBase(k) == 1 + 3 * Pow2(k / 2 - 1)
  {
    hide Pow2, POWERS;
  }

  const POWERS: seq<nat> := [1, 2, 4, 8, 16, 32, 64, 128, 256, 512, 1024, 2048, 4096, 8192]

  lemma PowAt(j: nat)
    requires j < 14
    ensures Pow2(j) == POWERS[j]
  {
    Pow2Values();
    assert Pow2(10) == 1024;
    assert Pow2(12) == 4096;
  }

  lemma EvenDistance(h: nat)
    requires 2 <= h < 15
    ensures DBASE[2 * h] == 1 + 2 * POWERS[h - 1] && DEXT[2 * h] == 16 + h - 1
  {
  }

  lemma OddDistance(h: nat)
    requires 2 <= h < 15
    ensures DBASE[2 * h + 1] == 1 + 3 * POWERS[h - 1] && DEXT[2 * h + 1] == 16 + h - 1
  {
  }

  // ---------- entries ----------

  /** The entry of symbol s with the given number of bits to drop. */
  function Entry(kind: CodeKind, s: nat, bits: nat): (e: Code)
    requires s < 288 && (kind.DISTS? ==> s < 32)
  {
    match kind
    case CODES => Code(0, bits, s)
    case LENS =>
      if s + 1 < 257 then Code(0, bits, s)
      else if s >= 257 then Code(LEXT[s - 257], bits, LBASE[s - 257])
      else Code(32 + 64, bits, 0)
    case DISTS => Code(DEXT[s], bits, DBASE[s])
  }

  /** The operation bits of an entry. */
  predicate Has(op: nat, bit: nat)
    requires bit > 0
  {
    (op / bit) % 2 == 1
  }

  predicate IsLink(e: Code)
  {
    1 <= e.op <= 15
  }

  ghost predicate SymbolsFit(kind: CodeKind, lens: seq<nat>)
  {
    |lens| <= (match kind case CODES => 19 case LENS => 288 case DISTS => 32)
  }

  lemma EntryIsNoLink(kind: CodeKind, s: nat, bits: nat)
    requires s < 288 && (kind.DISTS? ==> s < 32)
    ensures !IsLink(Entry(kind, s, bits)) && Entry(kind, s, bits).bits == bits
  {
  }

  // ---------- reading ----------

  /** The table with `root` index bits that starts at `start` is there to be read. */
  ghost predicate Readable(t: seq<Code>, start: nat, root: nat)
  {
    start + Pow2(root) <= |t|
    && forall p :: start <= p < start + Pow2(root) && IsLink(t[p]) ==>
         t[p].bits == root && root + t[p].op <= 15 && start + t[p].val + Pow2(t[p].op) <= |t|
  }

  lemma FirstInRange(t: seq<Code>, start: nat, root: nat, v: nat)
    requires Readable(t, start, root)
    ensures start + Low(v, root) < |t|
    ensures var e := t[start + Low(v, root)];
            IsLink(e) ==> start + e.val + Low(Shr(v, e.bits), e.op) < |t|
  {
    hide Low, Shr, Pow2;
    LowBound(v, root);
    var e := t[start + Low(v, root)];
    LowBound(Shr(v, e.bits), e.op);
  }

  /** What at most two look-ups find for the bits v, with all bits to drop counted. */
  function Read(t: seq<Code>, start: nat, root: nat, v: nat): (e: Code)
    requires start + Low(v, root) < |t|
    requires var e := t[start + Low(v, root)];
             IsLink(e) ==> start + e.val + Low(Shr(v, e.bits), e.op) < |t|
  {
    var e := t[start + Low(v, root)];
    if IsLink(e) then
      var f := t[start + e.val + Low(Shr(v, e.bits), e.op)];
      Code(f.op, e.bits + f.bits, f.val)
    else e
  }

  /** The table stands for the code: whatever the stream, the look-up finds the symbol whose code
      word comes first, and an invalid marker of one bit where no code word does. */
  ghost predicate Decodes(t: seq<Code>, start: nat, root: nat, kind: CodeKind, lens: seq<nat>)
  {
    SymbolsFit(kind, lens) && Readable(t, start, root)
    && forall v: nat :: ReadsAs(t, start, root, kind, lens, v)
  }

  ghost predicate ReadsAs(t: seq<Code>, start: nat, root: nat, kind: CodeKind, lens: seq<nat>, v: nat)
    requires SymbolsFit(kind, lens) && Readable(t, start, root)
  {
    FirstInRange(t, start, root, v);
    (forall s: nat :: Owns(lens, s, Rev(15, v)) ==> Read(t, start, root, v) == Entry(kind, s, lens[s]))
    && (!Owned(lens, Rev(15, v)) ==> Read(t, start, root, v) == INVALID)
  }

  // ---------- what is in place for one symbol ----------

  /** Every index whose low bits are the code of s holds the entry of s, in the root table or in
      the sub-table that the root entry of its first bits links to. */
  ghost predicate Placed(t: seq<Code>, start: nat, root: nat, used: nat, kind: CodeKind, lens: seq<nat>, s: nat)
    requires SymbolsFit(kind, lens) && Coded(lens, s)
  {
    start + used <= |t| && Pow2(root) <= used
    && if lens[s] <= root then PlacedAt(t, start, root, 0, kind, lens, s)
       else
         (LowBound(CodeVal(lens, s), root);
          var e := t[start + Low(CodeVal(lens, s), root)];
          IsLink(e) && e.bits == root && lens[s] <= root + e.op <= 15 && Pow2(root) <= e.val
              && e.val + Pow2(e.op) <= used
          && PlacedAt(t, start + e.val, e.op, root, kind, lens, s))
  }

  /** The same for one table of n index bits at base, where `drop` bits of the code are dropped. */
  ghost predicate PlacedAt(t: seq<Code>, base: nat, n: nat, drop: nat, kind: CodeKind, lens: seq<nat>, s: nat)
    requires SymbolsFit(kind, lens) && Coded(lens, s) && base + Pow2(n) <= |t| && drop <= lens[s] <= drop + n
  {
    forall p :: base <= p < base + Pow2(n) && Low(p - base, lens[s] - drop) == Shr(CodeVal(lens, s), drop) ==>
      t[p] == Entry(kind, s, lens[s] - drop)
  }

  lemma MatchOwns(lens: seq<nat>, s: nat, v: nat)
    requires Coded(lens, s) && Kraft(lens) <= Pow2(15)
    ensures Owns(lens, s, Rev(15, v)) <==> Low(v, lens[s]) == CodeVal(lens, s)
  {
    MatchIffOwns(lens, s, v);
  }

  /** Two symbols never claim the same bits. */
  lemma NoClash(lens: seq<nat>, s: nat, t: nat, v: nat)
    requires Coded(lens, s) && Coded(lens, t) && Kraft(lens) <= Pow2(15) && s != t
    ensures !(Low(v, lens[s]) == CodeVal(lens, s) && Low(v, lens[t]) == CodeVal(lens, t))
  {
    hide Low, CodeVal, Owns, Kraft, Rev, Pow2;
    MatchOwns(lens, s, v);
    MatchOwns(lens, t, v);
    if Owns(lens, s, Rev(15, v)) && Owns(lens, t, Rev(15, v)) {
      OwnerUnique(lens, s, t, Rev(15, v));
    }
  }

  /** Once s is in place, every stream that starts with its code is read as s. */
  lemma PlacedReads(t: seq<Code>, start: nat, root: nat, used: nat, kind: CodeKind, lens: seq<nat>, s: nat, v: nat)
    requires SymbolsFit(kind, lens) && Coded(lens, s) && Kraft(lens) <= Pow2(15) && Readable(t, start, root)
    requires Placed(t, start, root, used, kind, lens, s)
    requires Low(v, lens[s]) == CodeVal(lens, s)
    ensures start + Low(v, root) < |t|
    ensures var e := t[start + Low(v, root)];
            IsLink(e) ==> start + e.val + Low(Shr(v, e.bits), e.op) < |t|
    ensures Read(t, start, root, v) == Entry(kind, s, lens[s])
  {
    hide Low, Shr, CodeVal, Entry, Pow2, Kraft, Readable;
    var len, c := lens[s], CodeVal(lens, s);
    FirstInRange(t, start, root, v);
    LowBound(v, root);
    if len <= root {
      LowLow(v, len, root);
      ShrNone(c);
      EntryIsNoLink(kind, s, len);
      assert t[start + Low(v, root)] == Entry(kind, s, len - 0);
    } else {
      LowLow(v, root, len);
      var e := t[start + Low(v, root)];
      var i := Low(Shr(v, root), e.op);
      LowBound(Shr(v, root), e.op);
      LowLow(Shr(v, root), len - root, e.op);
      LowAdd(v, root, len - root);
      Join(Low(v, root), root, Low(Shr(v, root), len - root));
      EntryIsNoLink(kind, s, len - root);
      assert root + (len - root) == len;
      assert t[start + e.val + i] == Entry(kind, s, len - root);
      EntryBits(kind, s, root, len - root);
    }
  }

  lemma ShrNone(c: nat)
    ensures Shr(c, 0) == c
  {
  }

  lemma EntryBits(kind: CodeKind, s: nat, a: nat, b: nat)
    requires s < 288 && (kind.DISTS? ==> s < 32)
    ensures var f := Entry(kind, s, b); Code(f.op, a + f.bits, f.val) == Entry(kind, s, a + b)
  {
  }

  /** No entry of the root table leads on. */
  ghost predicate Flat(t: seq<Code>, start: nat, root: nat)
  {
    start + Pow2(root) <= |t| && forall p :: start <= p < start + Pow2(root) ==> !IsLink(t[p])
  }
}
