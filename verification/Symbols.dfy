/** The length and distance symbols of section 3.2.5 of RFC 1951, with the tables the two
    directions use for them (trees.c: tr_static_init, inftrees.c: lbase/lext/dbase/dext). */
module Symbols {
  import opened Bits

  const L_CODES: nat := 286
  const D_CODES: nat := 30
  const BL_CODES: nat := 19
  const LITERALS: nat := 256
  const END_BLOCK: nat := 256

  /** Extra bits of length code k. */
  function LenExtra(k: nat): (n: nat)
    requires k < 29
    ensures n <= 5
  {
    if k < 8 || k == 28 then 0 else k / 4 - 1
  }

  /** Shortest length of length code k. */
  function LenBase(k: nat): (n: nat)
    requires k < 29
  {
    if k < 8 then 3 + k else if k == 28 then 258 else 3 + (4 + k % 4) * Pow2(k / 4 - 1)
  }

  function DistExtra(k: nat): (n: nat)
    requires k < 30
    ensures n <= 13
  {
    if k < 4 then 0 else k / 2 - 1
  }

  function DistBase(k: nat): (n: nat)
    requires k < 30
  {
    if k < 4 then 1 + k else 1 + (2 + k % 2) * Pow2(k / 2 - 1)
  }

  /** Length codes tile the lengths 3..258; 258 itself belongs to the last code. */
  lemma LenTiles(k: nat)
    requires k < 28
    ensures LenBase(k) + Pow2(LenExtra(k)) == if k == 27 then 259 else LenBase(k + 1)
  {
    hide Pow2;
    Pow2Values();
    if k >= 8 {
      DoublePow(k / 4 - 1);
      if k % 4 == 3 {
        assert (k + 1) / 4 == k / 4 + 1 && (k + 1) % 4 == 0;
      } else {
        assert (k + 1) / 4 == k / 4 && (k + 1) % 4 == k % 4 + 1;
      }
    }
  }

  lemma DistTiles(k: nat)
    requires k < 30
    ensures DistBase(k) + Pow2(DistExtra(k)) == if k == 29 then 32769 else DistBase(k + 1)
  {
    hide Pow2;
    Pow2Values();
    if k >= 4 {
      DoublePow(k / 2 - 1);
      if k % 2 == 1 {
        assert (k + 1) / 2 == k / 2 + 1 && (k + 1) % 2 == 0;
      } else {
        assert (k + 1) / 2 == k / 2 && (k + 1) % 2 == 1;
      }
    }
  }

  lemma DoublePow(n: nat)
    ensures Pow2(n + 1) == 2 * Pow2(n)
  {
  }

  function LenSearch(len: nat, k: nat): (c: nat)
    requires k < 28
    ensures c <= k
  {
    if k == 0 || LenBase(k) <= len then k else LenSearch(len, k - 1)
  }

  /** The length code of a match length. */
  function LengthCode(len: nat): (c: nat)
    ensures c < 29
  {
    if len == 258 then 28 else LenSearch(len, 27)
  }

  function DistSearch(dist: nat, k: nat): (c: nat)
    requires k < 30
    ensures c <= k
  {
    if k == 0 || DistBase(k) <= dist then k else DistSearch(dist, k - 1)
  }

  function DistCode(dist: nat): (c: nat)
    ensures c < 30
  {
    DistSearch(dist, 29)
  }

  lemma {:induction false} LenSearchRange(len: nat, k: nat)
    requires k < 28 && 3 <= len < LenBase(k) + Pow2(LenExtra(k))
    ensures var c := LenSearch(len, k); LenBase(c) <= len < LenBase(c) + Pow2(LenExtra(c))
  {
    hide Pow2, LenBase, LenExtra;
    if k > 0 && LenBase(k) > len {
      LenTiles(k - 1);
      LenSearchRange(len, k - 1);
    } else if k == 0 {
      LenZero();
    }
  }

  lemma LenZero()
    ensures LenBase(0) == 3 && DistBase(0) == 1 && LenBase(28) == 258 && LenExtra(28) == 0
  {
  }

  lemma {:induction false} DistSearchRange(dist: nat, k: nat)
    requires k < 30 && 1 <= dist < DistBase(k) + Pow2(DistExtra(k))
    ensures var c := DistSearch(dist, k); DistBase(c) <= dist < DistBase(c) + Pow2(DistExtra(c))
  {
    hide Pow2, DistBase, DistExtra;
    if k > 0 && DistBase(k) > dist {
      DistTiles(k - 1);
      DistSearchRange(dist, k - 1);
    } else if k == 0 {
      LenZero();
    }
  }

  /** A length is its code's base plus an offset that fits the code's extra bits. */
  lemma LengthCodeRange(len: nat)
    requires 3 <= len <= 258
    ensures var c := LengthCode(len); LenBase(c) <= len < LenBase(c) + Pow2(LenExtra(c))
  {
    hide LenBase, LenExtra;
    LenZero();
    LenTiles(27);
    if len < 258 {
      LenSearchRange(len, 27);
    }
  }

  lemma DistCodeRange(dist: nat)
    requires 1 <= dist <= 32768
    ensures var c := DistCode(dist); DistBase(c) <= dist < DistBase(c) + Pow2(DistExtra(c))
  {
    hide DistBase, DistExtra, Pow2;
    DistTiles(29);
    DistSearchRange(dist, 29);
  }
}
