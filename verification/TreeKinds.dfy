/** The three trees of a block and their constants (trees.c: static_l_desc, static_d_desc,
    static_bl_desc, static_ltree, static_dtree). */
module TreeKinds {
  import opened Bits
  import opened Symbols
  import opened CodeLengths
  import opened Decoder

  datatype Kind = LitTree | DistTree | BlTree

  function Elems(k: Kind): (n: nat)
    ensures 19 <= n <= 286
  {
    match k case LitTree => L_CODES case DistTree => D_CODES case BlTree => BL_CODES
  }

  function MaxLength(k: Kind): (n: nat)
    ensures n == 15 || n == 7
  {
    match k case LitTree => 15 case DistTree => 15 case BlTree => 7
  }

  /** Extra bits sent after the code of symbol n. */
  function Xbits(k: Kind, n: nat): (x: nat)
    requires n < Elems(k)
  {
    match k
    case LitTree => if n >= 257 then LenExtra(n - 257) else 0
    case DistTree => DistExtra(n)
    case BlTree => OpExtra(n)
  }

  /** The fixed code length of symbol n; the code length tree has no fixed code. */
  function StaticLen(k: Kind, n: nat): (l: nat)
    requires n < Elems(k)
  {
    match k
    case LitTree => FixedLitLens()[n]
    case DistTree => FixedDistLens()[n]
    case BlTree => 0
  }

  /** The symbols that may be forced into a code have no extra bits. */
  lemma ForcedHasNoExtra(k: Kind, n: nat)
    requires n <= 2
    ensures Xbits(k, n) == 0
  {
  }
}
