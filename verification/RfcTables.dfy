/** The tables of sections 3.2.5 and 3.2.7 of RFC 1951, number by number. */
module RfcTables {
  import opened Bits
  import opened Symbols
  import opened CodeLengths

  /** The powers the base distances are made of. */
  lemma MorePowers()
    ensures Pow2(10) == 1024 && Pow2(11) == 2048 && Pow2(12) == 4096
  {
    assert Pow2(10) == 1024;
  }

  lemma LengthTable()
    ensures forall k :: 0 <= k < 29 ==>
      LenBase(k) == [3, 4, 5, 6, 7, 8, 9, 10, 11, 13, 15, 17, 19, 23, 27, 31, 35, 43, 51, 59, 67, 83, 99, 115, 131,
                     163, 195, 227, 258][k]
    ensures forall k :: 0 <= k < 29 ==>
      LenExtra(k) == [0, 0, 0, 0, 0, 0, 0, 0, 1, 1, 1, 1, 2, 2, 2, 2, 3, 3, 3, 3, 4, 4, 4, 4, 5, 5, 5, 5, 0][k]
  {
    hide Pow2;
    Pow2Values();
    MorePowers();
  }

  lemma DistanceTable()
    ensures forall k :: 0 <= k < 30 ==>
      DistBase(k) == [1, 2, 3, 4, 5, 7, 9, 13, 17, 25, 33, 49, 65, 97, 129, 193, 257, 385, 513, 769, 1025, 1537,
                      2049, 3073, 4097, 6145, 8193, 12289, 16385, 24577][k]
    ensures forall k :: 0 <= k < 30 ==>
      DistExtra(k) == [0, 0, 0, 0, 1, 1, 2, 2, 3, 3, 4, 4, 5, 5, 6, 6, 7, 7, 8, 8, 9, 9, 10, 10, 11, 11, 12, 12,
                       13, 13][k]
  {
    hide Pow2;
    Pow2Values();
    MorePowers();
  }

  /** Extra bits and repeat counts of the code length symbols. */
  lemma RepeatTable(x: nat)
    ensures forall s :: 0 <= s < 16 ==> OpExtra(s) == 0 && OpTimes(Op(s, x)) == 1
    ensures OpExtra(16) == 2 && OpTimes(Op(16, x)) == 3 + x
    ensures OpExtra(17) == 3 && OpTimes(Op(17, x)) == 3 + x
    ensures OpExtra(18) == 7 && OpTimes(Op(18, x)) == 11 + x
  {
  }
}
