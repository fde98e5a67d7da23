/** The trees of the fixed codes (trees.c: tr_static_init). */
module StaticTrees {
  import opened Bits
  import opened Canonical
  import opened Decoder
  import opened MoreInput
  import opened GenCodes
  import opened TreeSend

  /** The fixed distance codes are the symbols themselves, reversed. */
  lemma FixedDistCode(n: nat)
    requires n < 32
    ensures CodeVal(FixedDistLens(), n) == Rev(5, n)
  {
    hide Rev, CodeVal, Pow2, NextCode;
    var lens := FixedDistLens();
    CodeValIsReversedCode(lens, n);
    CountConstant(lens[..n], 5, 5);
    forall b: nat ensures Count(lens, b) == if b == 5 then 32 else 0 {
      CountConstant(lens, 5, b);
    }
    NoShorterCodes(lens, 5);
  }

  lemma {:induction false} NoShorterCodes(lens: seq<nat>, b: nat)
    requires forall i :: 1 <= i < b ==> Count(lens, i) == 0
    ensures NextCode(lens, b) == 0
    decreases b
  {
    hide Count;
    if b > 0 {
      NoShorterCodes(lens, b - 1);
    }
  }

  /** Set up the fixed literal/length tree (tr_static_init). */
  method StaticLitInit(slfc: array<nat>, sldl: array<nat>)
    requires slfc.Length == sldl.Length == 288 && slfc != sldl
    modifies slfc, sldl
    ensures CodeTable(slfc[..], sldl[..], FixedLitLens())
  {
    hide Count, CodeVal, Kraft, FixedLitLens, Complete;
    StaticLitLens(sldl);
    var blCount := new nat[16](_ => 0);
    blCount[8], blCount[9], blCount[7] := 152, 112, 24;
    assert sldl[..287 + 1] == FixedLitLens();
    forall b | 0 <= b < 16 ensures blCount[b] == Count(FixedLitLens(), b) {
      FixedLitCount(b);
    }
    FixedLitComplete();
    CompleteKraft(FixedLitLens());
    GenCodes.GenCodes(slfc, sldl, 287, blCount);
    assert sldl[..287 + 1] == FixedLitLens();
  }

  method StaticLitLens(sldl: array<nat>)
    requires sldl.Length == 288
    modifies sldl
    ensures sldl[..] == FixedLitLens()
  {
    hide FixedLitLens;
    FixedLitAt();
    for n := 0 to 288
      invariant forall i :: 0 <= i < n ==> sldl[i] == FixedLitLens()[i]
    {
      sldl[n] := if n <= 143 then 8 else if n <= 255 then 9 else if n <= 279 then 7 else 8;
    }
  }

  /** Set up the fixed distance tree (tr_static_init). */
  method StaticDistInit(sdfc: array<nat>, sddl: array<nat>)
    requires sdfc.Length == sddl.Length == 30 && sdfc != sddl
    modifies sdfc, sddl
    ensures CodeTable(sdfc[..], sddl[..], FixedDistLens())
  {
    hide CodeVal, Rev, Complete;
    FixedDistComplete();
    for n := 0 to 30
      invariant forall i :: 0 <= i < n ==> sddl[i] == 5 && sdfc[i] == CodeVal(FixedDistLens(), i)
    {
      sddl[n] := 5;
      sdfc[n] := BiReverse(n, 5);
      FixedDistCode(n);
    }
  }

  lemma CompleteKraft(lens: seq<nat>)
    requires Complete(lens)
    ensures ValidLens(lens) && Kraft(lens) <= Pow2(15)
  {
  }

  lemma FixedLitAt()
    ensures forall n :: 0 <= n < 288 ==>
              FixedLitLens()[n] == if n <= 143 then 8 else if n <= 255 then 9 else if n <= 279 then 7 else 8
  {
  }
}
