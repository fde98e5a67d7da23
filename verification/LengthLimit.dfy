/** Repairing over-long codes (trees.c, gen_bitlen, second part), on the table of length counts. */
module LengthLimit {
  import opened Bits

  /** The number of codes of lengths 1..b. */
  function Total(bc: seq<nat>, b: nat): (n: nat)
    requires b < |bc|
  {
    if b == 0 then 0 else Total(bc, b - 1) + bc[b]
  }

  /** The Kraft sum of the lengths 1..b in units of 2^-b. */
  function Units(bc: seq<nat>, b: nat): (n: nat)
    requires b < |bc|
  {
    if b == 0 then 0 else 2 * Units(bc, b - 1) + bc[b]
  }

  lemma {:induction false} UnitsSame(bc: seq<nat>, bd: seq<nat>, b: nat)
    requires |bc| == |bd| && b < |bc| && forall i :: 1 <= i <= b ==> bc[i] == bd[i]
    ensures Units(bc, b) == Units(bd, b) && Total(bc, b) == Total(bd, b)
  {
    if b > 0 {
      UnitsSame(bc, bd, b - 1);
    }
  }

  lemma {:induction false} UnitsShift(bc: seq<nat>, bd: seq<nat>, a: nat, b: nat, delta: int)
    requires |bc| == |bd| && a <= b < |bc|
    requires Units(bd, a) == Units(bc, a) + delta && forall i :: a < i <= b ==> bc[i] == bd[i]
    ensures Units(bd, b) == Units(bc, b) + delta * Pow2(b - a)
    decreases b
  {
    if a < b {
      UnitsShift(bc, bd, a, b - 1, delta);
      TwiceShift(delta, b - a);
    }
  }

  lemma TwiceShift(delta: int, n: nat)
    requires n > 0
    ensures 2 * (delta * Pow2(n - 1)) == delta * Pow2(n)
  {
    var p := Pow2(n - 1);
    assert Pow2(n) == 2 * p;
    assert 2 * (delta * p) == delta * (2 * p);
  }

  lemma {:induction false} TotalShift(bc: seq<nat>, bd: seq<nat>, a: nat, b: nat, delta: int)
    requires |bc| == |bd| && a <= b < |bc|
    requires Total(bd, a) == Total(bc, a) + delta && forall i :: a < i <= b ==> bc[i] == bd[i]
    ensures Total(bd, b) == Total(bc, b) + delta
    decreases b
  {
    if a < b {
      TotalShift(bc, bd, a, b - 1, delta);
    }
  }

  /** Moving one leaf down and pairing it with an overflow item: one unit less, same number. */
  function Repaired(bc: seq<nat>, bits: nat, max: nat): (bd: seq<nat>)
    requires 1 <= bits < max < |bc| && bc[bits] >= 1 && bc[max] >= 1
  {
    var b1 := bc[bits := bc[bits] - 1];
    var b2 := b1[bits + 1 := b1[bits + 1] + 2];
    b2[max := b2[max] - 1]
  }

  lemma RepairedEffect(bc: seq<nat>, bits: nat, max: nat)
    requires 1 <= bits < max < |bc| && bc[bits] >= 1 && bc[max] >= 1
    ensures var bd := Repaired(bc, bits, max);
            |bd| == |bc| && bd[max] + 1 >= bc[max] && bd[0] == bc[0]
            && Units(bd, max) + 1 == Units(bc, max) && Total(bd, max) == Total(bc, max)
  {
    hide Pow2;
    var b1 := bc[bits := bc[bits] - 1];
    var b2 := b1[bits + 1 := b1[bits + 1] + 2];
    var bd := b2[max := b2[max] - 1];
    hide Units, Total;
    CountChanged(bc, b1, bits, max, -1);
    CountChanged(b1, b2, bits + 1, max, 2);
    CountChanged(b2, bd, max, max, -1);
    HalfPow(max - bits);
    assert Pow2(0) == 1 by { PowNone(); }
    assert -1 * Pow2(max - bits) + 2 * Pow2(max - bits - 1) == 0;
  }

  lemma PowNone()
    ensures Pow2(0) == 1
  {
  }

  /** Changing one count changes the sums accordingly. */
  lemma CountChanged(bc: seq<nat>, bd: seq<nat>, a: nat, max: nat, delta: int)
    requires 1 <= a <= max < |bc| && bc[a] + delta >= 0 && bd == bc[a := bc[a] + delta]
    ensures Units(bd, max) == Units(bc, max) + delta * Pow2(max - a)
    ensures Total(bd, max) == Total(bc, max) + delta
  {
    hide Pow2, Units, Total;
    HereChanged(bc, bd, a, delta);
    UnitsShift(bc, bd, a, max, delta);
    TotalShift(bc, bd, a, max, delta);
  }

  lemma HereChanged(bc: seq<nat>, bd: seq<nat>, a: nat, delta: int)
    requires 1 <= a < |bc| && bc[a] + delta >= 0 && bd == bc[a := bc[a] + delta]
    ensures Units(bd, a) == Units(bc, a) + delta
    ensures Total(bd, a) == Total(bc, a) + delta
  {
    UnitsSame(bc, bd, a - 1);
    assert Units(bd, a) == 2 * Units(bd, a - 1) + bd[a];
  }

  lemma HalfPow(n: nat)
    requires n >= 1
    ensures Pow2(n) == 2 * Pow2(n - 1)
  {
  }

  lemma {:induction false} NoShortCodes(bc: seq<nat>, b: nat)
    requires b < |bc| && forall i :: 1 <= i <= b ==> bc[i] == 0
    ensures Units(bc, b) == 0 && Total(bc, b) == 0
  {
    if b > 0 {
      NoShortCodes(bc, b - 1);
    }
  }

  /** While the code is over-full there is a shorter code to lengthen. */
  lemma DonorExists(bc: seq<nat>, max: nat)
    requires 1 <= max < |bc| && Units(bc, max) > Pow2(max) && Total(bc, max) <= Pow2(max)
    ensures exists b :: 1 <= b < max && bc[b] != 0
  {
    hide Pow2;
    if forall b :: 1 <= b < max ==> bc[b] == 0 {
      NoShortCodes(bc, max - 1);
    }
  }

  /** The counts after clamping, with the excess and enough codes of full length to take from. */
  ghost predicate Overfull(bc: seq<nat>, max: nat, excess: nat)
  {
    |bc| == 16 && 1 <= max <= 15 && bc[0] == 0
    && Units(bc, max) == Pow2(max) + excess && Total(bc, max) <= Pow2(max)
    && (excess > 0 ==> bc[max] >= excess + 2)
  }

  method FindDonor(blCount: array<nat>, max: nat) returns (bits: nat)
    requires blCount.Length == 16 && 1 <= max <= 15
    requires exists b :: 1 <= b < max && blCount[b] != 0
    ensures 1 <= bits < max && blCount[bits] != 0
    ensures forall b :: bits < b < max ==> blCount[b] == 0
  {
    bits := max - 1;
    while blCount[bits] == 0
      invariant 0 <= bits < max
      invariant forall b :: bits < b < max ==> blCount[b] == 0
      invariant exists b :: 1 <= b <= bits && blCount[b] != 0
      decreases bits
    {
      bits := bits - 1;
    }
  }

  /** Repair the counts: the Kraft sum becomes exactly one and the number of codes stays. */
  method Repair(blCount: array<nat>, max: nat, overflow0: nat)
    requires blCount.Length == 16 && overflow0 > 0 && overflow0 % 2 == 0
    requires Overfull(blCount[..], max, overflow0 / 2)
    modifies blCount
    ensures Units(blCount[..], max) == Pow2(max) && Total(blCount[..], max) == old(Total(blCount[..], max))
    ensures blCount[0] == 0
    ensures forall b :: max < b < 16 ==> blCount[b] == old(blCount[b])
  {
    hide Pow2, Units, Total;
    var overflow := overflow0;
    ghost var total := Total(blCount[..], max);
    while overflow > 0
      invariant overflow % 2 == 0
      invariant Overfull(blCount[..], max, overflow / 2)
      invariant Total(blCount[..], max) == total
      invariant forall b :: max < b < 16 ==> blCount[b] == old(blCount[b])
      decreases overflow
    {
      ghost var bc := blCount[..];
      DonorExists(bc, max);
      ghost var b0 :| 1 <= b0 < max && bc[b0] != 0;
      assert blCount[b0] != 0;
      var bits := FindDonor(blCount, max);
      RepairedEffect(bc, bits, max);
      blCount[bits] := blCount[bits] - 1;
      blCount[bits + 1] := blCount[bits + 1] + 2;
      blCount[max] := blCount[max] - 1;
      assert blCount[..] == Repaired(bc, bits, max);
      overflow := overflow - 2;
    }
  }
}
