/** Unicode text as OpenKit's strings hold it: the encoding of scalar values of section 3 of RFC 3629, by its ranges and
    shifts, and that validateString takes such text over as it is (src/core/UTF8String.cxx). */
module Utf8Scalars {
  import opened Utf8String

  /** A Unicode scalar value: a code point that is no surrogate. */
  predicate IsScalar(v: bv32)
  {
    v < 0x110000 && !(0xD800 <= v < 0xE000)
  }

  /** The encoding of a scalar value. */
  function Encode(v: bv32): (s: seq<Octet>)
    requires IsScalar(v)
  {
    if v < 0x80 then [v as Octet]
    else if v < 0x800 then [(0xC0 | (v >> 6)) as Octet, (0x80 | (v & 0x3F)) as Octet]
    else if v < 0x10000 then
      [(0xE0 | (v >> 12)) as Octet, (0x80 | ((v >> 6) & 0x3F)) as Octet, (0x80 | (v & 0x3F)) as Octet]
    else
      [(0xF0 | (v >> 18)) as Octet, (0x80 | ((v >> 12) & 0x3F)) as Octet, (0x80 | ((v >> 6) & 0x3F)) as Octet,
       (0x80 | (v & 0x3F)) as Octet]
  }

  ghost predicate AllScalars(vs: seq<bv32>)
  {
    forall i :: 0 <= i < |vs| ==> IsScalar(vs[i]) && vs[i] != 0
  }

  function Encodings(vs: seq<bv32>): (ps: seq<seq<Octet>>)
    requires AllScalars(vs)
    ensures |ps| == |vs| && forall i :: 0 <= i < |vs| ==> ps[i] == Encode(vs[i])
  {
    seq(|vs|, i requires 0 <= i < |vs| && AllScalars(vs) => Encode(vs[i]))
  }

  /** The bytes of a text. */
  function Encoded(vs: seq<bv32>): (s: seq<Octet>)
    requires AllScalars(vs)
  {
    Flatten(Encodings(vs))
  }

  /** Bytes that can have no part in a terminator. */
  predicate Harmless(s: seq<Octet>)
  {
    forall i :: 0 <= i < |s| ==> s[i] != 0 && s[i] != 0xC0
  }

  /** The encoding of a scalar value is one character, of the width its range has. */
  lemma EncodeShape(v: bv32)
    requires IsScalar(v)
    ensures IsCharacter(Encode(v)) && (v != 0 ==> Harmless(Encode(v)))
    ensures |Encode(v)| == if v < 0x80 then 1 else if v < 0x800 then 2 else if v < 0x10000 then 3 else 4
  {
  }

  /** What stands for anything that is broken is the encoding of U+FFFD. */
  lemma ReplacementCharacter()
    ensures REPLACEMENT == Encode(0xFFFD)
  {
  }

  lemma {:induction false} HarmlessFlat(ps: seq<seq<Octet>>)
    requires forall i :: 0 <= i < |ps| ==> Harmless(ps[i])
    ensures Harmless(Flatten(ps))
    decreases |ps|
  {
    if ps != [] {
      assert Harmless(ps[0]);
      HarmlessFlat(ps[1..]);
      var p, q := ps[0], Flatten(ps[1..]);
      forall i | 0 <= i < |p + q|
        ensures (p + q)[i] != 0 && (p + q)[i] != 0xC0
      {
        assert i >= |p| ==> (p + q)[i] == q[i - |p|];
      }
    }
  }

  lemma HarmlessUnended(s: seq<Octet>)
    requires Harmless(s)
    ensures Unended(s)
  {
  }

  /** A text of scalar values is made of their encodings as its characters, and the repair leaves it alone. */
  lemma EncodedText(vs: seq<bv32>)
    requires AllScalars(vs)
    ensures WellShaped(Encoded(vs)) && Characters(Encoded(vs)) == Encodings(vs)
    ensures Text(Encoded(vs) + [0]) == Encoded(vs)
    ensures Repaired(Encoded(vs)) == Encoded(vs) && Pieces(Encoded(vs)) == Encodings(vs)
    ensures !AnyTorn(Encoded(vs))
  {
    hide *;
    var ps := Encodings(vs);
    forall i | 0 <= i < |ps|
      ensures IsCharacter(ps[i]) && Harmless(ps[i])
    {
      ScalarHas(vs, i);
      EncodeShape(vs[i]);
    }
    CharactersAre(ps);
    EncodedIs(vs);
    CharactersOf(ps);
    HarmlessFlat(ps);
    HarmlessUnended(Encoded(vs));
    WellShapedText(Encoded(vs));
    TextOf(Encoded(vs));
    RepairedShape(Encoded(vs));
  }

  /** A text without terminators ends where the NUL behind it is. */
  lemma TextOf(s: seq<Octet>)
    requires Unended(s)
    ensures 0 in s + [0] && Text(s + [0]) == s
  {
    hide Text, Unended;
    UnendedText(s);
  }

  lemma ScalarHas(vs: seq<bv32>, i: nat)
    requires AllScalars(vs) && i < |vs|
    ensures IsScalar(vs[i]) && vs[i] != 0
  {
    hide IsScalar;
  }

  lemma CharactersAre(ps: seq<seq<Octet>>)
    requires forall i :: 0 <= i < |ps| ==> IsCharacter(ps[i])
    ensures AllCharacters(ps)
  {
    hide IsCharacter;
  }

  lemma EncodedIs(vs: seq<bv32>)
    requires AllScalars(vs)
    ensures Encoded(vs) == Flatten(Encodings(vs)) && (vs == [] <==> Encoded(vs) == [])
  {
    hide Encode, Flatten, IsScalar;
    if vs == [] {
      assert Encodings(vs) == [];
      FlattenNone();
    } else {
      ScalarHas(vs, 0);
      EncodeShape(vs[0]);
      FlattenFirst(Encodings(vs));
    }
  }

  lemma FlattenNone()
    ensures Flatten([]) == []
  {
  }

  lemma FlattenFirst(ps: seq<seq<Octet>>)
    requires ps != []
    ensures |Flatten(ps)| >= |ps[0]|
  {
  }

  /** Given the encodings of scalar values and NUL, a string holds exactly those bytes, counts the values, and has
      their encodings as its characters. */
  method TakeOver(vs: seq<bv32>, s: UTF8String)
    requires AllScalars(vs)
    modifies s
    ensures s.data == (if vs == [] then old(s.data) else Encoded(vs)) && s.stringLength == |vs|
    ensures vs != [] ==> s.Valid() && Characters(s.data) == Encodings(vs)
  {
    hide *;
    EncodedText(vs);
    EncodedIs(vs);
    s.ValidateString(Encoded(vs) + [0]);
    FirstByte(vs);
    ValidIs(s);
  }

  lemma FirstByte(vs: seq<bv32>)
    requires AllScalars(vs)
    ensures vs == [] ==> (Encoded(vs) + [0])[0] == 0
  {
    EncodedIs(vs);
  }

  lemma ValidIs(s: UTF8String)
    ensures s.Valid() <==> WellShaped(s.data) && s.stringLength == |Characters(s.data)|
  {
    hide WellShaped, Characters;
  }

  /** The same for a new string. */
  method FromScalars(vs: seq<bv32>) returns (s: UTF8String)
    requires AllScalars(vs)
    ensures fresh(s) && s.Valid() && s.data == Encoded(vs) && s.stringLength == |vs|
      && Characters(s.data) == Encodings(vs)
  {
    hide *;
    EncodedText(vs);
    s := new UTF8String.From(Encoded(vs) + [0]);
  }
}
