/** OpenKit's UTF-8 strings (src/core/UTF8String.cxx): the repair of malformed input and the cached number of
    characters.  Shape means the lead and continuation bytes of section 3 of RFC 3629, no more. */
module Utf8String {

  type Octet = bv8

  // ---------- bytes ----------

  predicate IsPartOfPreviousMultibyte(c: Octet)
  {
    c & 0xC0 == 0x80
  }

  /** The width a first byte announces; 0 for a continuation byte and for 0xF8 to 0xFF. */
  function ByteWidth(c: Octet): (n: nat)
    ensures n <= 4
  {
    if c & 0x80 == 0 then 1
    else if c & 0xE0 == 0xC0 then 2
    else if c & 0xF0 == 0xE0 then 3
    else if c & 0xF8 == 0xF0 then 4
    else 0
  }

  lemma Kinds(c: Octet)
    ensures ByteWidth(c) == 0 <==> IsPartOfPreviousMultibyte(c) || c >= 0xF8
    ensures !(IsPartOfPreviousMultibyte(c) && c >= 0xF8)
  {
  }

  const REPLACEMENT: seq<Octet> := [0xEF, 0xBF, 0xBD]

  // ---------- well-shaped strings ----------

  predicate Continuations(s: seq<Octet>)
  {
    forall i :: 0 <= i < |s| ==> IsPartOfPreviousMultibyte(s[i])
  }

  predicate IsCharacter(c: seq<Octet>)
  {
    |c| >= 1 && ByteWidth(c[0]) == |c| && Continuations(c[1..])
  }

  predicate WellShaped(s: seq<Octet>)
    decreases |s|
  {
    s == [] || (1 <= ByteWidth(s[0]) <= |s| && Continuations(s[1..ByteWidth(s[0])]) && WellShaped(s[ByteWidth(s[0])..]))
  }

  function Characters(s: seq<Octet>): (r: seq<seq<Octet>>)
    requires WellShaped(s)
    decreases |s|
  {
    if s == [] then [] else [s[..ByteWidth(s[0])]] + Characters(s[ByteWidth(s[0])..])
  }

  function Flatten(ps: seq<seq<Octet>>): (s: seq<Octet>)
  {
    if ps == [] then [] else ps[0] + Flatten(ps[1..])
  }

  ghost predicate AllCharacters(ps: seq<seq<Octet>>)
  {
    forall i :: 0 <= i < |ps| ==> IsCharacter(ps[i])
  }

  lemma {:induction false} FlattenAppend(ps: seq<seq<Octet>>, qs: seq<seq<Octet>>)
    ensures Flatten(ps + qs) == Flatten(ps) + Flatten(qs)
    decreases |ps|
  {
    if ps == [] {
      assert ps + qs == qs;
    } else {
      FlattenAppend(ps[1..], qs);
      assert (ps + qs)[1..] == ps[1..] + qs;
    }
  }

  lemma FlattenOne(p: seq<Octet>)
    ensures Flatten([p]) == p
  {
    assert [p][1..] == [];
    assert Flatten([]) == [];
  }

  /** The characters of a string made of characters are just those. */
  lemma {:induction false} CharactersOf(ps: seq<seq<Octet>>)
    requires AllCharacters(ps)
    ensures WellShaped(Flatten(ps)) && Characters(Flatten(ps)) == ps
    decreases |ps|
  {
    hide ByteWidth, IsPartOfPreviousMultibyte;
    if ps != [] {
      var p, s := ps[0], Flatten(ps);
      assert IsCharacter(p);
      CharactersOf(ps[1..]);
      assert s[0] == p[0] && s[..|p|] == p && s[|p|..] == Flatten(ps[1..]);
      assert s[1..|p|] == p[1..];
    }
  }

  /** A well-shaped string is its characters. */
  lemma {:induction false} OfCharacters(s: seq<Octet>)
    requires WellShaped(s)
    ensures AllCharacters(Characters(s)) && Flatten(Characters(s)) == s
    decreases |s|
  {
    hide ByteWidth, IsPartOfPreviousMultibyte;
    if s != [] {
      var w := ByteWidth(s[0]);
      OfCharacters(s[w..]);
      assert s[..w][1..] == s[1..w];
      var cs := Characters(s);
      assert cs[1..] == Characters(s[w..]);
      forall i | 0 <= i < |cs|
        ensures IsCharacter(cs[i])
      {
        if i > 0 {
          assert cs[i] == cs[1..][i - 1];
        }
      }
    }
  }

  // ---------- the repair ----------

  /** Bytes that do not begin a character. */
  predicate Tail(c: Octet)
  {
    ByteWidth(c) == 0
  }

  function Continued(s: seq<Octet>): (n: nat)
    ensures n <= |s|
  {
    if s == [] then 0 else (if IsPartOfPreviousMultibyte(s[0]) then 1 else 0) + Continued(s[1..])
  }

  /** How many bytes go by until the wanted number of continuation bytes has been seen, or until the next byte
      begins a character or the text ends. */
  function Scan(s: seq<Octet>, wanted: nat): (k: nat)
    ensures k <= |s|
    decreases |s|
  {
    if wanted == 0 || s == [] || !Tail(s[0]) then 0
    else 1 + Scan(s[1..], if IsPartOfPreviousMultibyte(s[0]) then wanted - 1 else wanted)
  }

  /** Whether the character that begins s is completed. */
  predicate Completed(s: seq<Octet>)
    requires s != [] && ByteWidth(s[0]) >= 2
  {
    Continued(s[1..][..Scan(s[1..], ByteWidth(s[0]) - 1)]) == ByteWidth(s[0]) - 1
  }

  /** The last bytes read when a character is completed, as many as its width. */
  function LastRead(s: seq<Octet>): (p: seq<Octet>)
    requires s != [] && ByteWidth(s[0]) >= 2 && Completed(s)
  {
    EnoughRead(s);
    var w, k := ByteWidth(s[0]), Scan(s[1..], ByteWidth(s[0]) - 1);
    s[k + 1 - w..k + 1]
  }

  /** What the repair makes of a text, piece by piece.  A completed character becomes the last bytes read, as
      many as its width; one that is broken off by another becomes the replacement character; one that the end
      of the text cuts short disappears, and so do bytes from 0xF8 on between characters. */
  function Pieces(s: seq<Octet>): (r: seq<seq<Octet>>)
    decreases |s|
  {
    if s == [] then []
    else if IsPartOfPreviousMultibyte(s[0]) then [REPLACEMENT] + Pieces(s[1..])
    else if ByteWidth(s[0]) == 0 then Pieces(s[1..])
    else if ByteWidth(s[0]) == 1 then [s[..1]] + Pieces(s[1..])
    else
      var k := Scan(s[1..], ByteWidth(s[0]) - 1);
      if Completed(s) then
        [LastRead(s)] + Pieces(s[k + 1..])
      else if k + 1 == |s| then []
      else [REPLACEMENT] + Pieces(s[k + 1..])
  }

  lemma EnoughRead(s: seq<Octet>)
    requires s != [] && ByteWidth(s[0]) >= 2 && Completed(s)
    ensures Scan(s[1..], ByteWidth(s[0]) - 1) + 1 >= ByteWidth(s[0])
  {
    hide ByteWidth, IsPartOfPreviousMultibyte;
  }

  function Repaired(s: seq<Octet>): (r: seq<Octet>)
  {
    Flatten(Pieces(s))
  }

  /** A character begun at a has its last byte at a + k, with bytes from 0xF8 on in between. */
  predicate Torn(s: seq<Octet>, a: nat, k: nat)
  {
    && a + k < |s| && 2 <= ByteWidth(s[a]) <= k
    && (forall j :: a < j <= a + k ==> Tail(s[j]))
    && Continued(s[a + 1..a + k + 1]) == ByteWidth(s[a]) - 1
    && IsPartOfPreviousMultibyte(s[a + k])
  }

  ghost predicate AnyTorn(s: seq<Octet>)
  {
    exists a: nat, k: nat :: Torn(s, a, k)
  }

  // ---------- scanning ----------

  lemma {:induction false} ContinuedAppend(s: seq<Octet>, t: seq<Octet>)
    ensures Continued(s + t) == Continued(s) + Continued(t)
    decreases |s|
  {
    hide IsPartOfPreviousMultibyte;
    if s == [] {
      assert s + t == t;
    } else {
      ContinuedAppend(s[1..], t);
      assert (s + t)[1..] == s[1..] + t;
    }
  }

  lemma {:induction false} AllContinued(s: seq<Octet>)
    ensures Continued(s) == |s| <==> Continuations(s)
    decreases |s|
  {
    hide IsPartOfPreviousMultibyte;
    if s != [] {
      AllContinued(s[1..]);
      if Continuations(s) {
        assert Continuations(s[1..]);
      }
      if IsPartOfPreviousMultibyte(s[0]) && Continuations(s[1..]) {
        forall i | 0 <= i < |s|
          ensures IsPartOfPreviousMultibyte(s[i])
        {
          if i > 0 {
            assert s[i] == s[1..][i - 1];
          }
        }
      }
    }
  }

  /** A scan goes past bytes that leave something wanted. */
  lemma {:induction false} ScanPast(s: seq<Octet>, wanted: nat, n: nat)
    requires n <= |s| && (forall j :: 0 <= j < n ==> Tail(s[j])) && Continued(s[..n]) < wanted
    ensures Scan(s, wanted) == n + Scan(s[n..], wanted - Continued(s[..n]))
    decreases n
  {
    hide IsPartOfPreviousMultibyte, Tail;
    if n > 0 {
      assert s[..n][1..] == s[1..][..n - 1];
      ScanPast(s[1..], if IsPartOfPreviousMultibyte(s[0]) then wanted - 1 else wanted, n - 1);
      assert s[1..][n - 1..] == s[n..];
    }
  }

  /** What a scan goes past. */
  lemma {:induction false} ScanSeen(s: seq<Octet>, wanted: nat)
    ensures var k := Scan(s, wanted);
            && (forall j :: 0 <= j < k ==> Tail(s[j]))
            && Continued(s[..k]) <= wanted
            && (Continued(s[..k]) < wanted ==> k == |s| || !Tail(s[k]))
            && (Continued(s[..k]) == wanted && wanted > 0 ==> k > 0 && IsPartOfPreviousMultibyte(s[k - 1]))
    decreases |s|
  {
    hide IsPartOfPreviousMultibyte, Tail;
    var k := Scan(s, wanted);
    if wanted > 0 && s != [] && Tail(s[0]) {
      var rest := if IsPartOfPreviousMultibyte(s[0]) then wanted - 1 else wanted;
      ScanSeen(s[1..], rest);
      assert s[..k][1..] == s[1..][..k - 1];
      if k == 1 {
        assert s[1..][..0] == [];
      }
      forall j | 0 <= j < k
        ensures Tail(s[j])
      {
        if j > 0 {
          assert s[j] == s[1..][j - 1];
        }
      }
      if k > 1 {
        assert s[k - 1] == s[1..][k - 2];
      }
      if k < |s| {
        assert s[k] == s[1..][k - 1];
      }
    } else {
      assert s[..0] == [];
    }
  }

  // ---------- what the pieces are ----------

  lemma ReplacementFits()
    ensures IsCharacter(REPLACEMENT) && Repaired([]) == []
  {
    assert REPLACEMENT[1..] == [0xBF, 0xBD];
    assert ByteWidth(0xEF) == 3 && IsPartOfPreviousMultibyte(0xBF) && IsPartOfPreviousMultibyte(0xBD);
  }

  /** A piece that is no character: it has a byte from 0xF8 on, and no first byte. */
  ghost predicate Wreck(p: seq<Octet>)
  {
    (forall i :: 0 <= i < |p| ==> Tail(p[i])) && exists i :: 0 <= i < |p| && !IsPartOfPreviousMultibyte(p[i])
  }

  ghost predicate AllKnown(ps: seq<seq<Octet>>)
  {
    forall i :: 0 <= i < |ps| ==> IsCharacter(ps[i]) || Wreck(ps[i])
  }

  lemma AndPieces(p: seq<Octet>, ps: seq<seq<Octet>>)
    requires IsCharacter(p) || Wreck(p)
    requires AllKnown(ps)
    ensures AllKnown([p] + ps) && (AllCharacters([p] + ps) <==> IsCharacter(p) && AllCharacters(ps))
  {
    hide Wreck, IsCharacter;
    var qs := [p] + ps;
    assert qs[0] == p;
    forall i | 0 <= i < |ps|
      ensures ps[i] == qs[i + 1]
    {
    }
    if AllCharacters(qs) {
      forall i | 0 <= i < |ps|
        ensures IsCharacter(ps[i])
      {
        assert IsCharacter(qs[i + 1]);
      }
    }
  }

  /** Characters torn apart further on do not depend on what comes first. */
  lemma TornBeyond(s: seq<Octet>, c: nat)
    requires c <= |s| && forall a: nat, k: nat :: a < c ==> !Torn(s, a, k)
    ensures AnyTorn(s) <==> AnyTorn(s[c..])
  {
    hide Continued, ByteWidth, IsPartOfPreviousMultibyte, Tail;
    var t := s[c..];
    forall a: nat, k: nat
      ensures Torn(t, a, k) <==> Torn(s, a + c, k)
    {
      if a + k < |t| {
        assert t[a + 1..a + k + 1] == s[a + c + 1..a + c + k + 1];
        if Torn(s, a + c, k) {
          forall j | a < j <= a + k
            ensures Tail(t[j])
          {
            assert t[j] == s[j + c];
          }
        }
      }
    }
    if AnyTorn(t) {
      var a: nat, k: nat :| Torn(t, a, k);
      assert Torn(s, a + c, k);
    }
    if AnyTorn(s) {
      var a: nat, k: nat :| Torn(s, a, k);
      assert Torn(t, a - c, k);
    }
  }

  lemma TailIsNone(c: Octet)
    ensures Tail(c) <==> ByteWidth(c) == 0
    ensures IsPartOfPreviousMultibyte(c) ==> Tail(c)
  {
  }

  lemma TornScan(s: seq<Octet>, k: nat)
    requires Torn(s, 0, k)
    ensures k == Scan(s[1..], ByteWidth(s[0]) - 1) && Completed(s) && k >= ByteWidth(s[0])
  {
    hide ByteWidth, IsPartOfPreviousMultibyte, Tail, Scan, Continued;
    var w, t := ByteWidth(s[0]), s[1..];
    assert s[1..k + 1] == t[..k];
    assert t[..k] == t[..k - 1] + [t[k - 1]];
    ContinuedAppend(t[..k - 1], [t[k - 1]]);
    OneContinued(t[k - 1]);
    ScanPast(t, w - 1, k - 1);
    ScanOne(t[k - 1..]);
  }

  lemma ScanTorn(s: seq<Octet>)
    requires s != [] && ByteWidth(s[0]) >= 2 && Completed(s)
    requires Scan(s[1..], ByteWidth(s[0]) - 1) >= ByteWidth(s[0])
    ensures Torn(s, 0, Scan(s[1..], ByteWidth(s[0]) - 1))
  {
    hide ByteWidth, IsPartOfPreviousMultibyte, Tail, Scan, Continued;
    var w, t := ByteWidth(s[0]), s[1..];
    var k := Scan(t, w - 1);
    ScanSeen(t, w - 1);
    assert s[1..k + 1] == t[..k];
    forall j | 0 < j <= k
      ensures Tail(s[j])
    {
      assert s[j] == t[j - 1];
    }
  }

  /** The character at the front is torn apart exactly if it is completed later than its width allows. */
  lemma TornFirst(s: seq<Octet>, k: nat)
    requires s != [] && ByteWidth(s[0]) >= 2
    ensures Torn(s, 0, k) <==> k == Scan(s[1..], ByteWidth(s[0]) - 1) && Completed(s) && k >= ByteWidth(s[0])
  {
    hide ByteWidth, IsPartOfPreviousMultibyte, Tail, Scan, Continued, Torn, Completed;
    if Completed(s) && Scan(s[1..], ByteWidth(s[0]) - 1) >= ByteWidth(s[0]) {
      ScanTorn(s);
    }
    if Torn(s, 0, k) {
      TornScan(s, k);
    }
  }

  lemma OneContinued(c: Octet)
    ensures Continued([c]) == if IsPartOfPreviousMultibyte(c) then 1 else 0
  {
    assert [c][1..] == [];
  }

  lemma ScanOne(s: seq<Octet>)
    requires s != [] && IsPartOfPreviousMultibyte(s[0])
    ensures Scan(s, 1) == 1
  {
    TailIsNone(s[0]);
  }

  /** No character begins among the bytes a scan goes past. */
  lemma TornNext(s: seq<Octet>)
    requires s != [] && ByteWidth(s[0]) >= 2
    ensures var k := Scan(s[1..], ByteWidth(s[0]) - 1);
            AnyTorn(s) <==> Torn(s, 0, k) || AnyTorn(s[k + 1..])
  {
    hide ByteWidth, IsPartOfPreviousMultibyte, Scan, Continued, Completed;
    var k := Scan(s[1..], ByteWidth(s[0]) - 1);
    ScanSeen(s[1..], ByteWidth(s[0]) - 1);
    forall a: nat | 0 < a <= k
      ensures Tail(s[a])
    {
      assert s[a] == s[1..][a - 1];
    }
    forall a: nat, m: nat | a < k + 1 && Torn(s, a, m)
      ensures a == 0 && m == k
    {
      if a == 0 {
        TornFirst(s, m);
      }
    }
    if !Torn(s, 0, k) {
      TornBeyond(s, k + 1);
    }
  }

  lemma LateIsWreck(t: seq<Octet>, k: nat, w: nat)
    requires w <= k <= |t| && (forall j :: 0 <= j < k ==> Tail(t[j])) && Continued(t[..k]) < w
    ensures Wreck(t[k - w..k])
  {
    hide ByteWidth, IsPartOfPreviousMultibyte, Tail;
    var q, p := t[..k - w], t[k - w..k];
    assert t[..k] == q + p;
    ContinuedAppend(q, p);
    AllContinued(p);
    forall i | 0 <= i < |p|
      ensures Tail(p[i])
    {
      assert p[i] == t[k - w + i];
    }
  }

  /** The piece a completed character becomes. */
  lemma CompletedPiece(s: seq<Octet>)
    requires s != [] && ByteWidth(s[0]) >= 2 && Completed(s)
    ensures var k := Scan(s[1..], ByteWidth(s[0]) - 1);
            if Torn(s, 0, k) then Wreck(LastRead(s)) else IsCharacter(LastRead(s))
  {
    hide ByteWidth, IsPartOfPreviousMultibyte, Scan, Torn, LastRead, Wreck, IsCharacter, Completed;
    EnoughRead(s);
    TornFirst(s, Scan(s[1..], ByteWidth(s[0]) - 1));
    if Scan(s[1..], ByteWidth(s[0]) - 1) >= ByteWidth(s[0]) {
      LatePiece(s);
    } else {
      TimelyPiece(s);
    }
  }

  lemma LatePiece(s: seq<Octet>)
    requires s != [] && ByteWidth(s[0]) >= 2 && Completed(s)
    requires Scan(s[1..], ByteWidth(s[0]) - 1) >= ByteWidth(s[0])
    ensures Wreck(LastRead(s))
  {
    hide ByteWidth, IsPartOfPreviousMultibyte, Scan, Torn, Wreck, Continued, Tail;
    var w, t := ByteWidth(s[0]), s[1..];
    var k := Scan(t, w - 1);
    ScanSeen(t, w - 1);
    LateIsWreck(t, k, w);
    assert LastRead(s) == t[k - w..k];
  }

  lemma TimelyPiece(s: seq<Octet>)
    requires s != [] && ByteWidth(s[0]) >= 2 && Completed(s)
    requires Scan(s[1..], ByteWidth(s[0]) - 1) == ByteWidth(s[0]) - 1
    ensures IsCharacter(LastRead(s))
  {
    hide ByteWidth, IsPartOfPreviousMultibyte, Scan, Torn, Wreck, Continued, Tail;
    var w, t := ByteWidth(s[0]), s[1..];
    var p := LastRead(s);
    assert p[1..] == t[..w - 1];
    AllContinued(p[1..]);
  }

  /** The repair yields characters, and characters alone exactly if none is torn apart. */
  lemma {:induction false} PiecesKnown(s: seq<Octet>)
    ensures AllKnown(Pieces(s)) && (AllCharacters(Pieces(s)) <==> !AnyTorn(s))
    decreases |s|
  {
    hide ByteWidth, IsPartOfPreviousMultibyte, Scan, Torn, Wreck, IsCharacter, Completed;
    if s == [] {
      NothingTorn(s);
    } else {
      TailIsNone(s[0]);
      ReplacementFits();
      if ByteWidth(s[0]) <= 1 {
        FirstUntorn(s);
        TornBeyond(s, 1);
        PiecesKnown(s[1..]);
        if ByteWidth(s[0]) == 1 {
          SingleFits(s);
          AndPieces(s[..1], Pieces(s[1..]));
        } else if IsPartOfPreviousMultibyte(s[0]) {
          AndPieces(REPLACEMENT, Pieces(s[1..]));
        }
      } else {
        var w, k := ByteWidth(s[0]), Scan(s[1..], ByteWidth(s[0]) - 1);
        PiecesKnown(s[k + 1..]);
        TornNext(s);
        TornFirst(s, k);
        if Completed(s) {
          CompletedPiece(s);
          WreckIsNone(LastRead(s));
          AndPieces(LastRead(s), Pieces(s[k + 1..]));
        } else if k + 1 == |s| {
          NothingTorn(s[k + 1..]);
        } else {
          AndPieces(REPLACEMENT, Pieces(s[k + 1..]));
        }
      }
    }
  }

  lemma NothingTorn(s: seq<Octet>)
    requires s == []
    ensures !AnyTorn(s)
  {
  }

  lemma FirstUntorn(s: seq<Octet>)
    requires s != [] && ByteWidth(s[0]) <= 1
    ensures forall a: nat, k: nat :: a < 1 ==> !Torn(s, a, k)
  {
    hide ByteWidth;
  }

  lemma SingleFits(s: seq<Octet>)
    requires s != [] && ByteWidth(s[0]) == 1
    ensures IsCharacter(s[..1])
  {
    hide ByteWidth;
  }

  lemma WreckIsNone(p: seq<Octet>)
    ensures !(Wreck(p) && IsCharacter(p))
  {
    hide ByteWidth;
  }

  // ---------- the shape of the result ----------

  /** Every byte of a well-shaped string begins or continues a character. */
  lemma {:induction false} NoStrays(s: seq<Octet>)
    requires WellShaped(s)
    ensures forall i :: 0 <= i < |s| ==> !Tail(s[i]) || IsPartOfPreviousMultibyte(s[i])
    decreases |s|
  {
    hide ByteWidth, IsPartOfPreviousMultibyte, Tail;
    if s != [] {
      var w := ByteWidth(s[0]);
      NoStrays(s[w..]);
      TailIsNone(s[0]);
      forall i | 0 <= i < |s|
        ensures !Tail(s[i]) || IsPartOfPreviousMultibyte(s[i])
      {
        if i >= w {
          assert s[i] == s[w..][i - w];
        } else if i >= 1 {
          assert s[i] == s[1..w][i - 1];
        }
      }
    }
  }

  lemma {:induction false} FlattenHas(ps: seq<seq<Octet>>, i: nat, j: nat)
    requires i < |ps| && j < |ps[i]|
    ensures ps[i][j] in Flatten(ps)
    decreases |ps|
  {
    if i > 0 {
      FlattenHas(ps[1..], i - 1, j);
    }
  }

  lemma StrayLeft(s: seq<Octet>)
    requires AnyTorn(s)
    ensures exists i :: 0 <= i < |Repaired(s)| && Tail(Repaired(s)[i]) && !IsPartOfPreviousMultibyte(Repaired(s)[i])
  {
    hide ByteWidth, IsPartOfPreviousMultibyte, AnyTorn, Pieces, Flatten, Tail;
    PiecesKnown(s);
    var ps := Pieces(s);
    var i :| 0 <= i < |ps| && !IsCharacter(ps[i]);
    assert Wreck(ps[i]);
    var j :| 0 <= j < |ps[i]| && !IsPartOfPreviousMultibyte(ps[i][j]);
    FlattenHas(ps, i, j);
    RepairedIs(s);
    var m :| 0 <= m < |Repaired(s)| && Repaired(s)[m] == ps[i][j];
  }

  /** The repaired text is well-shaped exactly if no character of the text is torn apart by bytes from 0xF8 on,
      and its characters are then the pieces. */
  lemma RepairedShape(s: seq<Octet>)
    ensures WellShaped(Repaired(s)) <==> !AnyTorn(s)
    ensures !AnyTorn(s) ==> Characters(Repaired(s)) == Pieces(s)
  {
    hide ByteWidth, IsPartOfPreviousMultibyte, AnyTorn, Pieces, WellShaped, Flatten, Tail;
    PiecesKnown(s);
    if AnyTorn(s) {
      StrayLeft(s);
      if WellShaped(Repaired(s)) {
        NoStrays(Repaired(s));
      }
    } else {
      CharactersOf(Pieces(s));
    }
  }

  /** Without bytes from 0xF8 on nothing is torn apart. */
  lemma PlainUntorn(s: seq<Octet>)
    requires forall i :: 0 <= i < |s| ==> s[i] < 0xF8
    ensures !AnyTorn(s)
  {
    hide ByteWidth, IsPartOfPreviousMultibyte, Tail;
    forall a: nat, k: nat
      ensures !Torn(s, a, k)
    {
      if Torn(s, a, k) {
        var p := s[a + 1..a + k + 1];
        forall i | 0 <= i < |p|
          ensures IsPartOfPreviousMultibyte(p[i])
        {
          Kinds(p[i]);
          TailIsNone(s[a + 1 + i]);
        }
        AllContinued(p);
        assert false;
      }
    }
  }

  // ---------- repairing again ----------

  /** A well-shaped string is left alone. */
  lemma {:induction false} WellShapedStays(s: seq<Octet>)
    requires WellShaped(s)
    ensures Pieces(s) == Characters(s) && Repaired(s) == s
    decreases |s|
  {
    hide ByteWidth, IsPartOfPreviousMultibyte, Tail, Flatten, Scan;
    OfCharacters(s);
    if s != [] {
      var w := ByteWidth(s[0]);
      WellShapedStays(s[w..]);
      TailIsNone(s[0]);
      if w >= 2 {
        ScanCharacter(s);
      }
    }
  }

  lemma ScanCharacter(s: seq<Octet>)
    requires s != [] && 2 <= ByteWidth(s[0]) <= |s| && Continuations(s[1..ByteWidth(s[0])])
    ensures Scan(s[1..], ByteWidth(s[0]) - 1) == ByteWidth(s[0]) - 1 && Completed(s)
  {
    hide ByteWidth, IsPartOfPreviousMultibyte, Tail, Scan;
    var w, t := ByteWidth(s[0]), s[1..];
    var n: nat := w - 2;
    forall j | 0 <= j < w - 1
      ensures IsPartOfPreviousMultibyte(t[j]) && Tail(t[j])
    {
      assert t[j] == s[1..w][j];
      TailIsNone(t[j]);
    }
    AllContinued(t[..n]);
    AllContinued(t[..w - 1]);
    ScanPast(t, w - 1, n);
    ScanOne(t[n..]);
  }

  /** Nothing is torn apart in what a repair yields. */
  lemma {:induction false} PiecesUntorn(ps: seq<seq<Octet>>)
    requires AllKnown(ps)
    ensures !AnyTorn(Flatten(ps))
    decreases |ps|
  {
    hide ByteWidth, IsPartOfPreviousMultibyte, Tail, Scan, Torn, IsCharacter, Wreck;
    if ps == [] {
      NothingTorn([]);
    } else {
      var p, s := ps[0], Flatten(ps);
      PiecesUntorn(ps[1..]);
      PieceUntorn(p, Flatten(ps[1..]));
      TornBeyond(s, |p|);
      assert s[|p|..] == Flatten(ps[1..]);
    }
  }

  lemma PieceUntorn(p: seq<Octet>, t: seq<Octet>)
    requires IsCharacter(p) || Wreck(p)
    ensures forall a: nat, k: nat :: a < |p| ==> !Torn(p + t, a, k)
  {
    hide ByteWidth, IsPartOfPreviousMultibyte, Tail, Scan, Continued, Completed;
    var s := p + t;
    forall a: nat, k: nat | a < |p|
      ensures !Torn(s, a, k)
    {
      TailIsNone(s[a]);
      if a > 0 && IsCharacter(p) {
        assert s[a] == p[1..][a - 1];
      } else if a == 0 && IsCharacter(p) && |p| >= 2 {
        assert s[1..|p|] == p[1..];
        ScanCharacter(s);
        TornFirst(s, k);
      }
    }
  }

  /** Repairing twice is repairing once, exactly if no character is torn apart. */
  lemma RepairedAgain(s: seq<Octet>)
    ensures Repaired(Repaired(s)) == Repaired(s) <==> !AnyTorn(s)
  {
    hide Repaired, Pieces, Flatten, WellShaped, AnyTorn;
    RepairedShape(s);
    RepairedShape(Repaired(s));
    PiecesKnown(s);
    RepairedIs(s);
    PiecesUntorn(Pieces(s));
    if !AnyTorn(s) {
      WellShapedStays(Repaired(s));
    }
  }

  lemma RepairedIs(s: seq<Octet>)
    ensures Repaired(s) == Flatten(Pieces(s))
  {
  }

  // ---------- the end of a text ----------

  predicate IsStringTerminationCharacter(s: seq<Octet>, i: nat)
    requires i < |s|
  {
    s[i] == 0 || (s[i] == 0xC0 && i + 1 < |s| && s[i + 1] == 0x80)
  }

  /** The bytes before the terminator. */
  function Text(s: seq<Octet>): (t: seq<Octet>)
    requires 0 in s
  {
    if IsStringTerminationCharacter(s, 0) then [] else [s[0]] + Text(s[1..])
  }

  ghost predicate Unended(s: seq<Octet>)
  {
    forall i :: 0 <= i < |s| ==> !IsStringTerminationCharacter(s, i)
  }

  lemma {:induction false} TextUnended(s: seq<Octet>)
    requires 0 in s
    ensures Unended(Text(s)) && |Text(s)| < |s| && s[..|Text(s)|] == Text(s)
    decreases |s|
  {
    if !IsStringTerminationCharacter(s, 0) {
      TextUnended(s[1..]);
      var t, u := Text(s), Text(s[1..]);
      forall i | 0 <= i < |t|
        ensures !IsStringTerminationCharacter(t, i)
      {
        if i > 0 {
          assert !IsStringTerminationCharacter(u, i - 1);
        }
      }
    }
  }

  lemma {:induction false} UnendedText(s: seq<Octet>)
    requires Unended(s)
    ensures Text(s + [0]) == s
    decreases |s|
  {
    var t := s + [0];
    assert t[|s|] == 0;
    if s != [] {
      assert !IsStringTerminationCharacter(s, 0);
      assert t[1..] == s[1..] + [0];
      assert Unended(s[1..]) by {
        forall i | 0 <= i < |s[1..]|
          ensures !IsStringTerminationCharacter(s[1..], i)
        {
          assert !IsStringTerminationCharacter(s, i + 1);
        }
      }
      UnendedText(s[1..]);
    }
  }

  lemma UnendedPart(s: seq<Octet>, i: nat, j: nat)
    requires Unended(s) && i <= j <= |s|
    ensures Unended(s[i..j])
  {
    var t := s[i..j];
    forall m | 0 <= m < |t|
      ensures !IsStringTerminationCharacter(t, m)
    {
      assert !IsStringTerminationCharacter(s, i + m);
    }
  }

  ghost predicate AllUnended(ps: seq<seq<Octet>>)
  {
    forall i :: 0 <= i < |ps| ==> Unended(ps[i])
  }

  lemma AndUnended(p: seq<Octet>, ps: seq<seq<Octet>>)
    requires Unended(p) && AllUnended(ps)
    ensures AllUnended([p] + ps)
  {
    hide Unended;
  }

  lemma {:induction false} PiecesUnended(s: seq<Octet>)
    requires Unended(s)
    ensures AllUnended(Pieces(s))
    decreases |s|
  {
    hide ByteWidth, IsPartOfPreviousMultibyte, Scan, Unended, Completed;
    if s != [] {
      ReplacementUnended();
      if ByteWidth(s[0]) <= 1 {
        TailIsNone(s[0]);
        UnendedPart(s, 1, |s|);
        assert s[1..|s|] == s[1..];
        PiecesUnended(s[1..]);
        if ByteWidth(s[0]) == 1 {
          UnendedPart(s, 0, 1);
          assert s[0..1] == s[..1];
          AndUnended(s[..1], Pieces(s[1..]));
        } else if IsPartOfPreviousMultibyte(s[0]) {
          AndUnended(REPLACEMENT, Pieces(s[1..]));
        }
      } else {
        TailIsNone(s[0]);
        var w, k := ByteWidth(s[0]), Scan(s[1..], ByteWidth(s[0]) - 1);
        UnendedPart(s, k + 1, |s|);
        assert s[k + 1..|s|] == s[k + 1..];
        PiecesUnended(s[k + 1..]);
        if Completed(s) {
          EnoughRead(s);
          UnendedPart(s, k + 1 - w, k + 1);
          AndUnended(LastRead(s), Pieces(s[k + 1..]));
        } else {
          AndUnended(REPLACEMENT, Pieces(s[k + 1..]));
        }
      }
    }
  }

  lemma ReplacementUnended()
    ensures Unended(REPLACEMENT)
  {
  }

  /** No terminator arises where characters meet. */
  lemma {:induction false} FlattenUnended(ps: seq<seq<Octet>>)
    requires AllCharacters(ps) && AllUnended(ps)
    ensures Unended(Flatten(ps))
    decreases |ps|
  {
    hide ByteWidth, IsPartOfPreviousMultibyte, Continuations;
    if ps != [] {
      var p, t := ps[0], Flatten(ps[1..]);
      FlattenUnended(ps[1..]);
      assert t != [] ==> t[0] == ps[1][0] && IsCharacter(ps[1]);
      if t != [] {
        NotContinuation(t[0]);
      }
      var s := p + t;
      forall i | 0 <= i < |s|
        ensures !IsStringTerminationCharacter(s, i)
      {
        if i < |p| {
          assert !IsStringTerminationCharacter(p, i);
        } else {
          assert !IsStringTerminationCharacter(t, i - |p|);
        }
      }
    }
  }

  lemma NotContinuation(c: Octet)
    ensures ByteWidth(c) > 0 ==> c != 0x80
  {
  }

  /** What a repair yields is read back whole. */
  lemma RepairedText(s: seq<Octet>)
    requires 0 in s && !AnyTorn(Text(s))
    ensures Text(Repaired(Text(s)) + [0]) == Repaired(Text(s))
  {
    hide Text, Pieces, Flatten, Torn, Unended;
    TextUnended(s);
    PiecesKnown(Text(s));
    PiecesUnended(Text(s));
    FlattenUnended(Pieces(Text(s)));
    UnendedText(Repaired(Text(s)));
  }

  /** A well-shaped text without terminators is taken over as it is. */
  lemma WellShapedText(s: seq<Octet>)
    requires WellShaped(s) && Unended(s)
    ensures Repaired(Text(s + [0])) == s && Pieces(Text(s + [0])) == Characters(s)
  {
    hide Text, Pieces, Flatten, WellShaped, Characters, Unended;
    UnendedText(s);
    WellShapedStays(s);
  }

  // ---------- the automaton's states ----------

  /** A character was begun at a; pos of its continuation bytes have been seen before i. */
  predicate Pending(t: seq<Octet>, a: nat, i: nat, pos: nat)
  {
    && a < i <= |t| && ByteWidth(t[a]) >= 2 && pos < ByteWidth(t[a]) - 1
    && (forall j :: a < j < i ==> Tail(t[j]))
    && Continued(t[a + 1..i]) == pos
  }

  lemma PendingScan(t: seq<Octet>, a: nat, i: nat, pos: nat)
    requires Pending(t, a, i, pos)
    ensures Scan(t[a..][1..], ByteWidth(t[a]) - 1) == i - a - 1 + Scan(t[i..], ByteWidth(t[a]) - 1 - pos)
    ensures t[a..][1..][..i - a - 1] == t[a + 1..i]
  {
    hide ByteWidth, IsPartOfPreviousMultibyte, Scan, Tail, Continued;
    var s := t[a..][1..];
    var n: nat := i - a - 1;
    assert s[..n] == t[a + 1..i];
    assert s[n..] == t[i..];
    forall j | 0 <= j < n
      ensures Tail(s[j])
    {
      assert s[j] == t[a + 1 + j];
    }
    ScanPast(s, ByteWidth(t[a]) - 1, n);
  }

  lemma PendingCompleted(t: seq<Octet>, a: nat, i: nat, pos: nat)
    requires Pending(t, a, i, pos) && i < |t| && IsPartOfPreviousMultibyte(t[i]) && pos + 1 == ByteWidth(t[a]) - 1
    ensures Scan(t[a..][1..], ByteWidth(t[a]) - 1) == i - a && Completed(t[a..])
  {
    hide ByteWidth, IsPartOfPreviousMultibyte, Scan, Tail, Continued, Pieces;
    PendingScan(t, a, i, pos);
    ScanOne(t[i..]);
    assert t[a..][1..][..i - a] == t[a + 1..i] + [t[i]];
    ContinuedAppend(t[a + 1..i], [t[i]]);
    OneContinued(t[i]);
  }

  lemma CompletedPieces(s: seq<Octet>)
    requires s != [] && ByteWidth(s[0]) >= 2 && Completed(s)
    ensures Pieces(s) == [LastRead(s)] + Pieces(s[Scan(s[1..], ByteWidth(s[0]) - 1) + 1..])
  {
    hide ByteWidth, IsPartOfPreviousMultibyte, Scan, Completed, LastRead;
    TailIsNone(s[0]);
  }

  lemma PendingDone(t: seq<Octet>, a: nat, i: nat, pos: nat)
    requires Pending(t, a, i, pos) && i < |t| && IsPartOfPreviousMultibyte(t[i]) && pos + 1 == ByteWidth(t[a]) - 1
    ensures i + 1 >= ByteWidth(t[a])
    ensures Pieces(t[a..]) == [t[i + 1 - ByteWidth(t[a])..i + 1]] + Pieces(t[i + 1..])
  {
    hide ByteWidth, IsPartOfPreviousMultibyte, Scan, Tail, Continued, Pieces, Completed;
    var s, w, k := t[a..], ByteWidth(t[a]), i - a;
    PendingCompleted(t, a, i, pos);
    CompletedPieces(s);
    EnoughRead(s);
    assert s[k + 1 - w..k + 1] == t[i + 1 - w..i + 1];
    assert s[k + 1..] == t[i + 1..];
  }

  lemma PendingStops(t: seq<Octet>, a: nat, i: nat, pos: nat)
    requires Pending(t, a, i, pos) && (i < |t| ==> !Tail(t[i]))
    ensures Pieces(t[a..]) == if i == |t| then [] else [REPLACEMENT] + Pieces(t[i..])
  {
    hide ByteWidth, IsPartOfPreviousMultibyte, Tail, Continued, Pieces, LastRead;
    var s := t[a..];
    PendingScan(t, a, i, pos);
    NothingMore(t[i..], ByteWidth(t[a]) - 1 - pos);
    BrokenPieces(s);
    assert s[i - a..] == t[i..];
  }

  lemma NothingMore(s: seq<Octet>, wanted: nat)
    requires s == [] || !Tail(s[0])
    ensures Scan(s, wanted) == 0
  {
  }

  lemma BrokenPieces(s: seq<Octet>)
    requires s != [] && ByteWidth(s[0]) >= 2 && !Completed(s)
    ensures var k := Scan(s[1..], ByteWidth(s[0]) - 1);
            Pieces(s) == if k + 1 == |s| then [] else [REPLACEMENT] + Pieces(s[k + 1..])
  {
    hide ByteWidth, IsPartOfPreviousMultibyte, Scan, Completed, LastRead;
    TailIsNone(s[0]);
  }

  lemma PendingMore(t: seq<Octet>, a: nat, i: nat, pos: nat)
    requires Pending(t, a, i, pos) && i < |t| && Tail(t[i])
    ensures IsPartOfPreviousMultibyte(t[i]) ==> (pos + 1 < ByteWidth(t[a]) - 1 ==> Pending(t, a, i + 1, pos + 1))
    ensures !IsPartOfPreviousMultibyte(t[i]) ==> Pending(t, a, i + 1, pos)
  {
    hide ByteWidth, IsPartOfPreviousMultibyte, Tail, Continued;
    assert t[a + 1..i + 1] == t[a + 1..i] + [t[i]];
    ContinuedAppend(t[a + 1..i], [t[i]]);
    OneContinued(t[i]);
  }

  lemma PendingStarts(t: seq<Octet>, i: nat)
    requires i < |t| && ByteWidth(t[i]) >= 2
    ensures Pending(t, i, i + 1, 0)
  {
    hide ByteWidth, IsPartOfPreviousMultibyte, Tail;
    assert t[i + 1..i + 1] == [];
  }

  /** What has been appended so far, and where the rest begins. */
  ghost predicate Progress(t: seq<Octet>, ps: seq<seq<Octet>>, b: nat)
  {
    b <= |t| && Pieces(t) == ps + Pieces(t[b..])
  }

  lemma Appended(t: seq<Octet>, ps: seq<seq<Octet>>, b: nat, p: seq<Octet>, c: nat)
    requires Progress(t, ps, b) && c <= |t| && Pieces(t[b..]) == [p] + Pieces(t[c..])
    ensures Progress(t, ps + [p], c) && Flatten(ps + [p]) == Flatten(ps) + p
  {
    hide Pieces, Flatten;
    FlattenAppend(ps, [p]);
    FlattenOne(p);
    assert ps + ([p] + Pieces(t[c..])) == ps + [p] + Pieces(t[c..]);
  }

  /** One byte on its own. */
  lemma Alone(t: seq<Octet>, i: nat)
    requires i < |t| && ByteWidth(t[i]) <= 1
    ensures IsPartOfPreviousMultibyte(t[i]) ==> Pieces(t[i..]) == [REPLACEMENT] + Pieces(t[i + 1..])
    ensures ByteWidth(t[i]) == 1 ==> Pieces(t[i..]) == [[t[i]]] + Pieces(t[i + 1..])
    ensures Tail(t[i]) && !IsPartOfPreviousMultibyte(t[i]) ==> Pieces(t[i..]) == Pieces(t[i + 1..])
  {
    hide ByteWidth, IsPartOfPreviousMultibyte;
    TailIsNone(t[i]);
    var s := t[i..];
    assert s[1..] == t[i + 1..];
    assert s[..1] == [t[i]];
  }

  /** The cases of a byte. */
  lemma Cases(t: seq<Octet>, i: nat)
    requires i < |t|
    ensures IsPartOfPreviousMultibyte(t[i]) ==>
              Tail(t[i]) && Pieces(t[i..]) == [REPLACEMENT] + Pieces(t[i + 1..])
    ensures Tail(t[i]) <==> ByteWidth(t[i]) == 0
    ensures ByteWidth(t[i]) == 1 ==> Pieces(t[i..]) == [[t[i]]] + Pieces(t[i + 1..])
    ensures Tail(t[i]) && !IsPartOfPreviousMultibyte(t[i]) ==> Pieces(t[i..]) == Pieces(t[i + 1..])
  {
    hide Pieces, Tail, ByteWidth, IsPartOfPreviousMultibyte;
    TailIsNone(t[i]);
    if ByteWidth(t[i]) <= 1 {
      Alone(t, i);
    }
  }

  lemma Begun(t: seq<Octet>)
    ensures Progress(t, [], 0) && Flatten([]) == []
  {
    assert t[0..] == t;
  }

  lemma Skipped(t: seq<Octet>, ps: seq<seq<Octet>>, b: nat, c: nat)
    requires Progress(t, ps, b) && c <= |t| && Pieces(t[b..]) == Pieces(t[c..])
    ensures Progress(t, ps, c)
  {
  }

  lemma Finished(t: seq<Octet>, ps: seq<seq<Octet>>, b: nat, pending: bool, pos: nat)
    requires Progress(t, ps, b) && (if pending then Pending(t, b, |t|, pos) else b == |t|)
    ensures ps == Pieces(t) && Flatten(ps) == Repaired(t)
  {
    hide Pending;
    if pending {
      PendingStops(t, b, |t|, pos);
    }
  }

  lemma SamePart(s: seq<Octet>, n: nat, i: nat, j: nat)
    requires i <= j <= n <= |s|
    ensures s[..n][i..j] == s[i..j]
  {
  }

  lemma NoText(t: seq<Octet>)
    ensures t == [] ==> Repaired(t) == [] && Pieces(t) == [] && !AnyTorn(t)
  {
  }

  lemma Beginning(s: seq<Octet>)
    requires 0 in s
    ensures s[0] == 0 ==> Text(s) == []
  {
  }

  /** The characters of two strings one after the other. */
  lemma Together(s: seq<Octet>, t: seq<Octet>)
    requires WellShaped(s) && WellShaped(t)
    ensures WellShaped(s + t) && Characters(s + t) == Characters(s) + Characters(t)
    ensures s + [] == s && Characters([]) == []
  {
    hide ByteWidth, IsPartOfPreviousMultibyte, WellShaped, IsCharacter;
    OfCharacters(s);
    OfCharacters(t);
    FlattenAppend(Characters(s), Characters(t));
    CharactersOf(Characters(s) + Characters(t));
  }

  lemma FlattenNone()
    ensures Flatten([]) == []
  {
  }

  /** Where the characters from the i-th on are. */
  lemma RestAt(s: seq<Octet>, i: nat)
    requires WellShaped(s) && i <= |Characters(s)|
    ensures var cs, b := Characters(s), |Flatten(Characters(s)[..i])|;
            && b <= |s| && (b == |s| <==> i == |cs|) && (i > 0 ==> b > 0)
            && (i < |cs| ==> 1 <= ByteWidth(s[b]) == |Flatten(cs[..i + 1])| - b)
  {
    hide ByteWidth, IsPartOfPreviousMultibyte, WellShaped, Characters, Flatten;
    var cs := Characters(s);
    OfCharacters(s);
    Cut(cs, i);
    FlattenNone();
    if i < |cs| {
      FlattenFirst(cs[i..]);
      Cut(cs[..i + 1], i);
      assert cs[..i + 1][..i] == cs[..i] && cs[..i + 1][i..] == [cs[i]];
      FlattenOne(cs[i]);
      assert IsCharacter(cs[i]);
      assert Flatten(cs[i..])[0] == cs[i][0];
    } else {
      assert cs[i..] == [];
    }
    if i > 0 {
      FlattenFirst(cs[..i]);
      assert IsCharacter(cs[0]);
    }
  }

  lemma FlattenFirst(ps: seq<seq<Octet>>)
    requires ps != []
    ensures Flatten(ps) == ps[0] + Flatten(ps[1..])
  {
  }

  lemma Cut(ps: seq<seq<Octet>>, i: nat)
    requires i <= |ps|
    ensures Flatten(ps) == Flatten(ps[..i]) + Flatten(ps[i..])
  {
    hide Flatten;
    FlattenAppend(ps[..i], ps[i..]);
    assert ps[..i] + ps[i..] == ps;
  }

  /** The bytes of the characters from i to j. */
  lemma Between(s: seq<Octet>, i: nat, j: nat)
    requires WellShaped(s) && i < j <= |Characters(s)|
    ensures var cs := Characters(s);
            var b, e := |Flatten(cs[..i])|, |Flatten(cs[..j])|;
            b < e <= |s| && WellShaped(s[b..e]) && Characters(s[b..e]) == cs[i..j]
  {
    hide ByteWidth, IsPartOfPreviousMultibyte, WellShaped, Characters, Flatten;
    var cs := Characters(s);
    OfCharacters(s);
    Cut(cs, j);
    Cut(cs[..j], i);
    assert cs[..j][..i] == cs[..i] && cs[..j][i..] == cs[i..j];
    var b, e := |Flatten(cs[..i])|, |Flatten(cs[..j])|;
    assert s[b..e] == Flatten(cs[i..j]);
    FlattenFirst(cs[i..j]);
    assert IsCharacter(cs[i]);
    assert AllCharacters(cs[i..j]);
    CharactersOf(cs[i..j]);
  }

  lemma NoPieces(t: seq<Octet>)
    ensures Pieces(t) == [] ==> Repaired(t) == []
  {
    hide Pieces;
  }

  /** A string with a torn character in it is not well-shaped, whatever comes first. */
  lemma TornSpoils(s: seq<Octet>, t: seq<Octet>)
    requires AnyTorn(t)
    ensures !WellShaped(s + Repaired(t))
  {
    hide ByteWidth, IsPartOfPreviousMultibyte, WellShaped, Repaired, AnyTorn;
    StrayLeft(t);
    var r := Repaired(t);
    var i :| 0 <= i < |r| && Tail(r[i]) && !IsPartOfPreviousMultibyte(r[i]);
    var x := s + r;
    assert x[|s| + i] == r[i];
    if WellShaped(x) {
      NoStrays(x);
    }
  }

  /** With the count reset, a string is in order only if it has no bytes. */
  lemma EmptiedShape(s: seq<Octet>)
    ensures WellShaped(s) ==> (|Characters(s)| == 0 <==> s == [])
  {
  }

  method TextLength(s: seq<Octet>) returns (n: nat)
    requires 0 in s
    ensures n < |s| && s[..n] == Text(s)
  {
    hide Text;
    n := 0;
    assert s[0..] == s;
    while !IsStringTerminationCharacter(s, n)
      invariant n < |s| && 0 in s[n..] && Text(s) == s[..n] + Text(s[n..])
      decreases |s| - n
    {
      TextStep(s[n..]);
      assert s[n..][1..] == s[n + 1..];
      assert s[..n + 1] == s[..n] + [s[n]];
      n := n + 1;
    }
    TextStep(s[n..]);
  }

  lemma TextStep(s: seq<Octet>)
    requires 0 in s
    ensures if IsStringTerminationCharacter(s, 0) then Text(s) == []
            else 0 in s[1..] && Text(s) == [s[0]] + Text(s[1..])
  {
  }

  class UTF8String {
    var data: seq<Octet>
    var stringLength: nat

    ghost predicate Valid()
      reads this
    {
      WellShaped(data) && stringLength == |Characters(data)|
    }

    constructor ()
      ensures Valid() && data == [] && stringLength == 0
    {
      data, stringLength := [], 0;
    }

    constructor From(stringData: seq<Octet>)
      requires 0 in stringData
      ensures data == Repaired(Text(stringData)) && stringLength == |Pieces(Text(stringData))|
      ensures Valid() <==> !AnyTorn(Text(stringData))
    {
      data, stringLength := [], 0;
      new;
      NoText(Text(stringData));
      ValidateString(stringData);
    }

    /** The bytes of a completed character. */
    method PushBack(stringData: seq<Octet>, offset: nat, count: nat)
      requires offset + count <= |stringData|
      modifies `data
      ensures data == old(data) + stringData[offset..offset + count]
    {
      for j := 0 to count
        invariant data == old(data) + stringData[offset..offset + j]
      {
        data := data + [stringData[offset + j]];
      }
    }

    method Repair(stringData: seq<Octet>, byteLength: nat) returns (characterCount: nat)
      requires byteLength <= |stringData|
      modifies `data
      ensures data == Repaired(stringData[..byteLength])
      ensures characterCount == |Pieces(stringData[..byteLength])|
    {
      hide *;
      ghost var t := stringData[..byteLength];
      ghost var ps: seq<seq<Octet>> := [];   // appended so far
      ghost var b: nat := 0;                 // where the rest begins
      data := [];
      var sequenceLength, sequencePosition := -1, -1;
      characterCount := 0;
      Begun(t);
      for i := 0 to byteLength
        invariant Progress(t, ps, b) && data == Flatten(ps) && characterCount == |ps|
        invariant sequenceLength == -1 || sequenceLength >= 2
        invariant sequenceLength == -1 ==> sequencePosition == -1 && b == i
        invariant sequenceLength >= 2 ==>
          && b < i && sequenceLength == ByteWidth(t[b]) && 0 <= sequencePosition < sequenceLength - 1
          && Pending(t, b, i, sequencePosition)
      {
        var width := ByteWidth(stringData[i]);
        Cases(t, i);
        if IsPartOfPreviousMultibyte(stringData[i]) {
          sequencePosition := sequencePosition + 1;
          if sequencePosition > sequenceLength - 1 {
            data := data + REPLACEMENT;
            Appended(t, ps, b, REPLACEMENT, i + 1);
            ps, b := ps + [REPLACEMENT], i + 1;
            characterCount := characterCount + 1;
            sequenceLength, sequencePosition := -1, -1;
          } else if sequencePosition == sequenceLength - 1 {
            PendingDone(t, b, i, sequencePosition - 1);
            var offset := i - sequenceLength + 1;
            PushBack(stringData, offset, sequenceLength);
            ghost var c := t[offset..i + 1];
            SamePart(stringData, byteLength, offset, i + 1);
            Appended(t, ps, b, c, i + 1);
            ps, b := ps + [c], i + 1;
            sequenceLength, sequencePosition := -1, -1;
            characterCount := characterCount + 1;
          } else {
            PendingMore(t, b, i, sequencePosition - 1);
          }
        } else if width == 1 {
          if sequenceLength >= 0 {
            PendingStops(t, b, i, sequencePosition);
            data := data + REPLACEMENT;
            Appended(t, ps, b, REPLACEMENT, i);
            ps, b := ps + [REPLACEMENT], i;
            characterCount := characterCount + 1;
          }
          data := data + [stringData[i]];
          Appended(t, ps, b, [t[i]], i + 1);
          ps, b := ps + [[t[i]]], i + 1;
          sequenceLength, sequencePosition := -1, -1;
          characterCount := characterCount + 1;
        } else if width > 1 {
          if sequenceLength != -1 {
            PendingStops(t, b, i, sequencePosition);
            data := data + REPLACEMENT;
            Appended(t, ps, b, REPLACEMENT, i);
            ps, b := ps + [REPLACEMENT], i;
            characterCount := characterCount + 1;
            sequenceLength, sequencePosition := -1, -1;
          }
          PendingStarts(t, i);
          sequenceLength, sequencePosition := width, 0;
        } else {
          if sequenceLength == -1 {
            Skipped(t, ps, b, i + 1);
            b := i + 1;
          } else {
            PendingMore(t, b, i, sequencePosition);
          }
        }
      }
      Finished(t, ps, b, sequenceLength >= 2, if sequencePosition < 0 then 0 else sequencePosition);
    }

    /** Take over the text, repaired.  An empty text is not taken over: the bytes stay, and if the text ends with
        a zero byte the count is reset all the same. */
    method ValidateString(stringData: seq<Octet>)
      requires 0 in stringData
      modifies this
      ensures var t := Text(stringData);
              if t != [] then data == Repaired(t) && stringLength == |Pieces(t)|
              else data == old(data) && stringLength == if stringData[0] == 0 then 0 else old(stringLength)
      ensures old(Valid()) ==>
                (Valid() <==>
                 if Text(stringData) != [] then !AnyTorn(Text(stringData)) else stringData[0] != 0 || old(data) == [])
    {
      hide Text, Pieces, Flatten, AnyTorn, WellShaped, Repaired, Characters, ByteWidth, IsPartOfPreviousMultibyte;
      ghost var t := Text(stringData);
      Beginning(stringData);
      if stringData[0] == 0 {
        stringLength := 0;
        EmptiedShape(old(data));
        return;
      }
      var byteLength := TextLength(stringData);
      if byteLength == 0 {
        return;
      }
      stringLength := Repair(stringData, byteLength);
      RepairedShape(t);
    }

    /** Append another string's bytes, if it has characters. */
    method Concatenate(other: UTF8String)
      modifies this
      ensures data == old(data) + (if old(other.stringLength) > 0 then old(other.data) else [])
      ensures stringLength == old(stringLength) + old(other.stringLength)
      ensures old(Valid()) && old(other.Valid()) ==>
                Valid() && Characters(data) == old(Characters(data)) + old(Characters(other.data))
    {
      hide ByteWidth, IsPartOfPreviousMultibyte, WellShaped, Characters;
      EmptiedShape(other.data);
      if Valid() && other.Valid() {
        Together(data, other.data);
      }
      if other.stringLength > 0 {
        data, stringLength := data + other.data, stringLength + other.stringLength;
      }
    }

    /** Append a text, repaired. */
    method ConcatenateText(stringData: seq<Octet>)
      requires 0 in stringData
      modifies this
      ensures data == old(data) + Repaired(Text(stringData))
      ensures stringLength == old(stringLength) + |Pieces(Text(stringData))|
      ensures old(Valid()) ==> (Valid() <==> !AnyTorn(Text(stringData)))
    {
      hide ByteWidth, IsPartOfPreviousMultibyte, WellShaped, Characters, Pieces, Flatten, AnyTorn, Text, Repaired;
      RepairedShape(Text(stringData));
      NoPieces(Text(stringData));
      if AnyTorn(Text(stringData)) {
        TornSpoils(data, Text(stringData));
      }
      var other := new UTF8String.From(stringData);
      Concatenate(other);
    }

    /** The characters from start on, length of them or as many as there are.  A start between the number of
        characters and the number of bytes yields the whole string with the count 0. */
    method Substring(start: nat, length: nat) returns (r: UTF8String)
      requires Valid()
      ensures fresh(r)
      ensures var end := if start + length < stringLength then start + length else stringLength;
              if length == 0 || start > |data| || data == [] then r.data == [] && r.stringLength == 0
              else if start < stringLength then
                WellShaped(r.data) && Characters(r.data) == Characters(data)[start..end]
                    && r.stringLength == end - start
              else r.data == data && r.stringLength == 0
      ensures r.Valid() <==> length == 0 || start < stringLength || start > |data| || data == []
    {
      hide ByteWidth, IsPartOfPreviousMultibyte, WellShaped, Characters, Flatten;
      EmptiedShape(data);
      if length == 0 || start > |data| {
        r := new UTF8String();
        return;
      }
      ghost var cs := Characters(data);
      var byteIndex, byteOffsetStart, byteOffsetEnd, characterIndex, characterCounter := 0, 0, 0, 0, 0;
      RestAt(data, 0);
      FlattenNone();
      while byteIndex < |data| && characterCounter < length
        invariant 0 <= characterIndex <= |cs| && byteIndex == |Flatten(cs[..characterIndex])| <= |data|
        invariant characterCounter == if characterIndex > start then characterIndex - start else 0
        invariant characterCounter <= length
        invariant byteOffsetStart == if characterIndex > start then |Flatten(cs[..start])| else 0
        invariant byteOffsetEnd == if characterIndex > 0 then byteIndex - 1 else 0
        invariant characterIndex > 0 ==> byteIndex > 0
        decreases |data| - byteIndex
      {
        RestAt(data, characterIndex);
        RestAt(data, characterIndex + 1);
        var numberOfBytes := ByteWidth(data[byteIndex]);
        if characterIndex == start {
          byteOffsetStart := byteIndex;
        }
        if characterIndex >= start {
          characterCounter := characterCounter + 1;
        }
        byteOffsetEnd := byteIndex + numberOfBytes - 1;
        byteIndex := byteIndex + numberOfBytes;
        characterIndex := characterIndex + 1;
      }
      RestAt(data, characterIndex);
      if start < characterIndex {
        Between(data, start, characterIndex);
      }
      r := new UTF8String();
      if byteOffsetStart <= byteOffsetEnd && byteOffsetEnd < |data| {
        r.data, r.stringLength := data[byteOffsetStart..byteOffsetEnd + 1], characterCounter;
      }
    }
  }

  // ---------- where the promises fail ----------

  const TORN: seq<Octet> := [0xE2, 0x82, 0xF8, 0xAC]
  const ACUTE: seq<Octet> := [0xC3, 0xA9]

  /** A character of three bytes with a byte F8 before its last: what is left is no character at all. */
  lemma TornExample()
    ensures AnyTorn(TORN) && Repaired(TORN) == [0x82, 0xF8, 0xAC]
    ensures !WellShaped(Repaired(TORN)) && Repaired(Repaired(TORN)) != Repaired(TORN)
  {
    var s := TORN;
    TornBytes();
    assert s[1..4] == [0x82, 0xF8, 0xAC];
    ContinuedThree(0x82, 0xF8, 0xAC);
    assert Torn(s, 0, 3);
    hide Pieces, Flatten, Continued, Scan, Torn, WellShaped;
    TornScan(s, 3);
    CompletedPieces(s);
    assert s[4..] == [] && s[1..4] == [0x82, 0xF8, 0xAC];
    PiecesNone();
    FlattenOne(s[1..4]);
    RepairedIs(s);
    RepairedShape(s);
    RepairedAgain(s);
  }

  lemma TornBytes()
    ensures ByteWidth(0xE2) == 3 && Tail(0x82) && Tail(0xF8) && Tail(0xAC)
    ensures IsPartOfPreviousMultibyte(0x82) && !IsPartOfPreviousMultibyte(0xF8) && IsPartOfPreviousMultibyte(0xAC)
  {
  }

  lemma ContinuedThree(a: Octet, b: Octet, c: Octet)
    requires IsPartOfPreviousMultibyte(a) && !IsPartOfPreviousMultibyte(b) && IsPartOfPreviousMultibyte(c)
    ensures Continued([a, b, c]) == 2
  {
    OneContinued(c);
    assert [a, b, c][1..] == [b, c] && [b, c][1..] == [c];
  }

  lemma PiecesNone()
    ensures Pieces([]) == []
  {
  }

  /** A text of one character of two bytes. */
  lemma AcuteText()
    ensures 0 in ACUTE + [0] && Text(ACUTE + [0]) == ACUTE && WellShaped(ACUTE)
    ensures Repaired(ACUTE) == ACUTE && Pieces(ACUTE) == Characters(ACUTE) == [ACUTE] && !AnyTorn(ACUTE)
  {
    var s := ACUTE;
    AcuteBytes();
    assert s[2..] == [] && s[..2] == s && s[1..2] == [0xA9];
    assert WellShaped(s) && Characters(s) == [s];
    assert Unended(s);
    UnendedText(s);
    WellShapedStays(s);
    PlainUntorn(s);
  }

  lemma AcuteBytes()
    ensures ByteWidth(0xC3) == 2 && IsPartOfPreviousMultibyte(0xA9)
  {
  }

  /** The part from character 1 on, of a string that has only the character 0, is the whole string with the count 0. */
  method SubstringExample() returns (r: UTF8String)
    ensures r.data == ACUTE && r.stringLength == 0 && !r.Valid()
  {
    hide *;
    AcuteText();
    AcuteLength();
    var s := new UTF8String.From(ACUTE + [0]);
    r := s.Substring(1, 1);
  }

  lemma AcuteLength()
    ensures |ACUTE| == 2 && ACUTE != []
  {
  }

  /** Taking over an empty text keeps the bytes of a string that has some, and counts none. */
  method EmptyTextExample() returns (s: UTF8String)
    ensures s.data == ACUTE && s.stringLength == 0 && !s.Valid()
  {
    hide *;
    AcuteText();
    AcuteLength();
    s := new UTF8String.From(ACUTE + [0]);
    NoTextAtAll();
    s.ValidateString([0]);
  }

  lemma NoTextAtAll()
    ensures 0 in [0] && Text([0]) == []
  {
    var z: seq<Octet> := [0];
    assert z[0] == 0;
  }
}
