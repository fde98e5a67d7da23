/** The search for a flush point (inflate.c: syncsearch): the bytes 00 00 FF FF, found across calls. */
module SyncSearch {
  import opened Bits

  const MARK: seq<Byte> := [0, 0, 0xff, 0xff]

  /** The text ends with the first k bytes of the mark. */
  ghost predicate EndsWith(s: seq<Byte>, k: nat)
  {
    k <= 4 && k <= |s| && s[|s| - k..] == MARK[..k]
  }

  ghost predicate Nowhere(s: seq<Byte>)
  {
    forall i :: 0 <= i < |s| ==> !EndsWith(s[..i], 4)
  }

  /** As many bytes of the mark as possible end the text, and the whole of it appears no sooner. */
  ghost predicate Found(s: seq<Byte>, got: nat)
  {
    EndsWith(s, got) && (forall k :: got < k <= 4 ==> !EndsWith(s, k)) && Nowhere(s)
  }

  lemma Nothing()
    ensures Found([], 0)
  {
  }

  /** The text ends with k + 1 bytes of the mark if it ended with k and the next one came. */
  lemma EndsStep(s: seq<Byte>, c: Byte, k: nat)
    requires k < 4
    ensures EndsWith(s + [c], k + 1) <==> EndsWith(s, k) && c == MARK[k]
  {
    var t := s + [c];
    if k <= |s| {
      assert t[|t| - (k + 1)..] == s[|s| - k..] + [c];
      assert MARK[..k + 1] == MARK[..k] + [MARK[k]];
      if t[|t| - (k + 1)..] == MARK[..k + 1] {
        assert s[|s| - k..] == t[|t| - (k + 1)..][..k];
        assert MARK[..k] == MARK[..k + 1][..k];
        assert t[|t| - (k + 1)..][k] == MARK[..k + 1][k];
      }
    }
  }

  /** Which beginnings of the mark end a text that ends with a longer one. */
  lemma Borders(s: seq<Byte>, got: nat)
    requires Found(s, got) && got < 4
    ensures EndsWith(s, 0)
    ensures EndsWith(s, 1) <==> got == 1 || got == 2
    ensures EndsWith(s, 2) <==> got == 2
    ensures EndsWith(s, 3) <==> got == 3
  {
    var m := MARK[..got];
    forall i | 0 <= i < got
      ensures s[|s| - got + i] == MARK[i]
    {
      assert s[|s| - got..][i] == m[i];
    }
    if got >= 1 {
      assert s[|s| - 1..] == [s[|s| - 1]];
    }
    if got >= 2 {
      assert s[|s| - 2..] == [s[|s| - 2], s[|s| - 1]];
    }
    assert MARK[..1] == [0] && MARK[..2] == [0, 0];
  }

  lemma OneByte(s: seq<Byte>, got: nat, c: Byte)
    requires Found(s, got) && got < 4
    ensures Found(s + [c], if c == MARK[got] then got + 1 else if c != 0 then 0 else 4 - got)
  {
    hide EndsWith;
    var t := s + [c];
    Borders(s, got);
    EndsStep(s, c, 0);
    EndsStep(s, c, 1);
    EndsStep(s, c, 2);
    EndsStep(s, c, 3);
    Any(t);
    forall i | 0 <= i < |t|
      ensures !EndsWith(t[..i], 4)
    {
      assert t[..i] == s[..i];
      assert i == |s| ==> s[..i] == s;
    }
  }

  lemma Any(s: seq<Byte>)
    ensures EndsWith(s, 0)
  {
  }

  method Search(got0: nat, buf: seq<Byte>, ghost seen: seq<Byte>) returns (got: nat, next: nat)
    requires Found(seen, got0)
    ensures next <= |buf| && Found(seen + buf[..next], got)
    ensures got < 4 ==> next == |buf|
  {
    hide *;
    got, next := got0, 0;
    FoundRange(seen, got);
    assert seen + buf[..0] == seen;
    while next < |buf| && got < 4
      invariant next <= |buf| && got <= 4 && Found(seen + buf[..next], got)
      decreases |buf| - next
    {
      OneByte(seen + buf[..next], got, buf[next]);
      Expected(got);
      assert seen + buf[..next] + [buf[next]] == seen + buf[..next + 1];
      if buf[next] == (if got < 2 then 0 else 0xff) {
        got := got + 1;
      } else if buf[next] != 0 {
        got := 0;
      } else {
        got := 4 - got;
      }
      next := next + 1;
    }
  }

  lemma FoundRange(s: seq<Byte>, got: nat)
    requires Found(s, got)
    ensures got <= 4
  {
  }

  lemma Expected(got: nat)
    requires got < 4
    ensures MARK[got] == if got < 2 then 0 else 0xff
  {
  }

  /** The search ends with 4 exactly if the mark is there, and then right behind its first appearance. */
  lemma FoundExactly(s: seq<Byte>, got: nat)
    requires Found(s, got)
    ensures got == 4 <==> exists i :: 0 <= i <= |s| && EndsWith(s[..i], 4)
  {
    hide EndsWith;
    FoundRange(s, got);
    assert s[..|s|] == s;
  }
}
