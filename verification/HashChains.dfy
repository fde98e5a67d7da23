/** The hash chains of the string matcher, stored modulo the window size (deflate.c: INSERT_STRING,
    slide_hash), on snapshots of the two arrays. */
module HashChains {
  import opened Bits
  import opened Xors
  import opened Hashing

  /** The key of the string at p. */
  function HashAt(bits: nat, win: seq<Byte>, p: nat): (h: nat)
    requires p + 2 < |win|
  {
    Hash3(bits, win[p], win[p + 1], win[p + 2])
  }

  /** The key is ready for the string at p: its first two bytes are shifted in. */
  ghost predicate Primed(bits: nat, h: nat, win: seq<Byte>, p: nat)
  {
    p + 1 < |win| && exists x: nat :: FirstTwo(bits, h, x, win, p)
  }

  ghost predicate FirstTwo(bits: nat, h: nat, x: nat, win: seq<Byte>, p: nat)
    requires p + 1 < |win|
  {
    h == Update(bits, Update(bits, x, win[p]), win[p + 1])
  }

  /** Shifting in the third byte gives the key of the string at p and readies it for the next. */
  lemma PrimedNext(bits: nat, h: nat, win: seq<Byte>, p: nat)
    requires Primed(bits, h, win, p) && p + 2 < |win|
    ensures Update(bits, h, win[p + 2]) == HashAt(bits, win, p)
    ensures Primed(bits, Update(bits, h, win[p + 2]), win, p + 1)
  {
    hide Update, Hash3;
    var x: nat :| FirstTwo(bits, h, x, win, p);
    RollingHash(bits, x, win[p], win[p + 1], win[p + 2]);
    assert FirstTwo(bits, Update(bits, h, win[p + 2]), Update(bits, x, win[p]), win, p + 1);
  }

  /** Starting from the first byte alone, which needs no masking. */
  lemma PrimedStart(bits: nat, win: seq<Byte>, p: nat)
    requires p + 1 < |win| && bits >= 8
    ensures Primed(bits, Update(bits, win[p], win[p + 1]), win, p)
  {
    hide Update;
    FirstByte(bits, win[p]);
    assert FirstTwo(bits, Update(bits, win[p], win[p + 1]), 0, win, p);
  }

  lemma FirstByte(bits: nat, a: Byte)
    requires bits >= 8
    ensures Update(bits, 0, a) == a
  {
    hide Pow2, Low;
    XorZero(a);
    Pow2Values();
    Pow2Mono(8, bits);
    LowSmall(a, bits);
  }

  /** The key stays ready when the bytes it is made of move. */
  lemma PrimedMoves(bits: nat, h: nat, win: seq<Byte>, p: nat, win': seq<Byte>, q: nat)
    requires Primed(bits, h, win, p) && q + 1 < |win'| && win'[q] == win[p] && win'[q + 1] == win[p + 1]
    ensures Primed(bits, h, win', q)
  {
    hide Update;
    var x: nat :| FirstTwo(bits, h, x, win, p);
    assert FirstTwo(bits, h, x, win', q);
  }

  // ---------- the chains ----------

  /** The string at q can be on a chain of strings with key h. */
  ghost predicate Linked(bits: nat, win: seq<Byte>, linked: set<nat>, h: nat, q: nat)
  {
    q in linked && q + 2 < |win| && HashAt(bits, win, q) == h
  }

  /** What is linked was inserted before `next` and is made of valid bytes. */
  ghost predicate Placed(linked: set<nat>, next: nat, end: nat)
  {
    forall p :: p in linked ==> p < next && p + 2 < end
  }

  ghost predicate Heads(bits: nat, head: seq<nat>, win: seq<Byte>, linked: set<nat>)
  {
    forall h :: 0 <= h < |head| && head[h] != 0 ==> Linked(bits, win, linked, h, head[h])
  }

  /** No string with key h that comes before position p comes after q. */
  ghost predicate NoneBetween(bits: nat, win: seq<Byte>, linked: set<nat>, h: nat, q: nat, p: nat)
  {
    forall r: nat :: r < p && Linked(bits, win, linked, h, r) ==> r <= q
  }

  /** The head of a chain is the last string inserted with its key. */
  ghost predicate Latest(bits: nat, head: seq<nat>, win: seq<Byte>, linked: set<nat>)
  {
    forall h :: 0 <= h < |head| ==> NoneBetween(bits, win, linked, h, head[h], |win|)
  }

  /** The slot of p has not been given to a later string: it links p to the last string before it with the same key. */
  ghost predicate LinkOf(bits: nat, prev: seq<nat>, win: seq<Byte>, linked: set<nat>, p: nat)
    requires |prev| > 0
  {
    LinkTo(bits, win, linked, p, prev[p % |prev|])
  }

  ghost predicate LinkTo(bits: nat, win: seq<Byte>, linked: set<nat>, p: nat, q: nat)
  {
    p + 2 < |win| && (q == 0 || (q < p && Linked(bits, win, linked, HashAt(bits, win, p), q)))
    && NoneBetween(bits, win, linked, HashAt(bits, win, p), q, p)
  }

  /** No string has been inserted that could have taken the slot of p. */
  ghost predicate Newest(linked: set<nat>, p: nat, n: nat)
  {
    forall q :: q in linked ==> q < p + n
  }

  ghost predicate Links(bits: nat, prev: seq<nat>, win: seq<Byte>, linked: set<nat>)
    requires |prev| > 0
  {
    forall p :: p in linked && Newest(linked, p, |prev|) ==> LinkOf(bits, prev, win, linked, p)
  }

  /** The chains are sound and complete: each holds the strings inserted with its key, the last one first. */
  ghost predicate Chains(bits: nat, head: seq<nat>, prev: seq<nat>, win: seq<Byte>, linked: set<nat>, next: nat,
                         end: nat)
  {
    |prev| > 0 && end <= |win| && Placed(linked, next, end)
    && Heads(bits, head, win, linked) && Latest(bits, head, win, linked) && Links(bits, prev, win, linked)
  }

  lemma NoChains(bits: nat, head: seq<nat>, prev: seq<nat>, win: seq<Byte>)
    requires |prev| > 0 && forall h :: 0 <= h < |head| ==> head[h] == 0
    ensures Chains(bits, head, prev, win, {}, 0, 0)
  {
  }

  /** New bytes behind the valid ones, and time passing, do not disturb the chains. */
  lemma ChainsKept(bits: nat, head: seq<nat>, prev: seq<nat>, win: seq<Byte>, linked: set<nat>, next: nat, end: nat,
                   win': seq<Byte>, next': nat, end': nat)
    requires Chains(bits, head, prev, win, linked, next, end)
    requires end <= end' <= |win'| && next <= next' && win'[..end] == win[..end]
    ensures Chains(bits, head, prev, win', linked, next', end')
  {
    hide Hash3;
    SameStrings(bits, win, win', end);
    forall h | 0 <= h < |head| && head[h] != 0 ensures Linked(bits, win', linked, h, head[h]) {
      assert Linked(bits, win, linked, h, head[h]);
    }
    forall p | p in linked && Newest(linked, p, |prev|) ensures LinkOf(bits, prev, win', linked, p) {
      assert LinkOf(bits, prev, win, linked, p);
      var q := prev[p % |prev|];
      if q != 0 {
        assert Linked(bits, win, linked, HashAt(bits, win, p), q);
      }
      NoneKept(bits, win, win', linked, next, end, HashAt(bits, win, p), q, p, p);
    }
    forall h | 0 <= h < |head| ensures NoneBetween(bits, win', linked, h, head[h], |win'|) {
      NoneKept(bits, win, win', linked, next, end, h, head[h], |win|, |win'|);
    }
  }

  lemma NoneKept(bits: nat, win: seq<Byte>, win': seq<Byte>, linked: set<nat>, next: nat, end: nat, h: nat, q: nat,
                 p: nat, p': nat)
    requires NoneBetween(bits, win, linked, h, q, p) && Placed(linked, next, end) && (p' <= p || end <= p)
    requires end <= |win| && end <= |win'| && forall p: nat :: p + 2 < end ==>
      HashAt(bits, win', p) == HashAt(bits, win, p)
    ensures NoneBetween(bits, win', linked, h, q, p')
  {
    hide Hash3, HashAt;
    forall r: nat | r < p' && Linked(bits, win', linked, h, r) ensures r <= q {
      assert Linked(bits, win, linked, h, r);
    }
  }

  /** With all valid bytes passed, at least two strings are still to be inserted. */
  lemma ChainsEnd(bits: nat, head: seq<nat>, prev: seq<nat>, win: seq<Byte>, linked: set<nat>, next: nat, end: nat,
                  next': nat)
    requires Chains(bits, head, prev, win, linked, next, end) && next' + 2 >= end
    ensures Chains(bits, head, prev, win, linked, next', end)
  {
    hide Heads, Latest, Links;
  }

  lemma SameStrings(bits: nat, win: seq<Byte>, win': seq<Byte>, end: nat)
    requires end <= |win| && end <= |win'| && win'[..end] == win[..end]
    ensures forall p: nat :: p + 2 < end ==> HashAt(bits, win', p) == HashAt(bits, win, p)
  {
    hide Hash3;
    forall p: nat | p + 2 < end ensures HashAt(bits, win', p) == HashAt(bits, win, p) {
      assert win'[p] == win'[..end][p] && win'[p + 1] == win'[..end][p + 1] && win'[p + 2] == win'[..end][p + 2];
    }
  }

  lemma SlotKept(p: nat, n: nat)
    requires n > 0
    ensures (p + n) % n == p % n
  {
    var k := p / n;
    assert p == n * k + p % n;
    Distribute(n, k, 1);
    Remainder(n, k + 1, p % n);
  }

  /** Positions less than n apart have different slots. */
  lemma SameSlot(p: nat, q: nat, n: nat)
    requires n > 0 && p < q < p + n
    ensures p % n != q % n
  {
    var k, r := p / n, p % n;
    assert p == n * k + r;
    if r + (q - p) < n {
      Remainder(n, k, r + (q - p));
    } else {
      Distribute(n, k, 1);
      Remainder(n, k + 1, r + (q - p) - n);
    }
  }

  /** A string inserted last comes after all others. */
  lemma NoneInserted(bits: nat, win: seq<Byte>, linked: set<nat>, h: nat, q: nat, e: nat, p: nat)
    requires NoneBetween(bits, win, linked, h, q, e) && p + 2 < |win| && forall r :: r in linked ==> r < p
    ensures e <= p || HashAt(bits, win, p) != h ==> NoneBetween(bits, win, linked + {p}, h, q, e)
    ensures HashAt(bits, win, p) == h ==> NoneBetween(bits, win, linked + {p}, h, p, e)
  {
    hide Hash3, HashAt;
    forall r: nat | r < e && Linked(bits, win, linked + {p}, h, r) && r != p ensures r <= q {
      assert Linked(bits, win, linked, h, r);
    }
  }

  lemma SlotSet(prev: seq<nat>, p: nat, m: nat)
    requires |prev| > 0
    ensures p % |prev| < |prev| && prev[p % |prev| := m][p % |prev|] == m
  {
  }

  lemma OtherSlot(prev: seq<nat>, p: nat, m: nat, q: nat)
    requires |prev| > 0 && q < p < q + |prev|
    ensures p % |prev| < |prev| && q % |prev| < |prev| && prev[p % |prev| := m][q % |prev|] == prev[q % |prev|]
  {
    SameSlot(q, p, |prev|);
  }

  /** The links after the string at p has been inserted with the former head of its chain. */
  lemma InsertLink(bits: nat, prev: seq<nat>, win: seq<Byte>, linked: set<nat>, p: nat, q: nat, m: nat)
    requires |prev| > 0 && Links(bits, prev, win, linked) && p + 2 < |win| && q in linked + {p}
    requires (forall r :: r in linked ==> r < p) && Newest(linked + {p}, q, |prev|)
    requires m != 0 ==> Linked(bits, win, linked, HashAt(bits, win, p), m)
    requires NoneBetween(bits, win, linked, HashAt(bits, win, p), m, |win|)
    ensures LinkOf(bits, prev[p % |prev| := m], win, linked + {p}, q)
  {
    hide Hash3, HashAt, LinkTo;
    assert p in linked + {p};
    if q == p {
      NewLink(bits, win, linked, p, m);
      SlotSet(prev, p, m);
    } else {
      assert forall r :: r in linked ==> r in linked + {p};
      assert LinkOf(bits, prev, win, linked, q);
      OldLink(bits, win, linked, p, q, prev[q % |prev|]);
      OtherSlot(prev, p, m, q);
    }
  }

  lemma NewLink(bits: nat, win: seq<Byte>, linked: set<nat>, p: nat, m: nat)
    requires p + 2 < |win| && forall r :: r in linked ==> r < p
    requires m != 0 ==> Linked(bits, win, linked, HashAt(bits, win, p), m)
    requires NoneBetween(bits, win, linked, HashAt(bits, win, p), m, |win|)
    ensures LinkTo(bits, win, linked + {p}, p, m)
  {
    hide Hash3, HashAt;
    NoneInserted(bits, win, linked, HashAt(bits, win, p), m, p, p);
  }

  lemma OldLink(bits: nat, win: seq<Byte>, linked: set<nat>, p: nat, q: nat, m: nat)
    requires p + 2 < |win| && q < p && (forall r :: r in linked ==> r < p) && LinkTo(bits, win, linked, q, m)
    ensures LinkTo(bits, win, linked + {p}, q, m)
  {
    hide Hash3, HashAt;
    NoneInserted(bits, win, linked, HashAt(bits, win, q), m, q, p);
  }

  /** Insert the string at p: it links to the former head of its chain and becomes the head. */
  lemma ChainsInsert(bits: nat, head: seq<nat>, prev: seq<nat>, win: seq<Byte>, linked: set<nat>, next: nat, end: nat,
                     p: nat)
    requires Chains(bits, head, prev, win, linked, next, end)
    requires next <= p && p + 2 < end && HashAt(bits, win, p) < |head|
    ensures var h := HashAt(bits, win, p);
            Chains(bits, head[h := p], prev[p % |prev| := head[h]], win, linked + {p}, p + 1, end)
  {
    hide Hash3;
    var h := HashAt(bits, win, p);
    var n := |prev|;
    var head', prev', linked' := head[h := p], prev[p % n := head[h]], linked + {p};
    forall g | 0 <= g < |head'| && head'[g] != 0 ensures Linked(bits, win, linked', g, head'[g]) {
      if g != h {
        assert Linked(bits, win, linked, g, head[g]);
      }
    }
    assert head[h] != 0 ==> Linked(bits, win, linked, h, head[h]);
    forall q | q in linked' && Newest(linked', q, n) ensures LinkOf(bits, prev', win, linked', q) {
      InsertLink(bits, prev, win, linked, p, q, head[h]);
    }
    forall g | 0 <= g < |head'| ensures NoneBetween(bits, win, linked', g, head'[g], |win|) {
      NoneInserted(bits, win, linked, g, head[g], |win|, p);
    }
  }

  // ---------- sliding ----------

  /** Positions move down by n; what would become 0 or less is dropped. */
  function Slid(s: seq<nat>, n: nat): (t: seq<nat>)
    ensures |t| == |s|
    ensures forall i :: 0 <= i < |s| ==> t[i] == if s[i] >= n then s[i] - n else 0
  {
    seq(|s|, i requires 0 <= i < |s| => if s[i] >= n then s[i] - n else 0)
  }

  ghost predicate Above(linked: set<nat>, n: nat, p: nat)
  {
    p + n in linked
  }

  ghost function SlidSet(linked: set<nat>, n: nat, next: nat): (r: set<nat>)
    ensures forall p: nat :: p in r <==> 0 < p < next && Above(linked, n, p)
  {
    set p: nat | 0 < p < next && Above(linked, n, p)
  }

  lemma SlidString(bits: nat, win: seq<Byte>, win': seq<Byte>, n: nat, end: nat, p: nat)
    requires n <= p && p + 2 < end <= |win| && end - n <= |win'|
    requires forall i :: 0 <= i < end - n ==> win'[i] == win[i + n]
    ensures HashAt(bits, win', p - n) == HashAt(bits, win, p)
  {
    hide Hash3;
    var i := p - n;
    assert win'[i] == win[i + n] && win'[i + 1] == win[i + 1 + n] && win'[i + 2] == win[i + 2 + n];
  }

  /** A string that is on a chain stays on it when the window slides, unless it falls out. */
  lemma LinkedSlides(bits: nat, win: seq<Byte>, win': seq<Byte>, linked: set<nat>, next: nat, end: nat, n: nat, h: nat,
                     q: nat)
    requires Linked(bits, win, linked, h, q) && Placed(linked, next, end) && n < q && end <= |win| && n <= end
      && end - n <= |win'|
    requires forall i :: 0 <= i < end - n ==> win'[i] == win[i + n]
    ensures n <= next && Linked(bits, win', SlidSet(linked, n, next - n), h, q - n)
  {
    hide Hash3;
    SlidString(bits, win, win', n, end, q);
    assert Above(linked, n, q - n);
  }

  /** Sliding the window by the size of the chain array keeps the chains. */
  lemma ChainsSlide(bits: nat, head: seq<nat>, prev: seq<nat>, win: seq<Byte>, win': seq<Byte>, linked: set<nat>,
                    next: nat, end: nat)
    requires Chains(bits, head, prev, win, linked, next, end) && |prev| <= next && |prev| <= end
      && end - |prev| <= |win'|
    requires forall i :: 0 <= i < end - |prev| ==> win'[i] == win[i + |prev|]
    ensures Chains(bits, Slid(head, |prev|), Slid(prev, |prev|), win', SlidSet(linked, |prev|, next - |prev|),
                   next - |prev|, end - |prev|)
  {
    hide Hash3;
    var n := |prev|;
    var head', prev', linked' := Slid(head, n), Slid(prev, n), SlidSet(linked, n, next - n);
    forall p | p in linked' ensures p < next - n && p + 2 < end - n {
      assert Above(linked, n, p);
    }
    forall h | 0 <= h < |head'| && head'[h] != 0 ensures Linked(bits, win', linked', h, head'[h]) {
      assert head'[h] == if head[h] >= n then head[h] - n else 0;
      assert Linked(bits, win, linked, h, head[h]);
      LinkedSlides(bits, win, win', linked, next, end, n, h, head[h]);
    }
    forall p | p in linked' && Newest(linked', p, n) ensures LinkOf(bits, prev', win', linked', p) {
      LinkSlides(bits, prev, win, win', linked, next, end, p);
    }
    forall h | 0 <= h < |head'| ensures NoneBetween(bits, win', linked', h, head'[h], |win'|) {
      assert head'[h] == if head[h] >= n then head[h] - n else 0;
      NoneSlides(bits, win, win', linked, next, end, n, h, head[h], |win|, |win'|);
    }
  }

  lemma NoneSlides(bits: nat, win: seq<Byte>, win': seq<Byte>, linked: set<nat>, next: nat, end: nat, n: nat, h: nat,
                   q: nat, p: nat, p': nat)
    requires NoneBetween(bits, win, linked, h, q, p) && Placed(linked, next, end) && n <= next
    requires p' + n <= p || end <= p
    requires n <= end <= |win| && end - n <= |win'|
    requires forall i :: 0 <= i < end - n ==> win'[i] == win[i + n]
    ensures NoneBetween(bits, win', SlidSet(linked, n, next - n), h, if q >= n then q - n else 0, p')
  {
    hide Hash3, HashAt;
    var slid := SlidSet(linked, n, next - n);
    forall r: nat | r < p' && Linked(bits, win', slid, h, r)
      ensures r <= if q >= n then q - n else 0
    {
      assert Above(linked, n, r);
      SlidString(bits, win, win', n, end, r + n);
      assert Linked(bits, win, linked, h, r + n);
    }
  }

  lemma LinkSlides(bits: nat, prev: seq<nat>, win: seq<Byte>, win': seq<Byte>, linked: set<nat>, next: nat, end: nat,
                   p: nat)
    requires |prev| > 0 && Links(bits, prev, win, linked) && Placed(linked, next, end)
    requires |prev| <= next && |prev| <= end <= |win| && end - |prev| <= |win'|
    requires forall i :: 0 <= i < end - |prev| ==> win'[i] == win[i + |prev|]
    requires p in SlidSet(linked, |prev|, next - |prev|) && Newest(SlidSet(linked, |prev|, next - |prev|), p, |prev|)
    ensures LinkOf(bits, Slid(prev, |prev|), win', SlidSet(linked, |prev|, next - |prev|), p)
  {
    hide Hash3;
    var n := |prev|;
    var p0 := p + n;
    assert Above(linked, n, p);
    SlotKept(p, n);
    forall q | q in linked ensures q < p0 + n {
      if q > n {
        assert Above(linked, n, q - n);
        assert q - n in SlidSet(linked, n, next - n);
      }
    }
    assert LinkOf(bits, prev, win, linked, p0);
    SlidString(bits, win, win', n, end, p0);
    var q := prev[p0 % n];
    var prev' := Slid(prev, n);
    assert prev'[p % n] == if q >= n then q - n else 0;
    if prev'[p % n] != 0 {
      LinkedSlides(bits, win, win', linked, next, end, n, HashAt(bits, win, p0), q);
    }
    NoneSlides(bits, win, win', linked, next, end, n, HashAt(bits, win, p0), q, p0, p);
  }

  // ---------- following a chain ----------

  /** The next string on the chain of p, while it is near enough: the same key, further back. */
  lemma ChainFollowed(bits: nat, head: seq<nat>, prev: seq<nat>, win: seq<Byte>, linked: set<nat>, next: nat, end: nat,
                      p: nat, h: nat)
    requires Chains(bits, head, prev, win, linked, next, end) && Linked(bits, win, linked, h, p) && p + |prev| >= next
    ensures prev[p % |prev|] == 0 || (prev[p % |prev|] < p && Linked(bits, win, linked, h, prev[p % |prev|]))
    ensures NoneBetween(bits, win, linked, h, prev[p % |prev|], p)
  {
    hide Hash3;
    assert Newest(linked, p, |prev|);
    assert LinkOf(bits, prev, win, linked, p);
  }
}
