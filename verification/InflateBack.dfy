/** The window of inflateBack (infback.c), which is the output buffer and the history at once. */
module InflateBack {
  import opened Bits
  import opened Lz77
  import opened HistoryWindow

  datatype Outcome = Done | TooFar | OutFailed

  class OutputWindow {
    const wsize: nat
    const window: array<Byte>
    var whave: nat               // wsize once the window has been written out
    var put: nat                 // where the next byte goes
    var left: nat                // room after it
    ghost var hist: seq<Byte>    // everything produced
    ghost var written: seq<Byte> // everything given to out()

    ghost predicate Shape()
      reads this
    {
      && 1 <= wsize == window.Length && put + left == wsize
      && (if whave < wsize then |hist| == put else whave == wsize <= |hist|)
    }

    /** The last bytes of the history, however often the window was written out. */
    ghost predicate Held()
      requires Shape()
      reads this, window
    {
      forall k :: 1 <= k <= Least(wsize, |hist|) ==>
        0 <= Back(k, put, wsize) < wsize && window[Back(k, put, wsize)] == hist[|hist| - k]
    }

    ghost predicate Valid()
      reads this, window
    {
      Shape() && Held() && written + window[..put] == hist
    }

    lemma HeldAt(k: nat)
      requires Shape() && Held() && 1 <= k <= Least(wsize, |hist|)
      ensures 0 <= Back(k, put, wsize) < wsize && window[Back(k, put, wsize)] == hist[|hist| - k]
    {
    }

    constructor (wbits: nat)
      requires 8 <= wbits <= 15
      ensures Valid() && fresh(window) && hist == [] && written == [] && wsize == Pow2(wbits)
    {
      wsize := Pow2(wbits);
      window := new Byte[Pow2(wbits)];
      whave, put, left, hist, written := 0, 0, Pow2(wbits), [], [];
    }

    /** Make room by writing out a full window; out() may fail. */
    method Room() returns (ok: bool)
      requires Valid()
      modifies this`whave, this`put, this`left, this`written
      ensures Valid() && hist == old(hist) && left > 0
      ensures put + left == old(put) + old(left)
    {
      ok := true;
      if left == 0 {
        put := 0;
        left := wsize;
        whave := left;
        assert window[..] == window[..wsize];
        written := written + window[..];
        ok := *;
      }
    }

    method PutByte(c: Byte)
      requires Valid() && left > 0
      modifies this`put, this`left, this`hist, window
      ensures Valid() && hist == old(hist) + [c] && put == old(put) + 1
      ensures left == old(left) - 1
    {
      ghost var was, b := hist, window[..];
      window[put] := c;
      put, left, hist := put + 1, left - 1, hist + [c];
      assert window[..put] == b[..put - 1] + [c];
      forall k | 1 <= k <= Least(wsize, |hist|)
        ensures 0 <= Back(k, put, wsize) < wsize && window[Back(k, put, wsize)] == hist[|hist| - k]
      {
        if k > 1 {
          assert b[Back(k - 1, put - 1, wsize)] == was[|was| - (k - 1)];
        }
      }
    }

    method Literal(c: Byte) returns (r: Outcome)
      requires Valid()
      modifies this`whave, this`put, this`left, this`hist, this`written, window
      ensures Valid() && hist == if r.Done? then old(hist) + [c] else old(hist)
      ensures !r.TooFar?
    {
      var ok := Room();
      if !ok {
        return OutFailed;
      }
      PutByte(c);
      return Done;
    }

    /** A chunk of a stored block: as much as was asked for or as there is room. */
    method Stored(input: seq<Byte>, next: nat, length: nat) returns (r: Outcome, copied: nat)
      requires Valid() && next + length <= |input| && length >= 1
      modifies this`whave, this`put, this`left, this`hist, this`written, window
      ensures copied <= length && Valid() && hist == old(hist) + input[next..next + copied]
      ensures r == (if copied > 0 then Done else OutFailed)
    {
      hide Held;
      copied := 0;
      ghost var was := hist;
      var ok := Room();
      if !ok {
        assert input[next..next] == [];
        return OutFailed, 0;
      }
      var copy := if length > left then left else length;
      for j := 0 to copy
        invariant Valid() && hist == was + input[next..next + j] && left + j >= copy
      {
        PutByte(input[next + j]);
        assert input[next..next + j + 1] == input[next..next + j] + [input[next + j]];
      }
      return Done, copy;
    }

    /** Copy a match.  It is too far back exactly if the distance goes beyond what the window holds. */
    method Match(offset: nat, length0: nat) returns (r: Outcome)
      requires Valid() && offset >= 1 && length0 >= 1
      modifies this`whave, this`put, this`left, this`hist, this`written, window
      ensures Valid()
      ensures r.TooFar? <==> offset > Least(wsize, |old(hist)|)
      ensures r.TooFar? ==> hist == old(hist)
      ensures r.Done? ==> hist == Copy(old(hist), offset, length0)
      ensures r.OutFailed? ==> exists done: nat :: done < length0 && hist == Copy(old(hist), offset, done)
    {
      hide Copy, Held;
      if offset > wsize - (if whave < wsize then left else 0) {
        return TooFar;
      }
      var length: nat := length0;
      ghost var was := hist;
      CopyNone(was, offset);
      while length != 0
        invariant Valid() && length <= length0 && offset <= Least(wsize, |hist|)
        invariant offset <= |was| && hist == Copy(was, offset, length0 - length)
        decreases length
      {
        var ok := Room();
        if !ok {
          ghost var done: nat := length0 - length;
          assert hist == Copy(was, offset, done);
          return OutFailed;
        }
        var from: nat, copy: nat := 0, wsize - offset;
        if copy < left {
          from := put + copy;
          copy := left - copy;
        } else {
          from := put - offset;
          copy := left;
        }
        if copy > length {
          copy := length;
        }
        length := length - copy;
        Piece(was, offset, length0 - length, copy, from);
      }
      return Done;
    }

    /** Part of a match, from one place in the window; it may overlap what it writes. */
    method Piece(ghost was: seq<Byte>, ghost offset: nat, ghost done: nat, copy0: nat, from0: nat)
      requires Valid() && 1 <= offset <= Least(wsize, |hist|) && offset <= |was|
      requires 1 <= copy0 <= left && copy0 <= done && hist == Copy(was, offset, done - copy0)
      requires if offset > put then from0 == put + wsize - offset && copy0 <= offset - put else from0 == put - offset
      modifies this`put, this`left, this`hist, window
      ensures Valid() && hist == Copy(was, offset, done) && offset <= Least(wsize, |hist|)
    {
      hide Copy, Held;
      var from, copy := from0, copy0;
      ghost var far := offset > put;
      while copy != 0
        invariant Valid() && copy <= left && copy <= done && offset <= Least(wsize, |hist|)
        invariant hist == Copy(was, offset, done - copy)
        invariant if far then from == put + wsize - offset && copy <= offset - put else from == put - offset >= 0
        decreases copy
      {
        HeldAt(offset);
        CopyMore(was, offset, done - copy);
        PutByte(window[from]);
        from := from + 1;
        copy := copy - 1;
      }
    }

    method Emit(t: Token) returns (r: Outcome)
      requires Valid() && (t.Match? ==> t.len >= 1 && t.dist >= 1)
      modifies this`whave, this`put, this`left, this`hist, this`written, window
      ensures Valid()
      ensures r.TooFar? <==> t.Match? && t.dist > Least(wsize, |old(hist)|)
      ensures r.Done? ==> hist == Apply(old(hist), t)
      ensures !r.Done? ==> old(hist) <= hist
    {
      match t
      case Literal(c) => r := Literal(c);
      case Match(len, dist) =>
        r := Match(dist, len);
        if r.OutFailed? {
          ghost var done: nat :| done < len && hist == Copy(old(hist), dist, done);
          CopyPrefix(old(hist), dist, done);
        }
    }

    /** All the tokens of a stream, until one fails. */
    method Play(ts: seq<Token>) returns (r: Outcome)
      requires Valid() && forall i :: 0 <= i < |ts| && ts[i].Match? ==> ts[i].len >= 1 && ts[i].dist >= 1
      modifies this`whave, this`put, this`left, this`hist, this`written, window
      ensures Valid()
      ensures r.Done? ==> Expandable(|old(hist)|, ts) && hist == Expand(old(hist), ts)
    {
      hide Valid, Apply, Copy;
      ghost var was := hist;
      assert ts[..0] == [];
      for i := 0 to |ts|
        invariant Valid() && Expandable(|was|, ts[..i]) && hist == Expand(was, ts[..i])
      {
        r := Emit(ts[i]);
        if !r.Done? {
          return;
        }
        OneToken(Expand(was, ts[..i]), ts[i]);
        ExpandAppend(was, ts[..i], [ts[i]]);
        assert ts[..i + 1] == ts[..i] + [ts[i]];
      }
      assert ts[..|ts|] == ts;
      return Done;
    }

    lemma CopyNone(h: seq<Byte>, dist: nat)
      requires 1 <= dist <= |h|
      ensures Copy(h, dist, 0) == h
    {
    }

    lemma OneToken(h: seq<Byte>, t: Token)
      requires Reaches(|h|, t)
      ensures Expandable(|h|, [t]) && Expand(h, [t]) == Apply(h, t)
    {
      assert [t][1..] == [];
    }

    /** Write out what is left: out() has then been given everything. */
    method Leave()
      requires Valid()
      modifies this`written
      ensures written == hist
    {
      if left < wsize {
        written := written + window[..wsize - left];
      }
    }
  }
}
