/** The circular window of the decompressor (inflate.c: updatewindow, inflateGetDictionary). */
module HistoryWindow {
  import opened Bits

  /** Where the byte k positions back is kept. */
  function Back(k: nat, wnext: nat, wsize: nat): (i: int)
  {
    if k <= wnext then wnext - k else wnext + wsize - k
  }

  function Least(a: nat, b: nat): (m: nat)
  {
    if a <= b then a else b
  }

  /** The ring holds the last whave bytes of hist. */
  ghost predicate Ring(buf: seq<Byte>, wsize: nat, whave: nat, wnext: nat, hist: seq<Byte>)
  {
    |buf| == wsize && wnext < wsize && whave == Least(wsize, |hist|) && (whave < wsize ==> wnext == whave)
    && forall k :: 1 <= k <= whave ==>
      0 <= Back(k, wnext, wsize) < wsize && buf[Back(k, wnext, wsize)] == hist[|hist| - k]
  }

  lemma RingEmpty(buf: seq<Byte>)
    requires |buf| > 0
    ensures Ring(buf, |buf|, 0, 0, [])
  {
  }

  /** A window full of new bytes. */
  lemma RingWhole(buf: seq<Byte>, data: seq<Byte>, hist: seq<Byte>)
    requires 0 < |buf| <= |data| && buf == data[|data| - |buf|..]
    ensures Ring(buf, |buf|, |buf|, 0, hist + data)
  {
  }

  /** New bytes up to the end of the buffer at most. */
  lemma RingFlat(buf: seq<Byte>, new_: seq<Byte>, wsize: nat, whave: nat, wnext: nat, hist: seq<Byte>, data: seq<Byte>)
    requires Ring(buf, wsize, whave, wnext, hist) && |data| < wsize && wnext + |data| <= wsize && |new_| == wsize
    requires forall i :: 0 <= i < wsize ==> new_[i] == if wnext <= i < wnext + |data| then data[i - wnext] else buf[i]
    ensures var n := wnext + |data|;
            Ring(new_, wsize, if whave < wsize then whave + |data| else whave, if n == wsize then 0 else n, hist + data)
  {
    var n := if wnext + |data| == wsize then 0 else wnext + |data|;
    var h := hist + data;
    forall k | 1 <= k <= Least(wsize, |h|) ensures 0 <= Back(k, n, wsize) < wsize
        && new_[Back(k, n, wsize)] == h[|h| - k] {
      if k > |data| {
        assert buf[Back(k - |data|, wnext, wsize)] == hist[|hist| - (k - |data|)];
      }
    }
  }

  /** New bytes up to the end of the buffer and on from its start. */
  lemma RingWrap(buf: seq<Byte>, new_: seq<Byte>, wsize: nat, whave: nat, wnext: nat, hist: seq<Byte>, data: seq<Byte>)
    requires Ring(buf, wsize, whave, wnext, hist) && |data| < wsize && wnext + |data| > wsize && |new_| == wsize
    requires forall i :: 0 <= i < wsize ==>
      new_[i] == if wnext
          <= i then data[i - wnext] else if i < wnext + |data| - wsize then data[i + wsize - wnext] else buf[i]
    ensures Ring(new_, wsize, wsize, wnext + |data| - wsize, hist + data)
  {
    var n := wnext + |data| - wsize;
    var h := hist + data;
    forall k | 1 <= k <= wsize ensures 0 <= Back(k, n, wsize) < wsize && new_[Back(k, n, wsize)] == h[|h| - k] {
      if k > |data| {
        assert buf[Back(k - |data|, wnext, wsize)] == hist[|hist| - (k - |data|)];
      }
    }
  }

  class Window {
    const wbits: nat
    const buf: array<Byte>
    var wsize: nat          // 0 while not in use
    var whave: nat
    var wnext: nat
    ghost var hist: seq<Byte>

    ghost predicate Valid()
      reads this, buf
    {
      8 <= wbits <= 15 && buf.Length == Pow2(wbits)
      && if wsize == 0 then hist == [] && whave == wnext == 0
         else wsize == buf.Length && Ring(buf[..], wsize, whave, wnext, hist)
    }

    constructor (bits: nat)
      requires 8 <= bits <= 15
      ensures Valid() && fresh(buf) && wbits == bits && hist == [] && wsize == 0
    {
      wbits := bits;
      buf := new Byte[Pow2(bits)];
      wsize, whave, wnext, hist := 0, 0, 0, [];
    }

    /** Copy n bytes of src from position p to position to of the window. */
    method CopyIn(src: array<Byte>, p: nat, to: nat, n: nat)
      requires src != buf && p + n <= src.Length && to + n <= buf.Length
      modifies buf
      ensures forall i :: 0 <= i < buf.Length ==> buf[i] == if to <= i < to + n then src[p + i - to] else old(buf[i])
    {
      forall i | 0 <= i < n {
        buf[to + i] := src[p + i];
      }
    }

    /** Copy the last n bytes of out[..end] into the window. */
    method Update(out: array<Byte>, end: nat, n: nat)
      requires Valid() && out != buf && n <= end <= out.Length
      modifies this`wsize, this`whave, this`wnext, this`hist, buf
      ensures Valid() && wsize == Pow2(wbits)
      ensures hist == old(hist) + out[end - n..end]
    {
      hide *;
      var copy := n;
      ghost var data := out[end - n..end];
      ValidParts();
      if wsize == 0 {
        wsize := Pow2(wbits);
        wnext := 0;
        whave := 0;
        RingEmpty(buf[..]);
      }
      ghost var b, h := buf[..], hist;
      RingSize(b, wsize, whave, wnext, h);
      if copy >= wsize {
        CopyIn(out, end - wsize, 0, wsize);
        assert buf[..] == data[|data| - wsize..];
        RingWhole(buf[..], data, h);
        wnext := 0;
        whave := wsize;
      } else {
        var dist := wsize - wnext;
        if dist > copy {
          dist := copy;
        }
        CopyIn(out, end - copy, wnext, dist);
        copy := copy - dist;
        if copy != 0 {
          CopyIn(out, end - copy, 0, copy);
          RingWrap(b, buf[..], wsize, whave, wnext, h, data);
          wnext := copy;
          whave := wsize;
        } else {
          RingFlat(b, buf[..], wsize, whave, wnext, h, data);
          wnext := wnext + dist;
          if wnext == wsize {
            wnext := 0;
          }
          if whave < wsize {
            whave := whave + dist;
          }
        }
      }
      hist := h + data;
      ValidIs();
    }

    lemma ValidParts()
      requires Valid()
      ensures 8 <= wbits <= 15 && buf.Length == Pow2(wbits) >= 1
      ensures wsize == 0 ==> hist == [] && whave == wnext == 0
      ensures wsize != 0 ==> wsize == buf.Length && Ring(buf[..], wsize, whave, wnext, hist)
    {
      hide Ring, Pow2;
    }

    lemma ValidIs()
      requires 8 <= wbits <= 15 && buf.Length == Pow2(wbits) == wsize && Ring(buf[..], wsize, whave, wnext, hist)
      ensures Valid()
    {
      hide Ring, Pow2;
    }

    /** Copy what the window holds, oldest byte first. */
    method GetDictionary(dictionary: array<Byte>) returns (length: nat)
      requires Valid() && dictionary != buf && dictionary.Length >= whave
      modifies dictionary
      ensures Valid() && length == Least(wsize, |hist|)
      ensures dictionary[..length] == hist[|hist| - length..]
    {
      hide Pow2;
      length := whave;
      if whave != 0 {
        forall i | 0 <= i < whave - wnext {
          dictionary[i] := buf[wnext + i];
        }
        forall i | 0 <= i < wnext {
          dictionary[whave - wnext + i] := buf[i];
        }
        forall i | 0 <= i < whave ensures dictionary[i] == hist[|hist| - whave + i] {
          var k := whave - i;
          assert buf[..][Back(k, wnext, wsize)] == hist[|hist| - k];
        }
      }
    }
  }

  lemma RingSize(buf: seq<Byte>, wsize: nat, whave: nat, wnext: nat, hist: seq<Byte>)
    requires Ring(buf, wsize, whave, wnext, hist)
    ensures |buf| == wsize && wnext < wsize && whave <= wsize
  {
  }

  /** The byte k positions back in the ring. */
  lemma RingAt(buf: seq<Byte>, wsize: nat, whave: nat, wnext: nat, hist: seq<Byte>, k: nat)
    requires Ring(buf, wsize, whave, wnext, hist) && 1 <= k <= whave
    ensures k <= |hist| && 0 <= Back(k, wnext, wsize) < wsize && buf[Back(k, wnext, wsize)] == hist[|hist| - k]
  {
  }

  /** n bytes of the window from `from` on are the history from `back` bytes before its end. */
  ghost predicate Piece(buf: seq<Byte>, from: nat, back: nat, n: nat, hist: seq<Byte>)
  {
    n <= back <= |hist| && from + n <= |buf|
    && forall i :: from <= i < from + n ==> buf[i] == hist[|hist| - back + (i - from)]
  }

  lemma PieceNext(buf: seq<Byte>, from: nat, back: nat, n: nat, hist: seq<Byte>)
    requires Piece(buf, from, back, n, hist) && n >= 1
    ensures from < |buf| && buf[from] == hist[|hist| - back] && Piece(buf, from + 1, back - 1, n - 1, hist)
  {
  }

  lemma PieceFewer(buf: seq<Byte>, from: nat, back: nat, n: nat, hist: seq<Byte>, m: nat)
    requires Piece(buf, from, back, n, hist) && m <= n
    ensures Piece(buf, from, back, m, hist)
  {
  }

  /** The bytes that lie in one piece: up to the place of the next byte, or up to the end of the buffer. */
  lemma RingPiece(buf: seq<Byte>, wsize: nat, whave: nat, wnext: nat, hist: seq<Byte>, back: nat)
    requires Ring(buf, wsize, whave, wnext, hist) && 1 <= back <= whave
    ensures back <= wnext ==> Piece(buf, wnext - back, back, back, hist)
    ensures back > wnext ==> wnext + wsize >= back && Piece(buf, wnext + wsize - back, back, back - wnext, hist)
  {
    if back <= wnext {
      forall i | wnext - back <= i < wnext ensures buf[i] == hist[|hist| - back + (i - (wnext - back))] {
        var k := wnext - i;
        assert buf[Back(k, wnext, wsize)] == hist[|hist| - k];
      }
    } else {
      assert 0 <= Back(back, wnext, wsize) < wsize;
      forall i | wnext + wsize - back <= i < wsize ensures buf[i]
          == hist[|hist| - back + (i - (wnext + wsize - back))] {
        var k := wnext + wsize - i;
        assert buf[Back(k, wnext, wsize)] == hist[|hist| - k];
      }
    }
  }
}
