/** The circular window of inflate.c: after any number of updates it holds the last
    bytes written, oldest first from the write index on. */
module Window {
  import opened Bits
  import opened Lz77

  /** Reading k bytes back from the write index. */
  function Back(wsize: nat, wnext: nat, k: nat): (i: nat)
    requires 1 <= k <= wsize && wnext < wsize
    ensures i < wsize
  {
    if k <= wnext then wnext - k else wnext + wsize - k
  }

  /** The buffer holds the last whave bytes of past, as many as fit. */
  ghost predicate Holds(data: seq<byte>, wsize: nat, wnext: nat, whave: nat, past: seq<byte>)
  {
    && |data| == wsize && wnext < wsize
    && whave == (if |past| < wsize then |past| else wsize)
    && (whave < wsize ==> wnext == whave)
    && forall k :: 1 <= k <= whave ==> data[Back(wsize, wnext, k)] == past[|past| - k]
  }

  /** The last w bytes. */
  function Recent(past: seq<byte>, w: nat): (r: seq<byte>)
    ensures |r| == (if |past| < w then |past| else w) && r == past[|past| - |r|..]
  {
    if |past| < w then past else past[|past| - w..]
  }

  /** Fewer than wsize new bytes, written around from wnext. */
  lemma {:induction false} HoldsAppend(data: seq<byte>, data': seq<byte>, wsize: nat, wnext: nat, whave: nat, past: seq<byte>,
                                       out: seq<byte>, wnext': nat, whave': nat)
    requires Holds(data, wsize, wnext, whave, past) && |out| < wsize && |data'| == wsize
    requires wnext' == (if wnext + |out| < wsize then wnext + |out| else wnext + |out| - wsize)
    requires whave' == (if whave + |out| < wsize then whave + |out| else wsize)
    requires forall i :: 0 <= i < wsize ==>
      data'[i] == if wnext <= i < wnext + |out| then out[i - wnext]
                  else if i + wsize < wnext + |out| then out[i + wsize - wnext] else data[i]
    ensures Holds(data', wsize, wnext', whave', past + out)
  {
    var all := past + out;
    forall k | 1 <= k <= whave'
      ensures data'[Back(wsize, wnext', k)] == all[|all| - k]
    {
      if k > |out| {
        assert Back(wsize, wnext', k) == Back(wsize, wnext, k - |out|);
        assert data[Back(wsize, wnext, k - |out|)] == past[|past| - (k - |out|)];
      }
    }
  }

  class Window {
    const wbits: nat
    var data: array<byte>   // meaningful once wsize is set
    var wsize: nat          // 0 until the window is in use
    var whave: nat
    var wnext: nat

    /** past is everything written before the current call, dictionary included. */
    ghost predicate Valid(past: seq<byte>)
      reads this, data
    {
      && data.Length == Pow2(wbits)
      && if wsize == 0 then whave == 0 && past == []
         else wsize == Pow2(wbits) && Holds(data[..], wsize, wnext, whave, past)
    }

    /** All of past is in the window. */
    ghost predicate Recalls(past: seq<byte>)
      reads this, data
    {
      Valid(past) && |past| <= Pow2(wbits)
    }

    /** The window has forgotten what is older than its size. */
    lemma {:induction false} RecallsRecent(past: seq<byte>)
      requires Valid(past)
      ensures Recalls(Recent(past, Pow2(wbits)))
    {
      hide Pow2;
    }

    constructor (bits: nat)
      ensures wbits == bits && Valid([]) && fresh(data)
    {
      wbits := bits;
      data := new byte[Pow2(bits)](_ => 0);
      wsize, whave, wnext := 0, 0, 0;
    }

    /** Copies src[from..from + n] to data[at..at + n]. */
    method Store(at: nat, src: seq<byte>, from: nat, n: nat)
      requires at + n <= data.Length && from + n <= |src|
      modifies data
      ensures forall i :: 0 <= i < data.Length ==>
        data[i] == if at <= i < at + n then src[from + (i - at)] else old(data[i])
    {
      for k := 0 to n
        invariant forall i :: 0 <= i < data.Length ==>
          data[i] == if at <= i < at + k then src[from + (i - at)] else old(data[i])
      {
        data[at + k] := src[from + k];
      }
    }

    /** updatewindow: the bytes of out have been written since past. */
    method Update(out: seq<byte>, ghost past: seq<byte>)
      requires Valid(past)
      modifies this, data
      ensures data == old(data)
      ensures Valid(past + out)
      ensures wsize != 0
    {
      hide Pow2;
      if wsize == 0 {
        wsize := Pow2(wbits);
        wnext, whave := 0, 0;
      }
      var copy := |out|;
      if copy >= wsize {
        Store(0, out, copy - wsize, wsize);
        wnext, whave := 0, wsize;
      } else {
        ghost var was := data[..];
        ghost var at, held := wnext, whave;
        var dist := wsize - wnext;
        if dist > copy {
          dist := copy;
        }
        Store(wnext, out, 0, dist);
        copy := copy - dist;
        if copy != 0 {
          Store(0, out, dist, copy);
          wnext, whave := copy, wsize;
        } else {
          wnext := wnext + dist;
          if wnext == wsize {
            wnext := 0;
          }
          if whave < wsize {
            whave := whave + dist;
          }
        }
        HoldsAppend(was, data[..], wsize, at, held, past, out, wnext, whave);
      }
    }
  }
}
