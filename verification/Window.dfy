/** The circular output window of inflate(). */
module Window {
  import opened Bits
  import opened Tokens

  /** Index of the byte at distance d when the next one goes to wnext. */
  function Back(wnext: nat, d: nat): (i: nat)
    requires wnext < WSIZE && 1 <= d <= WSIZE
    ensures i < WSIZE
  {
    if d <= wnext then wnext - d else wnext + WSIZE - d
  }

  /** The window holds the last whave bytes of the output, and that is all of it
      or a full window. */
  ghost predicate Recalls(w: seq<byte>, wsize: nat, wnext: nat, whave: nat, out: seq<byte>)
  {
    |w| == WSIZE &&
    if wsize == 0 then out == [] && whave == 0
    else
      && wsize == WSIZE && wnext < wsize && whave == (if |out| < WSIZE then |out| else WSIZE)
      && (whave < wsize ==> wnext == whave)
      && forall d :: 1 <= d <= whave ==> w[Back(wnext, d)] == out[|out| - d]
  }

  /** Overwrite part of the window. */
  method MemCopy(window: array<byte>, at: nat, src: seq<byte>)
    requires at + |src| <= window.Length
    modifies window
    ensures forall i :: 0 <= i < window.Length ==>
              window[i] == if at <= i < at + |src| then src[i - at] else old(window[i])
  {
    for j := 0 to |src|
      invariant forall i :: 0 <= i < window.Length ==>
                  window[i] == if at <= i < at + j then src[i - at] else old(window[i])
    {
      window[at + j] := src[j];
    }
  }

  /** w' is w with put written circularly from wnext on. */
  ghost predicate Written(w: seq<byte>, w': seq<byte>, wnext: nat, put: seq<byte>)
  {
    |w| == WSIZE == |w'| && |put| < WSIZE && wnext < WSIZE &&
    forall i :: 0 <= i < WSIZE ==>
      w'[i] == if wnext <= i < wnext + |put| then put[i - wnext]
               else if i + WSIZE < wnext + |put| then put[i + WSIZE - wnext] else w[i]
  }

  lemma RecallsWritten(w: seq<byte>, w': seq<byte>, wnext: nat, whave: nat, out: seq<byte>, put: seq<byte>)
    requires Recalls(w, WSIZE, wnext, whave, out) && Written(w, w', wnext, put)
    ensures Recalls(w', WSIZE, if wnext + |put| < WSIZE then wnext + |put| else wnext + |put| - WSIZE,
                    if |out| + |put| < WSIZE then |out| + |put| else WSIZE, out + put)
  {
    var wnext' := if wnext + |put| < WSIZE then wnext + |put| else wnext + |put| - WSIZE;
    var whave' := if |out| + |put| < WSIZE then |out| + |put| else WSIZE;
    forall d | 1 <= d <= whave'
      ensures w'[Back(wnext', d)] == (out + put)[|out| + |put| - d]
    {
      if d > |put| { assert Back(wnext, d - |put|) == Back(wnext', d); }
    }
  }

  /** A whole window of new output replaces everything. */
  lemma RecallsLast(w: seq<byte>, out: seq<byte>, put: seq<byte>)
    requires |w| == WSIZE <= |put| && forall i :: 0 <= i < WSIZE ==> w[i] == put[|put| - WSIZE + i]
    ensures Recalls(w, WSIZE, 0, WSIZE, out + put)
  {
  }

  /** Where inflate() finds the bytes of a match that begins in the window, and
      how many of them lie in one piece. */
  lemma InOnePiece(w: seq<byte>, wsize: nat, wnext: nat, whave: nat, prior: seq<byte>, put: seq<byte>, offset: nat,
                   from: nat, copy: nat)
    requires Recalls(w, wsize, wnext, whave, prior) && |put| < offset <= |put| + whave
    requires var d := offset - |put|;
             if d > wnext then from == wsize - (d - wnext) && copy <= d - wnext else from == wnext - d && copy <= d
    ensures wsize == WSIZE && |w| == WSIZE && offset <= |prior| + |put| && copy <= offset - |put|
    ensures Piece(w, from, copy, prior, |prior| + |put| - offset)
  {
    var k := |prior| + |put| - offset;
    var a, b := w[from..from + copy], prior[k..k + copy];
    forall i | 0 <= i < copy
      ensures a[i] == b[i]
    {
      assert from + i == Back(wnext, offset - |put| - i);
    }
  }

  /** n bytes of the window from from on are those of the output from k on. */
  ghost predicate Piece(w: seq<byte>, from: nat, n: nat, prior: seq<byte>, k: int)
  {
    from + n <= |w| && 0 <= k && k + n <= |prior| && w[from..from + n] == prior[k..k + n]
  }

  lemma PieceRange(w: seq<byte>, from: nat, n: nat, prior: seq<byte>, k: int)
    requires Piece(w, from, n, prior, k)
    ensures from + n <= |w| && 0 <= k && k + n <= |prior|
  {
  }

  lemma PieceAt(w: seq<byte>, from: nat, n: nat, prior: seq<byte>, k: int, i: nat)
    requires Piece(w, from, n, prior, k) && i < n
    ensures w[from + i] == prior[k + i]
  {
    assert w[from + i] == w[from..from + n][i];
  }

  lemma PieceShort(w: seq<byte>, from: nat, n: nat, prior: seq<byte>, k: int, n': nat)
    requires Piece(w, from, n, prior, k) && n' <= n
    ensures Piece(w, from, n', prior, k)
  {
    assert w[from..from + n'] == w[from..from + n][..n'];
    assert prior[k..k + n'] == prior[k..k + n][..n'];
  }

  /** The distance is beyond all output exactly when it is beyond the window. */
  lemma BeyondWindow(w: seq<byte>, wsize: nat, wnext: nat, whave: nat, prior: seq<byte>, put: seq<byte>, offset: nat)
    requires Recalls(w, wsize, wnext, whave, prior) && |put| < offset <= WSIZE
    ensures offset - |put| > whave <==> offset > |prior| + |put|
  {
  }

  /** do { *put++ = *from++; } while (--copy); from is in the window or in the output. */
  method CopyMatch(window: array<byte>, fromWindow: bool, from: nat, copy: nat, put: seq<byte>, ghost prior: seq<byte>,
                   ghost offset: nat)
    returns (put': seq<byte>)
    requires 1 <= offset <= |prior| + |put| == |prior + put|
    requires if fromWindow then copy <= offset - |put| && Piece(window[..], from, copy, prior, |prior| + |put| - offset)
             else from + offset == |put|
    ensures prior + put' == CopyBack(prior + put, offset, copy)
  {
    hide CopyBack, Piece;
    put' := put;
    if fromWindow { PieceRange(window[..], from, copy, prior, |prior| + |put| - offset); }
    for i := 0 to copy
      invariant |put'| == |put| + i && put <= put'
      invariant CopyBack(prior + put', offset, copy - i) == CopyBack(prior + put, offset, copy)
    {
      if fromWindow { PieceAt(window[..], from, copy, prior, |prior| + |put| - offset, i); }
      var c := if fromWindow then window[from + i] else put'[from + i];
      CopyOne(prior, put', offset, copy - i, c);
      put' := put' + [c];
    }
    CopyNone(prior + put', offset);
  }

  lemma CopyOne(prior: seq<byte>, put: seq<byte>, d: nat, n: nat, c: byte)
    requires 1 <= d <= |prior| + |put| && n > 0 && c == (prior + put)[|prior| + |put| - d]
    ensures CopyBack(prior + put, d, n) == CopyBack(prior + (put + [c]), d, n - 1)
  {
    assert prior + put + [c] == prior + (put + [c]);
  }

  lemma CopyNone(out: seq<byte>, d: nat)
    requires 1 <= d <= |out|
    ensures CopyBack(out, d, 0) == out
  {
  }

  lemma FirstUse(w: seq<byte>, wsize: nat, wnext: nat, whave: nat, out: seq<byte>)
    requires Recalls(w, wsize, wnext, whave, out)
    ensures wsize == 0 ==> Recalls(w, WSIZE, 0, 0, out)
  {
  }

  lemma RecallsRange(w: seq<byte>, wsize: nat, wnext: nat, whave: nat, out: seq<byte>)
    requires Recalls(w, wsize, wnext, whave, out)
    ensures wsize == 0 || (wsize == WSIZE && wnext < WSIZE && whave == (if |out| < WSIZE then |out| else WSIZE))
    ensures wsize > 0 && whave < wsize ==> wnext == whave
  {
  }
}
