/** What the matcher of deps/zlib/deflate.c knows about all input so far: the
    window holds its end, and the tokens stand for its beginning. */
module DeflateHistory {
  import opened Bits
  import opened Tokens
  import opened HashKeys
  import opened HashChain
  import opened BlockStream

  /** The first end bytes of the window are the input from base on. */
  predicate Holds(win: seq<byte>, hist: seq<byte>, base: nat, end: nat)
  {
    |hist| == base + end && end <= |win| && win[..end] == hist[base..]
  }

  /** len bytes at place at of the input repeat those at distance dist. */
  predicate Repeats(hist: seq<byte>, at: nat, dist: int, len: nat)
  {
    1 <= dist <= at && at + len <= |hist| && forall p :: at <= p < at + len ==> hist[p - dist] == hist[p]
  }

  lemma GoodRepeats(win: seq<byte>, hist: seq<byte>, base: nat, end: nat, strstart: nat, start: int, len: nat, wSize: nat)
    requires Holds(win, hist, base, end) && GoodMatch(win, strstart, start, len, wSize) && strstart + len <= end
    ensures Repeats(hist, base + strstart, strstart - start, len) && strstart - start <= MaxDist(wSize)
  {
    forall p | base + strstart <= p < base + strstart + len
      ensures hist[p - (strstart - start)] == hist[p]
    {
      var q := p - base;
      assert win[q - (strstart - start)] == win[q];
      assert win[..end][q] == hist[base..][q];
      assert win[..end][q - (strstart - start)] == hist[base..][q - (strstart - start)];
    }
  }

  /** Expanding a match reproduces the input. */
  lemma {:induction false} CopyRepeats(hist: seq<byte>, at: nat, dist: nat, len: nat)
    requires Repeats(hist, at, dist, len)
    ensures CopyBack(hist[..at], dist, len) == hist[..at + len]
    decreases len
  {
    if len > 0 {
      assert hist[at - dist] == hist[at];
      assert hist[..at][at - dist] == hist[at];
      assert hist[..at] + [hist[at]] == hist[..at + 1];
      CopyRepeats(hist, at + 1, dist, len - 1);
    }
  }

  /** The blocks sent and the tokens that wait stand for data. */
  ghost predicate Covers(sent: seq<Block>, ts: seq<Token>, data: seq<byte>)
  {
    AllRefer(sent, []) && ValidTokens(ts, |MeaningAll([], sent)|) && ExpandAll(MeaningAll([], sent), ts) == data
  }

  lemma CoversNothing()
    ensures Covers([], [], []) && AllRefer([], []) && MeaningAll([], []) == []
  {
  }

  lemma CoversLiteral(sent: seq<Block>, ts: seq<Token>, hist: seq<byte>, n: nat)
    requires n < |hist| && Covers(sent, ts, hist[..n])
    ensures Covers(sent, ts + [Literal(hist[n])], hist[..n + 1])
  {
    hide AllRefer, MeaningAll, ValidTokens, ExpandAll;
    ValidConcat(ts, Literal(hist[n]), MeaningAll([], sent));
    assert hist[..n] + [hist[n]] == hist[..n + 1];
  }

  lemma CoversMatch(sent: seq<Block>, ts: seq<Token>, hist: seq<byte>, n: nat, dist: nat, len: nat)
    requires n <= |hist| && Covers(sent, ts, hist[..n]) && Repeats(hist, n, dist, len) && dist <= WSIZE
    requires MIN_MATCH <= len <= MAX_MATCH
    ensures Covers(sent, ts + [Match(len, dist)], hist[..n + len])
  {
    hide AllRefer, MeaningAll, ValidTokens, ExpandAll, CopyBack;
    CopyRepeats(hist, n, dist, len);
    ValidConcat(ts, Match(len, dist), MeaningAll([], sent));
  }

  /** A block for the tokens, or for the data they stand for. */
  lemma CoversBlock(sent: seq<Block>, ts: seq<Token>, data: seq<byte>, b: Block)
    requires Covers(sent, ts, data)
    requires if b.StoredBlock? then data == MeaningAll([], sent) + b.data else b.ts == ts
    ensures Covers(sent + [b], [], data) && AllRefer(sent + [b], []) && MeaningAll([], sent + [b]) == data
  {
    hide AllRefer, MeaningAll, ValidTokens, ExpandAll;
    MeaningPush([], sent, b);
    NoTokensExpand(data);
  }

  lemma NoTokensExpand(data: seq<byte>)
    ensures ValidTokens([], |data|) && ExpandAll(data, []) == data
  {
  }

  lemma {:induction false} MeaningPush(out: seq<byte>, bs: seq<Block>, b: Block)
    requires AllRefer(bs, out) && Refers(b, |MeaningAll(out, bs)|)
    ensures AllRefer(bs + [b], out) && MeaningAll(out, bs + [b]) == Meaning(MeaningAll(out, bs), b)
    decreases |bs|
  {
    hide Meaning, Refers;
    if bs == [] {
      assert bs + [b] == [b] && [b][1..] == [];
    } else {
      assert (bs + [b])[1..] == bs[1..] + [b];
      MeaningPush(Meaning(out, bs[0]), bs[1..], b);
    }
  }

  // ---------- window and chains ----------

  /** Window, chains and input belong together: strings below top of the end
      bytes have been inserted. */
  ghost predicate Table(win: seq<byte>, head: seq<nat>, prev: seq<nat>, hist: seq<byte>, base: nat, ins: set<nat>, end: nat, top: nat,
                        bits: nat)
  {
    && Holds(win, hist, base, end) && |win| == 2 * |prev| && Chains(win, head, prev, ins, bits)
    && forall i :: i in ins ==> i < top && i + 3 <= end
  }

  /** The running key is that of the string at strstart, unless there are too few
      bytes for one. */
  predicate Hashed(win: seq<byte>, strstart: nat, lookahead: nat, insert: nat, insH: nat, bits: nat)
  {
    insH < Pow2(bits) && insert <= strstart && insert < MIN_MATCH && (lookahead >= MIN_MATCH ==> insert == 0 && PrimedAt(win, strstart, insH, bits))
  }

  predicate PrimedAt(win: seq<byte>, p: nat, insH: nat, bits: nat)
  {
    p + 1 < |win| && Primed(insH, win[p], win[p + 1], bits)
  }

  lemma TableTop(win: seq<byte>, head: seq<nat>, prev: seq<nat>, hist: seq<byte>, base: nat, ins: set<nat>, end: nat, top: nat,
                 top': nat, bits: nat)
    requires Table(win, head, prev, hist, base, ins, end, top, bits) && top <= top'
    ensures Table(win, head, prev, hist, base, ins, end, top', bits)
  {
    hide Chains;
  }

  lemma TableFacts(win: seq<byte>, head: seq<nat>, prev: seq<nat>, hist: seq<byte>, base: nat, ins: set<nat>, end: nat, top: nat,
                   bits: nat)
    requires Table(win, head, prev, hist, base, ins, end, top, bits)
    ensures Holds(win, hist, base, end) && |hist| == base + end && end <= |win| == 2 * |prev| && Chains(win, head, prev, ins, bits)
    ensures forall i :: i in ins ==> i < top
    ensures forall k :: 0 <= k < end ==> win[k] == hist[base + k]
  {
    hide Chains;
    assert forall k :: 0 <= k < end ==> win[..end][k] == hist[base..][k];
  }

  /** INSERT_STRING(s, str, hash_head) */
  method InsertString(window: array<byte>, head: array<nat>, prev: array<nat>, insH: nat, str: nat, bits: nat, ghost hist: seq<byte>,
                      ghost base: nat, ghost ins: set<nat>, ghost end: nat)
    returns (insH': nat, hashHead: nat, ghost ins': set<nat>)
    requires HashBits(bits) && head != prev && Table(window[..], head[..], prev[..], hist, base, ins, end, str, bits)
    requires str + 3 <= end && PrimedAt(window[..], str, insH, bits)
    modifies head, prev
    ensures Table(window[..], head[..], prev[..], hist, base, ins', end, str + 1, bits)
    ensures insH' < Pow2(bits) && PrimedAt(window[..], str + 1, insH', bits)
    ensures ins' == ins + {str} && str + 2 < |window[..]|
    ensures Entered(window[..], old(head[..]), old(prev[..]), head[..], prev[..], bits, str, hashHead)
    ensures Link(window[..], ins', hashHead, KeyAt(window[..], str, bits), bits, str)
  {
    hide Chains, Key, Update, Primed, HashBits, Link;
    ghost var win, head0, prev0 := window[..], head[..], prev[..];
    UpdateIsKey(insH, window[str], window[str + 1], window[str + 2], bits);
    insH' := Update(insH, window[str + 2], bits);
    InsertKeeps(win, head0, prev0, ins, bits, str);
    ChainHeads(win, head0, prev0, ins, bits);
    Keep(win, ins, str, head0[insH'], insH', bits, str);
    hashHead := head[insH'];
    prev[str % prev.Length] := hashHead;
    head[insH'] := str;
    ins' := ins + {str};
    assert head[..] == head0[insH' := str] && prev[..] == prev0[str % prev.Length := hashHead];
  }

  /** The places from a up to b. */
  ghost function Places(a: nat, b: nat): (r: set<nat>)
    ensures forall i :: i in r <==> a <= i < b
  {
    if a >= b then {} else Places(a, b - 1) + {b - 1}
  }

  /** The new string is the head of its chain and leads to the old head. */
  predicate Entered(win: seq<byte>, head0: seq<nat>, prev0: seq<nat>, head: seq<nat>, prev: seq<nat>, bits: nat, str: nat, first: nat)
  {
    && str + 2 < |win| && |prev0| > 0 && KeyAt(win, str, bits) < |head0|
    && first == head0[KeyAt(win, str, bits)] && head == head0[KeyAt(win, str, bits) := str]
    && prev == prev0[str % |prev0| := first]
  }

  /** More input after the end of the window. */
  lemma TableGrows(win: seq<byte>, win': seq<byte>, head: seq<nat>, prev: seq<nat>, hist: seq<byte>, more: seq<byte>, base: nat,
                   ins: set<nat>, end: nat, top: nat, bits: nat)
    requires Table(win, head, prev, hist, base, ins, end, top, bits) && |win'| == |win| && end + |more| <= |win|
    requires win'[..end + |more|] == win[..end] + more
    ensures Table(win', head, prev, hist + more, base, ins, end + |more|, top, bits)
  {
    hide Chains;
    assert win'[..end] == win'[..end + |more|][..end] == win[..end];
    ChainsSame(win, win', head, prev, ins, bits, end);
    assert (hist + more)[base..] == hist[base..] + more;
  }

  /** Sliding the window by half its size. */
  lemma TableSlides(win: seq<byte>, win': seq<byte>, head: seq<nat>, prev: seq<nat>, hist: seq<byte>, base: nat, ins: set<nat>,
                    end: nat, top: nat, bits: nat)
    requires Table(win, head, prev, hist, base, ins, end, top, bits) && |prev| <= end && |prev| <= top
    requires var n := |prev|; |win'| == 2 * n && forall k :: 0 <= k < n ==> win'[k] == win[n + k]
    ensures var n := |prev|;
            Table(win', SlidAll(head, n), SlidAll(prev, n), hist, base + n, SlidSet(ins, n), end - n, top - n, bits)
  {
    hide Chains;
    var n := |prev|;
    SlideKeeps(win, win', head, prev, ins, bits);
    assert |hist[base..]| == end;
    assert win'[..end - n] == hist[base + n..] by {
      forall k | 0 <= k < end - n
        ensures win'[k] == hist[base + n + k]
      {
        assert win[..end][n + k] == hist[base..][n + k];
      }
    }
    forall i | i in SlidSet(ins, n)
      ensures i < top - n && i + 3 <= end - n
    {
      assert i + n in ins;
    }
  }

  // ---------- filling the window ----------

  /** Move the upper half of the window to the lower one, and the chains with it. */
  method SlideArrays(window: array<byte>, head: array<nat>, prev: array<nat>)
    requires window.Length == 2 * prev.Length && head != prev
    modifies window, head, prev
    ensures forall k :: 0 <= k < prev.Length ==> window[k] == old(window[prev.Length + k])
    ensures head[..] == SlidAll(old(head[..]), prev.Length) && prev[..] == SlidAll(old(prev[..]), prev.Length)
  {
    var wsize := prev.Length;
    ghost var head0, prev0 := head[..], prev[..];
    for i := 0 to wsize
      invariant forall k :: 0 <= k < i ==> window[k] == old(window[wsize + k])
      invariant forall k :: wsize <= k < 2 * wsize ==> window[k] == old(window[k])
      invariant head[..] == head0 && prev[..] == prev0
    {
      window[i] := window[wsize + i];
    }
    assert head[..] == head0;
    SlideTable(head, wsize);
    assert prev[..] == prev0;
    ghost var head1 := head[..];
    SlideTable(prev, wsize);
    assert head[..] == head1;
  }

  method SlideTable(t: array<nat>, wsize: nat)
    modifies t
    ensures t[..] == SlidAll(old(t[..]), wsize)
  {
    var n := t.Length;
    while n > 0
      invariant 0 <= n <= t.Length
      invariant forall i :: 0 <= i < n ==> t[i] == old(t[i])
      invariant forall i :: n <= i < t.Length ==> t[i] == Slid(old(t[i]), wsize)
    {
      n := n - 1;
      var m := t[n];
      t[n] := if m >= wsize then m - wsize else NIL;
    }
  }

  /** read_buf(): copy input behind the data in the window. */
  method ReadBuf(window: array<byte>, end: nat, input: seq<byte>, nextIn: nat, size: nat) returns (len: nat)
    requires nextIn <= |input| && end + size <= window.Length
    modifies window
    ensures len == if |input| - nextIn > size then size else |input| - nextIn
    ensures window[..end + len] == old(window[..end]) + input[nextIn..nextIn + len]
  {
    len := |input| - nextIn;
    if len > size { len := size; }
    for i := 0 to len
      invariant window[..end + i] == old(window[..end]) + input[nextIn..nextIn + i]
    {
      window[end + i] := input[nextIn + i];
      assert window[..end + i + 1] == window[..end + i] + [input[nextIn + i]];
      assert input[nextIn..nextIn + i + 1] == input[nextIn..nextIn + i] + [input[nextIn + i]];
    }
  }

  /** Insert the strings left over from the last call, once there are bytes enough. */
  method InsertPending(window: array<byte>, head: array<nat>, prev: array<nat>, insH0: nat, strstart: nat, lookahead: nat,
                       insert0: nat, bits: nat, ghost hist: seq<byte>, ghost base: nat, ghost ins0: set<nat>)
    returns (insH: nat, insert: nat, ghost ins: set<nat>)
    requires HashBits(bits) && head != prev && insert0 <= strstart && insert0 < MIN_MATCH && insH0 < Pow2(bits)
    requires Table(window[..], head[..], prev[..], hist, base, ins0, strstart + lookahead, strstart - insert0, bits)
    modifies head, prev
    ensures insert == (if lookahead + insert0 < MIN_MATCH then insert0 else if lookahead < 2 then 2 - lookahead else 0)
    ensures ins == ins0 + Places(strstart - insert0, strstart - insert)
    ensures Hashed(window[..], strstart, lookahead, insert, insH, bits)
    ensures Table(window[..], head[..], prev[..], hist, base, ins, strstart + lookahead, strstart - insert, bits)
  {
    hide Chains, Key, Primed, HashBits, Update, Table;
    insH, insert, ins := insH0, insert0, ins0;
    TableFacts(window[..], head[..], prev[..], hist, base, ins, strstart + lookahead, strstart - insert, bits);
    if lookahead + insert >= MIN_MATCH {
      var str := strstart - insert;
      StartPrimes(window[str], window[str + 1], bits);
      insH := window[str];
      insH := Update(insH, window[str + 1], bits);
      while insert != 0
        invariant insert <= insert0 && str == strstart - insert && insH < Pow2(bits) && PrimedAt(window[..], str, insH, bits)
        invariant lookahead + insert >= MIN_MATCH && ins == ins0 + Places(strstart - insert0, str)
        invariant Table(window[..], head[..], prev[..], hist, base, ins, strstart + lookahead, str, bits)
      {
        var hashHead;
        insH, hashHead, ins := InsertString(window, head, prev, insH, str, bits, hist, base, ins, strstart + lookahead);
        str := str + 1;
        insert := insert - 1;
        if lookahead + insert < MIN_MATCH { break; }
      }
    }
  }

  const WIN_INIT: nat := MAX_MATCH

  /** Zero the bytes that the matcher may look at beyond the data. */
  method ZeroAhead(window: array<byte>, curr: nat, highWater0: nat) returns (highWater: nat)
    requires curr <= window.Length && highWater0 <= window.Length
    modifies window
    ensures highWater0 <= highWater <= window.Length && forall k :: 0 <= k < curr ==> window[k] == old(window[k])
    ensures highWater == window.Length || highWater >= curr + WIN_INIT
  {
    highWater := highWater0;
    if highWater < window.Length {
      if highWater < curr {
        var init := window.Length - curr;
        if init > WIN_INIT { init := WIN_INIT; }
        Zero(window, curr, init);
        highWater := curr + init;
      } else if highWater < curr + WIN_INIT {
        var init := curr + WIN_INIT - highWater;
        if init > window.Length - highWater { init := window.Length - highWater; }
        Zero(window, highWater, init);
        highWater := highWater + init;
      }
    }
  }

  /** zmemzero() */
  method Zero(window: array<byte>, from: nat, n: nat)
    requires from + n <= window.Length
    modifies window
    ensures forall k :: 0 <= k < window.Length ==> window[k] == if from <= k < from + n then 0 else old(window[k])
  {
    for i := 0 to n
      invariant forall k :: 0 <= k < window.Length ==> window[k] == if from <= k < from + i then 0 else old(window[k])
    {
      window[from + i] := 0;
    }
  }
}
