/** The hash chains of deps/zlib/deflate.c: head[] and the modular prev[], and
    the search for matches along them. */
module HashChain {
  import opened Bits
  import opened HashKeys
  import opened Tokens

  const MIN_LOOKAHEAD: nat := MAX_MATCH + MIN_MATCH + 1
  const NIL: nat := 0

  /** MAX_DIST(s) */
  function MaxDist(wSize: nat): int { wSize - MIN_LOOKAHEAD }

  /** The key of the string at place i of the window. */
  function KeyAt(win: seq<byte>, i: nat, bits: nat): nat
    requires i + 2 < |win|
  {
    Key(win[i], win[i + 1], win[i + 2], bits)
  }

  /** A link for a key and the strings below a place: the last of them that was
      inserted under the key, or the end of the chain if there is none. The string
      at place 0 cannot be told from the end. */
  ghost predicate Link(win: seq<byte>, ins: set<nat>, p: nat, key: nat, bits: nat, below: nat)
  {
    && (p == NIL || (p in ins && p < below && p + 2 < |win| && KeyAt(win, p, bits) == key))
    && forall i :: i in ins && p < i < below && i + 2 < |win| ==> KeyAt(win, i, bits) != key
  }

  /** The strings at the places ins have been inserted. An entry of prev is only
      meaningful until the string one window size later has overwritten it. */
  ghost predicate Chains(win: seq<byte>, head: seq<nat>, prev: seq<nat>, ins: set<nat>, bits: nat)
  {
    && |prev| > 0 && |head| == Pow2(bits)
    && (forall i :: i in ins ==> i + 2 < |win|)
    && (forall h :: 0 <= h < |head| ==> Link(win, ins, head[h], h, bits, |win|))
    && (forall i :: i in ins && i + |prev| !in ins ==> Link(win, ins, prev[i % |prev|], KeyAt(win, i, bits), bits, i))
  }

  lemma NoChains(win: seq<byte>, head: seq<nat>, prev: seq<nat>, bits: nat)
    requires |prev| > 0 && |head| == Pow2(bits) && forall h :: 0 <= h < |head| ==> head[h] == NIL
    ensures Chains(win, head, prev, {}, bits)
  {
  }

  /** Bytes after all inserted strings do not matter. */
  lemma ChainsSame(win: seq<byte>, win': seq<byte>, head: seq<nat>, prev: seq<nat>, ins: set<nat>, bits: nat, end: nat)
    requires Chains(win, head, prev, ins, bits) && end <= |win| == |win'| && win[..end] == win'[..end]
    requires forall i :: i in ins ==> i + 3 <= end
    ensures Chains(win', head, prev, ins, bits)
  {
    hide Key;
    assert forall k :: 0 <= k < end ==> win[..end][k] == win[k] && win'[..end][k] == win'[k];
    forall i | i in ins
      ensures i + 2 < |win'| && KeyAt(win', i, bits) == KeyAt(win, i, bits)
    {
    }
  }

  /** A later string changes no link for the strings before it, and none for
      another key. */
  lemma Keep(win: seq<byte>, ins: set<nat>, str: nat, p: nat, key: nat, bits: nat, below: nat)
    requires Link(win, ins, p, key, bits, below) && str + 2 < |win| && (below <= str || KeyAt(win, str, bits) != key)
    ensures Link(win, ins + {str}, p, key, bits, below)
  {
  }

  /** INSERT_STRING links a new string to the head of its chain. */
  lemma InsertKeeps(win: seq<byte>, head: seq<nat>, prev: seq<nat>, ins: set<nat>, bits: nat, str: nat)
    requires Chains(win, head, prev, ins, bits) && str + 2 < |win| && (forall i :: i in ins ==> i < str)
    requires str < 2 * |prev|
    ensures var h := KeyAt(win, str, bits);
            && h < |head| && Chains(win, head[h := str], prev[str % |prev| := head[h]], ins + {str}, bits)
            && Link(win, ins, head[h], h, bits, str)
  {
    hide Key, KeyAt;
    var h, n := KeyAt(win, str, bits), |prev|;
    KeyBound(win, str, bits);
    var head', prev', ins' := head[h := str], prev[str % n := head[h]], ins + {str};
    forall g | 0 <= g < |head'|
      ensures Link(win, ins', head'[g], g, bits, |win|)
    {
      if g != h { Keep(win, ins, str, head[g], g, bits, |win|); }
    }
    assert Link(win, ins, head[h], h, bits, str);
    forall i | i in ins' && i + n !in ins'
      ensures Link(win, ins', prev'[i % n], KeyAt(win, i, bits), bits, i)
    {
      if i == str {
        Keep(win, ins, str, head[h], h, bits, str);
      } else {
        if i % n == str % n { SamePlace(i, str, n); }
        Keep(win, ins, str, prev[i % n], KeyAt(win, i, bits), bits, i);
      }
    }
  }

  lemma KeyBound(win: seq<byte>, i: nat, bits: nat)
    requires i + 2 < |win|
    ensures KeyAt(win, i, bits) < Pow2(bits)
  {
  }

  lemma ModSmall(x: nat, n: nat)
    requires 0 < n && x < 2 * n
    ensures x % n == if x < n then x else x - n
  {
    if x >= n { assert (x - n + n) % n == x - n; }
  }

  /** Two places of a window of twice the size that share an entry. */
  lemma SamePlace(i: nat, j: nat, n: nat)
    requires 0 < n && i < j < 2 * n && i % n == j % n
    ensures j == i + n
  {
    ModSmall(i, n);
    ModSmall(j, n);
  }

  /** (Pos)(m >= wsize ? m-wsize : NIL) */
  function Slid(m: nat, wSize: nat): nat { if m >= wSize then m - wSize else NIL }

  function SlidAll(s: seq<nat>, wSize: nat): (r: seq<nat>)
    ensures |r| == |s| && forall i :: 0 <= i < |s| ==> r[i] == Slid(s[i], wSize)
  {
    seq(|s|, i requires 0 <= i < |s| => Slid(s[i], wSize))
  }

  ghost function SlidSet(ins: set<nat>, wSize: nat): (r: set<nat>)
    ensures forall i: nat :: i in r <==> i + wSize in ins
  {
    set i | i in ins && i >= wSize :: i - wSize
  }

  /** Sliding the window by its half keeps the chains. */
  lemma SlideKeeps(win: seq<byte>, win': seq<byte>, head: seq<nat>, prev: seq<nat>, ins: set<nat>, bits: nat)
    requires Chains(win, head, prev, ins, bits)
    requires var n := |prev|; |win| == |win'| == 2 * n && forall k :: 0 <= k < n ==> win'[k] == win[n + k]
    ensures var n := |prev|; Chains(win', SlidAll(head, n), SlidAll(prev, n), SlidSet(ins, n), bits)
  {
    hide Key, KeyAt, Link, Chains;
    var n := |prev|;
    var ins', prev' := SlidSet(ins, n), SlidAll(prev, n);
    ChainHeads(win, head, prev, ins, bits);
    assert forall i :: i in ins' ==> i + n in ins;
    forall h | 0 <= h < |head|
      ensures Link(win', ins', Slid(head[h], n), h, bits, |win'|)
    {
      SlidLink(win, win', ins, n, head[h], h, bits, |win|);
      LinkBelow(win', ins', Slid(head[h], n), h, bits, n, |win'|);
    }
    forall i: nat | i in ins'
      ensures i + 2 < n && i % n == i && Link(win', ins', prev'[i], KeyAt(win', i, bits), bits, i)
    {
      SlidString(win, win', head, prev, ins, bits, i);
    }
    ChainsFrom(win', SlidAll(head, n), prev', ins', bits);
  }

  lemma ChainHeads(win: seq<byte>, head: seq<nat>, prev: seq<nat>, ins: set<nat>, bits: nat)
    requires Chains(win, head, prev, ins, bits)
    ensures |prev| > 0 && |head| == Pow2(bits) && forall h :: 0 <= h < |head| ==> Link(win, ins, head[h], h, bits, |win|)
    ensures forall i :: i in ins ==> i + 2 < |win|
  {
    hide Link;
  }

  lemma ChainsFrom(win: seq<byte>, head: seq<nat>, prev: seq<nat>, ins: set<nat>, bits: nat)
    requires |prev| > 0 && |head| == Pow2(bits) && forall h :: 0 <= h < |head| ==> Link(win, ins, head[h], h, bits, |win|)
    requires forall i :: i in ins ==> i + 2 < |prev| && i % |prev| == i && i + 2 < |win|
    requires forall i :: i in ins ==> Link(win, ins, prev[i], KeyAt(win, i, bits), bits, i)
    ensures Chains(win, head, prev, ins, bits)
  {
    hide Link, KeyAt;
  }

  lemma SlidString(win: seq<byte>, win': seq<byte>, head: seq<nat>, prev: seq<nat>, ins: set<nat>, bits: nat, i: nat)
    requires Chains(win, head, prev, ins, bits) && i + |prev| in ins
    requires var n := |prev|; |win| == |win'| == 2 * n && forall k :: 0 <= k < n ==> win'[k] == win[n + k]
    ensures var n := |prev|; i + 2 < n && i % n == i
    ensures Link(win', SlidSet(ins, |prev|), Slid(prev[i], |prev|), KeyAt(win', i, bits), bits, i)
  {
    hide Key, Link;
    var n := |prev|;
    ModSmall(i + n, n);
    ModSmall(i, n);
    assert i + n + n !in ins;
    assert KeyAt(win', i, bits) == KeyAt(win, i + n, bits);
    SlidLink(win, win', ins, n, prev[i], KeyAt(win', i, bits), bits, i + n);
  }

  lemma SlidLink(win: seq<byte>, win': seq<byte>, ins: set<nat>, n: nat, p: nat, key: nat, bits: nat, below: nat)
    requires |win| == |win'| == 2 * n && forall k :: 0 <= k < n ==> win'[k] == win[n + k]
    requires Link(win, ins, p, key, bits, below) && n <= below && forall i :: i in ins ==> i + 2 < |win|
    ensures Link(win', SlidSet(ins, n), Slid(p, n), key, bits, below - n)
  {
    hide Key;
    var ins', q := SlidSet(ins, n), Slid(p, n);
    forall i | i in ins' && q < i < below - n
      ensures i + 2 < |win'| && KeyAt(win', i, bits) != key
    {
      assert i + n in ins;
      assert KeyAt(win', i, bits) == KeyAt(win, i + n, bits);
    }
  }

  lemma LinkBelow(win: seq<byte>, ins: set<nat>, p: nat, key: nat, bits: nat, below: nat, below': nat)
    requires Link(win, ins, p, key, bits, below) && below <= below' && forall i :: i in ins ==> i < below
    ensures Link(win, ins, p, key, bits, below')
  {
    hide KeyAt;
  }

  // ---------- matching ----------

  /** The n bytes at i and at j are the same. */
  predicate Same(win: seq<byte>, i: int, j: nat, n: nat)
    requires 0 <= i <= j && j + n <= |win|
  {
    forall p :: j <= p < j + n ==> win[p - (j - i)] == win[p]
  }

  /** The comparison loop of longest_match(): eight bytes between tests for the
      end, starting from the fourth byte. */
  method Compare(window: array<byte>, match0: nat, scan0: nat) returns (len: nat)
    requires match0 < scan0 && scan0 + MAX_MATCH < window.Length
    ensures 3 <= len <= MAX_MATCH
    ensures forall p :: scan0 + 3 <= p < scan0 + len ==> window[p - (scan0 - match0)] == window[p]
    ensures len < MAX_MATCH ==> window[match0 + len] != window[scan0 + len]
  {
    var scan, match_, strend := scan0 + 2, match0 + 2, scan0 + MAX_MATCH;
    var differ := false;
    ghost var q := 0;
    while !differ && scan < strend
      invariant scan0 + 2 <= scan <= strend && scan - scan0 == match_ - match0
      invariant !differ ==> scan == scan0 + 2 + 8 * q
      invariant forall p :: scan0 + 3 <= p < scan ==> window[p - (scan0 - match0)] == window[p]
      invariant differ ==> scan0 + 3 <= scan && window[scan] != window[match_]
      invariant !differ && scan0 + 2 < scan ==> window[scan] == window[match_]
      decreases strend - scan, !differ
    {
      var n := 0;
      while n < 8 && !differ
        invariant n <= 8 && scan == scan0 + 2 + 8 * q + n && scan <= strend && scan - scan0 == match_ - match0
        invariant forall p :: scan0 + 3 <= p < scan ==> window[p - (scan0 - match0)] == window[p]
        invariant differ ==> scan0 + 3 <= scan && window[scan] != window[match_]
        invariant !differ && scan0 + 2 < scan ==> window[scan] == window[match_]
        invariant 8 * q + 8 <= 256
        decreases 8 - n
      {
        scan, match_ := scan + 1, match_ + 1;
        differ := window[scan] != window[match_];
        n := n + 1;
      }
      q := q + 1;
    }
    len := MAX_MATCH - (strend - scan);
  }

  /** Equal keys and equal first, second, fourth and further bytes make a match. */
  lemma KeyMatch(win: seq<byte>, i: nat, j: nat, n: nat, bits: nat, wSize: nat)
    requires HashBits(bits) && 0 < i < j && j - i <= MaxDist(wSize) && j + 2 < |win| && n <= MAX_MATCH && j + n <= |win| && KeyAt(win, i, bits) == KeyAt(win, j, bits)
    requires win[i] == win[j] && win[i + 1] == win[j + 1] && forall p :: j + 3 <= p < j + n ==> win[p - (j - i)] == win[p]
    ensures GoodMatch(win, j, i, n, wSize)
  {
    hide Key;
    ThirdByte(win[i], win[i + 1], win[i + 2], win[j + 2], bits);
  }

  /** A match that may be emitted for the string at strstart. */
  predicate GoodMatch(win: seq<byte>, strstart: nat, start: int, len: nat, wSize: nat)
  {
    && 0 < start < strstart && strstart - start <= MaxDist(wSize) && strstart + len <= |win| && len <= MAX_MATCH
    && Same(win, start, strstart, len)
  }

  /** How far back a match may begin: strings at or before this place are not
      looked at. */
  function Horizon(strstart: nat, wSize: nat): (limit: nat)
    requires MIN_LOOKAHEAD <= wSize
  {
    if strstart > MaxDist(wSize) then strstart - MaxDist(wSize) else NIL
  }

  /** How many strings are looked at: the chain length of the level, or a quarter of
      it if there is a good match already. A length of zero is 2^32. */
  function Tries(maxChain: nat, goodMatch: nat, prevLength: nat): (n: nat)
    ensures n > 0
  {
    var chain := if prevLength >= goodMatch then maxChain / 4 else maxChain;
    if chain == 0 then 0x1_0000_0000 else chain
  }

  /** The strings reached from cur over prev that stay above the limit, at most n. */
  function Visited(prev: seq<nat>, cur: nat, limit: nat, n: nat): set<nat>
    requires |prev| > 0
    decreases n
  {
    if n == 0 then {}
    else {cur} + if prev[cur % |prev|] > limit then Visited(prev, prev[cur % |prev|], limit, n - 1) else {}
  }

  /** None of the strings repeats more than best bytes of those at strstart, as far
      as there is input. */
  ghost predicate NoneLonger(win: seq<byte>, strings: set<nat>, strstart: nat, lookahead: nat, best: nat)
  {
    strstart + lookahead <= |win| &&
    forall c, n: nat {:trigger Same(win, c, strstart, n)} ::
      c in strings && c <= strstart && n <= lookahead && n <= MAX_MATCH && Same(win, c, strstart, n) ==> n <= best
  }

  /** What a search along the chain that begins at cur comes to: a result above
      prevLength is the length of a true match with one of the strings looked at,
      within the allowed distance; and unless it is nice enough or all the input
      there is, none of those strings has a longer one. */
  ghost predicate Searched(win: seq<byte>, prev: seq<nat>, cur: nat, strstart: nat, lookahead: nat, prevLength: nat, maxChain: nat,
                           goodMatch: nat, niceMatch: nat, r: nat, start: int)
    requires MIN_LOOKAHEAD <= |prev|
  {
    var strings := Visited(prev, cur, Horizon(strstart, |prev|), Tries(maxChain, goodMatch, prevLength));
    && r <= lookahead && (r >= prevLength || r == lookahead)
    && (r > prevLength ==> GoodMatch(win, strstart, start, r, |prev|) && start in strings)
    && (|| (r > prevLength && (r >= niceMatch || r == lookahead))
        || NoneLonger(win, strings, strstart, lookahead, if r > prevLength then r else prevLength))
  }

  /** longest_match(): follow the chain from curMatch. */
  method LongestMatch(window: array<byte>, prev: array<nat>, curMatch0: nat, strstart: nat, lookahead: nat, prevLength: nat,
                      matchStart0: int, maxChain: nat, goodMatch: nat, niceMatch0: nat, ghost head: seq<nat>, ghost ins: set<nat>,
                      ghost bits: nat)
    returns (r: nat, matchStart: int)
    requires HashBits(bits) && Chains(window[..], head, prev[..], ins, bits) && (forall i :: i in ins ==> i <= strstart)
    requires window.Length == 2 * prev.Length && MIN_LOOKAHEAD < prev.Length && strstart + MIN_LOOKAHEAD <= window.Length
    requires strstart + lookahead <= window.Length && MIN_MATCH <= lookahead && 1 <= prevLength <= MAX_MATCH && maxChain < 0x1_0000_0000
    requires curMatch0 in ins && NIL < curMatch0 < strstart && strstart - curMatch0 <= MaxDist(prev.Length)
    requires KeyAt(window[..], curMatch0, bits) == KeyAt(window[..], strstart, bits)
    ensures Searched(window[..], prev[..], curMatch0, strstart, lookahead, prevLength, maxChain, goodMatch, niceMatch0, r, matchStart)
  {
    hide Key, KeyAt, Link, Chains, HashBits, GoodMatch, NoneLonger, Visited;
    var chainLength, niceMatch := maxChain, niceMatch0;
    var limit := if strstart > MaxDist(prev.Length) then strstart - MaxDist(prev.Length) else NIL;
    if prevLength >= goodMatch { chainLength := chainLength / 4; }
    if niceMatch > lookahead { niceMatch := lookahead; }
    var bestLen;
    ghost var nice;
    bestLen, matchStart, nice := FollowChain(window, prev, curMatch0, strstart, lookahead, prevLength, matchStart0, chainLength, niceMatch,
                                             limit, head, ins, bits);
    r := if bestLen <= lookahead then bestLen else lookahead;
    ghost var all := Visited(prev[..], curMatch0, limit, Tries(maxChain, goodMatch, prevLength));
    if r > prevLength { Shorter(window[..], strstart, matchStart, bestLen, r, prev.Length); }
    if nice && r <= prevLength {
      AllShort(window[..], all, strstart, lookahead, prevLength);
    } else if !nice {
      AtMost(window[..], all, strstart, lookahead, bestLen, if r > prevLength then r else prevLength);
    }
  }

  /** do { ... } while ((cur_match = prev[cur_match & wmask]) > limit && --chain_length != 0) */
  method FollowChain(window: array<byte>, prev: array<nat>, curMatch0: nat, strstart: nat, lookahead: nat, prevLength: nat,
                     matchStart0: int, chainLength0: nat, niceMatch: nat, limit: nat, ghost head: seq<nat>, ghost ins: set<nat>,
                     ghost bits: nat)
    returns (bestLen: nat, matchStart: int, ghost nice: bool)
    requires HashBits(bits) && Chains(window[..], head, prev[..], ins, bits) && (forall i :: i in ins ==> i <= strstart)
    requires window.Length == 2 * prev.Length && MIN_LOOKAHEAD < prev.Length && strstart + MIN_LOOKAHEAD <= window.Length
    requires strstart + lookahead <= window.Length && 1 <= prevLength <= MAX_MATCH && chainLength0 < 0x1_0000_0000
    requires curMatch0 in ins && NIL < curMatch0 < strstart && strstart - curMatch0 <= MaxDist(prev.Length)
    requires KeyAt(window[..], curMatch0, bits) == KeyAt(window[..], strstart, bits) && limit == Horizon(strstart, prev.Length)
    ensures prevLength <= bestLen <= MAX_MATCH && (nice ==> prevLength < bestLen && niceMatch <= bestLen)
    ensures var all := Visited(prev[..], curMatch0, limit, if chainLength0 == 0 then 0x1_0000_0000 else chainLength0);
            && (bestLen > prevLength ==> GoodMatch(window[..], strstart, matchStart, bestLen, prev.Length) && matchStart in all)
            && (nice || NoneLonger(window[..], all, strstart, lookahead, bestLen))
  {
    hide Key, KeyAt, Link, Chains, HashBits, GoodMatch, NoneLonger, Visited;
    ghost var win, links := window[..], prev[..];
    var chainLength, curMatch, go := chainLength0, curMatch0, true;
    bestLen, matchStart, nice := prevLength, matchStart0, false;
    var scanEnd1, scanEnd := window[strstart + bestLen - 1], window[strstart + bestLen];
    ghost var left, seen := if chainLength == 0 then 0x1_0000_0000 else chainLength, {};
    ghost var all := Visited(links, curMatch0, limit, left);
    NoneYet(win, strstart, lookahead, bestLen);
    while go
      invariant prevLength <= bestLen <= MAX_MATCH && chainLength < 0x1_0000_0000
      invariant go ==> curMatch in ins && NIL < curMatch < strstart && strstart - curMatch <= MaxDist(prev.Length)
      invariant go ==> KeyAt(win, curMatch, bits) == KeyAt(win, strstart, bits)
      invariant bestLen > prevLength ==> GoodMatch(win, strstart, matchStart, bestLen, prev.Length) && matchStart in all
      invariant scanEnd1 == window[strstart + bestLen - 1] && scanEnd == window[strstart + bestLen]
      invariant go ==> left == if chainLength == 0 then 0x1_0000_0000 else chainLength
      invariant all == seen + if go then Visited(links, curMatch, limit, left) else {}
      invariant NoneLonger(win, seen, strstart, lookahead, bestLen) && !nice
      decreases go, curMatch
    {
      VisitNext(links, curMatch, limit, left);
      var len := TryString(window, curMatch, strstart, lookahead, bestLen, scanEnd1, scanEnd, prev.Length, bits, seen);
      if len > bestLen {
        matchStart := curMatch;
        bestLen := len;
        if len >= niceMatch {
          nice := true;
          break;
        }
        scanEnd1, scanEnd := window[strstart + bestLen - 1], window[strstart + bestLen];
      }
      seen := seen + {curMatch};
      NextLink(win, head, prev[..], ins, bits, curMatch, strstart);
      var next := prev[curMatch % prev.Length];
      chainLength := if chainLength == 0 then 0xFFFF_FFFF else chainLength - 1;
      left := left - 1;
      go := next > limit && chainLength != 0;
      NoneVisited(links, next, limit, left);
      curMatch := next;
    }
  }

  /** One string of the chain: its length if that could be above bestLen, or 0. */
  method TryString(window: array<byte>, curMatch: nat, strstart: nat, lookahead: nat, bestLen: nat, scanEnd1: byte, scanEnd: byte,
                   ghost wSize: nat, ghost bits: nat, ghost seen: set<nat>)
    returns (len: nat)
    requires HashBits(bits) && 0 < curMatch < strstart && strstart - curMatch <= MaxDist(wSize) && strstart + MIN_LOOKAHEAD <= window.Length
    requires KeyAt(window[..], curMatch, bits) == KeyAt(window[..], strstart, bits) && 1 <= bestLen <= MAX_MATCH
    requires scanEnd1 == window[strstart + bestLen - 1] && scanEnd == window[strstart + bestLen]
    requires NoneLonger(window[..], seen, strstart, lookahead, bestLen)
    ensures len > bestLen ==> len <= MAX_MATCH && GoodMatch(window[..], strstart, curMatch, len, wSize)
    ensures NoneLonger(window[..], seen + {curMatch}, strstart, lookahead, if len > bestLen then len else bestLen)
  {
    hide Key, KeyAt, HashBits, GoodMatch, NoneLonger;
    if window[curMatch + bestLen] == scanEnd && window[curMatch + bestLen - 1] == scanEnd1 &&
       window[curMatch] == window[strstart] && window[curMatch + 1] == window[strstart + 1] {
      len := Compare(window, curMatch, strstart);
      KeyMatch(window[..], curMatch, strstart, len, bits, wSize);
      ComparedOne(window[..], seen, curMatch, strstart, lookahead, bestLen, len);
    } else {
      len := 0;
      SkippedOne(window[..], seen, curMatch, strstart, lookahead, bestLen);
    }
  }

  lemma VisitNext(prev: seq<nat>, cur: nat, limit: nat, n: nat)
    requires |prev| > 0 && n > 0
    ensures Visited(prev, cur, limit, n) ==
            {cur} + if prev[cur % |prev|] > limit then Visited(prev, prev[cur % |prev|], limit, n - 1) else {}
    ensures cur in Visited(prev, cur, limit, n)
  {
  }

  lemma NoneVisited(prev: seq<nat>, cur: nat, limit: nat, n: nat)
    requires |prev| > 0
    ensures n == 0 ==> Visited(prev, cur, limit, n) == {}
  {
  }

  lemma NoneYet(win: seq<byte>, strstart: nat, lookahead: nat, best: nat)
    requires strstart + lookahead <= |win|
    ensures NoneLonger(win, {}, strstart, lookahead, best)
  {
  }

  /** More than best equal bytes begin and end as the scan expects. */
  lemma SkippedOne(win: seq<byte>, seen: set<nat>, c: nat, strstart: nat, lookahead: nat, best: nat)
    requires NoneLonger(win, seen, strstart, lookahead, best) && 1 <= best && c < strstart && strstart + best < |win|
    requires win[c + best] != win[strstart + best] || win[c + best - 1] != win[strstart + best - 1] ||
             win[c] != win[strstart] || win[c + 1] != win[strstart + 1]
    ensures NoneLonger(win, seen + {c}, strstart, lookahead, best)
  {
    forall n: nat | n <= lookahead && Same(win, c, strstart, n)
      ensures n <= best
    {
      var k: nat := if win[c + best] != win[strstart + best] then best
               else if win[c + best - 1] != win[strstart + best - 1] then best - 1
               else if win[c] != win[strstart] then 0 else 1;
      assert k <= best && win[c + k] != win[strstart + k];
      if n > best { SameAt(win, c, strstart, n, k); }
    }
  }

  lemma SameAt(win: seq<byte>, i: nat, j: nat, n: nat, k: nat)
    requires i <= j && j + n <= |win| && k < n && Same(win, i, j, n)
    ensures win[i + k] == win[j + k]
  {
    assert win[j + k - (j - i)] == win[j + k];
  }

  /** The comparison finds the end of the match. */
  lemma ComparedOne(win: seq<byte>, seen: set<nat>, c: nat, strstart: nat, lookahead: nat, best: nat, len: nat)
    requires NoneLonger(win, seen, strstart, lookahead, best) && c < strstart && strstart + len < |win| && len <= MAX_MATCH
    requires len < MAX_MATCH ==> win[c + len] != win[strstart + len]
    ensures NoneLonger(win, seen + {c}, strstart, lookahead, if len > best then len else best)
  {
    forall n: nat | n <= lookahead && n <= MAX_MATCH && Same(win, c, strstart, n)
      ensures n <= len
    {
      if n > len { SameAt(win, c, strstart, n, len); }
    }
  }

  lemma AllShort(win: seq<byte>, strings: set<nat>, strstart: nat, lookahead: nat, best: nat)
    requires strstart + lookahead <= |win| && lookahead <= best
    ensures NoneLonger(win, strings, strstart, lookahead, best)
  {
  }

  lemma AtMost(win: seq<byte>, strings: set<nat>, strstart: nat, lookahead: nat, best: nat, best': nat)
    requires NoneLonger(win, strings, strstart, lookahead, best) && (best <= best' || lookahead <= best')
    ensures NoneLonger(win, strings, strstart, lookahead, best')
  {
  }

  lemma Shorter(win: seq<byte>, strstart: nat, start: int, len: nat, n: nat, wSize: nat)
    requires GoodMatch(win, strstart, start, len, wSize) && n <= len
    ensures GoodMatch(win, strstart, start, n, wSize)
  {
  }

  lemma NextLink(win: seq<byte>, head: seq<nat>, prev: seq<nat>, ins: set<nat>, bits: nat, cur: nat, strstart: nat)
    requires Chains(win, head, prev, ins, bits) && (forall i :: i in ins ==> i <= strstart)
    requires cur in ins && cur <= strstart < cur + |prev| && strstart + 2 < |win| && cur + 2 < |win|
    requires KeyAt(win, cur, bits) == KeyAt(win, strstart, bits)
    ensures var p := prev[cur % |prev|];
            p == NIL || (p in ins && p < cur && p + 2 < |win| && KeyAt(win, p, bits) == KeyAt(win, strstart, bits))
  {
    hide Key, KeyAt;
    assert cur + |prev| !in ins;
  }

  // ---------- what a chain holds ----------

  /** The strings under a key after place c and up to place cur. */
  ghost function Nearer(win: seq<byte>, ins: set<nat>, c: nat, cur: nat, key: nat, bits: nat): set<nat>
  {
    set i | i in ins && c < i <= cur && i + 2 < |win| && KeyAt(win, i, bits) == key
  }

  /** The strings looked at are the nearest ones that were inserted under the key,
      above the limit, and as many as the chain length allows. */
  lemma {:induction false} VisitedAreNearest(win: seq<byte>, head: seq<nat>, prev: seq<nat>, ins: set<nat>, bits: nat, cur: nat,
                                             key: nat, limit: nat, n: nat, c: nat)
    requires Chains(win, head, prev, ins, bits) && forall i :: i in ins ==> i <= limit + |prev|
    requires cur in ins && limit < cur && cur + 2 < |win| && KeyAt(win, cur, bits) == key
    ensures c in Visited(prev, cur, limit, n) <==>
              && c in ins && limit < c <= cur && c + 2 < |win| && KeyAt(win, c, bits) == key
              && |Nearer(win, ins, c, cur, key, bits)| < n
    decreases n
  {
    hide Chains, Key, KeyAt;
    if n > 0 {
      ChainLink(win, head, prev, ins, bits, cur);
      var p := prev[cur % |prev|];
      if c == cur {
        assert Nearer(win, ins, c, cur, key, bits) == {};
      } else if p > limit {
        VisitedAreNearest(win, head, prev, ins, bits, p, key, limit, n - 1, c);
        if c <= p {
          assert Nearer(win, ins, c, cur, key, bits) == Nearer(win, ins, c, p, key, bits) + {cur};
        }
      }
    }
  }

  lemma ChainLink(win: seq<byte>, head: seq<nat>, prev: seq<nat>, ins: set<nat>, bits: nat, i: nat)
    requires Chains(win, head, prev, ins, bits) && i in ins && i + |prev| !in ins
    ensures |prev| > 0 && i + 2 < |win| && Link(win, ins, prev[i % |prev|], KeyAt(win, i, bits), bits, i)
  {
    hide Link, KeyAt;
  }

  /** So the search looks at every string that has been inserted, if the chain is
      not cut short: none of those above the limit repeats more than was found. */
  lemma LongestOfAll(win: seq<byte>, head: seq<nat>, prev: seq<nat>, ins: set<nat>, bits: nat, cur: nat, strstart: nat,
                     lookahead: nat, n: nat, best: nat, c: nat, len: nat)
    requires Chains(win, head, prev, ins, bits) && MIN_LOOKAHEAD <= |prev| && (forall i :: i in ins ==> i <= strstart)
    requires strstart + 2 < |win| && strstart + lookahead <= |win|
    requires cur != NIL && Link(win, ins, cur, KeyAt(win, strstart, bits), bits, strstart)
    requires var limit := Horizon(strstart, |prev|);
             limit < cur && NoneLonger(win, Visited(prev, cur, limit, n), strstart, lookahead, best) && c in ins && limit < c < strstart
    requires MIN_MATCH <= len <= lookahead && len <= MAX_MATCH && Same(win, c, strstart, len)
    requires |Nearer(win, ins, c, strstart - 1, KeyAt(win, strstart, bits), bits)| < n
    ensures len <= best
  {
    hide Chains, Key, Link, NoneLonger, Visited;
    var key, limit := KeyAt(win, strstart, bits), Horizon(strstart, |prev|);
    SameAt(win, c, strstart, len, 0);
    SameAt(win, c, strstart, len, 1);
    SameAt(win, c, strstart, len, 2);
    NoneBetween(win, ins, cur, key, bits, strstart, c);
    VisitedAreNearest(win, head, prev, ins, bits, cur, key, limit, n, c);
    LookedAt(win, Visited(prev, cur, limit, n), strstart, lookahead, best, c, len);
  }

  /** The head of a chain is the nearest string. */
  lemma NoneBetween(win: seq<byte>, ins: set<nat>, cur: nat, key: nat, bits: nat, below: nat, c: nat)
    requires cur != NIL && Link(win, ins, cur, key, bits, below)
    requires c in ins && 0 < c < below && c + 2 < |win| && KeyAt(win, c, bits) == key
    ensures cur in ins && cur < below && cur + 2 < |win| && KeyAt(win, cur, bits) == key
    ensures c <= cur && Nearer(win, ins, c, cur, key, bits) == Nearer(win, ins, c, below - 1, key, bits)
  {
    hide KeyAt;
  }

  lemma LookedAt(win: seq<byte>, strings: set<nat>, strstart: nat, lookahead: nat, best: nat, c: nat, n: nat)
    requires NoneLonger(win, strings, strstart, lookahead, best)
    requires c in strings && c <= strstart && n <= lookahead && n <= MAX_MATCH && Same(win, c, strstart, n)
    ensures n <= best
  {
  }
}
