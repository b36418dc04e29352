/** Lazy and greedy matching of deps/zlib/deflate.c as rules on values: what is
    looked for at a string, and which tokens a whole sequence of such decisions
    makes. */
module Matching {
  import opened Bits
  import opened Tokens
  import opened HashKeys
  import opened HashChain
  import opened BlockStream
  import opened DeflateHistory

  const TOO_FAR: nat := 4096

  /** The tuning of a compression level, in any combination. */
  datatype Config = Config(goodMatch: nat, maxLazy: nat, niceMatch: nat, maxChain: nat, lazy: bool, level: nat, filtered: bool, fixed: bool)

  /** What deflate_slow() finds for a string: its chain is searched unless the match
      before it is long enough or there is no string to look at, and a short match
      is dropped if it is too far away or matches of that length are not wanted. */
  ghost predicate LazyFind(c: Config, win: seq<byte>, head: seq<nat>, prev: seq<nat>, bits: nat, strstart: nat, lookahead: nat,
                           prevLength: nat, found: nat, len: nat, start: int)
    requires MIN_LOOKAHEAD <= |prev|
  {
    if lookahead < MIN_MATCH then len == 2
    else
      strstart + 2 < |win| && KeyAt(win, strstart, bits) < |head| &&
      var first := head[KeyAt(win, strstart, bits)];
      if first == NIL || prevLength >= c.maxLazy || strstart - first > MaxDist(|prev|) then len == 2
      else
        && Searched(win, prev[strstart % |prev| := first], first, strstart, lookahead, prevLength, c.maxChain, c.goodMatch,
                    c.niceMatch, found, start)
        && len == if found <= 5 && (c.filtered || (found == MIN_MATCH && strstart - start > TOO_FAR)) then 2 else found
  }

  /** What deflate_fast() finds: every chain is searched. */
  ghost predicate GreedyFind(c: Config, win: seq<byte>, head: seq<nat>, prev: seq<nat>, bits: nat, strstart: nat, lookahead: nat,
                             len: nat, start: int)
    requires MIN_LOOKAHEAD <= |prev|
  {
    if lookahead < MIN_MATCH then len < MIN_MATCH
    else
      strstart + 2 < |win| && KeyAt(win, strstart, bits) < |head| &&
      var first := head[KeyAt(win, strstart, bits)];
      if first == NIL || strstart - first > MaxDist(|prev|) then len < MIN_MATCH
      else Searched(win, prev[strstart % |prev| := first], first, strstart, lookahead, 2, c.maxChain, c.goodMatch, c.niceMatch, len, start)
  }

  // ---------- tokens and blocks ----------

  /** The tokens wait, or have been sent in a block. */
  ghost predicate Sent(sent0: seq<Block>, ts0: seq<Token>, sent: seq<Block>, ts: seq<Token>)
  {
    (sent == sent0 && ts == ts0) || (OneBlock(sent0, ts0, sent) && ts == [])
  }

  /** One more block has been sent, for these tokens or for what they stand for. */
  ghost predicate OneBlock(sent0: seq<Block>, ts: seq<Token>, sent: seq<Block>)
  {
    |sent| == |sent0| + 1 && sent[..|sent0|] == sent0 && (sent[|sent0|].StoredBlock? || sent[|sent0|].ts == ts)
  }

  function Flat(parts: seq<seq<Token>>): seq<Token>
  {
    if parts == [] then [] else Flat(parts[..|parts| - 1]) + parts[|parts| - 1]
  }

  /** All tokens so far: those of each block, whether it was sent as tokens or as
      bytes, and those that wait. */
  ghost predicate InBlocks(tokens: seq<Token>, parts: seq<seq<Token>>, sent: seq<Block>, ts: seq<Token>)
  {
    && |parts| == |sent| && tokens == Flat(parts) + ts
    && forall i :: 0 <= i < |sent| ==> sent[i].StoredBlock? || sent[i].ts == parts[i]
  }

  /** More tokens, sent in a block or not. */
  lemma InBlocksMore(tokens: seq<Token>, more: seq<Token>, parts: seq<seq<Token>>, sent0: seq<Block>, ts0: seq<Token>, sent: seq<Block>,
                     ts: seq<Token>) returns (parts': seq<seq<Token>>)
    requires InBlocks(tokens, parts, sent0, ts0) && Sent(sent0, ts0 + more, sent, ts)
    ensures InBlocks(tokens + more, parts', sent, ts)
  {
    assert tokens + more == Flat(parts) + (ts0 + more);
    if sent == sent0 && ts == ts0 + more {
      parts' := parts;
    } else {
      parts' := parts + [ts0 + more];
      assert parts'[..|parts|] == parts;
      assert Flat(parts') + [] == Flat(parts');
      forall i | 0 <= i < |sent|
        ensures sent[i].StoredBlock? || sent[i].ts == parts'[i]
      {
        if i < |sent0| { assert sent[i] == sent[..|sent0|][i]; }
      }
    }
  }

  // ---------- decisions ----------

  /** One decision: window, chains and inserted strings as they were, the input of
      which the window held the end, and the outcome of the search; or the end of
      the input, where the byte held back goes out. */
  datatype Event =
    | Step(win: seq<byte>, head: seq<nat>, prev: seq<nat>, ins: set<nat>, base: nat, text: seq<byte>, strstart: nat, lookahead: nat,
           prevLength: nat, found: nat, len: nat, start: int)
    | Last(text: seq<byte>)

  /** What all decisions so far have come to: the tokens, the place of the next
      string, and the match found for the one before it, whose byte is held back. */
  datatype Matched = Matched(tokens: seq<Token>, at: nat, len: nat, dist: nat, held: bool)

  function Dist(strstart: int, start: int): nat { if start <= strstart then strstart - start else 0 }

  /** The literal for one byte of the input. */
  function ByteAt(text: seq<byte>, i: int): seq<Token> { if 0 <= i < |text| then [Literal(text[i])] else [] }

  /** Lazy: the match of the string before is emitted unless a longer one has been
      found now; then only its first byte is. Greedy: a match is emitted at once. */
  function Next(lazy: bool, st: Matched, e: Event): Matched
  {
    match e
    case Last(text) => Matched(st.tokens + (if st.held then ByteAt(text, st.at - 1) else []), st.at, 2, 0, false)
    case Step(_, _, _, _, _, text, strstart, _, _, _, len, start) =>
      if lazy then
        if st.len >= MIN_MATCH && len <= st.len then Matched(st.tokens + [Match(st.len, st.dist)], st.at + st.len - 1, 2, 0, false)
        else Matched(st.tokens + (if st.held then ByteAt(text, st.at - 1) else []), st.at + 1, len, Dist(strstart, start), true)
      else if len >= MIN_MATCH then Matched(st.tokens + [Match(len, Dist(strstart, start))], st.at + len, 2, 0, false)
      else Matched(st.tokens + ByteAt(text, st.at), st.at + 1, 2, 0, false)
  }

  function Run(lazy: bool, events: seq<Event>): Matched
  {
    if events == [] then Matched([], 0, 2, 0, false) else Next(lazy, Run(lazy, events[..|events| - 1]), events[|events| - 1])
  }

  /** The string of the decision is among the inserted ones of a window that begins
      at base, if it is in it and long enough. */
  predicate Known(e: Event, base: nat, ins: set<nat>)
  {
    e.Step? && e.lookahead >= MIN_MATCH && base <= e.base + e.strstart ==> e.base + e.strstart - base in ins
  }

  /** A decision made in its turn, by a search of chains that are in order and hold
      the strings of all decisions before it. */
  ghost predicate Genuine(c: Config, bits: nat, hist: seq<byte>, before: seq<Event>, e: Event)
  {
    e.text <= hist &&
    (e.Step? ==>
       && Table(e.win, e.head, e.prev, e.text, e.base, e.ins, e.strstart + e.lookahead, e.strstart, bits)
       && MIN_LOOKAHEAD <= |e.prev| && 1 <= e.lookahead
       && (if c.lazy then LazyFind(c, e.win, e.head, e.prev, bits, e.strstart, e.lookahead, e.prevLength, e.found, e.len, e.start)
           else GreedyFind(c, e.win, e.head, e.prev, bits, e.strstart, e.lookahead, e.len, e.start))
       && e.base + e.strstart == Run(c.lazy, before).at && (c.lazy ==> e.prevLength == Run(c.lazy, before).len)
       && forall i :: 0 <= i < |before| ==> Known(before[i], e.base, e.ins))
  }

  ghost predicate Followed(c: Config, bits: nat, hist: seq<byte>, events: seq<Event>)
  {
    forall i :: 0 <= i < |events| ==> Genuine(c, bits, hist, events[..i], events[i])
  }

  lemma OneMore(c: Config, bits: nat, hist: seq<byte>, events: seq<Event>, e: Event)
    requires Followed(c, bits, hist, events) && Genuine(c, bits, hist, events, e)
    ensures Followed(c, bits, hist, events + [e]) && Run(c.lazy, events + [e]) == Next(c.lazy, Run(c.lazy, events), e)
  {
    hide Genuine, Next;
    var all := events + [e];
    assert all[..|events|] == events;
    forall i | 0 <= i < |all|
      ensures Genuine(c, bits, hist, all[..i], all[i])
    {
      if i < |events| { assert all[..i] == events[..i]; }
    }
  }

  lemma FollowedGrows(c: Config, bits: nat, hist: seq<byte>, hist': seq<byte>, events: seq<Event>)
    requires Followed(c, bits, hist, events) && hist <= hist'
    ensures Followed(c, bits, hist', events)
  {
    hide LazyFind, GreedyFind, Table, Run, Known;
    forall i | 0 <= i < |events|
      ensures Genuine(c, bits, hist', events[..i], events[i])
    {
      assert Genuine(c, bits, hist, events[..i], events[i]);
    }
  }

  /** The window moves on without forgetting strings that are still in it. */
  ghost predicate Keeps(ins: set<nat>, base: nat, ins': set<nat>, base': nat)
  {
    base <= base' && forall i :: i in ins && base' - base <= i ==> i - (base' - base) in ins'
  }

  lemma KeepsTrans(ins: set<nat>, base: nat, ins1: set<nat>, base1: nat, ins2: set<nat>, base2: nat)
    requires Keeps(ins, base, ins1, base1) && Keeps(ins1, base1, ins2, base2)
    ensures Keeps(ins, base, ins2, base2)
  {
    forall i | i in ins && base2 - base <= i
      ensures i - (base2 - base) in ins2
    {
      assert i - (base1 - base) in ins1;
    }
  }

  lemma KnownKept(e: Event, ins: set<nat>, base: nat, ins': set<nat>, base': nat)
    requires Known(e, base, ins) && Keeps(ins, base, ins', base')
    ensures Known(e, base', ins')
  {
  }

  // ---------- the trace of a session ----------

  /** The decisions of a session are genuine and come to the tokens in its blocks, to
      the place where it is, and to what is held back; and their strings are still
      known. */
  ghost predicate Trace(c: Config, bits: nat, hist: seq<byte>, events: seq<Event>, parts: seq<seq<Token>>, sent: seq<Block>,
                        ts: seq<Token>, base: nat, ins: set<nat>, strstart: nat, len: nat, start: int, held: bool)
  {
    && Followed(c, bits, hist, events) && (forall i :: 0 <= i < |events| ==> Known(events[i], base, ins))
    && var st := Run(c.lazy, events);
       && st.at == base + strstart && InBlocks(st.tokens, parts, sent, ts)
       && (c.lazy ==> st.len == len && st.held == held && (len >= MIN_MATCH ==> st.dist == Dist(strstart - 1, start)))
  }

  lemma TraceStarts(c: Config, bits: nat)
    ensures Trace(c, bits, [], [], [], [], [], 0, {}, 0, 2, 0, false)
  {
  }

  /** Reading more input and sliding the window. */
  lemma TraceMoves(c: Config, bits: nat, hist: seq<byte>, events: seq<Event>, parts: seq<seq<Token>>, sent: seq<Block>, ts: seq<Token>,
                   base: nat, ins: set<nat>, strstart: nat, len: nat, start: int, held: bool,
                   hist': seq<byte>, base': nat, ins': set<nat>, strstart': nat, start': int)
    requires Trace(c, bits, hist, events, parts, sent, ts, base, ins, strstart, len, start, held)
    requires hist <= hist' && Keeps(ins, base, ins', base') && base + strstart == base' + strstart' && base + start == base' + start'
    ensures Trace(c, bits, hist', events, parts, sent, ts, base', ins', strstart', len, start', held)
  {
    hide Followed, Known, Keeps, Run, InBlocks;
    FollowedGrows(c, bits, hist, hist', events);
    forall i | 0 <= i < |events|
      ensures Known(events[i], base', ins')
    {
      KnownKept(events[i], ins, base, ins', base');
    }
  }

  /** The tokens that wait are sent. */
  lemma TraceSent(c: Config, bits: nat, hist: seq<byte>, events: seq<Event>, parts: seq<seq<Token>>, sent: seq<Block>, ts: seq<Token>,
                  base: nat, ins: set<nat>, strstart: nat, len: nat, start: int, held: bool, sent': seq<Block>, ts': seq<Token>)
    returns (parts': seq<seq<Token>>)
    requires Trace(c, bits, hist, events, parts, sent, ts, base, ins, strstart, len, start, held) && Sent(sent, ts, sent', ts')
    ensures Trace(c, bits, hist, events, parts', sent', ts', base, ins, strstart, len, start, held)
  {
    hide Followed, Known, Run, InBlocks, Sent;
    var tokens := Run(c.lazy, events).tokens;
    assert ts + [] == ts && tokens + [] == tokens;
    parts' := InBlocksMore(tokens, [], parts, sent, ts, sent', ts');
  }

  /** A full flush forgets all strings. */
  lemma TraceForgets(c: Config, bits: nat, hist: seq<byte>, events: seq<Event>, parts: seq<seq<Token>>, sent: seq<Block>, ts: seq<Token>,
                     base: nat, ins: set<nat>, strstart: nat, len: nat, start: int, held: bool)
    requires Trace(c, bits, hist, events, parts, sent, ts, base, ins, strstart, len, start, held)
    requires base + strstart == |hist| && len < MIN_MATCH
    ensures Trace(c, bits, hist, events, parts, sent, ts, |hist|, {}, 0, len, start, held)
  {
    hide Run, InBlocks, LazyFind, GreedyFind;
    forall i | 0 <= i < |events|
      ensures Known(events[i], |hist|, {})
    {
      assert Genuine(c, bits, hist, events[..i], events[i]);
      if events[i].Step? { StepBefore(events[i], bits); }
    }
  }

  lemma StepBefore(e: Event, bits: nat)
    requires e.Step? && Table(e.win, e.head, e.prev, e.text, e.base, e.ins, e.strstart + e.lookahead, e.strstart, bits) && 1 <= e.lookahead
    ensures e.base + e.strstart < |e.text|
  {
    hide Chains;
  }

  /** One more decision of deflate_slow(). */
  lemma TraceLazy(c: Config, bits: nat, hist: seq<byte>, events: seq<Event>, parts: seq<seq<Token>>, sent: seq<Block>, ts: seq<Token>,
                  len: nat, start: int, held: bool, e: Event, more: seq<Token>, sent': seq<Block>, ts': seq<Token>, ins': set<nat>,
                  strstart': nat, len': nat, start': int, held': bool)
    returns (parts': seq<seq<Token>>)
    requires c.lazy && e.Step? && e.text == hist && e.prevLength == len
    requires Trace(c, bits, hist, events, parts, sent, ts, e.base, e.ins, e.strstart, len, start, held)
    requires Table(e.win, e.head, e.prev, hist, e.base, e.ins, e.strstart + e.lookahead, e.strstart, bits)
    requires MIN_LOOKAHEAD <= |e.prev| && 1 <= e.lookahead
    requires LazyFind(c, e.win, e.head, e.prev, bits, e.strstart, e.lookahead, len, e.found, e.len, e.start)
    requires e.ins <= ins' && (e.lookahead >= MIN_MATCH ==> e.strstart in ins') && Sent(sent, ts + more, sent', ts')
    requires if len >= MIN_MATCH && e.len <= len
             then more == [Match(len, Dist(e.strstart - 1, start))] && strstart' == e.strstart + len - 1 && len' == 2 && !held'
             else more == (if held then ByteAt(hist, e.base + e.strstart - 1) else []) && strstart' == e.strstart + 1 && len' == e.len &&
                  start' == e.start && held'
    ensures Trace(c, bits, hist, events + [e], parts', sent', ts', e.base, ins', strstart', len', start', held')
  {
    hide Followed, InBlocks, Sent, LazyFind, GreedyFind, Table, Known, Run;
    OneMore(c, bits, hist, events, e);
    parts' := InBlocksMore(Run(c.lazy, events).tokens, more, parts, sent, ts, sent', ts');
    AllKnown(events, e, e.base, e.ins, ins');
  }

  /** One more decision of deflate_fast(). */
  lemma TraceGreedy(c: Config, bits: nat, hist: seq<byte>, events: seq<Event>, parts: seq<seq<Token>>, sent: seq<Block>, ts: seq<Token>,
                    len: nat, start: int, held: bool, e: Event, more: seq<Token>, sent': seq<Block>, ts': seq<Token>, ins': set<nat>,
                    strstart': nat, len': nat, start': int, held': bool)
    returns (parts': seq<seq<Token>>)
    requires !c.lazy && e.Step? && e.text == hist
    requires Trace(c, bits, hist, events, parts, sent, ts, e.base, e.ins, e.strstart, len, start, held)
    requires Table(e.win, e.head, e.prev, hist, e.base, e.ins, e.strstart + e.lookahead, e.strstart, bits)
    requires MIN_LOOKAHEAD <= |e.prev| && 1 <= e.lookahead
    requires GreedyFind(c, e.win, e.head, e.prev, bits, e.strstart, e.lookahead, e.len, e.start)
    requires e.ins <= ins' && (e.lookahead >= MIN_MATCH ==> e.strstart in ins') && Sent(sent, ts + more, sent', ts')
    requires if e.len >= MIN_MATCH then more == [Match(e.len, Dist(e.strstart, e.start))] && strstart' == e.strstart + e.len
             else more == ByteAt(hist, e.base + e.strstart) && strstart' == e.strstart + 1
    ensures Trace(c, bits, hist, events + [e], parts', sent', ts', e.base, ins', strstart', len', start', held')
  {
    hide Followed, InBlocks, Sent, LazyFind, GreedyFind, Table, Known, Run;
    OneMore(c, bits, hist, events, e);
    parts' := InBlocksMore(Run(c.lazy, events).tokens, more, parts, sent, ts, sent', ts');
    AllKnown(events, e, e.base, e.ins, ins');
  }

  lemma AllKnown(events: seq<Event>, e: Event, base: nat, ins: set<nat>, ins': set<nat>)
    requires forall i :: 0 <= i < |events| ==> Known(events[i], base, ins)
    requires e.Step? && e.base == base && ins <= ins' && (e.lookahead >= MIN_MATCH ==> e.strstart in ins')
    ensures forall i :: 0 <= i < |events + [e]| ==> Known((events + [e])[i], base, ins')
  {
  }

  /** The end of the input: the byte held back goes out. */
  lemma TraceLast(c: Config, bits: nat, hist: seq<byte>, events: seq<Event>, parts: seq<seq<Token>>, sent: seq<Block>, ts: seq<Token>,
                  base: nat, ins: set<nat>, strstart: nat, len: nat, start: int, held: bool, sent': seq<Block>, ts': seq<Token>)
    returns (parts': seq<seq<Token>>)
    requires Trace(c, bits, hist, events, parts, sent, ts, base, ins, strstart, len, start, held) && c.lazy
    requires Sent(sent, ts + (if held then ByteAt(hist, base + strstart - 1) else []), sent', ts')
    ensures Trace(c, bits, hist, events + [Last(hist)], parts', sent', ts', base, ins, strstart, 2, start, false)
  {
    hide Followed, InBlocks, Sent, LazyFind, GreedyFind, Table, Run;
    OneMore(c, bits, hist, events, Last(hist));
    parts' := InBlocksMore(Run(c.lazy, events).tokens, if held then ByteAt(hist, base + strstart - 1) else [], parts, sent, ts, sent', ts');
  }

  // ---------- what a decision has looked at ----------

  /** A decision for which a search is made finds the longest match with any string in
      reach that was inserted before, if the chain is not cut short: nothing repeats
      more of the input than what was found or the match before it, unless what was
      found is nice enough or all the input there is. */
  lemma NothingMissed(c: Config, bits: nat, hist: seq<byte>, before: seq<Event>, e: Event, p: nat, len: nat)
    requires c.lazy && Genuine(c, bits, hist, before, e) && e.Step? && e.lookahead >= MIN_MATCH && e.prevLength < c.maxLazy
    requires p in e.ins && Horizon(e.strstart, |e.prev|) < p < e.strstart && e.strstart + e.lookahead <= |e.win|
    requires MIN_MATCH <= len <= e.lookahead && len <= MAX_MATCH && Same(e.win, p, e.strstart, len)
    requires |Nearer(e.win, e.ins, p, e.strstart - 1, KeyAt(e.win, e.strstart, bits), bits)| < Tries(c.maxChain, c.goodMatch, e.prevLength)
    ensures || len <= e.found || len <= e.prevLength
            || (e.found > e.prevLength && (e.found >= c.niceMatch || e.found == e.lookahead))
  {
    hide Chains, Key, KeyAt, Link, Same, Horizon, Visited, NoneLonger, GoodMatch, Holds, Known, Run;
    var n, key, ins' := |e.prev|, KeyAt(e.win, e.strstart, bits), e.ins + {e.strstart};
    var first := e.head[key];
    InsertKeeps(e.win, e.head, e.prev, e.ins, bits, e.strstart);
    Keep(e.win, e.ins, e.strstart, first, key, bits, e.strstart);
    FirstInReach(e.win, e.ins, first, key, bits, e.strstart, p, len, n);
    SameStrings(e.win, e.ins, e.strstart, p, key, bits);
    if !(e.found > e.prevLength && (e.found >= c.niceMatch || e.found == e.lookahead)) {
      var best := if e.found > e.prevLength then e.found else e.prevLength;
      LongestOfAll(e.win, e.head[key := e.strstart], e.prev[e.strstart % n := first], ins', bits, first, e.strstart, e.lookahead,
                   Tries(c.maxChain, c.goodMatch, e.prevLength), best, p, len);
    }
  }

  /** The head of the chain is no earlier than a string that matches. */
  lemma FirstInReach(win: seq<byte>, ins: set<nat>, first: nat, key: nat, bits: nat, strstart: nat, p: nat, len: nat, wSize: nat)
    requires strstart + 2 < |win| && strstart + len <= |win| && key == KeyAt(win, strstart, bits) && Link(win, ins, first, key, bits, strstart)
    requires MIN_LOOKAHEAD <= wSize && p in ins && Horizon(strstart, wSize) < p < strstart && MIN_MATCH <= len && Same(win, p, strstart, len)
    ensures first != NIL && Horizon(strstart, wSize) < first < strstart && strstart - first <= MaxDist(wSize)
  {
    hide Key;
    SameAt(win, p, strstart, len, 0);
    SameAt(win, p, strstart, len, 1);
    SameAt(win, p, strstart, len, 2);
  }

  lemma SameStrings(win: seq<byte>, ins: set<nat>, strstart: nat, p: nat, key: nat, bits: nat)
    ensures strstart > 0 ==>
              Nearer(win, ins + {strstart}, p, strstart - 1, key, bits) == Nearer(win, ins, p, strstart - 1, key, bits)
  {
  }
}
