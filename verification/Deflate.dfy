/** deflate() of deps/zlib/deflate.c for raw streams: greedy and lazy matching
    over a sliding window. */
module Deflate {
  import opened Bits
  import opened Tokens
  import opened HashKeys
  import opened HashChain
  import BlockTrees
  import opened BitWriter
  import StaticTables
  import TokenSender
  import opened BlockStream
  import opened BlockCoder
  import opened DeflateHistory
  import opened Emission
  import opened Matching

  datatype Flush = NoFlush | PartialFlush | SyncFlush | FullFlush | Finish | BlockFlush
  datatype Return = Z_OK | Z_STREAM_END | Z_BUF_ERROR | Z_STREAM_ERROR
  datatype BlockState = NeedMore | BlockDone | FinishStarted | FinishDone

  /** RANK(f) */
  function Rank(f: Flush): int
  {
    match f case NoFlush => 0 case PartialFlush => 2 case SyncFlush => 4 case FullFlush => 6 case Finish => 8 case BlockFlush => 1
  }

  /** The flushes that end with a marker. */
  predicate Marks(flush: Flush) { flush in {PartialFlush, SyncFlush, FullFlush} }

  class DeflateStream {
    const wSize: nat
    const hashBits: nat
    const config: Config
    const window: array<byte>
    const head: array<nat>
    const prev: array<nat>
    const coder: Coder
    // window and hash
    var strstart: nat
    var lookahead: nat
    var insert: nat
    var insH: nat
    var highWater: nat
    var blockStart: int
    // matching
    var matchLength: nat
    var matchStart: int
    var prevLength: nat
    var prevMatch: int
    var matchAvailable: bool
    // the caller's buffers
    var input: seq<byte>
    var nextIn: nat
    var put: seq<byte>
    var availOut: nat
    var lastRank: int  // of the last flush parameter
    var finishing: bool // status == FINISH_STATE
    var overrun: bool   // the model has stopped
    // all input so far, where the window begins in it, and the inserted strings
    ghost var hist: seq<byte>
    ghost var base: nat
    ghost var ins: set<nat>
    // where the last full flush was
    ghost var restart: Restart
    // the decisions of the matcher, and the tokens of each block
    ghost var events: seq<Event>
    ghost var parts: seq<seq<Token>>
    // the block that overtook its tokens
    ghost var culprit: Block
    ghost var culpritBits: nat

    ghost predicate Made()
    {
      && HashBits(hashBits) && 512 <= wSize <= WSIZE && config.maxChain < 0x1_0000_0000
      && window.Length == 2 * wSize && prev.Length == wSize && head.Length == Pow2(hashBits) && head != prev
      && head !in coder.Arrays() && prev !in coder.Arrays() && window != coder.sink.buf && coder.reach == MaxDist(wSize)
    }

    /** Window, hash table and input fit together; strings below top are inserted. */
    ghost predicate DictTo(top: nat)
      reads `strstart, `lookahead, `insert, `insH, `highWater, `input, `nextIn, `hist, `base, `ins, `restart, window, head, prev
    {
      && insert <= strstart && insert < MIN_MATCH && insH < Pow2(hashBits) && highWater <= window.Length && nextIn <= |input|
      && |restart.text| <= base && Table(window[..], head[..], prev[..], hist, base, ins, strstart + lookahead, top, hashBits)
    }

    ghost predicate Dict()
      reads `strstart, `lookahead, `insert, `insH, `highWater, `input, `nextIn, `hist, `base, `ins, `restart, window, head, prev
    {
      insert <= strstart && DictTo(strstart - insert)
    }

    /** The string at strstart has been inserted if there are bytes enough. */
    ghost predicate Inserted()
      reads `strstart, `lookahead, `insert, `insH, `highWater, `input, `nextIn, `hist, `base, `ins, `restart, window, head, prev
    {
      if lookahead < MIN_MATCH then Dict()
      else DictTo(strstart + 1) && insert == 0 && PrimedAt(window[..], strstart + 1, insH, hashBits)
    }

    /** The running key is that of the current string. */
    ghost predicate Keyed()
      reads `strstart, `lookahead, `insert, `insH, window
    {
      Hashed(window[..], strstart, lookahead, insert, insH, hashBits)
    }

    /** What is not pending has been handed out. */
    ghost predicate Handed()
      reads `put, `restart, coder.sink
    {
      && coder.sink.count <= |coder.sink.written| && put == coder.sink.written[..|coder.sink.written| - coder.sink.count]
      && restart.bytes <= coder.sink.written && OnByte(restart)
    }

    /** Nothing is pending. */
    predicate Drained()
      reads coder.sink
    {
      coder.sink.count == 0
    }

    /** The output of a block has overtaken its tokens; nothing is known of the rest.
        With the fixed codes this takes a window that is not the smallest. */
    ghost predicate Lost()
      reads `overrun, `culprit, `culpritBits
    {
      && overrun && Sendable(culprit) && culpritBits <= 16 && !BlockIntact(culprit, coder.litBufsize, culpritBits)
      && (config.fixed ==> MaxDist(wSize) > 256)
    }

    /** What has been emitted stands for the first at bytes of the input. */
    ghost predicate Out(at: nat)
      reads coder, coder.sink, coder.sink.buf, coder.w.lfc, coder.w.dfc, coder.w.bfc, `blockStart, `put, `hist, `base, `restart
    {
      && coder.Valid() && !coder.finished && Handed()
      && Emitted(coder.sent, coder.Tokens(), hist, at, base + blockStart, restart)
    }

    /** All tokens come from decisions of the matcher, one for each string in its turn,
        by a search among the strings before it. */
    ghost predicate Traced()
      reads `events, `parts, `hist, `base, `ins, `strstart, `matchLength, `matchStart, `matchAvailable, coder`sent, coder`lastLit, coder.sink.buf
    {
      Trace(config, hashBits, hist, events, parts, coder.sent, coder.Tokens(), base, ins, strstart, matchLength, matchStart, matchAvailable)
    }

    /** There is room for one more token before a flush. */
    predicate Spare()
      reads coder
    {
      coder.lastLit + 1 < coder.litBufsize
    }

    /** deflateInit2() for a raw stream, and lm_init(). */
    constructor (wSize: nat, hashBits: nat, litBufsize: nat, config: Config)
      requires HashBits(hashBits) && 512 <= wSize <= WSIZE && 128 <= litBufsize <= 32768 && config.maxChain < 0x1_0000_0000 && config.level > 0
      ensures Session() && hist == [] && put == []
    {
      hide Pow2, Table, HashBits, Emitted, OnByte, Primed, Coder.Ready, Coder.Wrote, Coder.Tokens, Trace;
      this.wSize, this.hashBits, this.config := wSize, hashBits, config;
      var c := new Coder(litBufsize, MaxDist(wSize));
      var w, h, p := NewTables(wSize, hashBits);
      coder, window, head, prev := c, w, h, p;
      strstart, lookahead, insert, insH, highWater, blockStart := 0, 0, 0, 0, 0, 0;
      matchLength, matchStart, prevLength, prevMatch, matchAvailable := 2, 0, 2, 0, false;
      input, nextIn, put, availOut, lastRank, finishing, overrun := [], 0, [], 0, 0, false, false;
      hist, base, ins, restart, events, parts := [], 0, {}, Restart([], [], []), [], [];
      new;
      TableStarts(window[..], head[..], prev[..], hashBits);
      NothingEmitted();
      TraceStarts(config, hashBits);
    }

    // ---------- filling the window ----------

    method SlideWindow()
      requires Made() && Dict() && strstart >= wSize + MaxDist(wSize)
      modifies `strstart, `matchStart, `blockStart, `base, `ins, window, head, prev
      ensures Dict() && (old(Keyed()) ==> Keyed()) && strstart == old(strstart) - wSize && base == old(base) + wSize
      ensures matchStart == old(matchStart) - wSize && blockStart == old(blockStart) - wSize
      ensures Keeps(old(ins), old(base), ins, base)
    {
      hide Table, HashBits, Hashed, Pow2, SlidAll, SlidSet;
      ghost var win, head0, prev0 := window[..], head[..], prev[..];
      TableFacts(win, head0, prev0, hist, base, ins, strstart + lookahead, strstart - insert, hashBits);
      SlideArrays(window, head, prev);
      TableSlides(win, window[..], head0, prev0, hist, base, ins, strstart + lookahead, strstart - insert, hashBits);
      HashedSlides(win, window[..], wSize, strstart, lookahead, insert, insH, hashBits);
      matchStart := matchStart - wSize;
      strstart := strstart - wSize;
      blockStart := blockStart - wSize;
      ins := SlidSet(ins, wSize);
      base := base + wSize;
    }

    /** read_buf() and the hash of what has been read. */
    method ReadMore(more: nat)
      requires Made() && Dict() && strstart + lookahead + more <= window.Length
      modifies `lookahead, `insert, `insH, `nextIn, `hist, `ins, window, head, prev
      ensures Dict() && Keyed() && nextIn >= old(nextIn) && hist == old(hist) + input[old(nextIn)..nextIn]
      ensures lookahead == old(lookahead) + (nextIn - old(nextIn)) && old(ins) <= ins
      ensures nextIn - old(nextIn) == if |input| - old(nextIn) > more then more else |input| - old(nextIn)
    {
      hide Table, HashBits, Hashed, Pow2;
      ghost var win, end, top := window[..], strstart + lookahead, strstart - insert;
      var n := ReadBuf(window, strstart + lookahead, input, nextIn, more);
      ghost var read := input[nextIn..nextIn + n];
      assert win[..end] == old(window[..end]);
      TableGrows(win, window[..], head[..], prev[..], hist, read, base, ins, end, top, hashBits);
      hist := hist + read;
      nextIn := nextIn + n;
      lookahead := lookahead + n;
      Prime();
    }

    method Prime()
      requires Made() && Dict()
      modifies `insert, `insH, `ins, head, prev
      ensures Dict() && Keyed() && old(ins) <= ins
    {
      hide Table, HashBits, Pow2;
      var h, i;
      ghost var s;
      h, i, s := InsertPending(window, head, prev, insH, strstart, lookahead, insert, hashBits, hist, base, ins);
      insH := h;
      insert := i;
      ins := s;
    }

    /** fill_window() */
    method FillWindow()
      requires Made() && Dict() && lookahead < MIN_LOOKAHEAD
      modifies `strstart, `lookahead, `insert, `insH, `highWater, `matchStart, `blockStart, `nextIn, `hist, `base, `ins, window, head, prev
      ensures Dict() && (old(Keyed()) ==> Keyed()) && strstart + MIN_LOOKAHEAD <= window.Length && (old(strstart) > 0 ==> strstart > 0)
      ensures base + strstart == old(base + strstart) && base + matchStart == old(base + matchStart) &&
              base + blockStart == old(base + blockStart)
      ensures nextIn >= old(nextIn) && hist == old(hist) + input[old(nextIn)..nextIn] && lookahead >= old(lookahead)
      ensures lookahead >= MIN_LOOKAHEAD || nextIn == |input|
      ensures Keeps(old(ins), old(base), ins, base)
    {
      hide Dict, Keyed, HashBits, Pow2, Keeps;
      Room();
      ghost var hist0, next0 := hist, nextIn;
      ghost var keyed := Keyed();
      NoneRead(hist, input, nextIn);
      KeepsSame(ins, base);
      var more := true;
      while more
        invariant Dict() && (keyed ==> Keyed()) && next0 <= nextIn <= |input| && hist == hist0 + input[next0..nextIn]
        invariant lookahead >= old(lookahead) && (more ==> lookahead < MIN_LOOKAHEAD)
        invariant base + strstart == old(base + strstart) && base + matchStart == old(base + matchStart)
        invariant Keeps(old(ins), old(base), ins, base)
        invariant base + blockStart == old(base + blockStart) && (old(strstart) > 0 ==> strstart > 0)
        invariant !more ==> strstart + MIN_LOOKAHEAD <= window.Length && (lookahead >= MIN_LOOKAHEAD || nextIn == |input|)
        decreases |input| - nextIn, more
      {
        ghost var next1, ins1, base1 := nextIn, ins, base;
        more := ReadOnce();
        KeepsTrans(old(ins), old(base), ins1, base1, ins, base);
        AllRead(hist0, input, next0, next1, nextIn);
      }
      KeepData();
    }

    /** One round of fill_window(): slide if the upper half is full, and read. */
    method ReadOnce() returns (more: bool)
      requires Made() && Dict() && lookahead < MIN_LOOKAHEAD
      modifies `strstart, `lookahead, `insert, `insH, `matchStart, `blockStart, `nextIn, `hist, `base, `ins, window, head, prev
      ensures Dict() && (old(Keyed()) ==> Keyed()) && lookahead >= old(lookahead) && (old(strstart) > 0 ==> strstart > 0)
      ensures base + strstart == old(base + strstart) && base + matchStart == old(base + matchStart) &&
              base + blockStart == old(base + blockStart)
      ensures old(nextIn) <= nextIn <= |input| && hist == old(hist) + input[old(nextIn)..nextIn]
      ensures strstart + MIN_LOOKAHEAD <= window.Length && Keeps(old(ins), old(base), ins, base)
      ensures if more then lookahead < MIN_LOOKAHEAD && nextIn > old(nextIn) else lookahead >= MIN_LOOKAHEAD || nextIn == |input|
    {
      hide Dict, Keyed, HashBits, Pow2;
      Room();
      ghost var ins0, base0 := ins, base;
      if strstart >= wSize + MaxDist(wSize) {
        SlideWindow();
      }
      Room();
      ghost var ins1, base1 := ins, base;
      if nextIn == |input| {
        NoneRead(hist, input, nextIn);
        return false;
      }
      ReadMore(window.Length - lookahead - strstart);
      KeepsTrans(ins0, base0, ins1, base1, ins, base);
      Room();
      more := lookahead < MIN_LOOKAHEAD && nextIn != |input|;
    }

    lemma Room()
      requires Made() && Dict()
      ensures nextIn <= |input| && strstart + lookahead <= window.Length && |hist| == base + strstart + lookahead
    {
      hide Chains;
    }

    /** Bytes beyond the data are zeroed once; this changes no data. */
    method KeepData()
      requires Made() && Dict()
      modifies `highWater, window
      ensures Dict() && (old(Keyed()) ==> Keyed())
    {
      hide Table, HashBits, Pow2, Hashed;
      Room();
      ghost var win, end := window[..], strstart + lookahead;
      var h := ZeroAhead(window, strstart + lookahead, highWater);
      assert window[..end] == win[..end] + [];
      TableGrows(win, window[..], head[..], prev[..], hist, [], base, ins, end, strstart - insert, hashBits);
      assert hist + [] == hist;
      HashedSame(win, window[..], strstart, lookahead, insert, insH, hashBits);
      highWater := h;
    }

    // ---------- emitting ----------

    /** fill_window() does not change what has been emitted. */
    method Refill(ghost at: nat)
      requires Made() && Dict() && Keyed() && Out(at) && lookahead < MIN_LOOKAHEAD
      modifies `strstart, `lookahead, `insert, `insH, `highWater, `matchStart, `blockStart, `nextIn, `hist, `base, `ins, window, head, prev
      ensures Dict() && Keyed() && Out(at) && strstart + MIN_LOOKAHEAD <= window.Length && (old(strstart) > 0 ==> strstart > 0)
      ensures base + strstart == old(base + strstart) && base + matchStart == old(base + matchStart)
      ensures nextIn >= old(nextIn) && hist == old(hist) + input[old(nextIn)..nextIn] && lookahead >= old(lookahead)
      ensures lookahead >= MIN_LOOKAHEAD || nextIn == |input|
      ensures Keeps(old(ins), old(base), ins, base)
    {
      hide Keeps, Dict, Keyed, HashBits, Pow2, Emitted, OnByte, Coder.Ready, Coder.Wrote, Coder.Tokens;
      ghost var hist0 := hist;
      FillWindow();
      EmittedGrows(coder.sent, coder.Tokens(), hist0, hist, at, base + blockStart, restart);
    }

    /** The stream is none of the objects of its coder. */
    lemma Apart()
      ensures var parts: set<object> := {coder, coder.sink, coder.sink.buf, coder.w.lfc, coder.w.dfc, coder.w.bfc};
              this !in parts
    {
    }

    /** flush_pending(): hand out as much output as there is room for. */
    method FlushPending()
      requires coder.Valid() && Handed() && coder.lastLit == 0
      modifies `put, `availOut, coder.sink, coder.sink.buf
      ensures coder.Valid() && Handed() && old(put) <= put && |put| - |old(put)| == old(availOut) - availOut
      ensures availOut == 0 || Drained()
      ensures old(coder.sink.biValid) < 8 ==> coder.sink.biValid == old(coder.sink.biValid) && coder.sink.written == old(coder.sink.written)
    {
      hide Coder.Valid, OnByte;
      var bytes := coder.TakeOutput(availOut);
      Apart();
      put := put + bytes;
      availOut := availOut - |bytes|;
    }

    /** FLUSH_BLOCK_ONLY(s, last): one block for all tokens so far. */
    method FlushBlockOnly(last: bool)
      requires Made() && Holds(window[..], hist, base, strstart + lookahead) && Out(base + strstart) && Drained() && !overrun
      requires config.level > 0 && (0 <= blockStart ==> strstart - blockStart <= 0xFFFF)
      modifies `blockStart, `put, `availOut, `overrun, `culprit, `culpritBits, coder, coder.sink, coder.sink.buf, coder.Arrays()
      ensures old(put) <= put && |put| - |old(put)| == old(availOut) - availOut
      ensures overrun ==> Lost()
      ensures !overrun ==> coder.Valid() && coder.finished == last && Handed() && coder.lastLit == 0 && blockStart == strstart
      ensures !overrun ==> Emitted(coder.sent, coder.Tokens(), hist, base + strstart, base + strstart, restart)
      ensures !overrun ==> (availOut == 0 || Drained()) && (!last ==> Out(base + strstart))
      ensures !overrun ==> OneBlock(old(coder.sent), old(coder.Tokens()), coder.sent) && coder.Tokens() == []
    {
      hide HashBits, Pow2, Emitted, OnByte, Coder.Valid, Holds, Made, Lost;
      Apart();
      HoldsFacts(window[..], hist, base, strstart + lookahead);
      BlockPlace(coder.sent, coder.Tokens(), hist, base + strstart, base + blockStart, restart);
      var buf := if blockStart >= 0 then Kept(window[blockStart..strstart]) else Gone;
      if blockStart >= 0 { WindowData(window[..], hist, base, strstart, lookahead, blockStart); }
      SendBlock(buf, last);
      if overrun { return; }
      blockStart := strstart;
      FlushPending();
      coder.NoTokens();
    }

    /** _tr_flush_block() on the tokens and the bytes that they stand for. */
    method SendBlock(buf: Buffer, last: bool)
      requires Made() && Out(base + strstart) && Drained() && !overrun && config.level > 0
      requires buf.Kept? ==> 0 <= blockStart && |buf.data| <= 0xFFFF && |hist| >= base + strstart >= base + blockStart &&
                             hist[..base + strstart] == hist[..base + blockStart] + buf.data
      modifies `overrun, `culprit, `culpritBits, coder, coder.sink, coder.sink.buf, coder.Arrays()
      ensures overrun ==> Lost()
      ensures !overrun ==> coder.Valid() && coder.finished == last && Handed() && coder.lastLit == 0
      ensures !overrun ==> Emitted(coder.sent, coder.Tokens(), hist, base + strstart, base + strstart, restart)
      ensures !overrun ==> OneBlock(old(coder.sent), old(coder.Tokens()), coder.sent) && coder.Tokens() == []
    {
      hide HashBits, Pow2, Emitted, OnByte, Coder.Valid, Choice, BlockIntact, Sendable, Made;
      Apart();
      ghost var sent0, ts, from, written0 := coder.sent, coder.Tokens(), base + blockStart, coder.sink.written;
      BlockPlace(sent0, ts, hist, base + strstart, from, restart);
      MadeReach();
      coder.FewBits();
      culpritBits := coder.sink.biValid;
      HandedSize(coder.sink);
      var intact;
      ghost var b, tr;
      intact, b, tr := coder.FlushBlock(buf, last, config.level, config.fixed);
      HandedSize(coder.sink);
      SamePrefix(written0, coder.sink.written, |put|);
      culprit, overrun := b, !intact;
      if intact {
        ChosenBlock(b, buf, config.fixed, ts, tr);
        BlockEmitted(sent0, ts, hist, base + strstart, from, restart, b);
      }
    }

    lemma MadeReach()
      requires Made()
      ensures coder.reach == MaxDist(wSize)
    {
    }

    /** if (bflush) FLUSH_BLOCK_ONLY(s, 0) */
    method FlushFull(full: bool)
      requires Made() && Data() && Out(base + strstart) && full == !Spare() && config.level > 0 && Drained() && !overrun
      requires strstart + lookahead <= window.Length && strstart + 4 <= window.Length
      modifies `blockStart, `put, `availOut, `overrun, `culprit, `culpritBits, coder, coder.sink, coder.sink.buf, coder.Arrays()
      ensures old(put) <= put && |put| - |old(put)| == old(availOut) - availOut
      ensures overrun ==> Lost()
      ensures !overrun ==> Out(base + strstart) && Spare() && (availOut == 0 || Drained()) && (!full ==> Drained())
      ensures !overrun ==> Sent(old(coder.sent), old(coder.Tokens()), coder.sent, coder.Tokens())
    {
      hide HashBits, Pow2, Emitted, OnByte, Holds, Lost, Out, Coder.Valid, Handed, Coder.Tokens, OneBlock;
      if full {
        FlushBlockOnly(false);
        if overrun { return; }
        coder.Sizes();
      }
    }

    /** if (bflush) FLUSH_BLOCK(s, 0) */
    method FlushIf(full: bool) returns (stop: bool)
      requires Made() && Dict() && Out(base + strstart) && full == !Spare() && config.level > 0 && Drained() && !overrun
      requires strstart + 4 <= window.Length
      modifies `blockStart, `put, `availOut, `overrun, `culprit, `culpritBits, coder, coder.sink, coder.sink.buf, coder.Arrays()
      ensures old(put) <= put && |put| - |old(put)| == old(availOut) - availOut
      ensures overrun ==> Lost() && stop
      ensures !overrun ==> Out(base + strstart) && Spare() && (if stop then availOut == 0 else Drained())
      ensures !overrun ==> Sent(old(coder.sent), old(coder.Tokens()), coder.sent, coder.Tokens())
    {
      hide Dict, Made, Data, Lost, Out, HashBits, Sent, Coder.Tokens;
      DictData();
      Room();
      FlushFull(full);
      stop := overrun || (full && availOut == 0);
    }

    method TallyLiteral(c: byte, ghost at: nat) returns (full: bool)
      requires Made() && Out(at) && Spare() && Drained() && at < |hist| && hist[at] == c
      modifies coder`lastLit, coder`matches, coder.sink.buf, coder.w.lfc, coder.w.dfc
      ensures Out(at + 1) && full == !Spare() && coder.Tokens() == old(coder.Tokens()) + [Literal(c)]
    {
      hide Emitted, OnByte, Coder.Ready, Coder.Wrote, Coder.Tokens, Pow2;
      LiteralEmitted(coder.sent, coder.Tokens(), hist, at, base + blockStart, restart);
      full := coder.Tally(0, c);
    }

    method TallyMatch(dist: nat, len: nat, ghost at: nat) returns (full: bool)
      requires Made() && Out(at) && Spare() && Drained() && Pending(hist, at, dist, len, wSize, |restart.text|) && 3 <= len
      modifies coder`lastLit, coder`matches, coder.sink.buf, coder.w.lfc, coder.w.dfc
      ensures Out(at + len) && full == !Spare() && coder.Tokens() == old(coder.Tokens()) + [Token.Match(len, dist)]
    {
      hide Emitted, OnByte, Coder.Ready, Coder.Wrote, Coder.Tokens, Pow2, Repeats;
      PendingRange(hist, at, dist, len, wSize, |restart.text|);
      MatchEmitted(coder.sent, coder.Tokens(), hist, at, base + blockStart, restart, dist, len, wSize);
      full := coder.Tally(dist, len - 3);
    }

    // ---------- lazy matching ----------

    /** INSERT_STRING(s, s->strstart, hash_head) */
    method InsertHere() returns (hashHead: nat)
      requires Made() && Dict() && Keyed() && lookahead >= MIN_MATCH
      modifies `insH, `ins, head, prev
      ensures Inserted() && ins == old(ins) + {strstart}
      ensures Entered(window[..], old(head[..]), old(prev[..]), head[..], prev[..], hashBits, strstart, hashHead)
      ensures Link(window[..], ins, hashHead, KeyAt(window[..], strstart, hashBits), hashBits, strstart)
    {
      hide Table, HashBits, Pow2, PrimedAt, KeyAt, Link;
      Room();
      var h;
      ghost var s;
      h, hashHead, s := InsertString(window, head, prev, insH, strstart, hashBits, hist, base, ins, strstart + lookahead);
      insH := h;
      ins := s;
    }

    /** longest_match(s, hash_head), for a current string that has been inserted. */
    method Search(hashHead: nat)
      requires Made() && Inserted() && lookahead >= MIN_MATCH && strstart + MIN_LOOKAHEAD <= window.Length
      requires 2 <= prevLength <= MAX_MATCH
      requires hashHead != NIL && hashHead in ins && hashHead < strstart && strstart - hashHead <= MaxDist(wSize)
      requires KeyAt(window[..], hashHead, hashBits) == KeyAt(window[..], strstart, hashBits)
      modifies `matchLength, `matchStart
      ensures 2 <= matchLength <= lookahead
      ensures matchLength > prevLength ==> Pending(hist, base + strstart, strstart - matchStart, matchLength, wSize, |restart.text|)
      ensures Searched(window[..], prev[..], hashHead, strstart, lookahead, prevLength, config.maxChain, config.goodMatch,
                       config.niceMatch, matchLength, matchStart)
    {
      hide Table, HashBits, Pow2, PrimedAt, KeyAt, Chains, Repeats, GoodMatch, NoneLonger, Visited;
      TableFacts(window[..], head[..], prev[..], hist, base, ins, strstart + lookahead, strstart + 1, hashBits);
      var r, start := LongestMatch(window, prev, hashHead, strstart, lookahead, prevLength, matchStart, config.maxChain,
                                   config.goodMatch, config.niceMatch, head[..], ins, hashBits);
      if r > prevLength {
        GoodPending(window[..], hist, base, strstart + lookahead, strstart, start, r, wSize, |restart.text|);
      }
      matchLength, matchStart := r, start;
    }

    /** One decision of deflate_slow(): insert the string and look for a match that
        is longer than the one at the previous string. */
    method FindSlow() returns (ghost found: nat)
      requires Made() && Dict() && Keyed() && strstart + MIN_LOOKAHEAD <= window.Length
      requires Waiting(hist, base + strstart, lookahead, matchLength, strstart - 1 - matchStart, matchAvailable, wSize, |restart.text|)
      modifies `insH, `ins, head, prev, `prevLength, `prevMatch, `matchLength, `matchStart
      ensures Inserted() && prevLength == old(matchLength) && prevMatch == old(matchStart)
      ensures LazyFind(config, window[..], old(head[..]), old(prev[..]), hashBits, strstart, lookahead, prevLength, found, matchLength,
                       matchStart)
      ensures ins == if lookahead >= MIN_MATCH then old(ins) + {strstart} else old(ins)
      ensures Waiting(hist, base + strstart, lookahead, prevLength, strstart - 1 - prevMatch, matchAvailable, wSize, |restart.text|)
      ensures 2 <= matchLength
      ensures matchLength > prevLength ==>
                matchLength <= lookahead && Pending(hist, base + strstart, strstart - matchStart, matchLength, wSize, |restart.text|)
    {
      hide Table, HashBits, Pow2, PrimedAt, KeyAt, Pending, Link, Searched, Chains;
      var hashHead := NIL;
      if lookahead >= MIN_MATCH {
        hashHead := InsertHere();
        ChainStart(window[..], ins, hashHead, strstart, hashBits);
      }
      prevLength, prevMatch := matchLength, matchStart;
      matchLength, found := MIN_MATCH - 1, 0;
      if hashHead != NIL && prevLength < config.maxLazy && strstart - hashHead <= MaxDist(wSize) {
        found := SearchWorth(hashHead);
      }
    }

    /** A short match that is far away is not worth its bits. */
    method SearchWorth(hashHead: nat) returns (ghost found: nat)
      requires Made() && Inserted() && lookahead >= MIN_MATCH && strstart + MIN_LOOKAHEAD <= window.Length
      requires 2 <= prevLength <= MAX_MATCH
      requires hashHead != NIL && hashHead in ins && hashHead < strstart && strstart - hashHead <= MaxDist(wSize)
      requires KeyAt(window[..], hashHead, hashBits) == KeyAt(window[..], strstart, hashBits)
      modifies `matchLength, `matchStart
      ensures 2 <= matchLength <= lookahead
      ensures matchLength > prevLength ==> Pending(hist, base + strstart, strstart - matchStart, matchLength, wSize, |restart.text|)
      ensures Searched(window[..], prev[..], hashHead, strstart, lookahead, prevLength, config.maxChain, config.goodMatch,
                       config.niceMatch, found, matchStart)
      ensures matchLength == if found <= 5 && (config.filtered || (found == MIN_MATCH && strstart - matchStart > TOO_FAR)) then 2 else found
    {
      hide Inserted, KeyAt, Pending, Searched, HashBits, Pow2;
      Search(hashHead);
      found := matchLength;
      if matchLength <= 5 && (config.filtered || (matchLength == MIN_MATCH && strstart - matchStart > TOO_FAR)) {
        matchLength := MIN_MATCH - 1;
      }
    }

    /** Step over the rest of an emitted match that began at the previous string,
        inserting its strings. */
    method SkipMatch()
      requires Made() && Inserted() && MIN_MATCH <= prevLength <= lookahead + 1 && 1 <= strstart
      modifies `strstart, `lookahead, `prevLength, `matchLength, `matchAvailable, `insH, `ins, head, prev
      ensures Dict() && Keyed() && strstart == old(strstart) + old(prevLength) - 1 && lookahead == old(lookahead) - (old(prevLength) - 1)
      ensures !matchAvailable && matchLength == 2
      ensures ins == old(ins) + Places(old(strstart) + 1, Upto(old(strstart) + old(prevLength) - 1, old(strstart + lookahead)))
    {
      hide Table, HashBits, Pow2, PrimedAt, Dict, Keyed, Inserted;
      PassRest(prevLength);
      prevLength, matchAvailable, matchLength := 0, false, MIN_MATCH - 1;
    }

    method PassRest(length: nat)
      requires Made() && Inserted() && MIN_MATCH <= length <= lookahead + 1 && 1 <= strstart
      modifies `strstart, `lookahead, `insH, `ins, head, prev
      ensures Dict() && Keyed() && strstart == old(strstart) + length - 1 && lookahead == old(lookahead) - (length - 1)
      ensures ins == old(ins) + Places(old(strstart) + 1, Upto(old(strstart) + length - 1, old(strstart + lookahead)))
    {
      hide Table, HashBits, Pow2, PrimedAt, Dict, Keyed, Inserted;
      InsertedFacts();
      ghost var end, top := strstart + lookahead, if lookahead < MIN_MATCH then strstart - insert else strstart + 1;
      var maxInsert := strstart + lookahead - MIN_MATCH;
      lookahead := lookahead - (length - 1);
      top := SkipStrings(length - 2, maxInsert, end, top);
      AfterMatch(end, top);
    }

    lemma InsertedFacts()
      requires Inserted()
      ensures insert <= strstart && insert < MIN_MATCH && insH < Pow2(hashBits) && highWater <= window.Length && nextIn <= |input|
      ensures |restart.text| <= base
      ensures Table(window[..], head[..], prev[..], hist, base, ins, strstart + lookahead,
                    if lookahead < MIN_MATCH then strstart - insert else strstart + 1, hashBits)
      ensures lookahead >= MIN_MATCH ==> insert == 0 && PrimedAt(window[..], strstart + 1, insH, hashBits)
    {
      hide Table, HashBits, Pow2, PrimedAt;
    }

    /** On to the string after the match. */
    method AfterMatch(ghost end: nat, ghost top: nat)
      requires Made() && insert <= strstart && insert < MIN_MATCH && highWater <= window.Length && nextIn <= |input|
      requires |restart.text| <= base && end == strstart + 1 + lookahead && top <= strstart + 1 - insert && insH < Pow2(hashBits)
      requires Table(window[..], head[..], prev[..], hist, base, ins, end, top, hashBits)
      requires lookahead >= MIN_MATCH ==> insert == 0 && PrimedAt(window[..], strstart + 1, insH, hashBits)
      modifies `strstart
      ensures Dict() && Keyed() && strstart == old(strstart) + 1
    {
      hide Table, HashBits, Pow2, PrimedAt;
      strstart := strstart + 1;
      TableTop(window[..], head[..], prev[..], hist, base, ins, end, top, strstart - insert, hashBits);
    }

    method SkipStrings(count: nat, maxInsert: nat, ghost end: nat, ghost top: nat) returns (ghost top': nat)
      requires Made() && count > 0 && maxInsert + 3 == end && insH < Pow2(hashBits) && (strstart <= maxInsert ==> top == strstart + 1)
      requires Table(window[..], head[..], prev[..], hist, base, ins, end, top, hashBits)
      requires strstart <= maxInsert ==> PrimedAt(window[..], strstart + 1, insH, hashBits)
      modifies `strstart, `insH, `ins, head, prev
      ensures strstart == old(strstart) + count && insH < Pow2(hashBits)
      ensures top' == (if old(strstart) <= maxInsert then strstart + 1 else top)
      ensures Table(window[..], head[..], prev[..], hist, base, ins, end, top', hashBits)
      ensures strstart <= maxInsert ==> PrimedAt(window[..], strstart + 1, insH, hashBits)
      ensures ins == old(ins) + Places(old(strstart) + 1, Upto(strstart + 1, end))
    {
      hide Table, HashBits, Pow2, PrimedAt;
      var str, h;
      ghost var s;
      str, h, s := InsertRun(window, head, prev, insH, strstart, count, maxInsert, hashBits, hist, base, ins, end, top);
      top' := if strstart <= maxInsert then str + 1 else top;
      strstart, insH, ins := str, h, s;
    }

    /** The state at the head of the loop of deflate_slow(): what has been emitted
        stands for all input up to strstart, but for a byte that is held back. */
    ghost predicate LazyHead()
      reads `strstart, `lookahead, `insert, `insH, `highWater, `blockStart, `matchLength, `matchStart, `prevLength, `matchAvailable, `input,
            `nextIn, `put, `hist, `base, `ins, `restart, `overrun, window, head, prev, coder, coder.sink, coder.sink.buf, coder.w.lfc, coder.w.dfc, coder.w.bfc
    {
      && Made() && Dict() && Keyed() && Spare() && config.level > 0 && !overrun
      && Waiting(hist, base + strstart, lookahead, matchLength, strstart - 1 - matchStart, matchAvailable, wSize, |restart.text|)
      && (if matchAvailable then 1 <= strstart && Out(base + strstart - 1) else Out(base + strstart))
    }

    /** One step to the next string without emitting a match. */
    method StepOver()
      requires Made() && Inserted() && 1 <= lookahead
      modifies `strstart, `lookahead
      ensures Dict() && Keyed() && strstart == old(strstart) + 1 && lookahead == old(lookahead) - 1
    {
      hide Table, HashBits, Pow2, PrimedAt;
      TableTop(window[..], head[..], prev[..], hist, base, ins, strstart + lookahead,
               if lookahead < MIN_MATCH then strstart - insert else strstart + 1, strstart + 1 - insert, hashBits);
      strstart := strstart + 1;
      lookahead := lookahead - 1;
    }

    ghost predicate Data()
      reads `strstart, `lookahead, `hist, `base, window
    {
      Holds(window[..], hist, base, strstart + lookahead)
    }

    lemma InsertedData()
      requires Inserted()
      ensures Data() && strstart + lookahead <= |window[..]| && |hist| == base + strstart + lookahead && nextIn <= |input|
      ensures forall k :: 0 <= k < strstart + lookahead ==> window[k] == hist[base + k]
    {
      hide Chains, PrimedAt;
      TableFacts(window[..], head[..], prev[..], hist, base, ins, strstart + lookahead,
                 if lookahead < MIN_MATCH then strstart - insert else strstart + 1, hashBits);
      assert forall k :: 0 <= k < window.Length ==> window[..][k] == window[k];
    }

    /** Emit the match at the previous string. */
    method EmitWaiting() returns (stop: bool)
      requires Drained() && !overrun && Made() && Inserted() && Spare() && config.level > 0 && matchAvailable && 1 <= strstart && Out(base + strstart - 1)
      requires strstart + MIN_LOOKAHEAD <= window.Length && 3 <= prevLength <= lookahead + 1
      requires Pending(hist, base + strstart - 1, strstart - 1 - prevMatch, prevLength, wSize, |restart.text|)
      modifies `strstart, `lookahead, `prevLength, `matchLength, `matchAvailable, `insH, `ins, head, prev
      modifies `blockStart, `put, `availOut, `overrun, `culprit, `culpritBits
      modifies coder, coder.sink, coder.sink.buf, coder.Arrays()
      ensures old(put) <= put && |put| - |old(put)| == old(availOut) - availOut
      ensures if overrun then Lost() && stop else LazyHead() && (if stop then availOut == 0 else Drained())
      ensures (overrun || lookahead < old(lookahead)) && old(ins) <= ins
      ensures !overrun ==> strstart == old(strstart) + old(prevLength) - 1 && !matchAvailable && matchLength == 2
      ensures !overrun ==> Sent(old(coder.sent), old(coder.Tokens()) + [Token.Match(old(prevLength), old(strstart - 1 - prevMatch))],
                                coder.sent, coder.Tokens())
    {
      hide Dict, Keyed, Inserted, HashBits, Pow2, Emitted, OnByte, Pending,
           Lost, Out, Coder.Valid, Handed, Sent, Coder.Tokens, LazyHead, Spare, Made;
      WindowApart();
      Apart();
      var full := TakeWaiting();
      WindowRoom();
      stop := FlushIf(full);
      LazyAgain();
    }

    /** The match becomes a token, and the rest of it is stepped over. */
    method TakeWaiting() returns (full: bool)
      requires Drained() && Made() && Inserted() && Spare() && 1 <= strstart && Out(base + strstart - 1)
      requires 3 <= prevLength <= lookahead + 1
      requires Pending(hist, base + strstart - 1, strstart - 1 - prevMatch, prevLength, wSize, |restart.text|)
      modifies `strstart, `lookahead, `prevLength, `matchLength, `matchAvailable, `insH, `ins, head, prev
      modifies coder`lastLit, coder`matches, coder.sink.buf, coder.w.lfc, coder.w.dfc
      ensures Dict() && Keyed() && Out(base + strstart) && full == !Spare() && !matchAvailable && matchLength == 2
      ensures lookahead < old(lookahead) && strstart + lookahead == old(strstart + lookahead) && old(ins) <= ins
      ensures strstart == old(strstart) + old(prevLength) - 1 && old(prevLength) <= MAX_MATCH && 0 <= old(strstart - 1 - prevMatch)
      ensures coder.Tokens() == old(coder.Tokens()) + [Token.Match(old(prevLength), old(strstart - 1 - prevMatch))]
    {
      hide Dict, Keyed, Inserted, HashBits, Pow2, Emitted, OnByte, Pending, Out, Coder.Valid, Handed, Coder.Tokens, Spare;
      PendingRange(hist, base + strstart - 1, strstart - 1 - prevMatch, prevLength, wSize, |restart.text|);
      full := TallyMatch(strstart - 1 - prevMatch, prevLength, base + strstart - 1);
      SkipMatch();
    }

    lemma WindowRoom()
      requires Made() && Dict()
      ensures strstart + lookahead <= window.Length
    {
      Room();
    }

    /** With nothing held back. */
    lemma LazyAgain()
      ensures (Made() && Dict() && Keyed() && Spare() && config.level > 0 && !overrun && matchLength == 2 && !matchAvailable &&
               Out(base + strstart)) ==> LazyHead()
    {
      hide Made, Dict, Keyed, Out;
    }

    lemma DictData()
      requires Dict()
      ensures Data()
    {
      hide Chains;
    }

    /** Emit the byte held back; the current one is held back instead. */
    method EmitHeld() returns (stop: bool)
      requires Drained() && !overrun && Made() && Inserted() && Spare() && config.level > 0 && matchAvailable && 1 <= strstart && Out(base + strstart - 1)
      requires strstart + MIN_LOOKAHEAD <= window.Length && 1 <= lookahead
      requires Waiting(hist, base + strstart + 1, lookahead - 1, matchLength, strstart - matchStart, true, wSize, |restart.text|)
      modifies `strstart, `lookahead, `blockStart, `put, `availOut, `overrun, `culprit, `culpritBits
      modifies coder, coder.sink, coder.sink.buf, coder.Arrays()
      ensures old(put) <= put && |put| - |old(put)| == old(availOut) - availOut
      ensures if overrun then Lost() && stop else LazyHead() && (if stop then availOut == 0 else Drained())
      ensures !overrun ==> strstart == old(strstart) + 1 && lookahead == old(lookahead) - 1
      ensures !overrun ==> Sent(old(coder.sent), old(coder.Tokens()) + [Literal(old(window[strstart - 1]))], coder.sent, coder.Tokens())
    {
      hide Dict, Keyed, Inserted, HashBits, Pow2, Emitted, OnByte, Waiting, Holds,
           Lost, Out, Coder.Valid, Handed, Sent, Coder.Tokens, LazyHead, Spare;
      InsertedData();
      var full := TallyLiteral(window[strstart - 1], base + strstart - 1);
      FlushFull(full);
      if overrun { return true; }
      StepOver();
      stop := availOut == 0;
      LazyHeld();
    }

    /** With a byte held back. */
    lemma LazyHeld()
      ensures (Made() && Dict() && Keyed() && Spare() && config.level > 0 && !overrun && 1 <= strstart && matchAvailable &&
               Waiting(hist, base + strstart, lookahead, matchLength, strstart - 1 - matchStart, true, wSize, |restart.text|) &&
               Out(base + strstart - 1)) ==> LazyHead()
    {
      hide Made, Dict, Keyed, Out, Waiting, Spare;
    }

    /** Hold back the current byte. */
    method HoldBack()
      requires !overrun && Made() && Inserted() && Spare() && config.level > 0 && !matchAvailable && Out(base + strstart) && 1 <= lookahead
      requires Waiting(hist, base + strstart + 1, lookahead - 1, matchLength, strstart - matchStart, true, wSize, |restart.text|)
      modifies `strstart, `lookahead, `matchAvailable
      ensures LazyHead() && strstart == old(strstart) + 1 && lookahead == old(lookahead) - 1 && matchAvailable
    {
      hide Dict, Keyed, Inserted, HashBits, Pow2, Emitted, OnByte, Waiting,
           Out, Coder.Valid, Handed;
      matchAvailable := true;
      StepOver();
    }

    /** One round of deflate_slow() once there is enough lookahead: the match found for
        the previous string is emitted if the one found now, of length len at start,
        is not longer; otherwise the byte held back is. */
    method SlowStep() returns (stop: bool, ghost found: nat, ghost len: nat, ghost start: int)
      requires Drained() && !overrun && LazyHead() && strstart + MIN_LOOKAHEAD <= window.Length && 1 <= lookahead
      modifies `strstart, `lookahead, `prevLength, `prevMatch, `matchLength, `matchStart, `matchAvailable, `insH, `ins, head, prev
      modifies `blockStart, `put, `availOut, `overrun, `culprit, `culpritBits
      modifies coder, coder.sink, coder.sink.buf, coder.Arrays()
      ensures old(put) <= put && |put| - |old(put)| == old(availOut) - availOut
      ensures if overrun then Lost() && stop else LazyHead() && (if stop then availOut == 0 else Drained())
      ensures overrun || lookahead < old(lookahead)
      ensures old(ins) <= ins && (old(lookahead) >= MIN_MATCH ==> old(strstart) in ins)
      ensures LazyFind(config, window[..], old(head[..]), old(prev[..]), hashBits, old(strstart), old(lookahead), old(matchLength), found,
                       len, start)
      ensures !overrun && old(matchLength) >= MIN_MATCH && len <= old(matchLength) ==>
                && !matchAvailable && matchLength == 2 && strstart == old(strstart) + old(matchLength) - 1
                && Sent(old(coder.sent), old(coder.Tokens()) + [Token.Match(old(matchLength), old(strstart - 1 - matchStart))], coder.sent,
                        coder.Tokens())
      ensures !overrun && (old(matchLength) < MIN_MATCH || len > old(matchLength)) ==>
                && matchAvailable && matchLength == len && matchStart == start && strstart == old(strstart) + 1
                && Sent(old(coder.sent), old(coder.Tokens()) + (if old(matchAvailable) then [Literal(old(window[strstart - 1]))] else []),
                        coder.sent, coder.Tokens())
    {
      hide Dict, Keyed, Inserted, HashBits, Pow2, Emitted, OnByte, Pending,
           Lost, Out, Coder.Valid, Handed, LazyFind, Coder.Tokens, OneBlock, Spare, Waiting;
      found := FindSlow();
      len, start := matchLength, matchStart;
      stop := false;
      WaitingIs(hist, base + strstart, lookahead, prevLength, strstart - 1 - prevMatch, matchAvailable, wSize, |restart.text|);
      if prevLength >= MIN_MATCH && matchLength <= prevLength {
        stop := EmitWaiting();
      } else if matchAvailable {
        WaitsNow(hist, base + strstart, lookahead, matchLength, strstart - matchStart, prevLength, wSize, |restart.text|);
        stop := EmitHeld();
      } else {
        WaitsNow(hist, base + strstart, lookahead, matchLength, strstart - matchStart, prevLength, wSize, |restart.text|);
        HoldBack();
      }
    }

    lemma RoundFacts()
      requires Made() && Dict()
      ensures Table(window[..], head[..], prev[..], hist, base, ins, strstart + lookahead, strstart, hashBits)
      ensures MIN_LOOKAHEAD <= prev.Length && |hist| == base + strstart + lookahead && strstart + lookahead <= window.Length
      ensures forall k :: 0 <= k < strstart + lookahead ==> window[k] == hist[base + k]
    {
      hide Table, HashBits, Pow2;
      TableFacts(window[..], head[..], prev[..], hist, base, ins, strstart + lookahead, strstart - insert, hashBits);
      assert forall k :: 0 <= k < window.Length ==> window[..][k] == window[k];
      TableTop(window[..], head[..], prev[..], hist, base, ins, strstart + lookahead, strstart - insert, strstart, hashBits);
    }

    lemma LazyFacts()
      requires LazyHead()
      ensures Made() && Dict() && (matchAvailable ==> 1 <= strstart) && (matchLength >= MIN_MATCH ==> matchAvailable && matchStart <= strstart - 1)
    {
      hide Made, Dict, Keyed, Out, Spare;
    }

    /** A round with its decision put on record. */
    method SlowRound() returns (stop: bool)
      requires Drained() && !overrun && LazyHead() && strstart + MIN_LOOKAHEAD <= window.Length && 1 <= lookahead && Traced() && config.lazy
      modifies `strstart, `lookahead, `prevLength, `prevMatch, `matchLength, `matchStart, `matchAvailable, `insH, `ins, head, prev
      modifies `blockStart, `put, `availOut, `overrun, `culprit, `culpritBits, `events, `parts
      modifies coder, coder.sink, coder.sink.buf, coder.Arrays()
      ensures old(put) <= put && |put| - |old(put)| == old(availOut) - availOut
      ensures if overrun then Lost() && stop else LazyHead() && Traced() && (if stop then availOut == 0 else Drained())
      ensures overrun || lookahead < old(lookahead)
    {
      hide LazyHead, Trace, Coder.Tokens, LazyFind, Lost, Sent, Table;
      LazyFacts();
      RoundFacts();
      ghost var found, len, start;
      ghost var win, head0, prev0, ins0, at, ahead := window[..], head[..], prev[..], ins, strstart, lookahead;
      ghost var len0, start0, held0, sent0, ts0 := matchLength, matchStart, matchAvailable, coder.sent, coder.Tokens();
      stop, found, len, start := SlowStep();
      if !overrun {
        Apart();
        ghost var e := Step(win, head0, prev0, ins0, base, hist, at, ahead, len0, found, len, start);
        ghost var more := if len0 >= MIN_MATCH && len <= len0 then [Token.Match(len0, Dist(at - 1, start0))]
                          else if held0 then ByteAt(hist, base + at - 1) else [];
        parts := TraceLazy(config, hashBits, hist, events, parts, sent0, ts0, len0, start0, held0, e, more, coder.sent, coder.Tokens(), ins,
                           strstart, matchLength, matchStart, matchAvailable);
        events := events + [e];
      }
    }

    /** All input has been emitted, and the tokens sent in blocks if it is said so. */
    ghost predicate Flushed(last: bool)
      reads `lookahead, `put, `hist, `restart, coder, coder.sink, coder.sink.buf, coder.w.lfc, coder.w.dfc, coder.w.bfc
    {
      && coder.Valid() && coder.finished == last && Handed() && coder.lastLit == 0 && lookahead == 0
      && Emitted(coder.sent, coder.Tokens(), hist, |hist|, |hist|, restart)
    }

    lemma FlushedLast(last: bool)
      ensures Flushed(last) ==> coder.finished == last
    {
      hide Emitted, OnByte, Coder.Valid;
    }

    lemma LazyHeadRoom()
      requires LazyHead()
      ensures nextIn <= |input| && strstart + lookahead <= window.Length && !overrun && !coder.finished && Made()
    {
      hide Keyed, Emitted, OnByte, Coder.Valid;
      Room();
    }

    /** deflate_slow() */
    method DeflateSlow(flush: Flush) returns (state: BlockState)
      requires LazyHead() && Drained() && Traced() && config.lazy
      modifies `strstart, `lookahead, `prevLength, `prevMatch, `matchLength, `matchStart, `matchAvailable, `insH, `ins, head, prev
      modifies `insert, `highWater, `nextIn, `hist, `base, window
      modifies `blockStart, `put, `availOut, `overrun, `culprit, `culpritBits, `events, `parts
      modifies coder, coder.sink, coder.sink.buf, coder.Arrays()
      ensures old(put) <= put && |put| - |old(put)| == old(availOut) - availOut
      ensures if overrun then Lost() && state == NeedMore else Traced()
      ensures !overrun ==> availOut == 0 || Drained()
      ensures !overrun && state in {NeedMore, BlockDone} ==> LazyHead()
      ensures state == BlockDone ==> flush != Finish && lookahead == 0 && Flushed(false) && Drained()
      ensures state in {FinishStarted, FinishDone} ==> flush == Finish && Flushed(true)
      ensures state == FinishStarted ==> availOut == 0
      ensures state == FinishDone ==> put == coder.sink.written
      ensures state == NeedMore ==> overrun || availOut == 0 || flush == NoFlush
      ensures flush == NoFlush ==> state == NeedMore
      ensures overrun || (state == NeedMore && availOut == 0) || nextIn == |input|
      ensures old(nextIn) <= nextIn <= |input| && hist == old(hist) + input[old(nextIn)..nextIn]
    {
      hide LazyHead, GreedyHead, Made, Lost, Dict, Keyed, HashBits, Pow2, Emitted, OnByte, Flushed, LazyFind, GreedyFind, Sent, OneBlock, Coder.Tokens, Traced;
      ghost var hist0, next0 := hist, nextIn;
      LazyHeadRoom();
      NoneRead(hist, input, nextIn);
      var go := true;
      while go
        invariant LazyHead() && Drained() && Traced() && next0 <= nextIn <= |input| && hist == hist0 + input[next0..nextIn]
        invariant old(put) <= put && |put| - |old(put)| == old(availOut) - availOut
        invariant !go ==> lookahead == 0 && nextIn == |input| && flush != NoFlush && strstart + MIN_LOOKAHEAD <= window.Length
        decreases |input| - nextIn, lookahead, go
      {
        ghost var next1 := nextIn;
        TopUpLazy();
        AllRead(hist0, input, next0, next1, nextIn);
        if lookahead < MIN_LOOKAHEAD && flush == NoFlush { return NeedMore; }
        if lookahead == 0 {
          go := false;
        } else {
          var stop := SlowRound();
          if stop { return NeedMore; }
        }
      }
      state := EndSlow(flush);
    }

    lemma WindowApart()
      requires Made()
      ensures window != coder.sink.buf && head !in coder.Arrays() && prev !in coder.Arrays()
    {
    }

    /** fill_window() if there is too little lookahead. */
    method TopUpLazy()
      requires LazyHead() && Traced()
      modifies `strstart, `lookahead, `insert, `insH, `highWater, `matchStart, `blockStart, `nextIn, `hist, `base, `ins, window, head, prev
      ensures Traced() && LazyHead() && strstart + MIN_LOOKAHEAD <= window.Length && nextIn <= |input| && !overrun && Made()
      ensures old(nextIn) <= nextIn <= |input| && hist == old(hist) + input[old(nextIn)..nextIn]
      ensures lookahead - old(lookahead) == nextIn - old(nextIn) && (lookahead >= MIN_LOOKAHEAD || nextIn == |input|)
    {
      hide LazyHead, GreedyHead, Made, Trace, Keeps, Coder.Tokens;
      ghost var hist0, base0, ins0, strstart0, start0 := hist, base, ins, strstart, matchStart;
      LazyHeadRoom();
      WindowApart();
      if lookahead < MIN_LOOKAHEAD {
        RefillLazy();
        TraceMoves(config, hashBits, hist0, events, parts, coder.sent, coder.Tokens(), base0, ins0, strstart0, matchLength, start0, matchAvailable,
                   hist, base, ins, strstart, matchStart);
      } else {
        NoneRead(hist, input, nextIn);
      }
      LazyHeadRoom();
    }

    method RefillLazy()
      requires LazyHead() && lookahead < MIN_LOOKAHEAD
      modifies `strstart, `lookahead, `insert, `insH, `highWater, `matchStart, `blockStart, `nextIn, `hist, `base, `ins, window, head, prev
      ensures LazyHead() && strstart + MIN_LOOKAHEAD <= window.Length
      ensures old(nextIn) <= nextIn <= |input| && hist == old(hist) + input[old(nextIn)..nextIn]
      ensures lookahead - old(lookahead) == nextIn - old(nextIn) && (lookahead >= MIN_LOOKAHEAD || nextIn == |input|)
      ensures base + strstart == old(base + strstart) && base + matchStart == old(base + matchStart)
      ensures Keeps(old(ins), old(base), ins, base)
    {
      hide Keeps, Dict, Keyed, HashBits, Pow2, Emitted, OnByte, Coder.Ready, Coder.Wrote, Coder.Tokens;
      ghost var hist0, at, dist := hist, base + strstart, strstart - 1 - matchStart;
      Room();
      Refill(if matchAvailable then at - 1 else at);
      Room();
      WaitingGrows(hist0, hist, at, lookahead, matchLength, dist, matchAvailable, wSize, |restart.text|, old(lookahead));
    }

    /** The end of deflate_slow(), when no input is left. */
    method FinishSlow(flush: Flush) returns (state: BlockState)
      requires LazyHead() && Drained() && lookahead == 0 && nextIn == |input| && strstart + MIN_LOOKAHEAD <= window.Length
      modifies `matchAvailable, `insert
      modifies `blockStart, `put, `availOut, `overrun, `culprit, `culpritBits
      modifies coder, coder.sink, coder.sink.buf, coder.Arrays()
      ensures old(put) <= put && |put| - |old(put)| == old(availOut) - availOut
      ensures overrun ==> Lost() && state == NeedMore
      ensures !overrun ==> availOut == 0 || Drained()
      ensures !overrun && state in {NeedMore, BlockDone} ==> LazyHead()
      ensures state == BlockDone ==> flush != Finish && lookahead == 0 && Flushed(false) && Drained()
      ensures state in {FinishStarted, FinishDone} ==> flush == Finish && Flushed(true)
      ensures state == FinishStarted ==> availOut == 0
      ensures state == FinishDone ==> put == coder.sink.written
      ensures state == NeedMore ==> overrun || availOut == 0
      ensures !overrun ==> matchLength == 2 && !matchAvailable
      ensures !overrun ==> Sent(old(coder.sent), old(coder.Tokens()) + (if old(matchAvailable) then ByteAt(hist, base + strstart - 1) else []),
                                coder.sent, coder.Tokens())
    {
      hide Dict, Keyed, HashBits, Pow2, Emitted, OnByte, Holds,
           Lost, Out, Coder.Valid, Handed, Sent, Coder.Tokens;
      EmitLast();
      SetInsert();
      state := Conclude(flush);
    }

    /** The same, put on record. */
    method EndSlow(flush: Flush) returns (state: BlockState)
      requires LazyHead() && Drained() && Traced() && config.lazy
      requires lookahead == 0 && nextIn == |input| && strstart + MIN_LOOKAHEAD <= window.Length
      modifies `matchAvailable, `insert, `events, `parts
      modifies `blockStart, `put, `availOut, `overrun, `culprit, `culpritBits
      modifies coder, coder.sink, coder.sink.buf, coder.Arrays()
      ensures old(put) <= put && |put| - |old(put)| == old(availOut) - availOut
      ensures if overrun then Lost() && state == NeedMore else Traced()
      ensures !overrun ==> availOut == 0 || Drained()
      ensures !overrun && state in {NeedMore, BlockDone} ==> LazyHead()
      ensures state == BlockDone ==> flush != Finish && lookahead == 0 && Flushed(false) && Drained()
      ensures state in {FinishStarted, FinishDone} ==> flush == Finish && Flushed(true)
      ensures state == FinishStarted ==> availOut == 0
      ensures state == FinishDone ==> put == coder.sink.written
      ensures state == NeedMore ==> overrun || availOut == 0
    {
      hide LazyHead, Made, Lost, Flushed, Trace, Sent, Coder.Tokens;
      ghost var sent0, ts0, held0, len0 := coder.sent, coder.Tokens(), matchAvailable, matchLength;
      state := FinishSlow(flush);
      if !overrun { RecordLast(sent0, ts0, held0, len0); }
    }

    method RecordLast(ghost sent0: seq<Block>, ghost ts0: seq<Token>, ghost held0: bool, ghost len0: nat)
      requires config.lazy && matchLength == 2 && !matchAvailable
      requires Trace(config, hashBits, hist, events, parts, sent0, ts0, base, ins, strstart, len0, matchStart, held0)
      requires Sent(sent0, ts0 + (if held0 then ByteAt(hist, base + strstart - 1) else []), coder.sent, coder.Tokens())
      modifies `events, `parts
      ensures Traced() && (old(LazyHead()) ==> LazyHead())
      ensures (old(Flushed(false)) ==> Flushed(false)) && (old(Flushed(true)) ==> Flushed(true))
    {
      hide LazyHead, Flushed, Trace, Sent, Coder.Tokens;
      Apart();
      parts := TraceLast(config, hashBits, hist, events, parts, sent0, ts0, base, ins, strstart, len0, matchStart, held0, coder.sent,
                         coder.Tokens());
      events := events + [Event.Last(hist)];
    }

    /** Emit the byte that is still held back. */
    method EmitLast()
      requires LazyHead() && Drained() && lookahead == 0
      modifies `matchAvailable, coder`lastLit, coder`matches, coder.sink.buf, coder.w.lfc, coder.w.dfc
      ensures Dict() && Keyed() && !matchAvailable && matchLength == 2 && Out(base + strstart) && Drained()
      ensures coder.Tokens() == old(coder.Tokens()) + if old(matchAvailable) then ByteAt(hist, base + strstart - 1) else []
    {
      hide Dict, Keyed, HashBits, Pow2, Emitted, OnByte, Holds,
           Out, Coder.Valid, Handed;
      DictInserted();
      InsertedData();
      if matchAvailable {
        var full := TallyLiteral(window[strstart - 1], base + strstart - 1);
        matchAvailable := false;
      }
    }

    lemma DictInserted()
      requires Dict() && lookahead == 0
      ensures Inserted()
    {
    }

    /** The last strings have too few bytes to be inserted yet. */
    method SetInsert()
      requires Made() && Dict() && Keyed() && lookahead == 0
      modifies `insert
      ensures Dict() && Keyed()
    {
      hide HashBits, Pow2, Chains, Holds;
      insert := if strstart < MIN_MATCH - 1 then strstart else MIN_MATCH - 1;
    }

    /** FLUSH_BLOCK at the end of the input, as far as there is a block to send. */
    method Conclude(flush: Flush) returns (state: BlockState)
      requires Drained() && !overrun && Made() && Dict() && lookahead == 0 && Out(base + strstart) && config.level > 0
      requires 0 <= blockStart ==> strstart - blockStart <= 0xFFFF
      modifies `blockStart, `put, `availOut, `overrun, `culprit, `culpritBits, coder, coder.sink, coder.sink.buf, coder.Arrays()
      ensures old(put) <= put && |put| - |old(put)| == old(availOut) - availOut
      ensures |hist| == base + strstart && (overrun ==> Lost() && state == NeedMore)
      ensures !overrun ==> Spare() && (availOut == 0 || Drained())
      ensures !overrun && state in {NeedMore, BlockDone} ==> Flushed(false) && Out(base + strstart) && flush != Finish
      ensures state in {FinishStarted, FinishDone} ==> flush == Finish && Flushed(true)
      ensures state == FinishStarted ==> availOut == 0
      ensures state == FinishDone ==> put == coder.sink.written
      ensures state == NeedMore ==> overrun || availOut == 0
      ensures state == BlockDone ==> Drained()
      ensures !overrun ==> Sent(old(coder.sent), old(coder.Tokens()), coder.sent, coder.Tokens())
    {
      hide OneBlock, Dict, Keyed, HashBits, Pow2, Coder.Ready, Coder.Wrote, Coder.Tokens, Emitted, OnByte, Holds, Lost;
      Room();
      DictData();
      if flush == Finish {
        FlushBlockOnly(true);
        if overrun { return NeedMore; }
        coder.Sizes();
        state := if availOut == 0 then FinishStarted else FinishDone;
      } else if coder.lastLit != 0 {
        FlushBlockOnly(false);
        if overrun { return NeedMore; }
        coder.Sizes();
        state := if availOut == 0 then NeedMore else BlockDone;
      } else {
        coder.NoTokens();
        coder.Sizes();
        NothingLeft(coder.sent, coder.Tokens(), hist, base + strstart, base + blockStart, restart);
        state := BlockDone;
      }
    }

    // ---------- greedy matching ----------

    /** The state at the head of the loop of deflate_fast(). */
    ghost predicate GreedyHead()
      reads `strstart, `lookahead, `insert, `insH, `highWater, `blockStart, `matchLength, `matchStart, `prevLength, `matchAvailable, `input,
            `nextIn, `put, `hist, `base, `ins, `restart, `overrun, window, head, prev, coder, coder.sink, coder.sink.buf, coder.w.lfc, coder.w.dfc, coder.w.bfc
    {
      && Made() && Dict() && Keyed() && Spare() && config.level > 0 && !overrun
      && matchLength < MIN_MATCH && prevLength == MIN_MATCH - 1 && Out(base + strstart)
    }

    /** Insert the string and look for a match for it. */
    method FindFast()
      requires Made() && Dict() && Keyed() && strstart + MIN_LOOKAHEAD <= window.Length && matchLength < 3 && prevLength == 2
      modifies `insH, `ins, head, prev, `matchLength, `matchStart
      ensures Inserted()
      ensures GreedyFind(config, window[..], old(head[..]), old(prev[..]), hashBits, strstart, lookahead, matchLength, matchStart)
      ensures ins == if lookahead >= MIN_MATCH then old(ins) + {strstart} else old(ins)
      ensures matchLength >= 3 ==> 3 <= matchLength <= lookahead && Pending(hist, base + strstart, strstart - matchStart, matchLength, wSize, |restart.text|)
    {
      hide Table, HashBits, Pow2, PrimedAt, KeyAt, Pending, Link, Searched, Chains;
      var hashHead := NIL;
      if lookahead >= MIN_MATCH {
        hashHead := InsertHere();
        ChainStart(window[..], ins, hashHead, strstart, hashBits);
      }
      if hashHead != NIL && strstart - hashHead <= MaxDist(wSize) {
        Search(hashHead);
      }
    }

    /** Step over an emitted match that begins at the current string; the strings of
        a long one are not inserted. */
    method PassMatch()
      requires Made() && Inserted() && 3 <= matchLength <= lookahead && strstart + MIN_LOOKAHEAD <= window.Length
      requires matchLength <= MAX_MATCH
      modifies `strstart, `lookahead, `matchLength, `insH, `ins, head, prev
      ensures Dict() && Keyed() && matchLength == 0
      ensures strstart == old(strstart) + old(matchLength) && lookahead == old(lookahead) - old(matchLength)
      ensures ins == if old(matchLength) <= config.maxLazy && lookahead >= MIN_MATCH
                     then old(ins) + Places(old(strstart) + 1, strstart) else old(ins)
    {
      hide Table, HashBits, Pow2, Chains, PrimedAt;
      ghost var end := strstart + lookahead;
      lookahead := lookahead - matchLength;
      if matchLength <= config.maxLazy && lookahead >= MIN_MATCH {
        matchLength := matchLength - 1;
        InsertStrings(matchLength, end);
        matchLength := 0;
        strstart := strstart + 1;
      } else {
        ghost var top := strstart + 1;
        strstart := strstart + matchLength;
        matchLength := 0;
        Rekey(end, top);
      }
    }

    method InsertStrings(count: nat, ghost end: nat)
      requires Made() && count > 0 && insH < Pow2(hashBits) && strstart + count + 3 <= end && PrimedAt(window[..], strstart + 1, insH, hashBits)
      requires Table(window[..], head[..], prev[..], hist, base, ins, end, strstart + 1, hashBits)
      modifies `strstart, `insH, `ins, head, prev
      ensures strstart == old(strstart) + count && insH < Pow2(hashBits) && PrimedAt(window[..], strstart + 1, insH, hashBits)
      ensures ins == old(ins) + Places(old(strstart) + 1, strstart + 1)
      ensures Table(window[..], head[..], prev[..], hist, base, ins, end, strstart + 1, hashBits)
    {
      hide Table, HashBits, Pow2, PrimedAt;
      var str, h;
      ghost var s;
      str, h, s := InsertAll(window, head, prev, insH, strstart, count, hashBits, hist, base, ins, end);
      strstart, insH, ins := str, h, s;
    }

    /** Start the running key anew at the current string. */
    method Rekey(ghost end: nat, ghost top: nat)
      requires Made() && Table(window[..], head[..], prev[..], hist, base, ins, end, top, hashBits) && top <= strstart && insert == 0
      requires |restart.text| <= base
      requires end == strstart + lookahead && strstart + 1 < window.Length && highWater <= window.Length && nextIn <= |input|
      modifies `insH
      ensures Dict() && Keyed()
    {
      hide Table, Pow2, Chains, Update, Primed, HashBits;
      StartPrimes(window[strstart], window[strstart + 1], hashBits);
      insH := Update(window[strstart], window[strstart + 1], hashBits);
      TableTop(window[..], head[..], prev[..], hist, base, ins, end, top, strstart, hashBits);
    }

    /** One round of deflate_fast(): a match of length len at start is emitted, or the
        current byte if there is none. */
    method FastStep() returns (stop: bool, ghost len: nat, ghost start: int, ghost dist: nat)
      requires Drained() && !overrun && GreedyHead() && strstart + MIN_LOOKAHEAD <= window.Length && 1 <= lookahead
      modifies `strstart, `lookahead, `matchLength, `matchStart, `insH, `ins, head, prev
      modifies `blockStart, `put, `availOut, `overrun, `culprit, `culpritBits
      modifies coder, coder.sink, coder.sink.buf, coder.Arrays()
      ensures old(put) <= put && |put| - |old(put)| == old(availOut) - availOut
      ensures if overrun then Lost() && stop else GreedyHead() && (if stop then availOut == 0 else Drained())
      ensures overrun || lookahead < old(lookahead)
      ensures old(ins) <= ins && (old(lookahead) >= MIN_MATCH ==> old(strstart) in ins)
      ensures GreedyFind(config, window[..], old(head[..]), old(prev[..]), hashBits, old(strstart), old(lookahead), len, start)
      ensures !overrun && len >= MIN_MATCH ==>
                && strstart == old(strstart) + len && dist == old(strstart) - start
                && Sent(old(coder.sent), old(coder.Tokens()) + [Token.Match(len, dist)], coder.sent, coder.Tokens())
      ensures !overrun && len < MIN_MATCH ==>
                && strstart == old(strstart) + 1
                && Sent(old(coder.sent), old(coder.Tokens()) + [Literal(old(window[strstart]))], coder.sent, coder.Tokens())
    {
      hide Dict, Keyed, Inserted, HashBits, Pow2, Emitted, OnByte, Pending, Holds,
           Lost, Out, Coder.Valid, Handed, GreedyFind, Coder.Tokens, Sent, Spare;
      FindFast();
      len, start, dist := matchLength, matchStart, 0;
      if len >= MIN_MATCH {
        PendingRange(hist, base + strstart, strstart - start, len, wSize, |restart.text|);
        dist := strstart - start;
      }
      var full := EmitFast();
      stop := FlushIf(full);
    }

    /** A round with its decision put on record. */
    method FastRound() returns (stop: bool)
      requires Drained() && !overrun && GreedyHead() && strstart + MIN_LOOKAHEAD <= window.Length && 1 <= lookahead && Traced() && !config.lazy
      modifies `strstart, `lookahead, `matchLength, `matchStart, `insH, `ins, head, prev
      modifies `blockStart, `put, `availOut, `overrun, `culprit, `culpritBits, `events, `parts
      modifies coder, coder.sink, coder.sink.buf, coder.Arrays()
      ensures old(put) <= put && |put| - |old(put)| == old(availOut) - availOut
      ensures if overrun then Lost() && stop else GreedyHead() && Traced() && (if stop then availOut == 0 else Drained())
      ensures overrun || lookahead < old(lookahead)
    {
      hide GreedyHead, Trace, Coder.Tokens, GreedyFind, Lost, Sent, Table;
      GreedyFacts();
      RoundFacts();
      ghost var len, start, dist;
      ghost var win, head0, prev0, ins0, at, ahead := window[..], head[..], prev[..], ins, strstart, lookahead;
      ghost var len0, start0, held0, sent0, ts0 := matchLength, matchStart, matchAvailable, coder.sent, coder.Tokens();
      stop, len, start, dist := FastStep();
      if !overrun {
        Apart();
        ghost var e := Step(win, head0, prev0, ins0, base, hist, at, ahead, 2, 0, len, start);
        ghost var more := if len >= MIN_MATCH then [Token.Match(len, Dist(at, start))] else ByteAt(hist, base + at);
        parts := TraceGreedy(config, hashBits, hist, events, parts, sent0, ts0, len0, start0, held0, e, more, coder.sent, coder.Tokens(), ins,
                             strstart, matchLength, matchStart, matchAvailable);
        events := events + [e];
      }
    }

    lemma GreedyFacts()
      requires GreedyHead()
      ensures Made() && Dict()
    {
      hide Made, Dict, Keyed, Out, Spare;
    }

    /** Emit the match that was found, or a literal. */
    method EmitFast() returns (full: bool)
      requires Drained() && Made() && Inserted() && Out(base + strstart) && Spare() && strstart + MIN_LOOKAHEAD <= window.Length && 1 <= lookahead
      requires matchLength >= 3 ==> matchLength <= lookahead && Pending(hist, base + strstart, strstart - matchStart, matchLength, wSize, |restart.text|)
      modifies `strstart, `lookahead, `matchLength, `insH, `ins, head, prev
      modifies coder`lastLit, coder`matches, coder.sink.buf, coder.w.lfc, coder.w.dfc
      ensures Dict() && Keyed() && Out(base + strstart) && full == !Spare() && matchLength < 3
      ensures lookahead < old(lookahead) && strstart + 4 <= window.Length && coder.sent == old(coder.sent) && old(ins) <= ins
      ensures if old(matchLength) >= MIN_MATCH
              then 0 <= old(strstart - matchStart) && strstart == old(strstart + matchLength) &&
                   coder.Tokens() == old(coder.Tokens()) + [Token.Match(old(matchLength), old(strstart - matchStart))]
              else strstart == old(strstart) + 1 && coder.Tokens() == old(coder.Tokens()) + [Literal(old(window[strstart]))]
    {
      hide Dict, Keyed, Inserted, HashBits, Pow2, Emitted, OnByte, Pending, Holds,
           Out, Coder.Valid, Handed, Coder.Tokens;
      InsertedData();
      ghost var at := base + strstart;
      if matchLength >= MIN_MATCH {
        PendingRange(hist, at, strstart - matchStart, matchLength, wSize, |restart.text|);
        full := TallyMatch(strstart - matchStart, matchLength, at);
        PassMatch();
      } else {
        full := TallyLiteral(window[strstart], at);
        StepOver();
      }
    }

    lemma GreedyHeadRoom()
      requires GreedyHead()
      ensures nextIn <= |input| && strstart + lookahead <= window.Length && !overrun && !coder.finished && Made()
    {
      hide Keyed, Emitted, OnByte, Coder.Valid;
      Room();
    }

    /** deflate_fast() */
    method DeflateFast(flush: Flush) returns (state: BlockState)
      requires GreedyHead() && Drained() && Traced() && !config.lazy
      modifies `strstart, `lookahead, `matchLength, `matchStart, `insH, `ins, head, prev
      modifies `insert, `highWater, `nextIn, `hist, `base, window
      modifies `blockStart, `put, `availOut, `overrun, `culprit, `culpritBits, `events, `parts
      modifies coder, coder.sink, coder.sink.buf, coder.Arrays()
      ensures old(put) <= put && |put| - |old(put)| == old(availOut) - availOut
      ensures if overrun then Lost() && state == NeedMore else Traced()
      ensures !overrun ==> availOut == 0 || Drained()
      ensures !overrun && state in {NeedMore, BlockDone} ==> GreedyHead()
      ensures state == BlockDone ==> flush != Finish && lookahead == 0 && Flushed(false) && Drained()
      ensures state in {FinishStarted, FinishDone} ==> flush == Finish && Flushed(true)
      ensures state == FinishStarted ==> availOut == 0
      ensures state == FinishDone ==> put == coder.sink.written
      ensures state == NeedMore ==> overrun || availOut == 0 || flush == NoFlush
      ensures flush == NoFlush ==> state == NeedMore
      ensures overrun || (state == NeedMore && availOut == 0) || nextIn == |input|
      ensures old(nextIn) <= nextIn <= |input| && hist == old(hist) + input[old(nextIn)..nextIn]
    {
      hide LazyHead, GreedyHead, Made, Lost, Dict, Keyed, HashBits, Pow2, Emitted, OnByte, Flushed, LazyFind, GreedyFind, Sent, OneBlock, Coder.Tokens, Traced;
      ghost var hist0, next0 := hist, nextIn;
      GreedyHeadRoom();
      NoneRead(hist, input, nextIn);
      var go := true;
      while go
        invariant GreedyHead() && Drained() && Traced() && next0 <= nextIn <= |input| && hist == hist0 + input[next0..nextIn]
        invariant old(put) <= put && |put| - |old(put)| == old(availOut) - availOut
        invariant !go ==> lookahead == 0 && nextIn == |input| && flush != NoFlush && strstart + MIN_LOOKAHEAD <= window.Length
        decreases |input| - nextIn, lookahead, go
      {
        ghost var next1 := nextIn;
        TopUpGreedy();
        AllRead(hist0, input, next0, next1, nextIn);
        if lookahead < MIN_LOOKAHEAD && flush == NoFlush { return NeedMore; }
        if lookahead == 0 {
          go := false;
        } else {
          var stop := FastRound();
          if stop { return NeedMore; }
        }
      }
      state := EndFast(flush);
    }

    /** The end of deflate_fast(), when no input is left. */
    method FinishFast(flush: Flush) returns (state: BlockState)
      requires GreedyHead() && Drained() && lookahead == 0 && nextIn == |input| && strstart + MIN_LOOKAHEAD <= window.Length
      modifies `insert
      modifies `blockStart, `put, `availOut, `overrun, `culprit, `culpritBits
      modifies coder, coder.sink, coder.sink.buf, coder.Arrays()
      ensures old(put) <= put && |put| - |old(put)| == old(availOut) - availOut
      ensures overrun ==> Lost() && state == NeedMore
      ensures !overrun ==> availOut == 0 || Drained()
      ensures !overrun && state in {NeedMore, BlockDone} ==> GreedyHead()
      ensures state == BlockDone ==> flush != Finish && lookahead == 0 && Flushed(false) && Drained()
      ensures state in {FinishStarted, FinishDone} ==> flush == Finish && Flushed(true)
      ensures state == FinishStarted ==> availOut == 0
      ensures state == FinishDone ==> put == coder.sink.written
      ensures state == NeedMore ==> overrun || availOut == 0
      ensures !overrun ==> Sent(old(coder.sent), old(coder.Tokens()), coder.sent, coder.Tokens())
    {
      hide Dict, Keyed, HashBits, Pow2, Emitted, OnByte, Holds,
           Lost, Out, Coder.Valid, Handed, Sent, Coder.Tokens;
      SetInsert();
      state := Conclude(flush);
    }

    /** The same, put on record. */
    method EndFast(flush: Flush) returns (state: BlockState)
      requires GreedyHead() && Drained() && Traced() && !config.lazy
      requires lookahead == 0 && nextIn == |input| && strstart + MIN_LOOKAHEAD <= window.Length
      modifies `insert, `parts
      modifies `blockStart, `put, `availOut, `overrun, `culprit, `culpritBits
      modifies coder, coder.sink, coder.sink.buf, coder.Arrays()
      ensures old(put) <= put && |put| - |old(put)| == old(availOut) - availOut
      ensures if overrun then Lost() && state == NeedMore else Traced()
      ensures !overrun ==> availOut == 0 || Drained()
      ensures !overrun && state in {NeedMore, BlockDone} ==> GreedyHead()
      ensures state == BlockDone ==> flush != Finish && lookahead == 0 && Flushed(false) && Drained()
      ensures state in {FinishStarted, FinishDone} ==> flush == Finish && Flushed(true)
      ensures state == FinishStarted ==> availOut == 0
      ensures state == FinishDone ==> put == coder.sink.written
      ensures state == NeedMore ==> overrun || availOut == 0
    {
      hide GreedyHead, Made, Lost, Flushed, Trace, Sent, Coder.Tokens;
      ghost var sent0, ts0 := coder.sent, coder.Tokens();
      state := FinishFast(flush);
      if !overrun {
        Apart();
        parts := TraceSent(config, hashBits, hist, events, parts, sent0, ts0, base, ins, strstart, matchLength, matchStart, matchAvailable,
                           coder.sent, coder.Tokens());
      }
    }

    /** fill_window() if there is too little lookahead. */
    method TopUpGreedy()
      requires GreedyHead() && Traced()
      modifies `strstart, `lookahead, `insert, `insH, `highWater, `matchStart, `blockStart, `nextIn, `hist, `base, `ins, window, head, prev
      ensures Traced() && GreedyHead() && strstart + MIN_LOOKAHEAD <= window.Length && nextIn <= |input| && !overrun && Made()
      ensures old(nextIn) <= nextIn <= |input| && hist == old(hist) + input[old(nextIn)..nextIn]
      ensures lookahead - old(lookahead) == nextIn - old(nextIn) && (lookahead >= MIN_LOOKAHEAD || nextIn == |input|)
    {
      hide LazyHead, GreedyHead, Made, Trace, Keeps, Coder.Tokens;
      ghost var hist0, base0, ins0, strstart0, start0 := hist, base, ins, strstart, matchStart;
      GreedyHeadRoom();
      WindowApart();
      if lookahead < MIN_LOOKAHEAD {
        RefillGreedy();
        TraceMoves(config, hashBits, hist0, events, parts, coder.sent, coder.Tokens(), base0, ins0, strstart0, matchLength, start0, matchAvailable,
                   hist, base, ins, strstart, matchStart);
      } else {
        NoneRead(hist, input, nextIn);
      }
      GreedyHeadRoom();
    }

    method RefillGreedy()
      requires GreedyHead() && lookahead < MIN_LOOKAHEAD
      modifies `strstart, `lookahead, `insert, `insH, `highWater, `matchStart, `blockStart, `nextIn, `hist, `base, `ins, window, head, prev
      ensures GreedyHead() && strstart + MIN_LOOKAHEAD <= window.Length
      ensures old(nextIn) <= nextIn <= |input| && hist == old(hist) + input[old(nextIn)..nextIn]
      ensures lookahead - old(lookahead) == nextIn - old(nextIn) && (lookahead >= MIN_LOOKAHEAD || nextIn == |input|)
      ensures base + strstart == old(base + strstart) && base + matchStart == old(base + matchStart)
      ensures Keeps(old(ins), old(base), ins, base)
    {
      hide Keeps, Dict, Keyed, HashBits, Pow2, Emitted, OnByte, Coder.Ready, Coder.Wrote, Coder.Tokens;
      Room();
      Refill(base + strstart);
      Room();
    }

    // ---------- deflate ----------

    /** Between two calls. */
    ghost predicate Session()
      reads `strstart, `lookahead, `insert, `insH, `highWater, `blockStart, `matchLength, `matchStart, `prevLength, `matchAvailable, `input,
            `nextIn, `put, `hist, `base, `ins, `restart, `events, `parts, `overrun, `finishing, window, head, prev, coder, coder.sink, coder.sink.buf, coder.w.lfc, coder.w.dfc, coder.w.bfc
    {
      && finishing == coder.finished && !overrun && Traced()
      && if finishing then Made() && Flushed(true) else if config.lazy then LazyHead() else GreedyHead()
    }

    /** The stream ends with the marker of a flush: an empty static block, all but a
        few of whose bits are whole bytes, or an empty stored one. */
    ghost predicate Marked(partial: bool)
      reads coder`sent, coder.sink`biValid
    {
      coder.sent != [] &&
      var last := coder.sent[|coder.sent| - 1];
      if partial then last == StaticBlock(false, []) && coder.sink.biValid < 8
      else last == StoredBlock(false, []) && coder.sink.biValid == 0
    }

    /** After a flush: all input so far has been sent, and all of that, with the
        marker of the flush at its end, has been handed out. */
    ghost predicate Synced(flush: Flush)
      reads `lookahead, `put, `hist, `restart, coder, coder.sink, coder.sink.buf, coder.w.lfc, coder.w.dfc, coder.w.bfc
    {
      && Flushed(false) && Drained() && Marked(flush == PartialFlush)
      && (flush == FullFlush ==> restart == Restart(coder.sent, hist, put))
    }

    /** What has been handed out since the last full flush. */
    ghost function Since(): seq<byte>
      reads `put, `restart
    {
      if |restart.bytes| <= |put| then put[|restart.bytes|..] else []
    }

    /** The marker that follows a block for a flush other than the last. */
    method Mark(flush: Flush)
      requires Drained() && !finishing && Session() && lookahead == 0 && Flushed(false) && flush != Finish && flush != NoFlush
      modifies `strstart, `blockStart, `insert, `ins, `base, `restart, `parts, head, coder`sent, coder.sink, coder.sink.buf
      ensures Session() && coder.lastLit == 0
      ensures flush != BlockFlush ==> Flushed(false) && Marked(flush == PartialFlush)
      ensures restart == if flush == FullFlush then Restart(coder.sent, hist, coder.sink.written) else old(restart)
    {
      hide Dict, Keyed, HashBits, Pow2, Session, Flushed, Trace, Coder.Tokens, Emitted, OnByte;
      Apart();
      SessionRoom();
      if flush != BlockFlush {
        RecordMarker(flush == PartialFlush);
        if flush == FullFlush {
          Renew();
        }
        Resumes();
      }
      FlushedTokens();
    }

    /** The stream can be decoded from here on its own. */
    method SetRestart()
      requires Flushed(false) && Marked(false) && Dict() && base == |hist|
      modifies `restart
      ensures Flushed(false) && Dict() && restart == Restart(coder.sent, hist, coder.sink.written)
    {
      hide HashBits, Pow2, Emitted, OnByte, Coder.Valid, Coder.Tokens, Table, AllSendable, Open, SendAll, BytesBits;
      Apart();
      coder.NoTokens();
      coder.OnBoundary();
      ByteReached(coder.sent, hist, coder.sink.written);
      Restarts(coder.sent, coder.Tokens(), hist, restart, coder.sink.written);
      restart := Restart(coder.sent, hist, coder.sink.written);
    }

    lemma FlushedTokens()
      ensures Flushed(false) ==> coder.lastLit == 0
    {
      hide Emitted, OnByte, Coder.Valid;
    }

    /** After a flush the next call starts with nothing held back. */
    lemma Resumes()
      requires Made() && Dict() && Keyed() && config.level > 0 && !overrun && !finishing && Flushed(false) && Traced()
      requires base + strstart == base + blockStart == |hist|
      requires if config.lazy then !matchAvailable && matchLength == 2 else matchLength < MIN_MATCH && prevLength == MIN_MATCH - 1
      ensures Session()
    {
      hide Dict, Keyed, HashBits, Pow2, Emitted, OnByte, Coder.Valid, Waiting, Traced, Made, Handed;
      coder.Sizes();
      NoneWaiting(hist, |hist|, strstart - 1 - matchStart, wSize, |restart.text|);
    }

    /** An empty block: static, to end a partial flush, or stored. */
    method SendMarker(partial: bool)
      requires Flushed(false) && Drained()
      modifies coder`sent, coder.sink, coder.sink.buf
      ensures Flushed(false) && Marked(partial)
      ensures Sent(old(coder.sent), old(coder.Tokens()), coder.sent, coder.Tokens())
    {
      hide HashBits, Pow2, Emitted, OnByte, Coder.Ready, Coder.Wrote, Coder.Tokens;
      ghost var written0 := coder.sink.written;
      coder.Sizes();
      coder.NoTokens();
      HandedSize(coder.sink);
      if partial {
        MarkerEmitted(coder.sent, coder.Tokens(), hist, |hist|, restart, StaticBlock(false, []));
        coder.Align();
      } else {
        MarkerEmitted(coder.sent, coder.Tokens(), hist, |hist|, restart, StoredBlock(false, []));
        coder.StoredBlockOnly([], false);
      }
      coder.NoTokens();
      HandedSize(coder.sink);
      SamePrefix(written0, coder.sink.written, |put|);
    }

    /** The empty block on record. */
    method RecordMarker(partial: bool)
      requires Flushed(false) && Drained() && Traced()
      modifies `parts, coder`sent, coder.sink, coder.sink.buf
      ensures Flushed(false) && Marked(partial) && Traced()
    {
      hide Flushed, Trace, Sent, Coder.Tokens;
      Apart();
      ghost var sent0, ts0 := coder.sent, coder.Tokens();
      SendMarker(partial);
      parts := TraceSent(config, hashBits, hist, events, parts, sent0, ts0, base, ins, strstart, matchLength, matchStart, matchAvailable,
                         coder.sent, coder.Tokens());
    }

    lemma SessionRoom()
      requires Session() && !finishing
      ensures |hist| == base + strstart + lookahead && nextIn <= |input|
      ensures Made() && Dict() && Keyed() && config.level > 0 && !overrun && Traced()
      ensures lookahead == 0 && Flushed(false) ==>
                base + blockStart == |hist| &&
                if config.lazy then !matchAvailable && matchLength == 2 else matchLength < MIN_MATCH && prevLength == MIN_MATCH - 1
    {
      hide Keyed, Emitted, OnByte, Coder.Valid, Traced;
      Room();
      if lookahead == 0 && Flushed(false) {
        OnlyPlace(coder.sent, coder.Tokens(), hist, if config.lazy && matchAvailable then |hist| - 1 else |hist|, base + blockStart, |hist|, |hist|, restart);
      }
    }

    /** A full flush forgets everything; the stream can be decoded from here on its own. */
    method Renew()
      requires Made() && Dict() && Keyed() && lookahead == 0 && matchLength < MIN_MATCH && Flushed(false) && Marked(false) && Traced()
      modifies head, `ins, `base, `strstart, `blockStart, `insert, `restart
      ensures Dict() && Keyed() && base == |hist| && strstart == blockStart == 0 && Flushed(false) && Traced()
      ensures restart == Restart(coder.sent, hist, coder.sink.written)
    {
      hide Made, Dict, Keyed, Flushed, Trace, Coder.Tokens, Marked;
      Apart();
      Room();
      WindowApart();
      TraceForgets(config, hashBits, hist, events, parts, coder.sent, coder.Tokens(), base, ins, strstart, matchLength, matchStart, matchAvailable);
      Forget();
      SetRestart();
    }

    /** CLEAR_HASH(s), and start again at the beginning of the window. */
    method Forget()
      requires Made() && Dict() && Keyed() && lookahead == 0
      modifies head, `ins, `base, `strstart, `blockStart, `insert
      ensures Dict() && Keyed() && base == |hist| && strstart == blockStart == 0 && ins == {}
    {
      hide HashBits, Pow2, Emitted, OnByte, Table;
      Room();
      ClearHash(head);
      base := base + strstart;
      strstart, blockStart, insert := 0, 0, 0;
      ins := {};
      TableForgets(window[..], head[..], prev[..], hist, hashBits);
    }

    /** The level decides which matcher is used. */
    method Match(flush: Flush) returns (state: BlockState)
      requires Session() && !finishing && Drained()
      modifies `strstart, `lookahead, `prevLength, `prevMatch, `matchLength, `matchStart, `matchAvailable, `insH, `ins, head, prev
      modifies `insert, `highWater, `nextIn, `hist, `base, `finishing, `events, `parts, window
      modifies `blockStart, `put, `availOut, `overrun, `culprit, `culpritBits
      modifies coder, coder.sink, coder.sink.buf, coder.Arrays()
      ensures overrun ==> Lost()
      ensures !overrun ==> Session() && (availOut == 0 || Drained())
      ensures old(put) <= put && |put| - |old(put)| == old(availOut) - availOut
      ensures old(nextIn) <= nextIn <= |input| && hist == old(hist) + input[old(nextIn)..nextIn]
      ensures !overrun && availOut != 0 ==> nextIn == |input| && (flush == Finish ==> finishing && put == coder.sink.written)
      ensures state == BlockDone ==> !overrun && !finishing && Flushed(false) && lookahead == 0 && Drained() && flush != Finish && flush != NoFlush
      ensures !overrun && availOut != 0 && flush != NoFlush && flush != Finish ==> state == BlockDone
      ensures !overrun && finishing ==> flush == Finish
    {
      hide LazyHead, GreedyHead, Flushed, Lost, HashBits, Pow2, Traced;
      if config.lazy {
        LazyHeadRoom();
        state := DeflateSlow(flush);
        if !overrun && state in {NeedMore, BlockDone} { LazyHeadRoom(); }
      } else {
        GreedyHeadRoom();
        state := DeflateFast(flush);
        if !overrun && state in {NeedMore, BlockDone} { GreedyHeadRoom(); }
      }
      FlushedLast(true);
      Apart();
      finishing := state in {FinishStarted, FinishDone};
    }

    /** The caller's buffers for this call. */
    method Offer(inp: seq<byte>, room: nat, flush: Flush)
      requires Session()
      modifies `input, `nextIn, `availOut, `lastRank
      ensures Session() && input == inp && nextIn == 0 && availOut == room && lastRank == Rank(flush)
    {
      hide LazyHead, GreedyHead, Keyed, HashBits, Pow2, Emitted, OnByte, Waiting, Table, Flushed, Coder.Valid;
      if finishing {
        OfferLast(inp, room, flush);
      } else if config.lazy {
        OfferLazy(inp, room, flush);
      } else {
        OfferGreedy(inp, room, flush);
      }
    }

    method OfferLast(inp: seq<byte>, room: nat, flush: Flush)
      requires Made() && Flushed(true)
      modifies `input, `nextIn, `availOut, `lastRank
      ensures Flushed(true) && input == inp && nextIn == 0 && availOut == room && lastRank == Rank(flush)
    {
      hide HashBits, Pow2, Flushed;
      input, nextIn, availOut, lastRank := inp, 0, room, Rank(flush);
    }

    method OfferLazy(inp: seq<byte>, room: nat, flush: Flush)
      requires LazyHead()
      modifies `input, `nextIn, `availOut, `lastRank
      ensures LazyHead() && input == inp && nextIn == 0 && availOut == room && lastRank == Rank(flush)
    {
      hide Keyed, HashBits, Pow2, Waiting, Dict, Out, Spare;
      NewInput(inp);
      availOut, lastRank := room, Rank(flush);
    }

    method OfferGreedy(inp: seq<byte>, room: nat, flush: Flush)
      requires GreedyHead()
      modifies `input, `nextIn, `availOut, `lastRank
      ensures GreedyHead() && input == inp && nextIn == 0 && availOut == room && lastRank == Rank(flush)
    {
      hide Keyed, HashBits, Pow2, Waiting, Dict, Out, Spare;
      NewInput(inp);
      availOut, lastRank := room, Rank(flush);
    }

    method NewInput(inp: seq<byte>)
      requires Dict()
      modifies `input, `nextIn
      ensures Dict() && input == inp && nextIn == 0
    {
      hide Table, Pow2;
      input, nextIn := inp, 0;
    }

    lemma LostFar()
      ensures Lost() && config.fixed ==> MaxDist(wSize) > 256
    {
    }

    lemma SessionRuns()
      requires Session()
      ensures !overrun
    {
      hide LazyHead, GreedyHead, Flushed;
    }

    lemma SessionPut()
      requires Session()
      ensures Handed() && (if coder.sink.count > 0 then coder.lastLit == 0 else put == coder.sink.written)
    {
      hide Dict, Keyed, HashBits, Pow2, Emitted, OnByte, Waiting;
    }

    /** flush_pending() between two steps. */
    method HandOut()
      requires coder.lastLit == 0 && Session()
      modifies `put, `availOut, coder.sink, coder.sink.buf
      ensures Session() && old(put) <= put && |put| - |old(put)| == old(availOut) - availOut
      ensures availOut == 0 || Drained()
      ensures old(coder.sink.biValid) < 8 ==> coder.sink.biValid == old(coder.sink.biValid) && coder.sink.written == old(coder.sink.written)
      ensures old(!finishing && Flushed(false)) ==> Flushed(false)
    {
      hide LazyHead, GreedyHead, Keyed, HashBits, Pow2, Emitted, OnByte, Waiting, Table, Flushed, Coder.Valid;
      if finishing {
        HandOutLast();
      } else if config.lazy {
        HandOutLazy();
      } else {
        HandOutGreedy();
      }
    }

    method HandOutLast()
      requires coder.lastLit == 0 && Made() && Flushed(true)
      modifies `put, `availOut, coder.sink, coder.sink.buf
      ensures Flushed(true) && old(put) <= put && |put| - |old(put)| == old(availOut) - availOut
      ensures availOut == 0 || Drained()
      ensures old(coder.sink.biValid) < 8 ==> coder.sink.biValid == old(coder.sink.biValid) && coder.sink.written == old(coder.sink.written)
    {
      hide HashBits, Pow2, Emitted, OnByte, Coder.Valid;
      FlushPending();
    }

    method HandOutLazy()
      requires coder.lastLit == 0 && LazyHead()
      modifies `put, `availOut, coder.sink, coder.sink.buf
      ensures LazyHead() && old(put) <= put && |put| - |old(put)| == old(availOut) - availOut
      ensures availOut == 0 || Drained()
      ensures old(coder.sink.biValid) < 8 ==> coder.sink.biValid == old(coder.sink.biValid) && coder.sink.written == old(coder.sink.written)
      ensures old(Flushed(false)) ==> Flushed(false)
    {
      hide Dict, Keyed, HashBits, Pow2, Emitted, OnByte, Waiting, Coder.Valid;
      FlushPending();
    }

    method HandOutGreedy()
      requires coder.lastLit == 0 && GreedyHead()
      modifies `put, `availOut, coder.sink, coder.sink.buf
      ensures GreedyHead() && old(put) <= put && |put| - |old(put)| == old(availOut) - availOut
      ensures availOut == 0 || Drained()
      ensures old(coder.sink.biValid) < 8 ==> coder.sink.biValid == old(coder.sink.biValid) && coder.sink.written == old(coder.sink.written)
      ensures old(Flushed(false)) ==> Flushed(false)
    {
      hide Dict, Keyed, HashBits, Pow2, Emitted, OnByte, Waiting, Coder.Valid;
      FlushPending();
    }

    /** The compression step of deflate(). */
    method Compress(flush: Flush)
      requires Session() && !finishing && Drained()
      modifies this, window, head, prev, coder, coder.sink, coder.sink.buf, coder.Arrays()
      ensures overrun ==> Lost()
      ensures !overrun ==> Session() && (availOut == 0 || Drained())
      ensures old(put) <= put && |put| - |old(put)| == old(availOut) - availOut
      ensures input == old(input) && old(nextIn) <= nextIn <= |input| && hist == old(hist) + input[old(nextIn)..nextIn]
      ensures !overrun && availOut != 0 ==> nextIn == |input| && (flush == Finish ==> finishing && put == coder.sink.written)
      ensures !overrun && finishing ==> flush == Finish
      ensures !overrun && availOut != 0 && Marks(flush) ==> Synced(flush)
      ensures !overrun ==> lastRank == if availOut == 0 then -2 else old(lastRank)
      ensures flush != FullFlush ==> restart == old(restart)
    {
      hide LazyHead, GreedyHead, HashBits, Pow2, Emitted, OnByte, Flushed, Session, Lost;
      var state := Match(flush);
      if overrun { return; }
      if state == BlockDone {
        EndFlush(flush);
      }
      if availOut == 0 { lastRank := -2; }
    }

    /** The marker of a flush, handed out as far as there is room. */
    method EndFlush(flush: Flush)
      requires Drained() && !finishing && Session() && lookahead == 0 && Flushed(false) && flush != Finish && flush != NoFlush
      modifies `strstart, `blockStart, `insert, `ins, `base, `restart, `parts, `put, `availOut, head, coder`sent, coder.sink, coder.sink.buf
      ensures Session() && !overrun && (availOut == 0 || Drained())
      ensures old(put) <= put && |put| - |old(put)| == old(availOut) - availOut
      ensures availOut != 0 && Marks(flush) ==> Synced(flush)
      ensures flush != FullFlush ==> restart == old(restart)
    {
      hide LazyHead, GreedyHead, HashBits, Pow2, Emitted, OnByte, Flushed, Session, Handed;
      Mark(flush);
      HandOut();
      SessionRuns();
      SessionPut();
    }

    /** deflate(): compress as much of inp as possible into room bytes of output. */
    method Deflate(inp: seq<byte>, flush: Flush, room: nat) returns (ret: Return, out: seq<byte>, used: nat)
      requires Session()
      modifies this, window, head, prev, coder, coder.sink, coder.sink.buf, coder.Arrays()
      ensures if overrun then Lost() else Session()
      ensures config.fixed && MaxDist(wSize) <= 256 ==> Session()
      ensures used <= |inp| && hist == old(hist) + inp[..used] && put == old(put) + out && |out| <= room
      ensures (ret == Z_STREAM_ERROR) == (old(finishing) && flush != Finish)
      ensures ret in {Z_STREAM_ERROR, Z_BUF_ERROR} ==> used == 0
      ensures ret == Z_BUF_ERROR <==>
                (ret != Z_STREAM_ERROR &&
                 (|| room == 0 || (old(coder.sink.count) == 0 && inp == [] && Rank(flush) <= old(lastRank) && flush != Finish)
                  || (old(finishing) && inp != [] && |out| < room)))
      ensures !overrun ==> lastRank == if ret == Z_STREAM_ERROR || room == 0 then old(lastRank) else if |out| == room then -2 else Rank(flush)
      ensures !overrun && ret == Z_STREAM_END ==> finishing && put == coder.sink.written && flush == Finish && |out| < room
      ensures !overrun && ret == Z_OK ==> |out| == room || (used == |inp| && flush != Finish)
      ensures !overrun && ret == Z_OK && |out| < room && Marks(flush) ==> Synced(flush)
      ensures flush != FullFlush ==> restart == old(restart)
      ensures !overrun && finishing ==> old(finishing) || flush == Finish
    {
      hide LazyHead, GreedyHead, HashBits, Pow2, Emitted, OnByte, Flushed, Session, Lost;
      SessionRuns();
      assert hist + inp[..0] == hist && put + [] == put;
      out, used := [], 0;
      if finishing && flush != Finish { return Z_STREAM_ERROR, [], 0; }
      if room == 0 { return Z_BUF_ERROR, [], 0; }
      var from := |put|;
      var oldRank := lastRank;
      Offer(inp, room, flush);
      ret, used := Serve(flush, oldRank);
      LostFar();
      out := put[from..];
    }

    /** deflate() with the caller's buffers at hand. */
    method Serve(flush: Flush, oldRank: int) returns (ret: Return, used: nat)
      requires Session() && nextIn == 0 && availOut > 0 && (finishing ==> flush == Finish) && lastRank == Rank(flush)
      modifies this, window, head, prev, coder, coder.sink, coder.sink.buf, coder.Arrays()
      ensures if overrun then Lost() else Session()
      ensures used <= |old(input)| && hist == old(hist) + old(input)[..used]
      ensures old(put) <= put && |put| - |old(put)| <= old(availOut)
      ensures ret != Z_STREAM_ERROR && (ret == Z_BUF_ERROR ==> used == 0)
      ensures ret == Z_BUF_ERROR <==> (|| (old(coder.sink.count) == 0 && old(input) == [] && Rank(flush) <= oldRank && flush != Finish)
                                       || (old(finishing) && old(input) != [] && |put| - |old(put)| < old(availOut)))
      ensures !overrun ==> lastRank == if |put| - |old(put)| == old(availOut) then -2 else Rank(flush)
      ensures !overrun && ret == Z_STREAM_END ==> finishing && put == coder.sink.written && flush == Finish && |put| - |old(put)| < old(availOut)
      ensures !overrun && ret == Z_OK ==> |put| - |old(put)| == old(availOut) || (used == |old(input)| && flush != Finish)
      ensures !overrun && ret == Z_OK && |put| - |old(put)| < old(availOut) && Marks(flush) ==> Synced(flush)
      ensures flush != FullFlush ==> restart == old(restart)
      ensures !overrun && finishing ==> old(finishing) || flush == Finish
    {
      hide LazyHead, GreedyHead, HashBits, Pow2, Emitted, OnByte, Flushed, Session, Lost;
      SessionRuns();
      NoneRead(hist, input, 0);
      SessionPut();
      if coder.sink.count != 0 {
        HandOut();
        SessionRuns();
        SessionPut();
        if availOut == 0 {
          lastRank := -2;
          return Z_OK, 0;
        }
      } else if |input| == 0 && Rank(flush) <= oldRank && flush != Finish {
        return Z_BUF_ERROR, 0;
      }
      if finishing && |input| != 0 { return Z_BUF_ERROR, 0; }
      if !finishing && (|input| != 0 || lookahead != 0 || flush != NoFlush) {
        Compress(flush);
      }
      used := nextIn;
      ret := if availOut == 0 || flush != Finish then Z_OK else Z_STREAM_END;
    }
  }

  /** do { s->strstart++; INSERT_STRING } while (--s->match_length != 0) */
  method InsertAll(window: array<byte>, head: array<nat>, prev: array<nat>, insH0: nat, strstart0: nat, count0: nat, bits: nat,
                   ghost hist: seq<byte>, ghost base: nat, ghost ins0: set<nat>, ghost end: nat)
    returns (strstart: nat, insH: nat, ghost ins: set<nat>)
    requires HashBits(bits) && head != prev && insH0 < Pow2(bits) && count0 > 0 && strstart0 + count0 + 3 <= end
    requires Table(window[..], head[..], prev[..], hist, base, ins0, end, strstart0 + 1, bits)
    requires PrimedAt(window[..], strstart0 + 1, insH0, bits)
    modifies head, prev
    ensures strstart == strstart0 + count0 && insH < Pow2(bits) && PrimedAt(window[..], strstart + 1, insH, bits)
    ensures Table(window[..], head[..], prev[..], hist, base, ins, end, strstart + 1, bits)
    ensures ins == ins0 + Places(strstart0 + 1, strstart + 1)
  {
    hide Table, HashBits, Pow2, PrimedAt, KeyAt;
    strstart, insH, ins := strstart0, insH0, ins0;
    var count := count0;
    while count != 0
      invariant count <= count0 && strstart == strstart0 + (count0 - count) && insH < Pow2(bits)
      invariant PrimedAt(window[..], strstart + 1, insH, bits) && ins == ins0 + Places(strstart0 + 1, strstart + 1)
      invariant Table(window[..], head[..], prev[..], hist, base, ins, end, strstart + 1, bits)
    {
      strstart := strstart + 1;
      var hashHead;
      insH, hashHead, ins := InsertString(window, head, prev, insH, strstart, bits, hist, base, ins, end);
      count := count - 1;
    }
  }

  /** do { if (++s->strstart <= max_insert) INSERT_STRING } while (--count != 0) */
  method InsertRun(window: array<byte>, head: array<nat>, prev: array<nat>, insH0: nat, strstart0: nat, count0: nat, maxInsert: nat,
                   bits: nat, ghost hist: seq<byte>, ghost base: nat, ghost ins0: set<nat>, ghost end: nat,
                   ghost top: nat)
    returns (strstart: nat, insH: nat, ghost ins: set<nat>)
    requires HashBits(bits) && head != prev && insH0 < Pow2(bits) && count0 > 0 && maxInsert + 3 == end
    requires Table(window[..], head[..], prev[..], hist, base, ins0, end, top, bits) && (strstart0 <= maxInsert ==> top == strstart0 + 1)
    requires strstart0 <= maxInsert ==> PrimedAt(window[..], strstart0 + 1, insH0, bits)
    modifies head, prev
    ensures strstart == strstart0 + count0 && insH < Pow2(bits)
    ensures Table(window[..], head[..], prev[..], hist, base, ins, end, if strstart0 <= maxInsert then strstart + 1 else top, bits)
    ensures strstart <= maxInsert ==> PrimedAt(window[..], strstart + 1, insH, bits)
    ensures ins == ins0 + Places(strstart0 + 1, if strstart <= maxInsert then strstart + 1 else maxInsert + 1)
  {
    hide Table, HashBits, Pow2, PrimedAt, KeyAt;
    strstart, insH, ins := strstart0, insH0, ins0;
    var count := count0;
    while count != 0
      invariant count <= count0 && strstart == strstart0 + (count0 - count) && insH < Pow2(bits)
      invariant Table(window[..], head[..], prev[..], hist, base, ins, end, if strstart0 <= maxInsert then strstart + 1 else top, bits)
      invariant strstart <= maxInsert ==> PrimedAt(window[..], strstart + 1, insH, bits)
      invariant ins == ins0 + Places(strstart0 + 1, if strstart <= maxInsert then strstart + 1 else maxInsert + 1)
    {
      strstart := strstart + 1;
      if strstart <= maxInsert {
        var hashHead;
        insH, hashHead, ins := InsertString(window, head, prev, insH, strstart, bits, hist, base, ins, end);
      } else if strstart0 <= maxInsert {
        TableTop(window[..], head[..], prev[..], hist, base, ins, end, strstart, strstart + 1, bits);
      }
      count := count - 1;
    }
  }

  /** The place up to which strings are inserted: n, but for those that have fewer than
      three bytes before the end. */
  function Upto(n: nat, end: nat): int { if n + 2 <= end then n else end - 2 }

  lemma ChainStart(win: seq<byte>, ins: set<nat>, first: nat, strstart: nat, bits: nat)
    requires strstart + 2 < |win| && Link(win, ins, first, KeyAt(win, strstart, bits), bits, strstart)
    ensures first == NIL || (first in ins && first < strstart && first + 2 < |win| && KeyAt(win, first, bits) == KeyAt(win, strstart, bits))
  {
    hide KeyAt;
  }

  lemma KeepsSame(ins: set<nat>, base: nat)
    ensures Keeps(ins, base, ins, base)
  {
  }

  lemma HandedSize(s: BitSink)
    ensures s.Limit() == 8 * (|s.written| - s.count + s.buf.Length)
  {
  }

  lemma SamePrefix(a: seq<byte>, b: seq<byte>, n: nat)
    requires a <= b && n <= |a|
    ensures a[..n] == b[..n]
  {
  }

  lemma TableForgets(win: seq<byte>, head: seq<nat>, prev: seq<nat>, hist: seq<byte>, bits: nat)
    requires |win| == 2 * |prev| && |prev| > 0 && |head| == Pow2(bits) && forall h :: 0 <= h < |head| ==> head[h] == NIL
    ensures Table(win, head, prev, hist, |hist|, {}, 0, 0, bits)
  {
    hide Pow2;
    NoChains(win, head, prev, bits);
  }

  lemma GoodLength(win: seq<byte>, strstart: nat, start: int, len: nat, wSize: nat)
    requires GoodMatch(win, strstart, start, len, wSize)
    ensures len <= MAX_MATCH
  {
  }

  /** The bytes of the block in progress are in the window. */
  lemma WindowData(win: seq<byte>, hist: seq<byte>, base: nat, strstart: nat, lookahead: nat, start: nat)
    requires Holds(win, hist, base, strstart + lookahead) && start <= strstart
    ensures strstart <= |win| && base + strstart <= |hist|
    ensures hist[..base + strstart] == hist[..base + start] + win[start..strstart]
  {
    var end := strstart + lookahead;
    assert forall k :: 0 <= k < end ==> win[..end][k] == hist[base..][k];
    assert hist[..base + strstart] == hist[..base + start] + hist[base + start..base + strstart];
    assert win[start..strstart] == hist[base + start..base + strstart];
  }

  lemma HoldsFacts(win: seq<byte>, hist: seq<byte>, base: nat, end: nat)
    requires Holds(win, hist, base, end)
    ensures end <= |win| && |hist| == base + end && forall k :: 0 <= k < end ==> win[k] == hist[base + k]
  {
    assert forall k :: 0 <= k < end ==> win[..end][k] == hist[base..][k];
  }

  lemma NoneRead(hist: seq<byte>, input: seq<byte>, n: nat)
    requires n <= |input|
    ensures hist + input[n..n] == hist
  {
  }

  lemma AllRead(hist: seq<byte>, input: seq<byte>, i: nat, j: nat, k: nat)
    requires i <= j <= k <= |input|
    ensures hist + input[i..j] + input[j..k] == hist + input[i..k]
  {
    assert input[i..j] + input[j..k] == input[i..k];
  }

  method NewTables(wSize: nat, hashBits: nat) returns (window: array<byte>, head: array<nat>, prev: array<nat>)
    requires wSize > 0
    ensures fresh(window) && fresh(head) && fresh(prev) && head != prev
    ensures window.Length == 2 * wSize && prev.Length == wSize && head.Length == Pow2(hashBits)
    ensures forall h :: 0 <= h < head.Length ==> head[h] == NIL
  {
    hide Pow2;
    window := new byte[2 * wSize];
    head := new nat[Pow2(hashBits)];
    prev := new nat[wSize];
    ClearHash(head);
  }

  /** CLEAR_HASH(s) */
  method ClearHash(head: array<nat>)
    modifies head
    ensures forall h :: 0 <= h < head.Length ==> head[h] == NIL
  {
    for h := 0 to head.Length
      invariant forall g :: 0 <= g < h ==> head[g] == NIL
    {
      head[h] := NIL;
    }
  }

  lemma TableStarts(win: seq<byte>, head: seq<nat>, prev: seq<nat>, bits: nat)
    requires |win| == 2 * |prev| && |prev| > 0 && |head| == Pow2(bits) && forall h :: 0 <= h < |head| ==> head[h] == NIL
    ensures Table(win, head, prev, [], 0, {}, 0, 0, bits)
  {
    hide Pow2;
    NoChains(win, head, prev, bits);
  }

  lemma HashedSlides(win: seq<byte>, win': seq<byte>, n: nat, strstart: nat, lookahead: nat, insert: nat, insH: nat, bits: nat)
    requires n + MIN_MATCH <= strstart && strstart + lookahead <= |win|
    requires |win| == |win'| == 2 * n && forall k :: 0 <= k < n ==> win'[k] == win[n + k]
    ensures Hashed(win, strstart, lookahead, insert, insH, bits) ==> Hashed(win', strstart - n, lookahead, insert, insH, bits)
  {
    hide Primed, Pow2;
  }

  lemma HashedSame(win: seq<byte>, win': seq<byte>, strstart: nat, lookahead: nat, insert: nat, insH: nat, bits: nat)
    requires |win'| == |win| && strstart + lookahead <= |win| && win[..strstart + lookahead] == win'[..strstart + lookahead]
    ensures Hashed(win, strstart, lookahead, insert, insH, bits) ==> Hashed(win', strstart, lookahead, insert, insH, bits)
  {
    hide Primed, Pow2;
    var end := strstart + lookahead;
    assert forall k :: 0 <= k < end ==> win[..end][k] == win[k] && win'[..end][k] == win'[k];
  }
}
