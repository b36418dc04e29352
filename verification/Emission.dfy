/** What deflate() of deps/zlib/deflate.c has emitted so far stands for its input:
    all of it, and on its own what has come since the last full flush. */
module Emission {
  import opened Bits
  import opened Tokens
  import opened HashChain
  import opened BlockStream
  import opened DeflateHistory
  import TokenSender

  /** A place from which the stream can be decoded on its own: the blocks, input and
      output before it. */
  datatype Restart = Restart(blocks: seq<Block>, text: seq<byte>, bytes: seq<byte>)

  /** The output up to there is those blocks, and ends on a byte boundary. */
  ghost predicate OnByte(k: Restart)
  {
    AllSendable(k.blocks) && Open(k.blocks) && BytesBits(k.bytes) == SendAll([], k.blocks)
  }

  lemma ByteReached(sent: seq<Block>, text: seq<byte>, bytes: seq<byte>)
    requires AllSendable(sent) && Open(sent) && BytesBits(bytes) == SendAll([], sent)
    ensures OnByte(Restart(sent, text, bytes))
  {
    hide BytesBits, SendAll;
  }

  /** Blocks and tokens stand for the first upto bytes of hist, and the block in
      progress begins at from. */
  ghost predicate Stands(sent: seq<Block>, ts: seq<Token>, hist: seq<byte>, upto: nat, from: int)
  {
    upto <= |hist| && Covers(sent, ts, hist[..upto]) && AllRefer(sent, []) && from == |MeaningAll([], sent)|
  }

  /** They do from the beginning, and from the last restart. */
  ghost predicate Emitted(sent: seq<Block>, ts: seq<Token>, hist: seq<byte>, upto: nat, from: int, k: Restart)
  {
    && Stands(sent, ts, hist, upto, from)
    && k.blocks <= sent && k.text <= hist && |k.text| <= upto
    && Stands(sent[|k.blocks|..], ts, hist[|k.text|..], upto - |k.text|, from - |k.text|)
  }

  lemma EmittedStands(sent: seq<Block>, ts: seq<Token>, hist: seq<byte>, upto: nat, from: int, k: Restart)
    requires Emitted(sent, ts, hist, upto, from, k)
    ensures Stands(sent, ts, hist, upto, from) && upto <= |hist|
  {
    hide Covers, AllRefer, MeaningAll;
  }

  /** A match that may be emitted for the input at place at, and does not reach back
      before place floor. */
  predicate Pending(hist: seq<byte>, at: int, dist: int, len: nat, wSize: nat, floor: nat)
  {
    0 <= at && Repeats(hist, at, dist, len) && dist <= MaxDist(wSize) && len <= MAX_MATCH && dist <= at - floor
  }

  /** The match found for the previous string, held back while a better one is
      looked for; at is the current string. */
  predicate Waiting(hist: seq<byte>, at: nat, lookahead: nat, len: nat, dist: int, available: bool, wSize: nat, floor: nat)
  {
    && 2 <= len <= MAX_MATCH
    && (len >= MIN_MATCH ==> available && Pending(hist, at - 1, dist, len, wSize, floor) && len <= lookahead + 1)
  }

  lemma PendingRange(hist: seq<byte>, at: int, dist: int, len: nat, wSize: nat, floor: nat)
    requires Pending(hist, at, dist, len, wSize, floor)
    ensures 1 <= dist && len <= MAX_MATCH
  {
  }

  lemma WaitingIs(hist: seq<byte>, at: nat, lookahead: nat, len: nat, dist: int, available: bool, wSize: nat, floor: nat)
    requires Waiting(hist, at, lookahead, len, dist, available, wSize, floor)
    ensures 2 <= len <= MAX_MATCH
    ensures len >= MIN_MATCH ==> available && 1 <= at && Pending(hist, at - 1, dist, len, wSize, floor) && len <= lookahead + 1
  {
  }

  /** The match found now waits in its turn. */
  lemma WaitsNow(hist: seq<byte>, at: nat, lookahead: nat, len: nat, dist: int, prev: nat, wSize: nat, floor: nat)
    requires 2 <= len && 2 <= prev && (prev < MIN_MATCH || len > prev) && 1 <= lookahead
    requires len > prev ==> len <= lookahead && Pending(hist, at, dist, len, wSize, floor)
    ensures Waiting(hist, at + 1, lookahead - 1, len, dist, true, wSize, floor)
  {
  }

  lemma WaitingGrows(hist0: seq<byte>, hist: seq<byte>, at: nat, lookahead: nat, len: nat, dist: int, available: bool, wSize: nat,
                     floor: nat, lookahead0: nat)
    requires Waiting(hist0, at, lookahead0, len, dist, available, wSize, floor) && hist0 <= hist && lookahead0 <= lookahead
    ensures Waiting(hist, at, lookahead, len, dist, available, wSize, floor)
  {
  }

  lemma NoneWaiting(hist: seq<byte>, at: nat, dist: int, wSize: nat, floor: nat)
    ensures Waiting(hist, at, 0, 2, dist, false, wSize, floor)
  {
  }

  /** A match in the window begins after the place where the window does. */
  lemma GoodPending(win: seq<byte>, hist: seq<byte>, base: nat, end: nat, strstart: nat, start: int, len: nat, wSize: nat, floor: nat)
    requires Holds(win, hist, base, end) && GoodMatch(win, strstart, start, len, wSize) && strstart + len <= end && floor <= base
    ensures Pending(hist, base + strstart, strstart - start, len, wSize, floor)
  {
    hide Holds, Repeats;
    GoodRepeats(win, hist, base, end, strstart, start, len, wSize);
  }

  // ---------- what is emitted ----------

  /** Without tokens everything has been sent. */
  lemma NothingLeft(sent: seq<Block>, ts: seq<Token>, hist: seq<byte>, at: nat, from: int, k: Restart)
    requires Emitted(sent, ts, hist, at, from, k) && ts == []
    ensures from == at
  {
    hide MeaningAll, AllRefer;
  }

  lemma OnlyPlace(sent: seq<Block>, ts: seq<Token>, hist: seq<byte>, at: nat, from: int, at': nat, from': int, k: Restart)
    requires Emitted(sent, ts, hist, at, from, k) && Emitted(sent, ts, hist, at', from', k)
    ensures at == at' && from == from'
  {
    hide MeaningAll, AllRefer, ValidTokens, ExpandAll;
    assert |hist[..at]| == at && |hist[..at']| == at';
  }

  lemma {:induction false} TokensNone(out: seq<byte>, ts: seq<Token>, data: seq<byte>)
    requires ValidTokens(ts, |out|) && ExpandAll(out, ts) == data && |data| == |out|
    ensures ts == [] && data == out
  {
    hide CopyBack;
    if ts != [] { ExpandSize1(out, ts[0]); }
  }

  lemma ExpandSize1(out: seq<byte>, t: Token)
    requires ValidToken(t, |out|)
    ensures |Expand(out, t)| > |out|
  {
  }

  /** An empty block changes nothing. */
  lemma MarkerStands(sent: seq<Block>, ts: seq<Token>, hist: seq<byte>, at: nat, b: Block)
    requires Stands(sent, ts, hist, at, at) && b in {StoredBlock(false, []), StaticBlock(false, [])}
    ensures Stands(sent + [b], ts, hist, at, at)
  {
    hide MeaningAll, AllRefer;
    TokensNone(MeaningAll([], sent), ts, hist[..at]);
    assert hist[..at] + [] == hist[..at];
    CoversBlock(sent, ts, hist[..at], b);
  }

  lemma Later(sent: seq<Block>, b: Block, k: Restart)
    requires k.blocks <= sent
    ensures k.blocks <= sent + [b] && (sent + [b])[|k.blocks|..] == sent[|k.blocks|..] + [b]
  {
  }

  lemma MarkerEmitted(sent: seq<Block>, ts: seq<Token>, hist: seq<byte>, at: nat, k: Restart, b: Block)
    requires Emitted(sent, ts, hist, at, at, k) && b in {StoredBlock(false, []), StaticBlock(false, [])}
    ensures Emitted(sent + [b], ts, hist, at, at, k)
  {
    hide Stands;
    Later(sent, b, k);
    MarkerStands(sent, ts, hist, at, b);
    MarkerStands(sent[|k.blocks|..], ts, hist[|k.text|..], at - |k.text|, b);
  }

  lemma LiteralStands(sent: seq<Block>, ts: seq<Token>, hist: seq<byte>, at: nat, from: int)
    requires Stands(sent, ts, hist, at, from) && at < |hist|
    ensures Stands(sent, ts + [TokenSender.TokenOf(0, hist[at])], hist, at + 1, from)
  {
    hide Covers, AllRefer, MeaningAll;
    CoversLiteral(sent, ts, hist, at);
  }

  lemma LiteralEmitted(sent: seq<Block>, ts: seq<Token>, hist: seq<byte>, at: nat, from: int, k: Restart)
    requires Emitted(sent, ts, hist, at, from, k) && at < |hist|
    ensures Emitted(sent, ts + [TokenSender.TokenOf(0, hist[at])], hist, at + 1, from, k)
  {
    hide Stands;
    LiteralStands(sent, ts, hist, at, from);
    LiteralStands(sent[|k.blocks|..], ts, hist[|k.text|..], at - |k.text|, from - |k.text|);
  }

  lemma MatchStands(sent: seq<Block>, ts: seq<Token>, hist: seq<byte>, at: nat, from: int, dist: nat, len: nat)
    requires Stands(sent, ts, hist, at, from) && Repeats(hist, at, dist, len) && 3 <= len <= MAX_MATCH && dist <= WSIZE
    ensures Stands(sent, ts + [TokenSender.TokenOf(dist, len - 3)], hist, at + len, from)
  {
    hide Covers, AllRefer, MeaningAll;
    CoversMatch(sent, ts, hist, at, dist, len);
  }

  lemma MatchEmitted(sent: seq<Block>, ts: seq<Token>, hist: seq<byte>, at: nat, from: int, k: Restart, dist: nat, len: nat, wSize: nat)
    requires Emitted(sent, ts, hist, at, from, k) && Pending(hist, at, dist, len, wSize, |k.text|) && 3 <= len && wSize <= WSIZE
    ensures dist <= WSIZE && len - 3 <= 255
    ensures Emitted(sent, ts + [TokenSender.TokenOf(dist, len - 3)], hist, at + len, from, k)
  {
    hide Stands;
    MatchStands(sent, ts, hist, at, from, dist, len);
    RepeatsLater(hist, at, dist, len, |k.text|);
    MatchStands(sent[|k.blocks|..], ts, hist[|k.text|..], at - |k.text|, from - |k.text|, dist, len);
  }

  lemma RepeatsLater(hist: seq<byte>, at: nat, dist: nat, len: nat, floor: nat)
    requires Repeats(hist, at, dist, len) && floor <= |hist| && dist <= at - floor
    ensures Repeats(hist[floor..], at - floor, dist, len)
  {
    forall p | at - floor <= p < at - floor + len
      ensures hist[floor..][p - dist] == hist[floor..][p]
    {
      assert hist[p + floor - dist] == hist[p + floor];
    }
  }

  lemma StandsGrows(sent: seq<Block>, ts: seq<Token>, hist0: seq<byte>, hist: seq<byte>, at: nat, from: int)
    requires Stands(sent, ts, hist0, at, from) && hist0 <= hist
    ensures Stands(sent, ts, hist, at, from)
  {
    hide Covers;
    assert hist[..at] == hist0[..at];
  }

  lemma EmittedGrows(sent: seq<Block>, ts: seq<Token>, hist0: seq<byte>, hist: seq<byte>, at: nat, from: int, k: Restart)
    requires Emitted(sent, ts, hist0, at, from, k) && hist0 <= hist
    ensures Emitted(sent, ts, hist, at, from, k)
  {
    hide Stands;
    StandsGrows(sent, ts, hist0, hist, at, from);
    StandsGrows(sent[|k.blocks|..], ts, hist0[|k.text|..], hist[|k.text|..], at - |k.text|, from - |k.text|);
  }

  lemma StandsPlace(sent: seq<Block>, ts: seq<Token>, hist: seq<byte>, at: nat, from: int)
    requires Stands(sent, ts, hist, at, from)
    ensures 0 <= from <= at <= |hist|
  {
    hide AllRefer, MeaningAll, ValidTokens, ExpandAll;
  }

  lemma BlockPlace(sent: seq<Block>, ts: seq<Token>, hist: seq<byte>, at: nat, from: int, k: Restart)
    requires Emitted(sent, ts, hist, at, from, k)
    ensures |k.text| <= from <= at <= |hist|
  {
    hide Stands;
    StandsPlace(sent, ts, hist, at, from);
    StandsPlace(sent[|k.blocks|..], ts, hist[|k.text|..], at - |k.text|, from - |k.text|);
  }

  lemma BlockStands(sent: seq<Block>, ts: seq<Token>, hist: seq<byte>, at: nat, from: nat, b: Block)
    requires Stands(sent, ts, hist, at, from) && from <= at
    requires if b.StoredBlock? then hist[..at] == hist[..from] + b.data else b.ts == ts
    ensures Stands(sent + [b], [], hist, at, at)
  {
    hide AllRefer, MeaningAll, ValidTokens, ExpandAll;
    assert MeaningAll([], sent) == hist[..from] by { assert hist[..at][..from] == hist[..from]; }
    CoversBlock(sent, ts, hist[..at], b);
  }

  /** A block for the tokens, or for the bytes that they stand for. */
  lemma BlockEmitted(sent: seq<Block>, ts: seq<Token>, hist: seq<byte>, at: nat, from: nat, k: Restart, b: Block)
    requires Emitted(sent, ts, hist, at, from, k) && from <= at
    requires if b.StoredBlock? then hist[..at] == hist[..from] + b.data else b.ts == ts
    ensures Emitted(sent + [b], [], hist, at, at, k)
  {
    hide Stands;
    BlockPlace(sent, ts, hist, at, from, k);
    BlockStands(sent, ts, hist, at, from, b);
    Later(sent, b, k);
    var n := |k.text|;
    if b.StoredBlock? {
      assert hist[n..][..at - n] == hist[..at][n..] && hist[n..][..from - n] == hist[..from][n..];
      assert hist[..at][n..] == hist[..from][n..] + b.data;
    }
    BlockStands(sent[|k.blocks|..], ts, hist[n..], at - n, from - n, b);
  }

  lemma NothingStands()
    ensures Stands([], [], [], 0, 0)
  {
    CoversNothing();
    assert forall h: seq<byte> :: h == [] ==> h[..0] == [];
  }

  lemma NothingEmitted()
    ensures Emitted([], [], [], 0, 0, Restart([], [], [])) && OnByte(Restart([], [], []))
  {
    hide Stands;
    NothingStands();
  }

  /** Where everything has been sent and nothing is looked at any more, the stream
      can start again. */
  lemma Restarts(sent: seq<Block>, ts: seq<Token>, hist: seq<byte>, k: Restart, bytes: seq<byte>)
    requires Emitted(sent, ts, hist, |hist|, |hist|, k) && ts == []
    ensures Emitted(sent, ts, hist, |hist|, |hist|, Restart(sent, hist, bytes))
  {
    hide Stands;
    NothingStands();
    assert sent[|sent|..] == [] && hist[|hist|..] == [];
  }
}
