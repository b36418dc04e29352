/** What the flushes of deflate() promise (deps/zlib/zlib.h): a decompressor can
    get all input so far from the output so far, and after a full flush the stream
    can be decoded from there on its own. */
module FlushedStream {
  import opened Bits
  import opened HuffmanCode
  import opened Tokens
  import opened InflateSpec
  import opened InflateProps
  import opened Demand
  import opened BitWriter
  import opened BlockTrees
  import opened BlockStream
  import opened BlockCoder
  import opened BlockFormat
  import opened InflateHistory
  import opened InflateState
  import opened Inflate
  import opened DeflateHistory
  import opened Emission
  import opened RoundTrip
  import Deflate

  /** Blocks that end on a byte boundary, none of them the last: the decoder waits
      for the next block, with all they mean. */
  lemma OpenDecodes(bs: seq<Block>, bytes: seq<byte>, m: Machine, p: seq<bool>)
    requires AllSendable(bs) && Open(bs) && AllRefer(bs, []) && BytesBits(bytes) == SendAll([], bs)
    requires forall i :: 0 <= i < |bs| ==> Acceptable(bs[i])
    requires Fed(bytes, m, p) && Step(m, p) == Stuck
    ensures m.mode == TYPE && m.out == MeaningAll([], bs)
  {
    hide Reaches, Step, BytesBits, Sendable, Acceptable, SendAll, MeaningAll, AllRefer, Sound, AllSendable;
    var b := BytesBits(bytes);
    var b1 :| Reaches(InflateSpec.Start(), b, m, b1) && (m.mode == BAD || b1 == p);
    BadIsStuck(m, b1);
    StartSound();
    OpenInit(bs);
    assert b + [] == b;
    var d := BlocksDecode(InflateSpec.Start(), [], bs, []);
    assert After([], b + []) == b;
    TypeIsStuck(d);
    StuckUnique(InflateSpec.Start(), b, m, b1, d, []);
  }

  lemma OpenInit(bs: seq<Block>)
    requires Open(bs)
    ensures bs != [] ==> Open(bs[..|bs| - 1]) && !bs[|bs| - 1].last
  {
  }

  lemma TypeIsStuck(m: Machine)
    ensures m.mode == TYPE && !m.last ==> Step(m, []) == Stuck
  {
  }

  /** The bits of an empty static block, but for some at its end. */
  lemma PartOfMarker(s: seq<bool>, w: seq<bool>, left: seq<bool>) returns (y: seq<bool>)
    requires w + left == Send(s, StaticBlock(false, [])) && 0 < |left| < 8 && Sendable(StaticBlock(false, []))
    ensures s <= w && After(s, w) == HeaderBits(STATIC_TREES, false) + y
    ensures Used(FixedLengths(), END_BLOCK) && |y| < |CodeBits(FixedLengths(), END_BLOCK)| == 7 && y <= CodeBits(FixedLengths(), END_BLOCK)
  {
    hide HeaderBits, CodeBits, FixedLengths, FixedDists, Send, Sendable;
    EmptyStatic(s);
    FixedEnd7();
    var h, e := HeaderBits(STATIC_TREES, false), CodeBits(FixedLengths(), END_BLOCK);
    HeaderSize(STATIC_TREES, false);
    var all := s + h + e;
    assert w == all[..|all| - |left|];
    y := e[..7 - |left|];
    assert w == s + (h + y);
  }

  lemma FixedEnd7()
    ensures Used(FixedLengths(), END_BLOCK) && |CodeBits(FixedLengths(), END_BLOCK)| == 7
  {
  }

  /** The beginning of a code is not yet a symbol. */
  lemma PartOfCode(lens: Lengths, t: nat, y: seq<bool>)
    requires Used(lens, t) && y <= CodeBits(lens, t) && |y| < lens[t] && Complete(lens)
    ensures Decode(lens, y) == NeedMore
  {
    hide CodeBits, Kraft;
    forall s | Starts(lens, s, y)
      ensures false
    {
      PrefixFree(lens, s, t, CodeBits(lens, t));
    }
  }

  /** The same for a stream that lacks some bits of an empty static block at its end. */
  lemma MarkerDecodes(bs: seq<Block>, bytes: seq<byte>, left: seq<bool>, m: Machine, p: seq<bool>)
    requires AllSendable(bs) && Open(bs) && AllRefer(bs, []) && Sendable(StaticBlock(false, []))
    requires BytesBits(bytes) + left == Send(SendAll([], bs), StaticBlock(false, [])) && 0 < |left| < 8
    requires forall i :: 0 <= i < |bs| ==> Acceptable(bs[i])
    requires Fed(bytes, m, p) && Step(m, p) == Stuck
    ensures m.mode == LEN && m.out == MeaningAll([], bs)
  {
    hide Reaches, Step, BytesBits, Sendable, Acceptable, SendAll, MeaningAll, AllRefer, Sound, Send, HeaderBits, FixedLengths,
         FixedDists, CodeBits, AllSendable, Decode, Used;
    var b, s := BytesBits(bytes), SendAll([], bs);
    var y := PartOfMarker(s, b, left);
    var h := HeaderBits(STATIC_TREES, false);
    var b1 :| Reaches(InflateSpec.Start(), b, m, b1) && (m.mode == BAD || b1 == p);
    BadIsStuck(m, b1);
    assert b == s + (h + y);
    var d := DecodesFirst(bs, s, b);
    HeaderStep(d, STATIC_TREES, false, y);
    HeaderSize(STATIC_TREES, false);
    ReachesStep(d, h + y);
    var d1 := Step(d, h + y).m;
    WaitsForCode(d1, y);
    ReachesTrans(InflateSpec.Start(), b, d, h + y, d1, y);
    StuckUnique(InflateSpec.Start(), b, m, b1, d1, y);
  }

  lemma WaitsForCode(m: Machine, y: seq<bool>)
    requires m.mode == LEN && m.llens == FixedLengths()
    requires Used(FixedLengths(), END_BLOCK) && |y| < |CodeBits(FixedLengths(), END_BLOCK)| && y <= CodeBits(FixedLengths(), END_BLOCK)
    ensures Step(m, y) == Stuck
  {
    hide FixedLengths, CodeBits, Decode;
    FixedComplete();
    PartOfCode(FixedLengths(), END_BLOCK, y);
  }

  lemma AllSent(sent: seq<Block>, ts: seq<Token>, hist: seq<byte>, k: Restart)
    requires Emitted(sent, ts, hist, |hist|, |hist|, k) && ts == []
    ensures AllRefer(sent, []) && MeaningAll([], sent) == hist
  {
    hide AllRefer, MeaningAll;
    assert hist[..|hist|] == hist;
    NoTokensExpand(MeaningAll([], sent));
  }

  lemma AllHanded(d: Deflate.DeflateStream, flush: Deflate.Flush)
    requires d.Synced(flush)
    ensures d.put == d.coder.sink.written && d.coder.Valid() && !d.coder.finished && d.coder.lastLit == 0
    ensures Emitted(d.coder.sent, d.coder.Tokens(), d.hist, |d.hist|, |d.hist|, d.restart) && d.Marked(flush == Deflate.PartialFlush)
  {
    hide Emitted, OnByte, Coder.Valid;
  }

  /** An empty static block adds nothing to what the blocks before it mean. */
  lemma BeforeMarker(sent: seq<Block>, bs: seq<Block>)
    requires sent == bs + [StaticBlock(false, [])] && AllSendable(sent) && AllRefer(sent, []) && Open(sent)
    ensures AllSendable(bs) && Open(bs) && AllRefer(bs, []) && MeaningAll([], bs) == MeaningAll([], sent)
    ensures Sendable(StaticBlock(false, [])) && SendAll([], sent) == Send(SendAll([], bs), StaticBlock(false, []))
  {
    hide Sendable, SendAll, MeaningAll, AllRefer, Send;
    var n := |bs|;
    SplitAt([], [], sent, n);
    assert sent[..n] == bs && sent[n..] == [StaticBlock(false, [])];
    assert sent[n] == StaticBlock(false, []);
    NoMeaning(MeaningAll([], bs));
    SendAllPush([], bs, StaticBlock(false, []));
  }

  lemma NoMeaning(out: seq<byte>)
    ensures var bs := [StaticBlock(false, [])]; AllRefer(bs, out) && MeaningAll(out, bs) == out
  {
    NoTokensExpand(out);
    assert [StaticBlock(false, [])][1..] == [];
  }

  /** The bits that have not left the buffer. */
  lemma BitsLeft(c: Coder) returns (left: seq<bool>)
    requires c.Valid() && !c.finished
    ensures AllSendable(c.sent) && Open(c.sent) && |left| == c.sink.biValid && BytesBits(c.sink.written) + left == SendAll([], c.sent)
  {
    hide Coder.Ready, AllSendable, SendAll, Pow2, BytesBits, ToBits;
    left := ToBits(c.sink.biBuf, c.sink.biValid);
  }

  /** All the input there has been, from what has been handed out by the end of a
      flush, whatever came before and in whatever calls. */
  lemma AllRecovered(d: Deflate.DeflateStream, flush: Deflate.Flush, z: InflateStream)
    requires d.Synced(flush) && Through(z, d.put)
    requires forall i :: 0 <= i < |d.coder.sent| ==> Acceptable(d.coder.sent[i])
    ensures z.m.out == d.hist && !Halted(z.m)
  {
    hide Fed, Step, Sendable, Acceptable, SendAll, MeaningAll, AllRefer, Through, Emitted, OnByte, Coder.Valid, BytesBits, Deflate.DeflateStream.Synced,
         Coder.Tokens, AllSendable, Send;
    var c := d.coder;
    c.NoTokens();
    AllHanded(d, flush);
    AllSent(c.sent, c.Tokens(), d.hist, d.restart);
    var q := AllOffered(z, d.put);
    var left := BitsLeft(c);
    if c.sink.biValid == 0 {
      c.OnBoundary();
      OpenDecodes(c.sent, d.put, z.m, q);
    } else {
      var bs := c.sent[..|c.sent| - 1];
      assert c.sent == bs + [StaticBlock(false, [])];
      BeforeMarker(c.sent, bs);
      MarkerDecodes(bs, d.put, left, z.m, q);
    }
  }

  // ---------- the bytes of a flush ----------

  /** A stored block without data ends with its length and the complement of that. */
  lemma {:induction false} EmptyStoredBytes(w: seq<byte>, x: seq<bool>)
    requires BytesBits(w) == x + ToBits(0, 16) + ToBits(0xFFFF, 16)
    ensures |w| >= 4 && w[|w| - 4..] == [0, 0, 0xFF, 0xFF]
    decreases |w|
  {
    hide ToBits;
    var t := ToBits(0, 16) + ToBits(0xFFFF, 16);
    if |w| > 4 {
      assert |x| >= 8;
      assert BytesBits(w)[8..] == BytesBits(w[1..]);
      assert x + ToBits(0, 16) + ToBits(0xFFFF, 16) == x[..8] + (x[8..] + ToBits(0, 16) + ToBits(0xFFFF, 16));
      EmptyStoredBytes(w[1..], x[8..]);
    } else {
      assert |w| == 4 && x == [];
      MarkerBytes();
      assert x + ToBits(0, 16) + ToBits(0xFFFF, 16) == t;
      assert BytesBits(w) + [] == BytesBits(w) && BytesBits([0, 0, 0xFF, 0xFF]) + [] == BytesBits([0, 0, 0xFF, 0xFF]);
      BytesStay(w, [], [0, 0, 0xFF, 0xFF], []);
    }
  }

  lemma MarkerBytes()
    ensures BytesBits([0, 0, 0xFF, 0xFF]) == ToBits(0, 16) + ToBits(0xFFFF, 16)
  {
    hide ToBits, BytesBits;
    ShortBytes(0);
    ShortBytes(0xFFFF);
    LowHigh();
    var lo: seq<byte>, hi: seq<byte> := [0, 0], [0xFF, 0xFF];
    assert lo + hi == [0, 0, 0xFF, 0xFF];
    BytesBitsConcat(lo, hi);
  }

  lemma LowHigh()
    ensures Low(0, 8) == 0 && Shr(0, 8) == 0 && Low(0xFFFF, 8) == 0xFF && Shr(0xFFFF, 8) == 0xFF
  {
    Pow2Values();
    ShlTimes(0xFF, 8);
    LowShrUnique(0xFF, 0xFF, 8);
    LowSmall(0, 8);
  }

  /** After a sync or full flush the output is whole bytes, with nothing left in the
      bit buffer, and ends with 00 00 FF FF. */
  lemma EndsOnByte(d: Deflate.DeflateStream, flush: Deflate.Flush)
    requires d.Synced(flush) && flush in {Deflate.SyncFlush, Deflate.FullFlush}
    ensures d.coder.sink.biValid == 0 && AllSendable(d.coder.sent) && BytesBits(d.put) == SendAll([], d.coder.sent)
    ensures |d.put| >= 4 && d.put[|d.put| - 4..] == [0, 0, 0xFF, 0xFF]
  {
    hide Sendable, SendAll, Emitted, OnByte, Coder.Valid, BytesBits, Deflate.DeflateStream.Synced, AllSendable, Send, ToBits, Aligned;
    AllHanded(d, flush);
    var c := d.coder;
    c.OnBoundary();
    var bs := c.sent[..|c.sent| - 1];
    assert c.sent == bs + [StoredBlock(false, [])];
    LastSent(c.sent, bs, StoredBlock(false, []));
    var x := Aligned(SendAll([], bs) + HeaderBits(STORED_BLOCK, false));
    EmptyStoredBits(SendAll([], bs));
    EmptyStoredBytes(d.put, x);
  }

  lemma LastSent(sent: seq<Block>, bs: seq<Block>, b: Block)
    requires sent == bs + [b] && AllSendable(sent)
    ensures AllSendable(bs) && Sendable(b) && SendAll([], sent) == Send(SendAll([], bs), b)
  {
    hide Sendable, Send, SendAll;
    assert sent[|bs|] == b;
    assert forall i :: 0 <= i < |bs| ==> bs[i] == sent[i];
    SendAllPush([], bs, b);
  }

  lemma EmptyStoredBits(s: seq<bool>)
    ensures Sendable(StoredBlock(false, []))
    ensures Send(s, StoredBlock(false, [])) == Aligned(s + HeaderBits(STORED_BLOCK, false)) + ToBits(0, 16) + ToBits(0xFFFF, 16)
  {
    hide ToBits, Aligned;
    var x := Aligned(s + HeaderBits(STORED_BLOCK, false)) + ToBits(0, 16) + ToBits(0xFFFF, 16);
    assert x + [] == x;
  }

  // ---------- from a full flush on ----------

  /** Whole bytes before a block do not change its bits. */
  lemma AlignedAfter(p: seq<bool>, x: seq<bool>)
    requires |p| % 8 == 0
    ensures Aligned(p + x) == p + Aligned(x)
  {
    SameRest(|p|, |x|);
    assert p + x + Padding(|x|) == p + (x + Padding(|x|));
  }

  lemma SameRest(m: nat, n: nat)
    requires m % 8 == 0
    ensures Padding(m + n) == Padding(n)
  {
  }

  lemma SendAfter(p: seq<bool>, s: seq<bool>, b: Block)
    requires |p| % 8 == 0 && Sendable(b)
    ensures Send(p + s, b) == p + Send(s, b)
  {
    hide Aligned, HeaderBits, ToBits, BytesBits, StaticBits, DynamicBits, Sendable, FixedLengths, FixedDists;
    match b
    case StoredBlock(last, data) =>
      var h := HeaderBits(STORED_BLOCK, last);
      assert p + s + h == p + (s + h);
      AlignedAfter(p, s + h);
      StoredSize(b);
      var x, y, z := ToBits(|data|, 16), ToBits(0xFFFF - |data|, 16), BytesBits(data);
      assert p + Aligned(s + h) + x + y + z == p + (Aligned(s + h) + x + y + z);
    case StaticBlock(last, ts) =>
      SendableStatic(b);
      assert p + s + StaticBits(last, ts) == p + (s + StaticBits(last, ts));
    case DynamicBlock(last, ts, tr) =>
      DynamicAfter(p, s, b);
  }

  lemma StoredSize(b: Block)
    requires Sendable(b) && b.StoredBlock?
    ensures |b.data| <= 0xFFFF
  {
  }

  lemma SendableStatic(b: Block)
    requires Sendable(b) && b.StaticBlock?
    ensures AllCodable(FixedLengths(), FixedDists(), b.ts) && Used(FixedLengths(), END_BLOCK)
  {
  }

  lemma DynamicAfter(p: seq<bool>, s: seq<bool>, b: Block)
    requires Sendable(b) && b.DynamicBlock?
    ensures Send(p + s, b) == p + Send(s, b)
  {
    hide DynamicBits, Sendable;
    var x := DynamicSent(b);
    assert p + s + x == p + (s + x);
    assert Send(s, b) == s + x && Send(p + s, b) == p + s + x;
  }

  lemma DynamicSent(b: Block) returns (x: seq<bool>)
    requires Sendable(b) && b.DynamicBlock?
    ensures forall s :: Send(s, b) == s + x
  {
    hide DynamicBits;
    var tr := b.tr;
    x := DynamicBits(b.last, tr.ll, tr.dl, tr.bl, tr.blcodes, b.ts);
  }

  lemma {:induction false} SendAllAfter(p: seq<bool>, s: seq<bool>, bs: seq<Block>)
    requires |p| % 8 == 0 && AllSendable(bs)
    ensures SendAll(p + s, bs) == p + SendAll(s, bs)
    decreases |bs|
  {
    hide Send, Sendable;
    if bs != [] {
      SendAfter(p, s, bs[0]);
      SendAllAfter(p, Send(s, bs[0]), bs[1..]);
    }
  }

  /** What has been handed out since a full flush, offered to a decoder on its own,
      gives back the input since then. */
  lemma RestartRecovered(d: Deflate.DeflateStream, z: InflateStream)
    requires d.Session() && d.finishing && d.put == d.coder.sink.written
    requires Through(z, d.Since())
    ensures d.restart.blocks <= d.coder.sent && d.restart.text <= d.hist && AllRefer(d.coder.sent[|d.restart.blocks|..], [])
    ensures (forall i :: |d.restart.blocks| <= i < |d.coder.sent| ==> Acceptable(d.coder.sent[i])) <==> z.m.mode == DONE
    ensures z.m.mode == DONE ==> z.m.out == d.hist[|d.restart.text|..]
  {
    hide Fed, Step, Sendable, Acceptable, SendAll, MeaningAll, AllRefer, Through, Emitted, OnByte, BytesBits, Aligned, Open, AllSendable,
         Deflate.DeflateStream.Session;
    var c, k := d.coder, d.restart;
    Ended(d);
    var q := AllOffered(z, d.put[|k.bytes|..]);
    RestSent(c.sent, c.Tokens(), d.hist, k);
    RestWritten(c.sent, d.put, k);
    var rest := c.sent[|k.blocks|..];
    Decompresses(rest, d.put[|k.bytes|..], z.m, q);
    assert forall i :: |k.blocks| <= i < |c.sent| ==> c.sent[i] == rest[i - |k.blocks|];
  }

  lemma Ended(d: Deflate.DeflateStream)
    requires d.Session() && d.finishing
    ensures var c := d.coder;
            && Emitted(c.sent, c.Tokens(), d.hist, |d.hist|, |d.hist|, d.restart) && c.Tokens() == [] && OnByte(d.restart)
            && c.sent != [] && AllSendable(c.sent) && Open(c.sent[..|c.sent| - 1]) && c.sent[|c.sent| - 1].last
            && BytesBits(c.sink.written) == Aligned(SendAll([], c.sent)) && d.restart.bytes <= c.sink.written
  {
    hide Emitted, OnByte, Coder.Ready, BytesBits, Aligned, Open, AllSendable, Sendable, SendAll, Pow2;
    d.coder.NoTokens();
  }

  lemma RestSent(sent: seq<Block>, ts: seq<Token>, hist: seq<byte>, k: Restart)
    requires Emitted(sent, ts, hist, |hist|, |hist|, k) && ts == []
    ensures k.blocks <= sent && k.text <= hist
    ensures var rest := sent[|k.blocks|..]; AllRefer(rest, []) && MeaningAll([], rest) == hist[|k.text|..]
  {
    hide AllRefer, MeaningAll;
    var h := hist[|k.text|..];
    assert h[..|h|] == h;
    NoTokensExpand(MeaningAll([], sent[|k.blocks|..]));
  }

  /** The blocks since then are a stream of their own. */
  lemma RestWritten(sent: seq<Block>, bytes: seq<byte>, k: Restart)
    requires sent != [] && AllSendable(sent) && Open(sent[..|sent| - 1]) && sent[|sent| - 1].last
    requires BytesBits(bytes) == Aligned(SendAll([], sent)) && OnByte(k) && k.blocks <= sent && k.bytes <= bytes
    ensures var rest := sent[|k.blocks|..];
            && rest != [] && AllSendable(rest) && Open(rest[..|rest| - 1]) && rest[|rest| - 1].last
            && BytesBits(bytes[|k.bytes|..]) == Aligned(SendAll([], rest))
  {
    hide Sendable, SendAll, BytesBits, Aligned;
    var n := |k.blocks|;
    var rest := sent[n..];
    if n > 0 { assert sent[n - 1] == k.blocks[n - 1] && !k.blocks[n - 1].last; }
    assert rest[..|rest| - 1] == sent[..|sent| - 1][n..];
    SendParts([], sent, n);
    assert sent[..n] == k.blocks;
    var p := BytesBits(k.bytes);
    assert p + [] == p;
    SendAllAfter(p, [], rest);
    AlignedAfter(p, SendAll([], rest));
    assert bytes == k.bytes + bytes[|k.bytes|..];
    BytesBitsConcat(k.bytes, bytes[|k.bytes|..]);
    var u := BytesBits(bytes[|k.bytes|..]);
    assert p + u == p + Aligned(SendAll([], rest));
    assert (p + u)[|p|..] == u && (p + Aligned(SendAll([], rest)))[|p|..] == Aligned(SendAll([], rest));
  }

  lemma {:induction false} SendParts(s: seq<bool>, bs: seq<Block>, k: nat)
    requires AllSendable(bs) && k <= |bs|
    ensures AllSendable(bs[..k]) && AllSendable(bs[k..]) && SendAll(s, bs) == SendAll(SendAll(s, bs[..k]), bs[k..])
    decreases k
  {
    hide Send, Sendable;
    if k == 0 {
      assert bs[..0] == [] && bs[0..] == bs;
    } else {
      assert bs[..k][0] == bs[0] && bs[..k][1..] == bs[1..][..k - 1] && bs[k..] == bs[1..][k - 1..];
      SendParts(Send(s, bs[0]), bs[1..], k - 1);
    }
  }
}
