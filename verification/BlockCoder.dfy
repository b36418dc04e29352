/** The block coder of deps/zlib/trees.c: collects tokens and sends them as
    stored, static or dynamic blocks, whichever is shortest. */
module BlockCoder {
  import opened Bits
  import opened HuffmanCode
  import opened TableTheory
  import opened Tokens
  import opened InflateSpec
  import opened BlockFormat
  import CodeLengths
  import opened BitWriter
  import opened BlockSender
  import opened StaticTables
  import opened TokenSender
  import opened Overlay
  import opened BlockTrees
  import opened BlockStream

  datatype Buffer = Gone | Kept(data: seq<byte>)

  // ---------- frequencies ----------

  /** init_block() on the trees. */
  method InitFrequencies(w: Work)
    requires Separate(w)
    modifies w.lfc, w.dfc, w.bfc
    ensures Tallied(w.lfc[..], w.dfc[..], []) && forall s :: 0 <= s < BL_CODES ==> w.bfc[s] == 0
  {
    for n := 0 to L_CODES
      invariant forall s :: 0 <= s < n ==> w.lfc[s] == 0
    {
      w.lfc[n] := 0;
    }
    for n := 0 to D_CODES
      invariant forall s :: 0 <= s < n ==> w.dfc[s] == 0
      invariant forall s :: 0 <= s < L_CODES ==> w.lfc[s] == 0
    {
      w.dfc[n] := 0;
    }
    for n := 0 to BL_CODES
      invariant forall s :: 0 <= s < n ==> w.bfc[s] == 0
      invariant forall s :: 0 <= s < L_CODES ==> w.lfc[s] == 0
      invariant forall s :: 0 <= s < D_CODES ==> w.dfc[s] == 0
    {
      w.bfc[n] := 0;
    }
    w.lfc[END_BLOCK] := 1;
  }

  method NewWork() returns (w: Work)
    ensures Separate(w)
    ensures fresh(w.heap) && fresh(w.depth) && fresh(w.blCount) && fresh(w.lfc) && fresh(w.ldl) && fresh(w.dfc) && fresh(w.ddl) &&
            fresh(w.bfc) && fresh(w.bdl)
  {
    var heap := new nat[2 * L_CODES + 1];
    var depth := new nat[2 * L_CODES + 1];
    var blCount := new nat[HuffmanCode.MAXBITS + 1];
    var lfc := new nat[HEAP_SIZE];
    var ldl := new nat[HEAP_SIZE];
    var dfc := new nat[2 * D_CODES + 1];
    var ddl := new nat[2 * D_CODES + 1];
    var bfc := new nat[2 * BL_CODES + 1];
    var bdl := new nat[2 * BL_CODES + 1];
    w := Work(heap, depth, blCount, lfc, ldl, dfc, ddl, bfc, bdl);
  }

  /** No symbol is counted more often than there are tokens. */
  lemma {:induction false} CountBound(ts: seq<Token>, s: nat)
    ensures LCount(ts, s) <= |ts| && DCount(ts, s) <= |ts|
    decreases |ts|
  {
    if ts != [] { CountBound(ts[..|ts| - 1], s); }
  }

  /** Count one more token: a block has too few for its 16-bit frequencies to wrap. */
  method CountToken(lfc: array<nat>, dfc: array<nat>, t: Static, dist0: nat, lc: byte, ghost ts: seq<Token>)
    requires lfc != dfc && StaticOk(t) && Tallied(lfc[..], dfc[..], ts) && dist0 <= WSIZE && |ts| < 0x8000
    modifies lfc, dfc
    ensures Tallied(lfc[..], dfc[..], ts + [TokenOf(dist0, lc)])
  {
    hide LCount, DCount, StaticOk, LSym, DSym;
    ghost var x := TokenOf(dist0, lc);
    forall s: nat { CountsPush(ts, x, s); }
    TokenSyms(t, dist0, lc);
    forall s: nat { CountBound(ts, s); }
    if dist0 == 0 {
      lfc[lc] := Ush(lfc[lc] + 1);
    } else {
      var dist := dist0 - 1;
      lfc[t.lengthCode[lc] + 256 + 1] := Ush(lfc[t.lengthCode[lc] + 256 + 1] + 1);
      dfc[DCode(t.distCode, dist)] := Ush(dfc[DCode(t.distCode, dist)] + 1);
    }
  }

  lemma TokenSyms(t: Static, dist: nat, lc: byte)
    requires StaticOk(t) && dist <= WSIZE
    ensures |t.lengthCode| == 256 && |t.distCode| == DIST_CODE_LEN
    ensures var x := TokenOf(dist, lc);
            if dist == 0 then LSym(x) == lc && DSym(x) == D_CODES
            else LSym(x) == t.lengthCode[lc] + 257 && DSym(x) == DCode(t.distCode, dist - 1) &&
                 LSym(x) < L_CODES && DSym(x) < D_CODES
  {
    hide LengthCode, DistCode, BaseLength, BaseDist, CodesOf, DCode;
    SymRange(TokenOf(dist, lc));
  }

  // ---------- choosing ----------

  /** A number of bits after the three bits of the header, in bytes with the header. */
  function InBytes(bits: nat): nat { (bits + 3 + 7) / 8 }

  /** The way a block is sent: stored if that is not longer, else with the fixed
      codes if they are not longer than the dynamic ones, else with those. */
  ghost predicate Shortest(b: Block, buf: Buffer, fixed: bool, ts: seq<Token>, tr: Trees)
    requires TreesFor(tr, ts) && AllCodable(FixedLengths(), FixedDists(), ts) && Used(FixedLengths(), END_BLOCK)
  {
    var dynamicSize := InBytes(|TreesBits(tr.ll, tr.dl, tr.bl, tr.blcodes)| + |BodyBits(tr.ll, tr.dl, ts)|);
    var staticSize := InBytes(|BodyBits(FixedLengths(), FixedDists(), ts)|);
    var best := if staticSize <= dynamicSize then staticSize else dynamicSize;
    if buf.Kept? && |buf.data| + 4 <= best then b == StoredBlock(b.last, buf.data)
    else if fixed || staticSize <= dynamicSize then b == StaticBlock(b.last, ts)
    else b == DynamicBlock(b.last, ts, tr)
  }

  /** send_bits of the three header bits. */
  method SendHeader(s: BitSink, kind: nat, last: bool)
    requires s.Open() && kind <= 2 && |s.Stream()| + 3 <= s.Limit()
    modifies s, s.buf
    ensures s.Open() && s.Limit() == old(s.Limit()) && Grown(old(s.St()), s.St()) && (old(s.Paced()) ==> s.Paced())
    ensures s.Stream() == old(s.Stream()) + HeaderBits(kind, last)
  {
    hide ToBits, Pow2, Grown, BitSink.Open, BitSink.St, BitSink.Stream, BitSink.Limit, BitSink.Paced;
    SmallPowers();
    s.SendBits(2 * kind + Bit(last), 3);
  }

  /** _tr_stored_block() */
  method SendStored(s: BitSink, data: seq<byte>, last: bool)
    requires s.Open() && |data| <= 0xFFFF && |s.Stream()| + 42 + 8 * |data| <= s.Limit()
    modifies s, s.buf
    ensures s.Open() && s.Limit() == old(s.Limit()) && Grown(old(s.St()), s.St()) && s.biValid == 0
    ensures s.Stream() == Send(old(s.Stream()), StoredBlock(last, data))
  {
    hide HeaderBits, ToBits, BytesBits, Grown, BitSink.Open, BitSink.St, BitSink.Stream, BitSink.Limit, BitSink.Paced;
    ghost var s0 := s.St();
    HeaderSize(STORED_BLOCK, last);
    SendHeader(s, STORED_BLOCK, last);
    ghost var s1 := s.St();
    s.CopyBlock(data);
    GrownTrans(s0, s1, s.St());
  }

  lemma HeaderSize(kind: nat, last: bool)
    requires kind <= 2
    ensures |HeaderBits(kind, last)| == 3
  {
  }

  /** A block with the fixed codes. */
  method SendStatic(s: BitSink, litBufsize: nat, lastLit: nat, t: Static, last: bool, ghost ts: seq<Token>) returns (intact: bool)
    requires s.Open() && StaticOk(t) && s.buf.Length == 4 * litBufsize && Entries(s.St(), litBufsize, lastLit, ts) && s.Paced()
    requires AllCodable(FixedLengths(), FixedDists(), ts) && Used(FixedLengths(), END_BLOCK)
    requires |s.Stream()| + 3 + |BodyBits(FixedLengths(), FixedDists(), ts)| <= s.Limit()
    modifies s, s.buf
    ensures s.Open() && s.Limit() == old(s.Limit()) && Grown(old(s.St()), s.St())
    ensures intact <==> Intact(FixedLengths(), FixedDists(), ts, litBufsize, old(s.Bits()) + 3)
    ensures intact ==> s.Stream() == Send(old(s.Stream()), StaticBlock(last, ts))
  {
    hide HeaderBits, BodyBits, AllCodable, FixedLengths, FixedDists, Used, LengthCode, DistCode, BaseLength, BaseDist, DCode,
         CodesOf, Intact, Entries, Grown, BitSink.Open, BitSink.St, BitSink.Stream, BitSink.Limit, BitSink.Paced, BitSink.Bits;
    ghost var start, s0 := s.Stream(), s.St();
    HeaderSize(STATIC_TREES, last);
    Grouped(start, HeaderBits(STATIC_TREES, last), [], BodyBits(FixedLengths(), FixedDists(), ts));
    LimitIs(s);
    SendHeader(s, STATIC_TREES, last);
    ghost var s1 := s.St();
    LimitIs(s);
    EntriesGrown(s0, s1, litBufsize, lastLit, ts);
    ghost var at;
    intact, at := CompressBlock(s, litBufsize, lastLit, t, t.lcodes, FixedLengths(), t.dcodes, FixedDists(), ts);
    GrownTrans(s0, s1, s.St());
  }

  /** A block with its own codes. */
  method SendDynamic(s: BitSink, litBufsize: nat, lastLit: nat, t: Static, tr: Trees, last: bool, ghost ts: seq<Token>)
    returns (intact: bool)
    requires s.Open() && StaticOk(t) && s.buf.Length == 4 * litBufsize && Entries(s.St(), litBufsize, lastLit, ts) && s.Paced()
    requires TreesFor(tr, ts)
    requires |s.Stream()| + 3 + |TreesBits(tr.ll, tr.dl, tr.bl, tr.blcodes)| + |BodyBits(tr.ll, tr.dl, ts)| <= s.Limit()
    modifies s, s.buf
    ensures s.Open() && s.Limit() == old(s.Limit()) && Grown(old(s.St()), s.St())
    ensures intact <==> Intact(tr.ll, tr.dl, ts, litBufsize, old(s.Bits()) + 3 + |TreesBits(tr.ll, tr.dl, tr.bl, tr.blcodes)|)
    ensures intact ==> s.Stream() == Send(old(s.Stream()), DynamicBlock(last, ts, tr))
  {
    hide HeaderBits, BodyBits, AllCodable, Used, StaticOk, CodesOf, TreesBits, TreesSent, Intact, Entries, Grown, BitSink.Open, BitSink.St, BitSink.Stream, BitSink.Limit, BitSink.Paced, BitSink.Bits;
    ghost var start, s0 := s.Stream(), s.St();
    TreesSizes(tr);
    HeaderSize(DYN_TREES, last);
    Grouped(start, HeaderBits(DYN_TREES, last), TreesBits(tr.ll, tr.dl, tr.bl, tr.blcodes), BodyBits(tr.ll, tr.dl, ts));
    LimitIs(s);
    SendHeader(s, DYN_TREES, last);
    ghost var s1 := s.St();
    SendAllTrees(s, tr);
    ghost var s2 := s.St();
    GrownTrans(s0, s1, s2);
    LimitIs(s);
    EntriesGrown(s0, s2, litBufsize, lastLit, ts);
    ghost var at;
    intact, at := CompressBlock(s, litBufsize, lastLit, t, tr.lcodes, tr.ll, tr.dcodes, tr.dl, ts);
    GrownTrans(s0, s2, s.St());
  }

  lemma TreesSizes(tr: Trees)
    requires TreesSent(tr.ll, tr.dl, tr.bl, tr.blcodes)
    ensures 257 <= |tr.ll| <= 286 && 1 <= |tr.dl| <= 30 && 4 <= tr.blcodes <= 19 == |tr.bl|
    ensures ItemsCodable(tr.bl, CodeLengths.TreeItems(tr.ll)) && ItemsCodable(tr.bl, CodeLengths.TreeItems(tr.dl))
  {
  }

  lemma Grouped(s: seq<bool>, a: seq<bool>, b: seq<bool>, c: seq<bool>)
    ensures s + (a + b + c) == s + a + b + c && s + (a + c) == s + a + c && a + [] + c == a + c
  {
  }

  // ---------- the coder ----------

  /** The tree-coding part of a deflate_state. */
  class Coder {
    const sink: BitSink
    const t: Static
    const w: Work
    const litBufsize: nat
    ghost const reach: nat  // no distance is tallied beyond it
    var lastLit: nat
    var matches: nat
    var optLen: int
    var staticLen: int
    ghost var sent: seq<Block>
    ghost var finished: bool

    /** The tokens tallied since the last block. */
    ghost function Tokens(): (ts: seq<Token>)
      reads `lastLit, sink.buf
    {
      if sink.buf.Length == 4 * litBufsize && lastLit <= litBufsize then TokensAt(sink.buf[..], litBufsize, lastLit) else []
    }

    lemma FewBits()
      requires Valid()
      ensures sink.biValid <= 16
    {
      hide Ready, AllSendable, SendAll, Pow2;
    }

    lemma Sizes()
      requires Valid()
      ensures 128 <= litBufsize <= 32768
    {
      hide Wrote, Tallied, StaticOk;
    }

    /** With no bits left over the bytes written are all of the output. */
    lemma OnBoundary()
      requires Valid() && !finished && sink.biValid == 0
      ensures AllSendable(sent) && Open(sent) && BytesBits(sink.written) == SendAll([], sent)
    {
      hide Ready, AllSendable, SendAll, Pow2, BytesBits;
      NoBitsLeft(sink.written);
    }

    lemma NoTokens()
      ensures lastLit == 0 ==> Tokens() == []
    {
    }

    ghost function Arrays(): set<array<nat>>
    {
      {w.heap, w.depth, w.blCount, w.lfc, w.ldl, w.dfc, w.ddl, w.bfc, w.bdl}
    }

    /** The tables are in order; no output is pending where tokens are stored. */
    ghost predicate Ready()
      reads `lastLit, sink`count, sink.buf, w.lfc, w.dfc, w.bfc
    {
      && Separate(w) && StaticOk(t) && 128 <= litBufsize <= 32768 && lastLit < litBufsize && sink.buf.Length == 4 * litBufsize
      && (lastLit > 0 ==> sink.count == 0)
      && Tallied(w.lfc[..], w.dfc[..], Tokens()) && (forall s :: 0 <= s < BL_CODES ==> w.bfc[s] == 0)
      && forall i :: 0 <= i < |Tokens()| ==> Expressible(Tokens()[i]) && Within(Tokens()[i], reach)
    }

    lemma TokensTally()
      requires Ready()
      ensures Tallies(Tokens(), litBufsize, reach)
    {
      hide Tallied, StaticOk, Expressible, Within, TokensAt;
    }

    /** The output is the blocks sent so far; a last block ends it. */
    ghost predicate Wrote()
      reads `sent, `finished, sink, sink.buf
    {
      && sink.Valid() && AllSendable(sent)
      && if finished then sent != [] && Open(sent[..|sent| - 1]) && sent[|sent| - 1].last && sink.Stream() == Aligned(SendAll([], sent)) &&
                          sink.Stream() == BytesBits(sink.written) && sink.biValid == 0
         else Open(sent) && sink.Stream() == SendAll([], sent)
    }

    ghost predicate Valid()
      reads this, sink, sink.buf, w.lfc, w.dfc, w.bfc
    {
      Ready() && Wrote()
    }

    /** _tr_init() on a new state with room for litBufsize tokens. */
    constructor (litBufsize: nat, ghost reach: nat)
      requires 128 <= litBufsize <= 32768 && reach <= WSIZE
      ensures Valid() && !finished && sent == [] && lastLit == 0 && Tokens() == []
      ensures this.litBufsize == litBufsize && this.reach == reach
      ensures sink.count == 0 && sink.biValid == 0 && sink.written == []
      ensures fresh(sink) && fresh(sink.buf) && fresh(w.heap) && fresh(w.depth) && fresh(w.blCount) && fresh(w.lfc) &&
              fresh(w.ldl) && fresh(w.dfc) && fresh(w.ddl) && fresh(w.bfc) && fresh(w.bdl)
    {
      hide Tallied, StaticOk, Expressible, Ready, Wrote, Separate, Tokens, BitSink.Open, BitSink.Stream;
      var work := NewWork();
      var statics := TrStaticInit();
      var out := new BitSink(4 * litBufsize);
      w, t, sink := work, statics, out;
      this.litBufsize, this.reach := litBufsize, reach;
      lastLit, matches, optLen, staticLen := 0, 0, 0, 0;
      sent, finished := [], false;
      new;
      InitBlock();
      NothingSent();
    }

    lemma NothingSent()
      requires sink.Open() && sink.Stream() == [] && sent == [] && !finished
      ensures Wrote()
    {
      hide BytesBits, ToBits, Pow2;
    }

    /** _tr_tally(): one more token; true when the block must be flushed. */
    method Tally(dist: nat, lc: byte) returns (full: bool)
      requires Valid() && sink.count == 0 && lastLit + 1 < litBufsize && dist <= reach <= WSIZE
      modifies `lastLit, `matches, sink.buf, w.lfc, w.dfc
      ensures Valid() && Tokens() == old(Tokens()) + [TokenOf(dist, lc)] && lastLit == old(lastLit) + 1
      ensures full == (lastLit == litBufsize - 1)
    {
      hide Tallied, StaticOk, TokensAt, TokenOf, Expressible, AllSendable, SendAll, Pow2;
      ghost var ts := Tokens();
      Store(dist, lc);
      lastLit := lastLit + 1;
      CountToken(w.lfc, w.dfc, t, dist, lc, ts);
      if dist != 0 { matches := matches + 1; }
      TokenExpressible(dist, lc, reach);
      full := lastLit == litBufsize - 1;
    }

    /** d_buf[last_lit] = dist, l_buf[last_lit] = lc */
    method Store(dist: nat, lc: byte)
      requires sink.buf.Length == 4 * litBufsize && lastLit < litBufsize && dist < 0x1_0000
      modifies sink.buf
      ensures TokensAt(sink.buf[..], litBufsize, lastLit + 1) == TokensAt(old(sink.buf[..]), litBufsize, lastLit) + [TokenOf(dist, lc)]
    {
      hide TokensAt, TokenOf;
      ghost var mem := sink.buf[..];
      sink.buf[litBufsize + 2 * lastLit] := dist % 256;
      sink.buf[litBufsize + 2 * lastLit + 1] := dist / 256;
      sink.buf[3 * litBufsize + lastLit] := lc;
      TokensPush(mem, sink.buf[..], litBufsize, lastLit, dist, lc);
    }

    /** init_block() */
    method InitBlock()
      requires Separate(w) && StaticOk(t) && 128 <= litBufsize <= 32768 && sink.buf.Length == 4 * litBufsize
      modifies `lastLit, `matches, `optLen, `staticLen, w.lfc, w.dfc, w.bfc
      ensures Ready() && Tokens() == [] && lastLit == 0
    {
      hide Tallied, StaticOk, Expressible;
      InitFrequencies(w);
      optLen, staticLen := 0, 0;
      lastLit, matches := 0, 0;
    }

    /** _tr_stored_block() */
    method StoredBlockOnly(data: seq<byte>, last: bool)
      requires Valid() && !finished && !last && |data| <= 0xFFFF
      requires sink.count == 0 && lastLit == 0 && |data| + 8 <= 4 * litBufsize
      modifies sink, sink.buf, `sent
      ensures old(sink.written) <= sink.written && sink.Limit() == old(sink.Limit())
      ensures Valid() && sent == old(sent) + [StoredBlock(last, data)] && sink.biValid == 0
    {
      hide Tallied, Expressible, TokensAt, Separate, Send, SendAll, StaticOk, Pow2, BytesBits, ToBits;
      ghost var b := StoredBlock(last, data);
      LimitIs(sink);
      SendStored(sink, data, last);
      OneMore(sent, b);
      sent := sent + [b];
    }

    /** _tr_align(): an empty static block. */
    method Align()
      requires Valid() && !finished && sink.count == 0 && lastLit == 0
      modifies sink, sink.buf, `sent
      ensures old(sink.written) <= sink.written && sink.Limit() == old(sink.Limit())
      ensures Valid() && sent == old(sent) + [StaticBlock(false, [])] && sink.biValid < 8
    {
      hide Tallied, Expressible, TokensAt, Separate, Send, SendAll, StaticOk, Sendable, AllSendable, Pow2, BytesBits, ToBits;
      ghost var b := StaticBlock(false, []);
      SendEmpty();
      OneMore(sent, b);
      sent := sent + [b];
    }

    method SendEmpty()
      requires sink.Open() && sink.count == 0 && StaticOk(t) && 512 <= sink.buf.Length
      modifies sink, sink.buf
      ensures sink.Valid() && sink.biValid < 8 && old(sink.written) <= sink.written && sink.Limit() == old(sink.Limit())
      ensures Sendable(StaticBlock(false, [])) && sink.Stream() == Send(old(sink.Stream()), StaticBlock(false, []))
    {
      hide Send, HeaderBits, CodeBits, Used, StaticOk, FixedLengths, FixedDists, CodesOf, Sendable, Pow2, BytesBits, ToBits;
      EmptyStatic(sink.Stream());
      HeaderSize(STATIC_TREES, false);
      FixedEnd();
      LimitIs(sink);
      SendHeader(sink, STATIC_TREES, false);
      StaticCodes(t);
      SendCode(sink, END_BLOCK, t.lcodes, FixedLengths());
      sink.BiFlush();
    }

    /** _tr_flush_bits() */
    method FlushBits()
      requires Valid() && lastLit == 0
      modifies sink, sink.buf
      ensures Valid() && old(sink.written) <= sink.written && sink.biValid < 8 && sink.Limit() == old(sink.Limit())
      ensures old(sink.biValid) < 8 ==> sink.written == old(sink.written) && sink.biValid == old(sink.biValid)
    {
      hide Tallied, Expressible, TokensAt, Separate, Send, SendAll, StaticOk, Sendable, Aligned, AllSendable;
      sink.BiFlush();
    }

    /** flush_pending(): the whole bytes, as far as there is room for them. */
    method TakeOutput(avail: nat) returns (bytes: seq<byte>)
      requires Valid() && lastLit == 0
      modifies sink, sink.buf
      ensures Valid() && old(sink.written) <= sink.written && sink.count <= |sink.written| && old(sink.count) <= |old(sink.written)|
      ensures |bytes| <= avail && (|bytes| == avail || sink.count == 0) && sink.biValid < 8
      ensures old(sink.biValid) < 8 ==> sink.written == old(sink.written) && sink.biValid == old(sink.biValid)
      ensures old(sink.written[..|sink.written| - sink.count]) + bytes == sink.written[..|sink.written| - sink.count]
    {
      hide Tallied, Expressible, TokensAt, Separate, SendAll, StaticOk, Aligned, AllSendable, Pow2, BytesBits, ToBits;
      ghost var written0, from := sink.written, |sink.written| - sink.count;
      FlushBits();
      HandMore(written0, sink.written, from, sink.count, avail);
      bytes := sink.TakePending(avail);
    }

    /** The choice of _tr_flush_block(), and the block itself. */
    method SendShortest(buf: Buffer, last: bool, level: nat, fixed: bool) returns (intact: bool, ghost b: Block, ghost tr: Trees)
      requires Ready() && sink.Open() && sink.count == 0 && (buf.Kept? ==> |buf.data| <= 0xFFFF)
      requires level == 0 ==> buf.Kept? && |buf.data| + 8 <= 4 * litBufsize
      modifies `optLen, `staticLen, sink, sink.buf, w.heap, w.depth, w.blCount, w.lfc, w.ldl, w.dfc, w.ddl, w.bfc, w.bdl
      ensures sink.Open() && old(sink.written) <= sink.written && sink.Limit() == old(sink.Limit())
      ensures Sendable(b) && b.last == last && (intact <==> BlockIntact(b, litBufsize, old(sink.biValid)))
      ensures intact ==> sink.Stream() == Send(old(sink.Stream()), b)
      ensures level == 0 ==> b == StoredBlock(last, buf.data)
      ensures level > 0 ==> Choice(b, buf, fixed, old(Tokens()), tr)
    {
      hide Tallied, StaticOk, Expressible, Send, TreesFor, AllCodable, Used, TokensAt, FixedLengths, FixedDists, TreesBits, BodyBits,
           SoleTrees, CodesOf, Entries, Intact, Grown, ShortestBody, BitSink.Open, BitSink.Stream, BitSink.Limit;
      ghost var ts, s0 := Tokens(), sink.St();
      LimitIs(sink);
      Drained(sink);
      EntriesAt(s0, litBufsize, lastLit);
      intact := true;
      if level == 0 {
        b := StoredBlock(last, buf.data);
        SendStored(sink, buf.data, last);
        tr := Trees([], [], [], [], [], [], 0);
      } else {
        FixedBody(ts);
        var trees, optLenB, staticLenB;
        ghost var cut;
        trees, optLen, staticLen, cut := MakeTrees(w, ts, t);
        assert sink.St() == s0;
        optLenB, staticLenB := (optLen + 3 + 7) / 8, (staticLen + 3 + 7) / 8;
        if staticLenB <= optLenB { optLenB := staticLenB; }
        if buf.Kept? && |buf.data| + 4 <= optLenB {
          b := StoredBlock(last, buf.data);
          SendStored(sink, buf.data, last);
        } else if fixed || staticLenB == optLenB {
          b := StaticBlock(last, ts);
          intact := SendStatic(sink, litBufsize, lastLit, t, last, ts);
        } else {
          b := DynamicBlock(last, ts, trees);
          intact := SendDynamic(sink, litBufsize, lastLit, t, trees, last, ts);
        }
        tr := trees;
      }
      GrownWritten(s0, sink.St());
    }

    /** _tr_flush_block(): send the tokens tallied, or the input they stand for,
        as one block. At level 0 the block is stored. If the output overtakes the
        tokens, nothing is promised of the state that is left. */
    method FlushBlock(buf: Buffer, last: bool, level: nat, fixed: bool) returns (intact: bool, ghost b: Block, ghost tr: Trees)
      requires Valid() && !finished && sink.count == 0 && (buf.Kept? ==> |buf.data| <= 0xFFFF)
      requires level == 0 ==> buf.Kept? && |buf.data| + 8 <= 4 * litBufsize
      modifies this, sink, sink.buf, w.heap, w.depth, w.blCount, w.lfc, w.ldl, w.dfc, w.ddl, w.bfc, w.bdl
      ensures Sendable(b) && b.last == last && (intact <==> BlockIntact(b, litBufsize, old(sink.biValid)))
      ensures level == 0 ==> b == StoredBlock(last, buf.data)
      ensures level > 0 ==> Choice(b, buf, fixed, old(Tokens()), tr)
      ensures intact ==> Valid() && finished == last && lastLit == 0 && Tokens() == [] && sent == old(sent) + [b]
      ensures old(sink.written) <= sink.written && sink.Limit() == old(sink.Limit())
      ensures fixed && reach <= 256 ==> intact
    {
      hide Tallied, StaticOk, Expressible, Send, SendAll, TokensAt, Choice, Sendable, Aligned, BlockIntact, Pow2, BytesBits, ToBits,
           AllSendable, Separate;
      TokensTally();
      FewBits();
      ghost var ts, bits := Tokens(), sink.biValid;
      intact, b, tr := SendShortest(buf, last, level, fixed);
      NearBlock(b, buf, level, fixed, ts, tr, litBufsize, reach, bits);
      if intact { EndBlock(last, b); }
    }

    /** After a block: a new one, or the end of the stream on a byte boundary. */
    method EndBlock(last: bool, ghost b: Block)
      requires Separate(w) && StaticOk(t) && 128 <= litBufsize <= 32768 && sink.buf.Length == 4 * litBufsize
      requires AllSendable(sent) && Open(sent) && Sendable(b) && b.last == last
      requires sink.Open() && sink.Stream() == Send(SendAll([], sent), b)
      modifies this, sink, sink.buf, w.lfc, w.dfc, w.bfc
      ensures Valid() && finished == last && lastLit == 0 && Tokens() == [] && sent == old(sent) + [b]
      ensures old(sink.written) <= sink.written && sink.Limit() == old(sink.Limit())
    {
      hide Tallied, StaticOk, Separate, Expressible, Send, SendAll, TokensAt, Sendable, Aligned, Pow2, BytesBits, ToBits, AllSendable;
      OneMore(sent, b);
      sent := sent + [b];
      InitBlock();
      if last { sink.BiWindup(); }
      finished := last;
    }
  }

  lemma Drained(s: BitSink)
    requires s.Open() && s.count == 0
    ensures s.Bits() == s.biValid <= 16 && s.Paced()
  {
    hide Pow2, BytesBits;
  }

  lemma HandMore(written0: seq<byte>, written: seq<byte>, from: nat, count: nat, avail: nat)
    requires written0 <= written && from <= |written0| && from + count == |written|
    ensures var n := if count > avail then avail else count;
            written0[..from] + written[from..from + n] == written[..from + n]
  {
  }

  lemma GrownWritten(a: SinkState, b: SinkState)
    requires Grown(a, b)
    ensures a.written <= b.written
  {
  }

  /** The output of a block does not reach its tokens before they are read, when it
      begins with an empty buffer but for some bits. */
  ghost predicate BlockIntact(b: Block, litBufsize: nat, bits: nat)
    requires Sendable(b)
  {
    match b
    case StoredBlock(_, _) => true
    case StaticBlock(_, ts) => Intact(FixedLengths(), FixedDists(), ts, litBufsize, bits + 3)
    case DynamicBlock(_, ts, tr) =>
      Intact(tr.ll, tr.dl, ts, litBufsize, bits + 3 + |TreesBits(tr.ll, tr.dl, tr.bl, tr.blcodes)|)
  }

  /** The trees are those of the tokens, the best there are for blocks that are not
      too long, and the block is the shortest. */
  ghost predicate Choice(b: Block, buf: Buffer, fixed: bool, ts: seq<Token>, tr: Trees)
  {
    && TreesFor(tr, ts) && (|ts| <= 2580 ==> ShortestBody(tr, ts)) && SoleTrees(tr, ts)
    && AllCodable(FixedLengths(), FixedDists(), ts) && Used(FixedLengths(), END_BLOCK) && Shortest(b, buf, fixed, ts, tr)
  }

  /** Up to distance 256 a block with the fixed codes is safe. */
  lemma NearBlock(b: Block, buf: Buffer, level: nat, fixed: bool, ts: seq<Token>, tr: Trees, litBufsize: nat, reach: nat, bits: nat)
    requires Sendable(b) && Tallies(ts, litBufsize, reach) && bits <= 16
    requires if level == 0 then b.StoredBlock? else Choice(b, buf, fixed, ts, tr)
    ensures fixed && reach <= 256 ==> BlockIntact(b, litBufsize, bits)
  {
    hide TreesFor, ShortestBody, SoleTrees, AllCodable, TreesBits, BodyBits, InBytes, FixedLengths, FixedDists, Used, Intact, Expressible;
    if fixed && reach <= 256 && b.StaticBlock? {
      assert Tallies(ts, litBufsize, 256);
      NearIntact(ts, litBufsize, bits + 3);
    }
  }

  lemma OneMore(sent: seq<Block>, b: Block)
    requires AllSendable(sent) && Open(sent) && Sendable(b)
    ensures AllSendable(sent + [b]) && SendAll([], sent + [b]) == Send(SendAll([], sent), b)
    ensures (sent + [b])[..|sent|] == sent && (!b.last ==> Open(sent + [b]))
  {
    hide Sendable, Send;
    SendAllPush([], sent, b);
    assert (sent + [b])[..|sent|] == sent;
  }

  lemma TokenExpressible(dist: nat, lc: byte, reach: nat)
    requires dist <= reach <= WSIZE
    ensures Expressible(TokenOf(dist, lc)) && Within(TokenOf(dist, lc), reach)
  {
  }

  lemma StaticCodes(t: Static)
    requires StaticOk(t)
    ensures CodesOf(t.lcodes, FixedLengths()) && |t.lcodes| == 288
  {
  }

  /** An empty static block is its header and the end of block code. */
  lemma EmptyStatic(s: seq<bool>)
    ensures Sendable(StaticBlock(false, [])) && Used(FixedLengths(), END_BLOCK)
    ensures Send(s, StaticBlock(false, [])) == s + HeaderBits(STATIC_TREES, false) + CodeBits(FixedLengths(), END_BLOCK)
  {
    hide HeaderBits, CodeBits, FixedDists;
    FixedCodable([]);
    var e := CodeBits(FixedLengths(), END_BLOCK);
    assert TokensBits(FixedLengths(), FixedDists(), []) == [];
    assert [] + e == e;
    Grouped(s, HeaderBits(STATIC_TREES, false), [], e);
  }

  lemma ChosenBlock(b: Block, buf: Buffer, fixed: bool, ts: seq<Token>, tr: Trees)
    requires Choice(b, buf, fixed, ts, tr)
    ensures if b.StoredBlock? then buf.Kept? && b.data == buf.data else b.ts == ts
  {
    hide TreesFor, ShortestBody, SoleTrees, AllCodable, TreesBits, BodyBits, InBytes, FixedLengths, FixedDists, Used;
  }

  /** A new coder with room for 16384 tokens that is given the longest match with
      distance 20000 until the block is full, and the fixed codes: it overtakes
      what it was given. */
  method SendFarMatches() returns (intact: bool)
    ensures !intact
  {
    hide Coder.Valid, Coder.Tokens, Choice, Sendable, BlockIntact;
    var c: Coder := new Coder(16384, WSIZE);
    ghost var far := seq(16383, k => Match(MAX_MATCH, 20000));
    var i := 0;
    while i < 16383
      invariant i <= 16383 && c.Valid() && !c.finished && c.Tokens() == far[..i] && c.lastLit == i
      invariant c.sink.count == 0 && c.litBufsize == 16384 && c.reach == WSIZE
      modifies c`lastLit, c`matches, c.sink.buf, c.w.lfc, c.w.dfc
    {
      assert far[..i + 1] == far[..i] + [TokenOf(20000, MAX_MATCH - MIN_MATCH)];
      var full := c.Tally(20000, MAX_MATCH - MIN_MATCH);
      i := i + 1;
    }
    assert far[..i] == far;
    ghost var bits := c.sink.biValid;
    ghost var b, tr;
    intact, b, tr := c.FlushBlock(Gone, true, 6, true);
    FarBlock(b, far, tr, bits);
  }

  lemma FarBlock(b: Block, far: seq<Token>, tr: Trees, bits: nat)
    requires far == seq(16383, k => Match(MAX_MATCH, 20000)) && Choice(b, Gone, true, far, tr) && Sendable(b)
    ensures !BlockIntact(b, 16384, bits)
  {
    hide TreesFor, ShortestBody, SoleTrees, AllCodable, TreesBits, BodyBits, InBytes, FixedLengths, FixedDists, Used, Intact;
    FixedOvertaken(bits + 3);
  }
}
