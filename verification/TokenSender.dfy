/** compress_block() and _tr_tally() of deps/zlib/trees.c: the token buffers,
    their frequencies, and the bits they become. */
module TokenSender {
  import opened Bits
  import opened HuffmanCode
  import opened TableTheory
  import opened Tokens
  import opened PriorityHeap
  import opened Sums
  import opened BitLengths
  import opened BuildTree
  import opened BitWriter
  import opened BlockFormat
  import opened BlockSender
  import opened StaticTables

  const L_CODES: nat := 286

  /** An entry of d_buf and l_buf: a literal has distance zero. */
  function TokenOf(dist: nat, lc: byte): Token
  {
    if dist == 0 then Literal(lc) else Match(lc + MIN_MATCH, dist)
  }

  // ---------- the overlay ----------

  /** Entry i of d_buf and l_buf, which lie behind pending_buf in one array: the
      distances from byte litBufsize on, the lengths from 3 * litBufsize on. */
  function DistAt(mem: seq<byte>, litBufsize: nat, i: nat): nat
    requires |mem| == 4 * litBufsize && i < litBufsize
  {
    (mem[litBufsize + 2 * i] as nat) + 256 * (mem[litBufsize + 2 * i + 1] as nat)
  }

  function TokenAt(mem: seq<byte>, litBufsize: nat, i: nat): Token
    requires |mem| == 4 * litBufsize && i < litBufsize
  {
    TokenOf(DistAt(mem, litBufsize, i), mem[3 * litBufsize + i])
  }

  /** The first n entries. */
  function TokensAt(mem: seq<byte>, litBufsize: nat, n: nat): (ts: seq<Token>)
    requires |mem| == 4 * litBufsize && n <= litBufsize
    ensures |ts| == n && forall i :: 0 <= i < n ==> ts[i] == TokenAt(mem, litBufsize, i)
  {
    seq(n, i requires 0 <= i < n => TokenAt(mem, litBufsize, i))
  }

  /** The first n entries are ts, as far as count bytes of output have not reached them. */
  ghost predicate Entries(st: SinkState, litBufsize: nat, n: nat, ts: seq<Token>)
  {
    && |st.mem| == 4 * litBufsize && |ts| == n <= litBufsize
    && forall i :: 0 <= i < n && st.count <= litBufsize + 2 * i ==> TokenAt(st.mem, litBufsize, i) == ts[i]
  }

  lemma EntriesGrown(a: SinkState, b: SinkState, litBufsize: nat, n: nat, ts: seq<Token>)
    requires Entries(a, litBufsize, n, ts) && Grown(a, b)
    ensures Entries(b, litBufsize, n, ts)
  {
    hide TokenAt;
    forall i | 0 <= i < n && b.count <= litBufsize + 2 * i
      ensures TokenAt(b.mem, litBufsize, i) == ts[i]
    {
      TokenKept(a.mem, b.mem, litBufsize, i, b.count);
    }
  }

  lemma EntriesAt(st: SinkState, litBufsize: nat, n: nat)
    requires |st.mem| == 4 * litBufsize && n <= litBufsize
    ensures Entries(st, litBufsize, n, TokensAt(st.mem, litBufsize, n))
  {
    hide TokenAt;
  }

  /** Output that does not reach an entry does not change it. */
  lemma TokenKept(mem: seq<byte>, mem': seq<byte>, litBufsize: nat, i: nat, from: nat)
    requires |mem| == |mem'| == 4 * litBufsize && i < litBufsize && from <= litBufsize + 2 * i
    requires forall k :: from <= k < |mem| ==> mem'[k] == mem[k]
    ensures TokenAt(mem', litBufsize, i) == TokenAt(mem, litBufsize, i)
  {
  }

  /** Storing the next entry. */
  lemma TokensPush(mem: seq<byte>, mem': seq<byte>, litBufsize: nat, n: nat, dist: nat, lc: byte)
    requires |mem| == |mem'| == 4 * litBufsize && n < litBufsize && dist < 0x1_0000
    requires mem'[litBufsize + 2 * n] == dist % 256 && mem'[litBufsize + 2 * n + 1] == dist / 256
    requires mem'[3 * litBufsize + n] == lc
    requires forall k :: 0 <= k < |mem| && k != litBufsize + 2 * n && k != litBufsize + 2 * n + 1 && k != 3 * litBufsize + n ==> mem'[k] == mem[k]
    ensures TokensAt(mem', litBufsize, n + 1) == TokensAt(mem, litBufsize, n) + [TokenOf(dist, lc)]
  {
    forall i | 0 <= i < n
      ensures TokenAt(mem', litBufsize, i) == TokenAt(mem, litBufsize, i)
    {
      OtherEntry(mem, mem', litBufsize, n, i);
    }
    assert DistAt(mem', litBufsize, n) == dist;
  }

  lemma OtherEntry(mem: seq<byte>, mem': seq<byte>, litBufsize: nat, n: nat, i: nat)
    requires |mem| == |mem'| == 4 * litBufsize && i < n < litBufsize
    requires forall k :: 0 <= k < |mem| && k != litBufsize + 2 * n && k != litBufsize + 2 * n + 1 && k != 3 * litBufsize + n ==> mem'[k] == mem[k]
    ensures TokenAt(mem', litBufsize, i) == TokenAt(mem, litBufsize, i)
  {
    var a, b, c := litBufsize + 2 * i, litBufsize + 2 * i + 1, 3 * litBufsize + i;
    assert mem'[a] == mem[a] && mem'[b] == mem[b] && mem'[c] == mem[c];
  }

  /** Bits of the first i tokens. */
  function PrefixBits(ll: Lengths, dl: Lengths, ts: seq<Token>, i: nat): nat
    requires AllCodable(ll, dl, ts) && i <= |ts|
  {
    |TokensBits(ll, dl, ts[..i])|
  }

  /** When entry i is read, the output has not reached it: with so many bits in the
      buffers at the beginning, the bytes written by then end before it. */
  predicate Intact(ll: Lengths, dl: Lengths, ts: seq<Token>, litBufsize: nat, bits: nat)
    requires AllCodable(ll, dl, ts)
  {
    forall i :: 0 <= i < |ts| ==> BytesOut(bits + PrefixBits(ll, dl, ts, i)) <= litBufsize + 2 * i
  }

  // ---------- sending ----------

  /** One token of a block. */
  method SendToken(s: BitSink, dist0: nat, lc0: byte, t: Static, lcodes: seq<nat>, ll: Lengths, dcodes: seq<nat>, dl: Lengths)
    requires s.Open() && StaticOk(t) && CodesOf(lcodes, ll) && |lcodes| >= L_CODES && CodesOf(dcodes, dl) && |dcodes| >= D_CODES
    requires Codable(ll, dl, TokenOf(dist0, lc0)) && |s.Stream()| + |TokenBits(ll, dl, TokenOf(dist0, lc0))| <= s.Limit()
    modifies s, s.buf
    ensures s.Open() && s.Limit() == old(s.Limit()) && Grown(old(s.St()), s.St()) && (old(s.Paced()) ==> s.Paced())
    ensures s.Stream() == old(s.Stream()) + TokenBits(ll, dl, TokenOf(dist0, lc0))
  {
    hide CodesOf, CodeBits, ToBits, Pow2, Used, ExtraLBits, ExtraDBits, LengthCode, DistCode, BaseLength, BaseDist, DCode,
         LengthExtra, DistExtra, Grown, BitSink.Open, BitSink.St, BitSink.Stream, BitSink.Limit, BitSink.Paced;
    ghost var start, s0 := s.Stream(), s.St();
    if dist0 == 0 {
      SendCode(s, lc0, lcodes, ll);
    } else {
      LengthTableFacts(t, lc0);
      DistTableFacts(t, dist0 - 1);
      FourParts(start, CodeBits(ll, LenSym(lc0)), LengthExtra(lc0), CodeBits(dl, DistCode(dist0 - 1)), DistExtra(dist0 - 1));
      var code := t.lengthCode[lc0];
      SendCode(s, code + 256 + 1, lcodes, ll);
      var extra := ExtraLBits(code);
      ghost var s1 := s.St();
      SendExtra(s, lc0 - t.baseLength[code], extra, LengthExtra(lc0));
      GrownTrans(s0, s1, s.St());
      var dist := dist0 - 1;
      code := DCode(t.distCode, dist);
      ghost var s2 := s.St();
      SendCode(s, code, dcodes, dl);
      GrownTrans(s0, s2, s.St());
      extra := ExtraDBits(code);
      ghost var s3 := s.St();
      SendExtra(s, dist - t.baseDist[code], extra, DistExtra(dist));
      GrownTrans(s0, s3, s.St());
    }
  }

  /** if (extra != 0) send_bits(s, value, extra) */
  method SendExtra(s: BitSink, value: int, extra: nat, ghost x: seq<bool>)
    requires s.Open() && |s.Stream()| + |x| <= s.Limit() && |x| == extra <= 13
    requires extra != 0 ==> 0 <= value < Pow2(extra) && x == ToBits(value, extra)
    modifies s, s.buf
    ensures s.Open() && s.Limit() == old(s.Limit()) && Grown(old(s.St()), s.St()) && (old(s.Paced()) ==> s.Paced())
    ensures s.Stream() == old(s.Stream()) + x
  {
    hide ToBits, Pow2, Grown, BitSink.Open, BitSink.St, BitSink.Stream, BitSink.Limit, BitSink.Paced;
    GrownSelf(s.St());
    if extra != 0 {
      s.SendBits(value, extra);
    } else {
      assert s.Stream() + [] == s.Stream();
    }
  }

  lemma FourParts(s: seq<bool>, a: seq<bool>, b: seq<bool>, c: seq<bool>, d: seq<bool>)
    ensures s + (a + b + c + d) == s + a + b + c + d
    ensures |a + b + c + d| == |a| + |b| + |c| + |d|
  {
  }

  /** Code and extra bits of a length, from the tables. */
  lemma LengthTableFacts(t: Static, lc: nat)
    requires StaticOk(t) && lc <= 255
    ensures var c := t.lengthCode[lc];
            && c < LENGTH_CODES && c + 257 == LenSym(lc) && |LengthExtra(lc)| == ExtraLBits(c) <= 5
            && (ExtraLBits(c) == 0 ==> LengthExtra(lc) == [])
            && (ExtraLBits(c) != 0 ==> t.baseLength[c] <= lc && lc - t.baseLength[c] < Pow2(ExtraLBits(c)) &&
                                       LengthExtra(lc) == ToBits(lc - t.baseLength[c], ExtraLBits(c)))
  {
    hide LengthCode, BaseLength, ToBits, Pow2, DCode, DistCode, BaseDist, CodesOf;
    LengthCoding(lc);
    LengthRow(LengthCode(lc));
    SmallExtra(t.lengthCode[lc]);
  }

  lemma SmallExtra(c: nat)
    ensures ExtraLBits(c) <= 5 && ExtraDBits(c) <= 13
  {
  }

  lemma DistTableFacts(t: Static, d: nat)
    requires StaticOk(t) && d < WSIZE
    ensures var c := DCode(t.distCode, d);
            && c < D_CODES && c == DistCode(d) && |DistExtra(d)| == ExtraDBits(c) <= 13
            && (ExtraDBits(c) == 0 ==> DistExtra(d) == [])
            && (ExtraDBits(c) != 0 ==> t.baseDist[c] <= d && d - t.baseDist[c] < Pow2(ExtraDBits(c)) &&
                                       DistExtra(d) == ToBits(d - t.baseDist[c], ExtraDBits(c)))
  {
    hide LengthCode, BaseLength, ToBits, Pow2, DCode, DistCode, BaseDist, CodesOf;
    DistCoding(d);
    SmallExtra(DCode(t.distCode, d));
  }

  /** compress_block(), reading the entries from the array that it writes to. The
      model stops at the first entry that the output has overwritten; all that
      was sent until then is right, and without one the whole block is. */
  method CompressBlock(s: BitSink, litBufsize: nat, lastLit: nat, t: Static, lcodes: seq<nat>, ll: Lengths,
                       dcodes: seq<nat>, dl: Lengths, ghost ts: seq<Token>)
    returns (intact: bool, ghost at: nat)
    requires s.Open() && StaticOk(t) && CodesOf(lcodes, ll) && |lcodes| >= L_CODES && CodesOf(dcodes, dl) && |dcodes| >= D_CODES
    requires s.buf.Length == 4 * litBufsize && Entries(s.St(), litBufsize, lastLit, ts)
    requires AllCodable(ll, dl, ts) && Used(ll, END_BLOCK)
    requires s.Paced() && |s.Stream()| + |BodyBits(ll, dl, ts)| <= s.Limit()
    modifies s, s.buf
    ensures s.Open() && s.Limit() == old(s.Limit()) && Grown(old(s.St()), s.St())
    ensures (intact <==> Intact(ll, dl, ts, litBufsize, old(s.Bits())))
    ensures intact ==> s.Stream() == old(s.Stream()) + BodyBits(ll, dl, ts)
    ensures !intact ==> at < lastLit && s.Stream() == old(s.Stream()) + TokensBits(ll, dl, ts[..at]) && litBufsize + 2 * at < s.count
  {
    hide CodesOf, CodeBits, Used, TokenBits, TokensBits, StaticOk, Codable, AllCodable, TokenOf, TokensAt, BodyBits, TokenAt, Intact,
         PrefixBits, BytesOut, Entries, Grown, BitSink.Open, BitSink.St, BitSink.Stream, BitSink.Limit, BitSink.Paced, BitSink.Bits;
    ghost var start, bits, s0 := s.Stream(), s.Bits(), s.St();
    GrownSelf(s0);
    LimitIs(s);
    EntryCount(s0, litBufsize, lastLit, ts);
    NoTokens(ll, dl, start, ts);
    BodySize(ll, dl, ts);
    ghost var limit := s.Limit();
    var lx := 0;
    while lx < lastLit
      invariant lx <= lastLit && s.Open() && s.Limit() == limit && Grown(s0, s.St()) && s.Paced() && AllCodable(ll, dl, ts[..lx])
      invariant s.Stream() == start + TokensBits(ll, dl, ts[..lx])
      invariant forall i :: 0 <= i < lx ==> BytesOut(bits + PrefixBits(ll, dl, ts, i)) <= litBufsize + 2 * i
    {
      BitsSoFar(ll, dl, ts, lx);
      CountIs(s, |start|, |TokensBits(ll, dl, ts[..lx])|, bits, old(s.Limit()));
      if s.count > litBufsize + 2 * lx {
        Overtaken(ll, dl, ts, litBufsize, bits, lx);
        return false, lx;
      }
      EntriesGrown(s0, s.St(), litBufsize, lastLit, ts);
      NextEntry(s, litBufsize, lastLit, ts, lx);
      TokenSent(ll, dl, ts, lx, start);
      ghost var s1 := s.St();
      SendEntry(s, litBufsize, lx, t, lcodes, ll, dcodes, dl, ts[lx]);
      GrownTrans(s0, s1, s.St());
      lx := lx + 1;
    }
    AllIntact(ll, dl, ts, litBufsize, bits);
    BodyEnds(ll, dl, ts, lx, start);
    ghost var s2 := s.St();
    SendCode(s, END_BLOCK, lcodes, ll);
    GrownTrans(s0, s2, s.St());
    intact, at := true, 0;
  }

  /** The bytes pending, from the bits sent. */
  lemma CountIs(s: BitSink, start: nat, sent: nat, bits: nat, limit: int)
    requires s.Paced() && |s.Stream()| == start + sent && s.Limit() == limit && start + 8 * s.buf.Length == bits + limit
    ensures s.count == BytesOut(bits + sent)
  {
    hide BytesOut, BytesBits, ToBits;
  }

  lemma NextEntry(s: BitSink, litBufsize: nat, n: nat, ts: seq<Token>, i: nat)
    requires Entries(s.St(), litBufsize, n, ts) && i < n && s.count <= litBufsize + 2 * i
    ensures s.buf.Length == 4 * litBufsize && n <= litBufsize && TokenAt(s.buf[..], litBufsize, i) == ts[i]
  {
  }

  lemma EntryCount(st: SinkState, litBufsize: nat, n: nat, ts: seq<Token>)
    requires Entries(st, litBufsize, n, ts)
    ensures |ts| == n <= litBufsize
  {
  }

  lemma LimitIs(s: BitSink)
    ensures |s.Stream()| + 8 * s.buf.Length == s.Bits() + s.Limit() && s.St().mem == s.buf[..]
  {
    hide BytesBits, ToBits;
  }

  /** Read one entry and send it. */
  method SendEntry(s: BitSink, litBufsize: nat, lx: nat, t: Static, lcodes: seq<nat>, ll: Lengths, dcodes: seq<nat>, dl: Lengths,
                   ghost token: Token)
    requires s.Open() && StaticOk(t) && CodesOf(lcodes, ll) && |lcodes| >= L_CODES && CodesOf(dcodes, dl) && |dcodes| >= D_CODES
    requires s.buf.Length == 4 * litBufsize && lx < litBufsize && token == TokenAt(s.buf[..], litBufsize, lx)
    requires Codable(ll, dl, token) && |s.Stream()| + |TokenBits(ll, dl, token)| <= s.Limit()
    modifies s, s.buf
    ensures s.Open() && s.Limit() == old(s.Limit()) && Grown(old(s.St()), s.St()) && (old(s.Paced()) ==> s.Paced())
    ensures s.Stream() == old(s.Stream()) + TokenBits(ll, dl, token)
  {
    hide CodesOf, CodeBits, Used, TokenBits, StaticOk, Codable, TokenOf, Grown, BitSink.Open, BitSink.St, BitSink.Stream, BitSink.Limit, BitSink.Paced;
    var dist := (s.buf[litBufsize + 2 * lx] as nat) + 256 * (s.buf[litBufsize + 2 * lx + 1] as nat);
    SendToken(s, dist, s.buf[3 * litBufsize + lx], t, lcodes, ll, dcodes, dl);
  }

  lemma BitsSoFar(ll: Lengths, dl: Lengths, ts: seq<Token>, i: nat)
    requires AllCodable(ll, dl, ts) && i < |ts|
    ensures AllCodable(ll, dl, ts[..i]) && AllCodable(ll, dl, ts[..i + 1])
    ensures PrefixBits(ll, dl, ts, i) == |TokensBits(ll, dl, ts[..i])|
    ensures |TokensBits(ll, dl, ts[..i])| + |TokenBits(ll, dl, ts[i])| <= |TokensBits(ll, dl, ts)|
  {
    hide TokenBits, Codable;
    TokenSent(ll, dl, ts, i, []);
    TokensPrefix(ll, dl, ts, i + 1);
  }

  lemma {:induction false} TokensPrefix(ll: Lengths, dl: Lengths, ts: seq<Token>, i: nat)
    requires AllCodable(ll, dl, ts) && i <= |ts|
    ensures AllCodable(ll, dl, ts[..i]) && TokensBits(ll, dl, ts[..i]) <= TokensBits(ll, dl, ts)
    decreases |ts| - i
  {
    hide TokenBits, TokensBits, Codable;
    if i < |ts| {
      TokensPrefix(ll, dl, ts, i + 1);
      TokenSent(ll, dl, ts, i, []);
      var a := TokensBits(ll, dl, ts[..i]);
      assert [] + TokensBits(ll, dl, ts[..i + 1]) == TokensBits(ll, dl, ts[..i + 1]) && [] + a == a;
      assert a <= a + TokenBits(ll, dl, ts[i]);
    } else {
      assert ts[..i] == ts;
    }
  }

  lemma BodySize(ll: Lengths, dl: Lengths, ts: seq<Token>)
    requires AllCodable(ll, dl, ts) && Used(ll, END_BLOCK)
    ensures |BodyBits(ll, dl, ts)| == |TokensBits(ll, dl, ts)| + ll[END_BLOCK] >= |TokensBits(ll, dl, ts)|
  {
    hide AllCodable, TokensBits;
  }

  lemma Overtaken(ll: Lengths, dl: Lengths, ts: seq<Token>, litBufsize: nat, bits: nat, i: nat)
    requires AllCodable(ll, dl, ts) && i < |ts| && BytesOut(bits + PrefixBits(ll, dl, ts, i)) > litBufsize + 2 * i
    ensures !Intact(ll, dl, ts, litBufsize, bits)
  {
    hide AllCodable, PrefixBits, BytesOut;
  }

  lemma AllIntact(ll: Lengths, dl: Lengths, ts: seq<Token>, litBufsize: nat, bits: nat)
    requires AllCodable(ll, dl, ts)
    requires forall i :: 0 <= i < |ts| ==> BytesOut(bits + PrefixBits(ll, dl, ts, i)) <= litBufsize + 2 * i
    ensures Intact(ll, dl, ts, litBufsize, bits)
  {
    hide AllCodable, PrefixBits, BytesOut;
  }

  lemma BodyEnds(ll: Lengths, dl: Lengths, ts: seq<Token>, n: nat, start: seq<bool>)
    requires AllCodable(ll, dl, ts) && Used(ll, END_BLOCK) && n == |ts| && AllCodable(ll, dl, ts[..n])
    ensures start + BodyBits(ll, dl, ts) == start + TokensBits(ll, dl, ts[..n]) + CodeBits(ll, END_BLOCK)
  {
    hide AllCodable, Used, TokensBits, CodeBits;
    assert ts[..n] == ts;
  }

  lemma NoTokens(ll: Lengths, dl: Lengths, start: seq<bool>, ts: seq<Token>)
    requires AllCodable(ll, dl, ts)
    ensures AllCodable(ll, dl, ts[..0]) && start == start + TokensBits(ll, dl, ts[..0])
  {
  }

  lemma TokenSent(ll: Lengths, dl: Lengths, ts: seq<Token>, i: nat, start: seq<bool>)
    requires AllCodable(ll, dl, ts) && i < |ts|
    ensures Codable(ll, dl, ts[i]) && AllCodable(ll, dl, ts[..i]) && AllCodable(ll, dl, ts[..i + 1])
    ensures start + TokensBits(ll, dl, ts[..i + 1]) == start + TokensBits(ll, dl, ts[..i]) + TokenBits(ll, dl, ts[i])
  {
    hide Codable, TokenBits;
    assert ts[..i + 1] == ts[..i] + [ts[i]];
    TokensSnoc(ll, dl, ts[..i], ts[i]);
  }

  // ---------- frequencies ----------

  function LSym(t: Token): nat { match t case Literal(c) => c case Match(n, _) => if n < 3 then 0 else LenSym(n - 3) }
  function DSym(t: Token): nat { match t case Literal(_) => D_CODES case Match(_, d) => if d < 1 then 0 else DistCode(d - 1) }

  /** How many tokens have literal/length symbol s. */
  function LCount(ts: seq<Token>, s: nat): nat
  {
    if ts == [] then 0 else LCount(ts[..|ts| - 1], s) + (if LSym(ts[|ts| - 1]) == s then 1 else 0)
  }

  /** How many tokens have distance symbol s. */
  function DCount(ts: seq<Token>, s: nat): nat
  {
    if ts == [] then 0 else DCount(ts[..|ts| - 1], s) + (if DSym(ts[|ts| - 1]) == s then 1 else 0)
  }

  lemma CountsPush(ts: seq<Token>, t: Token, s: nat)
    ensures LCount(ts + [t], s) == LCount(ts, s) + (if LSym(t) == s then 1 else 0)
    ensures DCount(ts + [t], s) == DCount(ts, s) + (if DSym(t) == s then 1 else 0)
  {
    assert (ts + [t])[..|ts|] == ts;
  }

  lemma {:induction false} CountsPositive(ts: seq<Token>, i: nat)
    requires i < |ts|
    ensures LCount(ts, LSym(ts[i])) > 0 && DCount(ts, DSym(ts[i])) > 0
    decreases |ts|
  {
    hide LSym, DSym;
    if i < |ts| - 1 { CountsPositive(ts[..|ts| - 1], i); }
  }

  /** A token that the format can express. */
  predicate Expressible(t: Token)
  {
    t.Match? ==> MIN_MATCH <= t.length <= MAX_MATCH && 1 <= t.dist <= WSIZE
  }

  /** The frequencies of a block: its tokens and one end of block. */
  ghost predicate Tallied(lf: seq<nat>, df: seq<nat>, ts: seq<Token>)
  {
    && |lf| >= L_CODES && |df| >= D_CODES
    && (forall s :: 0 <= s < L_CODES ==> lf[s] == LCount(ts, s) + (if s == END_BLOCK then 1 else 0))
    && (forall s :: 0 <= s < D_CODES ==> df[s] == DCount(ts, s))
  }

  /** Every token can be coded with codes for the symbols that occur. */
  lemma TalliedCodable(lf: seq<nat>, df: seq<nat>, ts: seq<Token>, ll: Lengths, dl: Lengths)
    requires Tallied(lf, df, ts) && (forall i :: 0 <= i < |ts| ==> Expressible(ts[i])) && InRange(ll) && InRange(dl)
    requires forall s :: 0 <= s < L_CODES && lf[s] > 0 ==> s < |ll| && ll[s] > 0
    requires forall s :: 0 <= s < D_CODES && df[s] > 0 ==> s < |dl| && dl[s] > 0
    ensures AllCodable(ll, dl, ts) && Used(ll, END_BLOCK)
  {
    hide LCount, DCount, Codable;
    assert lf[END_BLOCK] > 0;
    forall i | 0 <= i < |ts|
      ensures Codable(ll, dl, ts[i])
    {
      CountsPositive(ts, i);
      SymRange(ts[i]);
      SymsCodable(ll, dl, ts[i]);
    }
  }

  lemma SymRange(t: Token)
    requires Expressible(t)
    ensures LSym(t) < L_CODES && (t.Match? ==> DSym(t) < D_CODES)
  {
    hide LengthCode, DistCode, LBase, LExt, ExtraLBits, Pow2, BaseLength, DBase, DExt, ExtraDBits, BaseDist;
    if t.Match? {
      LengthCoding(t.length - 3);
      DistCoding(t.dist - 1);
    }
  }

  lemma SymsCodable(ll: Lengths, dl: Lengths, t: Token)
    requires Expressible(t) && InRange(ll) && InRange(dl) && LSym(t) < |ll| && ll[LSym(t)] > 0
    requires t.Match? ==> DSym(t) < |dl| && dl[DSym(t)] > 0
    ensures Codable(ll, dl, t)
  {
    hide LengthCode, DistCode;
  }

  // ---------- cost ----------

  function ExtraL(): (s: seq<nat>)
    ensures |s| == LENGTH_CODES && forall i :: 0 <= i < LENGTH_CODES ==> s[i] == ExtraLBits(i)
  {
    seq(LENGTH_CODES, i requires 0 <= i => ExtraLBits(i))
  }

  function ExtraD(): (s: seq<nat>)
    ensures |s| == D_CODES && forall i :: 0 <= i < D_CODES ==> s[i] == ExtraDBits(i)
  {
    seq(D_CODES, i requires 0 <= i => ExtraDBits(i))
  }

  /** Frequencies as a table. */
  function LTable(ts: seq<Token>): (f: seq<nat>)
    ensures |f| == L_CODES && forall s :: 0 <= s < L_CODES ==> f[s] == LCount(ts, s)
  {
    seq(L_CODES, s requires 0 <= s < L_CODES => LCount(ts, s))
  }

  function DTable(ts: seq<Token>): (f: seq<nat>)
    ensures |f| == D_CODES && forall s :: 0 <= s < D_CODES ==> f[s] == DCount(ts, s)
  {
    seq(D_CODES, s requires 0 <= s < D_CODES => DCount(ts, s))
  }

  /** All frequencies together: one for every token. */
  lemma {:induction false} TablesLoad(ts: seq<Token>)
    requires forall i :: 0 <= i < |ts| ==> Expressible(ts[i])
    ensures SumAt(LTable(ts), Upto(L_CODES)) == |ts| && SumAt(DTable(ts), Upto(D_CODES)) <= |ts|
    decreases |ts|
  {
    hide LCount, DCount, Expressible, SumAt, LSym, DSym;
    if ts == [] {
      NoCounts();
      ZeroSum(LTable(ts), Upto(L_CODES));
      ZeroSum(DTable(ts), Upto(D_CODES));
    } else {
      var n := |ts| - 1;
      var rest, t := ts[..n], ts[n];
      assert ts == rest + [t];
      TablesLoad(rest);
      forall s: nat { CountsPush(rest, t, s); }
      SymRange(t);
      SumOneMore(LTable(rest), LTable(ts), L_CODES, LSym(t));
      if t.Match? {
        SumOneMore(DTable(rest), DTable(ts), D_CODES, DSym(t));
      } else {
        LiteralSym(t);
        assert DTable(rest) == DTable(ts);
      }
    }
  }

  lemma NoCounts()
    ensures forall s :: LCount([], s) == 0 && DCount([], s) == 0
  {
  }

  /** The frequencies of a block are one for every token and one for its end. */
  lemma TalliedLoad(lf: seq<nat>, df: seq<nat>, ts: seq<Token>)
    requires Tallied(lf, df, ts) && forall i :: 0 <= i < |ts| ==> Expressible(ts[i])
    ensures SumAt(lf, Upto(L_CODES)) == |ts| + 1 && SumAt(df, Upto(D_CODES)) <= |ts|
  {
    hide LCount, DCount, Expressible, SumAt;
    TablesLoad(ts);
    SumOneMore(LTable(ts), lf, L_CODES, END_BLOCK);
    SumSame(df, DTable(ts), Upto(D_CODES));
  }

  lemma LBitsOf(ll: Lengths, dl: Lengths, t: Token)
    requires Codable(ll, dl, t)
    ensures LSym(t) < L_CODES && LSym(t) < |ll|
    ensures t.Match? ==> DSym(t) < D_CODES && DSym(t) < |dl|
    ensures |TokenBits(ll, dl, t)| == ll[LSym(t)] + XBits(ExtraL(), 257, LSym(t)) +
                                      (if t.Match? then dl[DSym(t)] + XBits(ExtraD(), 0, DSym(t)) else 0)
  {
    hide LengthCode, DistCode, CodeBits, LengthExtra, DistExtra, ExtraLBits, ExtraDBits, ExtraL, ExtraD;
    if t.Match? {
      MatchSyms(ll, dl, t.length - 3, t.dist - 1);
      ExtraSizes(t.length - 3, t.dist - 1);
    }
  }

  lemma MatchSyms(ll: Lengths, dl: Lengths, lc: nat, d: nat)
    requires lc <= 255 && d < WSIZE
    ensures LenSym(lc) < L_CODES && XBits(ExtraL(), 257, LenSym(lc)) == ExtraLBits(LengthCode(lc))
    ensures DistCode(d) < D_CODES && XBits(ExtraD(), 0, DistCode(d)) == ExtraDBits(DistCode(d))
  {
    hide LengthCode, DistCode, ExtraLBits, ExtraDBits;
    LengthCoding(lc);
    DistCoding(d);
  }

  lemma ExtraSizes(lc: nat, d: nat)
    requires lc <= 255 && d < WSIZE
    ensures |LengthExtra(lc)| == ExtraLBits(LengthCode(lc)) && |DistExtra(d)| == ExtraDBits(DistCode(d))
  {
    hide LengthCode, DistCode, ExtraLBits, ExtraDBits, BaseLength, BaseDist;
    LengthCoding(lc);
    DistCoding(d);
    LengthRow(LengthCode(lc));
  }

  /** Raising one frequency raises the cost by one symbol. */
  lemma CostOneMore(f: seq<nat>, f': seq<nat>, d: seq<nat>, extra: seq<nat>, base: nat, top: nat, x: nat)
    requires x < top <= |d| && At(f', x) == At(f, x) + 1 && forall y: nat :: y != x && y < top ==> At(f', y) == At(f, y)
    ensures Cost(f', d, extra, base, top) == Cost(f, d, extra, base, top) + d[x] + XBits(extra, base, x)
  {
    hide SumAt, XBits;
    var a, b := Costs(f, d, extra, base, top), Costs(f', d, extra, base, top);
    SumChange(a, b, Upto(top), x);
    OneTimes(At(f, x), d[x] + XBits(extra, base, x));
  }

  lemma OneTimes(f: nat, c: nat)
    ensures (f + 1) * c == f * c + c
  {
  }

  /** The tokens take exactly as many bits as their frequencies say. */
  lemma {:induction false} TokensCost(ll: Lengths, dl: Lengths, ts: seq<Token>, lt: nat, dt: nat)
    requires AllCodable(ll, dl, ts) && lt <= |ll| && dt <= |dl|
    requires forall i :: 0 <= i < |ts| ==> LSym(ts[i]) < lt && (ts[i].Match? ==> DSym(ts[i]) < dt)
    ensures |TokensBits(ll, dl, ts)| == Cost(LTable(ts), ll, ExtraL(), 257, lt) + Cost(DTable(ts), dl, ExtraD(), 0, dt)
    decreases |ts|
  {
    hide LCount, DCount, Cost, XBits, TokenBits, ExtraL, ExtraD, Codable, LSym, DSym;
    if ts == [] {
      EmptyCost(ll, dl, ts, lt, dt);
    } else {
      var n := |ts| - 1;
      var rest, t := ts[..n], ts[n];
      assert ts == rest + [t];
      TokensCost(ll, dl, rest, lt, dt);
      TokensSnoc(ll, dl, rest, t);
      LBitsOf(ll, dl, t);
      forall s: nat { CountsPush(rest, t, s); }
      CostOneMore(LTable(rest), LTable(ts), ll, ExtraL(), 257, lt, LSym(t));
      if t.Match? {
        CostOneMore(DTable(rest), DTable(ts), dl, ExtraD(), 0, dt, DSym(t));
      } else {
        LiteralSym(t);
        assert DTable(rest) == DTable(ts);
      }
    }
  }

  lemma LiteralSym(t: Token)
    requires t.Literal?
    ensures DSym(t) == D_CODES
  {
  }

  lemma EmptyCost(ll: Lengths, dl: Lengths, ts: seq<Token>, lt: nat, dt: nat)
    requires ts == [] && lt <= |ll| && dt <= |dl|
    ensures TokensBits(ll, dl, []) == [] 
    ensures Cost(LTable(ts), ll, ExtraL(), 257, lt) == 0 && Cost(DTable(ts), dl, ExtraD(), 0, dt) == 0
  {
    hide SumAt, XBits;
    ZeroSum(Costs(LTable(ts), ll, ExtraL(), 257, lt), Upto(lt));
    ZeroSum(Costs(DTable(ts), dl, ExtraD(), 0, dt), Upto(dt));
  }
}
