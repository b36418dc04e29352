/** When compress_block() of deps/zlib/trees.c reads its tokens before its own
    output overwrites them: they lie in the second half of the output buffer. */
module Overlay {
  import opened Bits
  import opened HuffmanCode
  import opened Tokens
  import opened InflateSpec
  import opened BitWriter
  import opened BlockFormat
  import opened BitLengths
  import opened StaticTables
  import opened TokenSender
  import BlockTrees
  import TableTheory

  lemma BytesOutBound(bits: nat, n: nat)
    requires bits <= 8 * n
    ensures BytesOut(bits) <= n
  {
  }

  lemma {:induction false} PrefixMost(ll: Lengths, dl: Lengths, ts: seq<Token>, i: nat, most: nat)
    requires AllCodable(ll, dl, ts) && i <= |ts| && forall k :: 0 <= k < |ts| ==> |TokenBits(ll, dl, ts[k])| <= most
    ensures PrefixBits(ll, dl, ts, i) <= most * i
    decreases i
  {
    hide TokenBits, Codable;
    if i > 0 {
      PrefixMost(ll, dl, ts, i - 1, most);
      TokenSent(ll, dl, ts, i - 1, []);
      assert most * i == most * (i - 1) + most;
    } else {
      assert ts[..0] == [];
    }
  }

  /** At most sixteen bits a token on average, over every prefix, is safe even
      behind the trees of a dynamic block. */
  lemma AverageIntact(ll: Lengths, dl: Lengths, ts: seq<Token>, litBufsize: nat, bits: nat)
    requires AllCodable(ll, dl, ts) && bits <= 8 * litBufsize
    requires forall i :: 0 <= i < |ts| ==> PrefixBits(ll, dl, ts, i) <= 16 * i
    ensures Intact(ll, dl, ts, litBufsize, bits)
  {
    hide PrefixBits, AllCodable, BytesOut;
    forall i | 0 <= i < |ts|
      ensures BytesOut(bits + PrefixBits(ll, dl, ts, i)) <= litBufsize + 2 * i
    {
      BytesOutBound(bits + PrefixBits(ll, dl, ts, i), litBufsize + 2 * i);
    }
  }

  /** Tokens of at most 24 bits, of which there are never litBufsize, are safe
      when nothing but a block header comes before them, even if the bit buffer
      was full. */
  lemma ShortTokensIntact(ll: Lengths, dl: Lengths, ts: seq<Token>, litBufsize: nat, bits: nat)
    requires AllCodable(ll, dl, ts) && |ts| < litBufsize && bits <= 24
    requires forall k :: 0 <= k < |ts| ==> |TokenBits(ll, dl, ts[k])| <= 24
    ensures Intact(ll, dl, ts, litBufsize, bits)
  {
    hide PrefixBits, AllCodable, BytesOut, TokenBits;
    forall i | 0 <= i < |ts|
      ensures BytesOut(bits + PrefixBits(ll, dl, ts, i)) <= litBufsize + 2 * i
    {
      PrefixMost(ll, dl, ts, i, 24);
      ShortBytes(bits + PrefixBits(ll, dl, ts, i), litBufsize, i);
    }
  }

  lemma ShortBytes(bits: nat, litBufsize: nat, i: nat)
    requires bits <= 24 + 24 * i && i + 2 <= litBufsize
    ensures BytesOut(bits) <= litBufsize + 2 * i
  {
  }

  // ---------- the fixed codes ----------

  lemma FixedToken(t: Token)
    requires Expressible(t)
    ensures Codable(FixedLengths(), FixedDists(), t) && |TokenBits(FixedLengths(), FixedDists(), t)| <= 31
  {
    hide TokenBits, LSym, DSym, LenSym, DistCode, ExtraL, ExtraD;
    BlockTrees.FixedCodable([t]);
    assert [t][0] == t;
    LBitsOf(FixedLengths(), FixedDists(), t);
    FixedMost(LSym(t), DSym(t));
  }

  lemma FixedMost(l: nat, d: nat)
    ensures l < L_CODES ==> FixedLengths()[l] + XBits(ExtraL(), 257, l) <= 13
    ensures d < D_CODES ==> FixedDists()[d] + XBits(ExtraD(), 0, d) <= 18
  {
    hide ExtraLBits, ExtraDBits;
    SmallExtra(if l >= 257 then l - 257 else 0);
    SmallExtra(d);
    FixedAt(l);
  }

  lemma FixedAt(l: nat)
    ensures l < L_CODES ==> FixedLengths()[l] == if l < 144 then 8 else if l < 256 then 9 else if l < 280 then 7 else 8
  {
  }

  /** No block with the fixed codes fills the whole buffer. */
  lemma FixedBody(ts: seq<Token>)
    requires forall i :: 0 <= i < |ts| ==> Expressible(ts[i])
    ensures AllCodable(FixedLengths(), FixedDists(), ts) && Used(FixedLengths(), END_BLOCK)
    ensures |BodyBits(FixedLengths(), FixedDists(), ts)| <= 31 * |ts| + 7
  {
    hide TokenBits, TokensBits, BodyBits, Expressible, FixedLengths, FixedDists, AllCodable, Used;
    BlockTrees.FixedCodable(ts);
    FixedTokens(ts);
    BodySize(FixedLengths(), FixedDists(), ts);
    FixedEnd();
  }

  lemma FixedEnd()
    ensures FixedLengths()[END_BLOCK] == 7
  {
  }

  lemma FixedTokens(ts: seq<Token>)
    requires (forall i :: 0 <= i < |ts| ==> Expressible(ts[i])) && AllCodable(FixedLengths(), FixedDists(), ts)
    ensures |TokensBits(FixedLengths(), FixedDists(), ts)| <= 31 * |ts|
  {
    hide TokenBits, TokensBits, Expressible, FixedLengths, FixedDists, Codable;
    forall k | 0 <= k < |ts|
      ensures |TokenBits(FixedLengths(), FixedDists(), ts[k])| <= 31
    {
      FixedToken(ts[k]);
    }
    PrefixMost(FixedLengths(), FixedDists(), ts, |ts|, 31);
    assert ts[..|ts|] == ts;
  }

  // ---------- what another token would do to the stream ----------

  lemma Parts(a: seq<bool>, b: seq<bool>, bits: seq<bool>)
    requires a + b <= bits
    ensures a <= bits && b <= bits[|a|..]
  {
    assert (a + b)[..|a|] == a && (a + b)[|a|..] == b;
  }

  lemma SameBits(a: seq<bool>, b: seq<bool>, bits: seq<bool>)
    requires a <= bits && b <= bits && |a| == |b|
    ensures a == b
  {
  }

  lemma SameNumber(v: nat, w: nat, n: nat)
    requires v < Pow2(n) && w < Pow2(n) && ToBits(v, n) == ToBits(w, n)
    ensures v == w
  {
    FromTo(v, n);
    FromTo(w, n);
    LowSmall(v, n);
    LowSmall(w, n);
  }

  lemma SameLength(a: nat, b: nat, bits: seq<bool>)
    requires a <= 255 && b <= 255 && LengthCode(a) == LengthCode(b)
    requires LengthExtra(a) <= bits && LengthExtra(b) <= bits
    ensures a == b && |LengthExtra(a)| == |LengthExtra(b)|
  {
    hide LengthFrom, ToBits, Pow2, BaseLength, ExtraLBits, TableTheory.LBase, TableTheory.LExt;
    LengthCoding(a);
    LengthCoding(b);
    var c := LengthCode(a);
    SmallPowers();
    if ExtraLBits(c) != 0 {
      SameBits(LengthExtra(a), LengthExtra(b), bits);
      SameNumber(a - BaseLength(c), b - BaseLength(c), ExtraLBits(c));
    }
  }

  lemma SameDist(a: nat, b: nat, bits: seq<bool>)
    requires a < WSIZE && b < WSIZE && DistCode(a) == DistCode(b)
    requires DistExtra(a) <= bits && DistExtra(b) <= bits
    ensures a == b
  {
    hide DistFrom, ToBits, Pow2, BaseDist, ExtraDBits, TableTheory.DBase, TableTheory.DExt;
    DistCoding(a);
    DistCoding(b);
    var c := DistCode(a);
    SmallPowers();
    if ExtraDBits(c) != 0 {
      SameBits(DistExtra(a), DistExtra(b), bits);
      SameNumber(a - BaseDist(c), b - BaseDist(c), ExtraDBits(c));
    }
  }

  /** Two prefix-free codes make the tokens prefix-free. */
  lemma TokenPrefixFree(ll: Lengths, dl: Lengths, t: Token, u: Token, bits: seq<bool>)
    requires Codable(ll, dl, t) && Codable(ll, dl, u) && Kraft(ll) <= Pow2(MAXBITS) && Kraft(dl) <= Pow2(MAXBITS)
    requires TokenBits(ll, dl, t) <= bits && TokenBits(ll, dl, u) <= bits
    ensures t == u
  {
    hide Kraft, Pow2, CodeBits, LengthExtra, DistExtra, LengthCode, DistCode;
    FirstSymbol(ll, dl, t, bits);
    FirstSymbol(ll, dl, u, bits);
    PrefixFree(ll, LSym(t), LSym(u), bits);
    if t.Match? && u.Match? {
      var x, y := t.length - MIN_MATCH, u.length - MIN_MATCH;
      MatchParts(ll, dl, t, bits);
      MatchParts(ll, dl, u, bits);
      var after := bits[|CodeBits(ll, LenSym(x))|..];
      SameLength(x, y, after);
      var dist := after[|LengthExtra(x)|..];
      PrefixFree(dl, DistCode(t.dist - 1), DistCode(u.dist - 1), dist);
      SameDist(t.dist - 1, u.dist - 1, dist[|CodeBits(dl, DistCode(t.dist - 1))|..]);
    }
  }

  lemma FirstSymbol(ll: Lengths, dl: Lengths, t: Token, bits: seq<bool>)
    requires Codable(ll, dl, t) && TokenBits(ll, dl, t) <= bits
    ensures Used(ll, LSym(t)) && CodeBits(ll, LSym(t)) <= bits && (LSym(t) < 257 <==> t.Literal?)
  {
    hide CodeBits, LengthExtra, DistExtra, LengthCode, DistCode;
    if t.Match? { MatchParts(ll, dl, t, bits); }
  }

  lemma MatchParts(ll: Lengths, dl: Lengths, t: Token, bits: seq<bool>)
    requires Codable(ll, dl, t) && t.Match? && TokenBits(ll, dl, t) <= bits
    ensures var a, b := CodeBits(ll, LenSym(t.length - MIN_MATCH)), LengthExtra(t.length - MIN_MATCH);
            var c, d := CodeBits(dl, DistCode(t.dist - 1)), DistExtra(t.dist - 1);
            && a <= bits && b <= bits[|a|..] && c <= bits[|a|..][|b|..] && d <= bits[|a|..][|b|..][|c|..]
  {
    hide CodeBits, LengthExtra, DistExtra, LenSym, DistCode, Used;
    var a, b := CodeBits(ll, LenSym(t.length - MIN_MATCH)), LengthExtra(t.length - MIN_MATCH);
    var c, d := CodeBits(dl, DistCode(t.dist - 1)), DistExtra(t.dist - 1);
    assert a + b + c + d == a + (b + (c + d));
    Parts(a, b + (c + d), bits);
    Parts(b, c + d, bits[|a|..]);
    Parts(c, d, bits[|a|..][|b|..]);
  }

  /** Once another token is sent in the place of one of the block, the stream is not
      that of the block any more, whatever follows. */
  lemma Misread(ll: Lengths, dl: Lengths, ts: seq<Token>, at: nat, t: Token, more: seq<bool>)
    requires AllCodable(ll, dl, ts) && Used(ll, END_BLOCK) && Kraft(ll) <= Pow2(MAXBITS) && Kraft(dl) <= Pow2(MAXBITS)
    requires at < |ts| && Codable(ll, dl, t) && t != ts[at]
    ensures AllCodable(ll, dl, ts[..at])
    ensures !(TokensBits(ll, dl, ts[..at]) + TokenBits(ll, dl, t) <= BodyBits(ll, dl, ts) + more)
  {
    hide Kraft, Pow2, TokenBits, TokensBits, Codable, CodeBits, Used;
    TokensPrefix(ll, dl, ts, at);
    TokensPrefix(ll, dl, ts, at + 1);
    TokenSent(ll, dl, ts, at, []);
    var a, all := TokensBits(ll, dl, ts[..at]), BodyBits(ll, dl, ts) + more;
    assert [] + TokensBits(ll, dl, ts[..at + 1]) == a + TokenBits(ll, dl, ts[at]);
    if a + TokenBits(ll, dl, t) <= all {
      Parts(a, TokenBits(ll, dl, t), all);
      Parts(a, TokenBits(ll, dl, ts[at]), all);
      TokenPrefixFree(ll, dl, t, ts[at], all[|a|..]);
    }
  }

  // ---------- windows for which nothing overtakes ----------

  predicate Within(t: Token, reach: nat) { t.Match? ==> t.dist <= reach }

  /** A block of tokens that a window with distances up to reach can give. */
  predicate Tallies(ts: seq<Token>, litBufsize: nat, reach: nat)
  {
    |ts| < litBufsize && forall i :: 0 <= i < |ts| ==> Expressible(ts[i]) && Within(ts[i], reach)
  }

  lemma NearCode(d: nat)
    requires d < 256
    ensures DistCode(d) < 16
  {
    hide Pow2, BaseDist, DistFrom, ExtraDBits;
    var c := DistCode(d);
    DistCoding(d);
    DistRow(16);
    BaseDistMono(16, if c < 16 then 16 else c);
  }

  lemma NearExtra(d: nat)
    requires d < 16
    ensures FixedDists()[d] + XBits(ExtraD(), 0, d) <= 11
  {
  }

  /** Up to distance 256 a token takes no more than 24 bits. */
  lemma NearToken(t: Token)
    requires Expressible(t) && Within(t, 256)
    ensures Codable(FixedLengths(), FixedDists(), t) && |TokenBits(FixedLengths(), FixedDists(), t)| <= 24
  {
    hide TokenBits, LSym, LenSym, DistCode, ExtraL, ExtraD, FixedLengths, FixedDists, XBits;
    FixedToken(t);
    LBitsOf(FixedLengths(), FixedDists(), t);
    FixedMost(LSym(t), D_CODES);
    if t.Match? {
      NearCode(t.dist - 1);
      NearExtra(DSym(t));
    }
  }

  lemma NearIntact(ts: seq<Token>, litBufsize: nat, bits: nat)
    requires Tallies(ts, litBufsize, 256) && bits <= 24
    ensures AllCodable(FixedLengths(), FixedDists(), ts) && Intact(FixedLengths(), FixedDists(), ts, litBufsize, bits)
  {
    hide TokenBits, Codable, FixedLengths, FixedDists, Expressible, Within, Intact;
    forall k | 0 <= k < |ts|
      ensures Codable(FixedLengths(), FixedDists(), ts[k]) && |TokenBits(FixedLengths(), FixedDists(), ts[k])| <= 24
    {
      NearToken(ts[k]);
    }
    ShortTokensIntact(FixedLengths(), FixedDists(), ts, litBufsize, bits);
  }

  /** At distance 257 it can be 25. */
  lemma LongToken()
    ensures var t := Match(230, 257);
            Codable(FixedLengths(), FixedDists(), t) && |TokenBits(FixedLengths(), FixedDists(), t)| == 25
  {
    hide TokenBits, ExtraL, ExtraD, FixedLengths, FixedDists, LengthCode, DistCode;
    var t := Match(230, 257);
    FixedToken(t);
    LBitsOf(FixedLengths(), FixedDists(), t);
    LongCodes();
    FixedAt(284);
    LongExtra();
  }

  lemma LongExtra()
    ensures FixedDists()[16] == 5 && XBits(ExtraL(), 257, 284) == 5 && XBits(ExtraD(), 0, 16) == 7
  {
  }

  lemma LongCodes()
    ensures LengthCode(227) == 27 && DistCode(256) == 16
  {
    hide Pow2, TableTheory.DBase, TableTheory.LBase, ExtraLBits, ExtraDBits, BaseLength, BaseDist, LengthFrom, DistFrom;
    LongRows();
    LengthRow(27);
    DistRow(16);
    DistRow(17);
    LengthFromIsCode(227, 0, 27);
    DistFromIsCode(256, 0, 16);
  }

  lemma LongRows()
    ensures TableTheory.LBase(27) == 227 && TableTheory.DBase(16) == 257 && TableTheory.DBase(17) == 385
  {
  }

  /** A block of such tokens overtakes itself at the last entry. */
  lemma LongOvertaken(litBufsize: nat, bits: nat)
    requires litBufsize >= 128
    ensures var ts := seq(litBufsize - 1, k => Match(230, 257));
            AllCodable(FixedLengths(), FixedDists(), ts) && !Intact(FixedLengths(), FixedDists(), ts, litBufsize, bits)
  {
    hide TokenBits, Codable, FixedLengths, FixedDists, PrefixBits, Intact, AllCodable, BytesOut;
    var t, i := Match(230, 257), litBufsize - 2;
    LongToken();
    SameTokens(t, seq(litBufsize - 1, k => t), i);
    LongBytes(bits + 25 * i, litBufsize);
    Overtaken(FixedLengths(), FixedDists(), seq(litBufsize - 1, k => t), litBufsize, bits, i);
  }

  lemma LongBytes(bits: nat, litBufsize: nat)
    requires litBufsize >= 128 && bits >= 25 * (litBufsize - 2)
    ensures BytesOut(bits) > litBufsize + 2 * (litBufsize - 2)
  {
  }

  /** With the fixed codes no block overtakes its tokens if and only if no distance
      exceeds 256, whatever the size of the buffer. */
  lemma ReachExact(reach: nat, litBufsize: nat, bits: nat)
    requires litBufsize >= 128 && bits <= 24
    ensures reach <= 256 <==>
            forall ts: seq<Token> :: Tallies(ts, litBufsize, reach) ==>
              AllCodable(FixedLengths(), FixedDists(), ts) && Intact(FixedLengths(), FixedDists(), ts, litBufsize, bits)
  {
    hide FixedLengths, FixedDists, AllCodable, Intact;
    if reach <= 256 {
      forall ts: seq<Token> | Tallies(ts, litBufsize, reach)
        ensures AllCodable(FixedLengths(), FixedDists(), ts) && Intact(FixedLengths(), FixedDists(), ts, litBufsize, bits)
      {
        assert Tallies(ts, litBufsize, 256);
        NearIntact(ts, litBufsize, bits);
      }
    } else {
      var ts: seq<Token> := seq(litBufsize - 1, k => Match(230, 257));
      LongOvertaken(litBufsize, bits);
      assert Tallies(ts, litBufsize, reach);
    }
  }

  // ---------- an input that overtakes ----------

  /** A longest match of distance 20000 takes 26 bits. */
  lemma FarMatch()
    ensures var t := Match(MAX_MATCH, 20000);
            Codable(FixedLengths(), FixedDists(), t) && |TokenBits(FixedLengths(), FixedDists(), t)| == 26
  {
    hide TokenBits, ExtraL, ExtraD, FixedLengths, FixedDists, LengthFrom, DistFrom, DistCode;
    var t := Match(MAX_MATCH, 20000);
    FixedToken(t);
    LBitsOf(FixedLengths(), FixedDists(), t);
    FarCode();
    FixedAt(285);
    FixedDist28();
  }

  lemma FixedDist28()
    ensures FixedDists()[28] == 5 && XBits(ExtraL(), 257, 285) == 0 && XBits(ExtraD(), 0, 28) == 13
  {
  }

  lemma FarCode()
    ensures DistCode(19999) == 28
  {
    hide Pow2, TableTheory.DBase, TableTheory.DExt, ExtraDBits, BaseDist;
    Rows28();
    DistRow(28);
    DistRow(29);
    DistFromIsCode(19999, 0, 28);
  }

  lemma Rows28()
    ensures TableTheory.DBase(28) == 16385 && TableTheory.DBase(29) == 24577
  {
  }

  lemma {:induction false} SameTokens(t: Token, ts: seq<Token>, i: nat)
    requires Codable(FixedLengths(), FixedDists(), t) && i <= |ts| && forall k :: 0 <= k < |ts| ==> ts[k] == t
    ensures AllCodable(FixedLengths(), FixedDists(), ts)
    ensures PrefixBits(FixedLengths(), FixedDists(), ts, i) == |TokenBits(FixedLengths(), FixedDists(), t)| * i
    decreases i
  {
    hide TokenBits, TokensBits, Codable, FixedLengths, FixedDists;
    if i > 0 {
      SameTokens(t, ts, i - 1);
      TokenSent(FixedLengths(), FixedDists(), ts, i - 1, []);
      assert |TokenBits(FixedLengths(), FixedDists(), t)| * i ==
             |TokenBits(FixedLengths(), FixedDists(), t)| * (i - 1) + |TokenBits(FixedLengths(), FixedDists(), t)|;
    } else {
      NoTokens(FixedLengths(), FixedDists(), [], ts);
    }
  }

  /** With the fixed codes a full block of such matches overtakes itself: when entry
      13110 of 16383 is read, its distance has been overwritten. */
  lemma FixedOvertaken(bits: nat)
    ensures var ts := seq(16383, k => Match(MAX_MATCH, 20000));
            AllCodable(FixedLengths(), FixedDists(), ts) && !Intact(FixedLengths(), FixedDists(), ts, 16384, bits)
  {
    hide TokenBits, Codable, FixedLengths, FixedDists, PrefixBits, Intact, AllCodable;
    var t := Match(MAX_MATCH, 20000);
    FarMatch();
    SameTokens(t, seq(16383, k => t), 13110);
    BytesMono(26 * 13110, bits + 26 * 13110);
    Overtaken(FixedLengths(), FixedDists(), seq(16383, k => t), 16384, bits, 13110);
  }

  lemma {:induction false} ByteBit(s: seq<byte>, k: nat, j: nat)
    requires k < |s| && j < 8
    ensures BytesBits(s)[8 * k + j] == ToBits(s[k], 8)[j]
    decreases k
  {
    hide ToBits;
    if k > 0 { ByteBit(s[1..], k - 1, j); }
  }

  lemma FarExtra()
    ensures var t := Match(MAX_MATCH, 20000);
            Codable(FixedLengths(), FixedDists(), t) && |TokenBits(FixedLengths(), FixedDists(), t)| == 26 &&
            TokenBits(FixedLengths(), FixedDists(), t)[22]
  {
    hide CodeBits, LengthExtra, DistExtra, FixedLengths, FixedDists, DistCode, LenSym;
    FarMatch();
    FarDistance();
    FarLength();
    FixedDist28();
  }

  lemma FarLength()
    ensures FixedLengths()[LenSym(255)] == 8 && |LengthExtra(255)| == 0
  {
    hide FixedLengths, LengthFrom, BaseLength, ToBits, Pow2;
    FixedAt(285);
    assert LenSym(255) == 285;
  }

  lemma FarDistance()
    ensures DistCode(19999) == 28 && |DistExtra(19999)| == 13 && DistExtra(19999)[9]
  {
    hide DistCode, BaseDist, ToBits, Pow2, TableTheory.DBase;
    FarCode();
    DistCoding(19999);
    Rows28();
    Bits3615();
  }

  /** 3615 == 2048 + 1024 + 512 + 31 */
  lemma Bits3615()
    ensures ToBits(3615, 13)[9] && |ToBits(3615, 13)| == 13
  {
    hide Low;
    ToSplit(3615, 9, 4);
    assert Shr(3615, 9) == 7;
  }

  /** What is read there is another token, since that part of the output differs
      from the distance it has overwritten. */
  lemma FixedMisread(header: seq<bool>, mem: seq<byte>)
    requires var t := Match(MAX_MATCH, 20000); Codable(FixedLengths(), FixedDists(), t)
    requires |header| == 3 && |mem| == 4 * 16384
    requires var ts := seq(13110, k => Match(MAX_MATCH, 20000));
             AllCodable(FixedLengths(), FixedDists(), ts) &&
             BytesBits(mem[..BytesOut(3 + 26 * 13110)]) <= header + TokensBits(FixedLengths(), FixedDists(), ts)
    ensures TokenAt(mem, 16384, 13110) != Match(MAX_MATCH, 20000)
  {
    hide TokenBits, Codable, FixedLengths, FixedDists, TokensBits, BytesBits, ToBits;
    var ll, dl, t := FixedLengths(), FixedDists(), Match(MAX_MATCH, 20000);
    var ts := seq(13110, k => t);
    var n := BytesOut(3 + 26 * 13110);
    FarExtra();
    SameTokens(t, ts, 13108);
    LastTwo(ll, dl, ts, 13110, t);
    ByteBit(mem[..n], 42604, 1);
    var all := TokensBits(ll, dl, ts);
    assert all[340830];
    assert BytesBits(mem[..n])[340833] == (header + all)[340833];
    assert !ToBits(20000 % 256, 8)[1] by { Bit32(); }
  }

  lemma LastTwo(ll: Lengths, dl: Lengths, ts: seq<Token>, n: nat, t: Token)
    requires AllCodable(ll, dl, ts) && |ts| == n >= 2 && ts[n - 1] == ts[n - 2] == t
    ensures Codable(ll, dl, t) && AllCodable(ll, dl, ts[..n - 2])
    ensures TokensBits(ll, dl, ts) == TokensBits(ll, dl, ts[..n - 2]) + TokenBits(ll, dl, t) + TokenBits(ll, dl, t)
  {
    hide TokenBits, Codable;
    assert ts == ts[..n - 1] + [t] && ts[..n - 1] == ts[..n - 2] + [t];
    TokensSnoc(ll, dl, ts[..n - 2], t);
    TokensSnoc(ll, dl, ts[..n - 1], t);
  }

  lemma Bit32()
    ensures !ToBits(20000 % 256, 8)[1]
  {
  }

  lemma BytesMono(a: nat, b: nat)
    requires a <= b
    ensures BytesOut(a) <= BytesOut(b)
  {
  }
}
