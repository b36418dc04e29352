/** A block of the compressor that the decompressor refuses: frequencies for
    which build_tree() (deps/zlib/trees.c) finds the distance code whose decoding
    table has exactly 592 entries, in a block of no more tokens than fit. */
module FullTable {
  import opened Bits
  import opened HuffmanCode
  import TableTheory
  import InflateTable
  import opened Tokens
  import opened InflateSpec
  import opened CodeLengths
  import opened BlockFormat
  import opened PriorityHeap
  import opened Sums
  import opened BitLengths
  import opened LengthLimit
  import opened Optimal
  import opened SoleCode
  import opened BuildTree
  import opened CheapestCode
  import opened DyadicCode
  import opened StaticTables
  import opened TokenSender
  import opened Overlay
  import opened BlockTrees
  import opened BlockStream
  import opened BlockCoder
  import opened TableLimit

  // ---------- the tokens ----------

  /** How often each distance code occurs: 32767 times together. */
  function Freq(c: nat): (f: nat)
    requires c < D_CODES
    ensures f > 0
  {
    if c == 0 then 0x3FFF else Pow2(MAXBITS - Greedy()[c])
  }

  /** A longest match with the first distance of a code. */
  function Sample(c: nat): Token
    requires c < D_CODES
  {
    Match(MAX_MATCH, BaseDist(c) + 1)
  }

  /** All matches with the first n codes, in order. */
  function Samples(n: nat): (ts: seq<Token>)
    requires n <= D_CODES
  {
    if n == 0 then [] else Samples(n - 1) + seq(Freq(n - 1), k => Sample(n - 1))
  }

  lemma SampleCodes(c: nat)
    requires c < D_CODES
    ensures Expressible(Sample(c)) && DSym(Sample(c)) == c && LSym(Sample(c)) == 285
  {
    hide Pow2, BaseDist, DistFrom, TableTheory.DBase, ExtraDBits;
    DistRow(c);
    DistRow(c + 1);
    BaseBound(c);
    DistFromIsCode(BaseDist(c), 0, c);
  }

  lemma BaseBound(c: nat)
    requires c < D_CODES
    ensures TableTheory.DBase(c) <= 24577 && (c < D_CODES - 1 ==> TableTheory.DBase(c) < TableTheory.DBase(c + 1))
  {
  }

  predicate IsSample(t: Token, n: nat)
    requires n <= D_CODES
  {
    exists c :: 0 <= c < n && t == Sample(c)
  }

  lemma {:induction false} SamplesAre(n: nat)
    requires n <= D_CODES
    ensures forall i :: 0 <= i < |Samples(n)| ==> IsSample(Samples(n)[i], n)
    ensures n > 0 ==> |Samples(n)| >= 0x3FFF && forall i :: 0 <= i < 0x3FFF ==> Samples(n)[i] == Sample(0)
  {
    hide Sample, Freq;
    if n > 0 {
      SamplesAre(n - 1);
      if n == 1 { FirstFreq(); }
      forall i | 0 <= i < |Samples(n)|
        ensures IsSample(Samples(n)[i], n)
      {
        if i < |Samples(n - 1)| {
          assert IsSample(Samples(n - 1)[i], n - 1);
        } else {
          assert Samples(n)[i] == Sample(n - 1);
        }
      }
    }
  }

  lemma FirstFreq()
    ensures Freq(0) == 0x3FFF
  {
  }

  lemma SampleAt(i: nat)
    requires i < |Samples(D_CODES)|
    ensures Expressible(Samples(D_CODES)[i]) && LSym(Samples(D_CODES)[i]) == 285 && Samples(D_CODES)[i].Match?
    ensures DSym(Samples(D_CODES)[i]) < D_CODES && (i < 0x3FFF ==> DSym(Samples(D_CODES)[i]) == 0)
  {
    hide Sample, Samples, LSym, DSym, Expressible;
    SamplesAre(D_CODES);
    assert IsSample(Samples(D_CODES)[i], D_CODES);
    var c :| 0 <= c < D_CODES && Samples(D_CODES)[i] == Sample(c);
    SampleCodes(c);
    SampleCodes(0);
    MatchSample(c);
  }

  lemma MatchSample(c: nat)
    requires c < D_CODES
    ensures Sample(c).Match?
  {
  }

  // ---------- their frequencies ----------

  lemma {:induction false} RunCounts(ts: seq<Token>, t: Token, run: seq<Token>, s: nat)
    requires forall k :: 0 <= k < |run| ==> run[k] == t
    ensures DCount(ts + run, s) == DCount(ts, s) + (if DSym(t) == s then |run| else 0)
    ensures LCount(ts + run, s) == LCount(ts, s) + (if LSym(t) == s then |run| else 0)
    decreases |run|
  {
    hide DSym, LSym, DCount, LCount;
    if run == [] {
      assert ts + run == ts;
    } else {
      var n := |run| - 1;
      RunCounts(ts, t, run[..n], s);
      CountsPush(ts + run[..n], t, s);
      assert ts + run == ts + run[..n] + [t];
    }
  }

  lemma {:induction false} SampleCounts(n: nat, s: nat)
    requires n <= D_CODES
    ensures DCount(Samples(n), s) == if s < n then Freq(s) else 0
    ensures LCount(Samples(n), s) == if s == 285 then |Samples(n)| else 0
  {
    hide DSym, LSym, DCount, LCount, Sample, Freq;
    if n == 0 {
      NoCounts();
    } else {
      SampleCounts(n - 1, s);
      SampleCodes(n - 1);
      RunCounts(Samples(n - 1), Sample(n - 1), seq(Freq(n - 1), k => Sample(n - 1)), s);
    }
  }

  /** The sizes of the parts. */
  function Sizes(n: nat): nat
  {
    if 5 <= n <= 14 then 30975 + 128 * (n - 5)
    else if 14 <= n <= 23 then 32127 + 64 * (n - 14)
    else match n
      case 0 => 0 case 1 => 16383 case 2 => 24575 case 3 => 28671 case 4 => 30719
      case 24 => 32735 case 25 => 32751 case 26 => 32759 case 27 => 32763 case 28 => 32765 case 29 => 32766 case _ => 32767
  }

  function FreqOf(c: nat): nat
  {
    if 5 <= c < 14 then 128 else if 14 <= c < 23 then 64
    else match c
      case 0 => 16383 case 1 => 8192 case 2 => 4096 case 3 => 2048 case 4 => 256 case 23 => 32 case 24 => 16 case 25 => 8
      case 26 => 4 case 27 => 2 case _ => 1
  }

  lemma FreqIs(c: nat)
    requires c < D_CODES
    ensures Freq(c) == FreqOf(c)
  {
    hide Pow2;
    SmallPowers();
  }

  lemma SizesNext(n: nat)
    requires 1 <= n <= D_CODES
    ensures Sizes(n) == Sizes(n - 1) + Freq(n - 1)
  {
    hide Freq;
    FreqIs(n - 1);
  }

  lemma {:induction false} SampleSizes(n: nat)
    requires n <= D_CODES
    ensures |Samples(n)| == Sizes(n)
  {
    hide Freq, Sizes, Sample;
    if n > 0 {
      SampleSizes(n - 1);
      SizesNext(n);
    } else {
      NoSizes();
    }
  }

  lemma NoSizes()
    ensures Sizes(0) == 0 && Sizes(D_CODES) == 0x7FFF
  {
  }

  // ---------- the trees ----------

  /** The code of the lengths: one for all matches, one for the end of the block. */
  function PairLengths(): (g: seq<nat>)
    ensures |g| == L_CODES && forall s :: 0 <= s < L_CODES ==> g[s] == if s == END_BLOCK || s == 285 then 1 else 0
  {
    seq(L_CODES, s => if s == END_BLOCK || s == 285 then 1 else 0)
  }

  lemma {:induction false} AllSymbols(f: seq<nat>, n: nat)
    requires n <= |f| && forall x :: 0 <= x < n ==> f[x] > 0
    ensures Symbols(f, n) == Upto(n)
  {
    if n > 0 {
      AllSymbols(f, n - 1);
      UptoNext(n - 1);
    }
  }

  lemma {:induction false} TwoOccur(f: seq<nat>, n: nat)
    requires n <= |f| && forall x :: 0 <= x < |f| ==> (f[x] > 0 <==> x == END_BLOCK || x == 285)
    ensures Symbols(f, n) == (if n > END_BLOCK then [END_BLOCK] else []) + if n > 285 then [285] else []
  {
    if n > 0 { TwoOccur(f, n - 1); }
  }

  lemma FreqSuits(c: nat)
    requires c < D_CODES
    ensures Suits(Freq(c), Greedy()[c])
  {
    hide Pow2;
    FourteenBits();
  }

  /** The lengths that build_tree() finds for these tokens. */
  lemma TreesAre(tr: Trees)
    requires SoleTrees(tr, Samples(D_CODES)) && |tr.dl| <= D_CODES
    ensures tr.dl == Greedy() && At(tr.ll, END_BLOCK) == 1 && At(tr.ll, 285) == 1
  {
    hide Freq, Sample, Samples, LCount, DCount, SumAt, Sole, Differ, Greedy, Symbols;
    DistsAre(tr);
    LengthsAre(tr);
  }

  lemma DistsAre(tr: Trees)
    requires SoleFound(DTable(Samples(D_CODES)), tr.dl, D_CODES, MAXBITS) && |tr.dl| <= D_CODES
    ensures tr.dl == Greedy()
  {
    hide Samples, Sole, Symbols, Greedy;
    GreedySole();
    GreedyRange();
    assert !Differ(tr.dl, Greedy(), Upto(D_CODES));
    forall c | 0 <= c < D_CODES
      ensures At(tr.dl, c) == Greedy()[c]
    {
      assert Upto(D_CODES)[c] == c;
    }
    assert At(tr.dl, D_CODES - 1) > 0;
  }

  lemma GreedySole()
    ensures Symbols(DTable(Samples(D_CODES)), D_CODES) == Upto(D_CODES)
    ensures Sole(DTable(Samples(D_CODES)), Greedy(), Upto(D_CODES), MAXBITS)
  {
    hide Freq, Samples, DCount, SumAt, Sole, Symbols, Kraft, Pow2, Suits, Greedy;
    var f, g := DTable(Samples(D_CODES)), Greedy();
    forall c | 0 <= c < D_CODES
      ensures f[c] == Freq(c) && Suits(f[c], g[c])
    {
      SampleCounts(D_CODES, c);
      FreqSuits(c);
    }
    AllSymbols(f, D_CODES);
    GreedyRoom();
    DyadicSole(f, g, Upto(D_CODES));
  }

  lemma GreedyRoom()
    ensures SumAt(Weights(Greedy(), MAXBITS), Upto(D_CODES)) == Pow2(MAXBITS)
  {
    hide SumAt, Symbols, Kraft, Pow2, Greedy;
    GreedyRange();
    AllSymbols(Greedy(), D_CODES);
    FullTableRefused();
    GreedyFills();
    KraftSum(Greedy());
  }

  lemma GreedyFills()
    requires Complete(Greedy())
    ensures Kraft(Greedy()) == Pow2(MAXBITS)
  {
    hide Kraft, Greedy;
  }

  lemma GreedyRange()
    ensures InRange(Greedy()) && forall c :: 0 <= c < D_CODES ==> Greedy()[c] > 0
  {
  }

  lemma LengthsAre(tr: Trees)
    requires SoleFound(LFreqs(Samples(D_CODES)), tr.ll, L_CODES, MAXBITS)
    ensures At(tr.ll, END_BLOCK) == 1 && At(tr.ll, 285) == 1
  {
    hide Freq, Sample, Samples, LCount, DCount, SumAt, Sole, Symbols;
    var f, g := LFreqs(Samples(D_CODES)), PairLengths();
    SampleSizes(D_CODES);
    NoSizes();
    forall s | 0 <= s < L_CODES
      ensures f[s] > 0 <==> s == END_BLOCK || s == 285
    {
      SampleCounts(D_CODES, s);
    }
    TwoOccur(f, L_CODES);
    assert [END_BLOCK] + [285] == [END_BLOCK, 285];
    TwoSole(f, g, END_BLOCK, 285);
    assert !Differ(tr.ll, g, [END_BLOCK, 285]);
    assert [END_BLOCK, 285][0] == END_BLOCK && [END_BLOCK, 285][1] == 285;
  }

  // ---------- the block ----------

  /** A token of the block with its own codes and with the fixed ones. */
  lemma SampleBits(ll: Lengths, dl: Lengths, i: nat)
    requires i < |Samples(D_CODES)| && AllCodable(ll, dl, Samples(D_CODES)) && dl == Greedy() && At(ll, 285) == 1
    ensures var t := Samples(D_CODES)[i];
            && Codable(ll, dl, t) && Codable(FixedLengths(), FixedDists(), t)
            && |TokenBits(FixedLengths(), FixedDists(), t)| + 3 >= |TokenBits(ll, dl, t)| && |TokenBits(ll, dl, t)| <= 29
            && (i < 0x3FFF ==> |TokenBits(ll, dl, t)| == 2 && |TokenBits(FixedLengths(), FixedDists(), t)| == 13)
  {
    hide Sample, Samples, TokenBits, Codable, LSym, DSym, FixedLengths, FixedDists, XBits, ExtraL, ExtraD, Greedy;
    var t := Samples(D_CODES)[i];
    SampleAt(i);
    FixedToken(t);
    LBitsOf(ll, dl, t);
    LBitsOf(FixedLengths(), FixedDists(), t);
    FixedAt(285);
    FixedDist28();
    DistParts(DSym(t));
  }

  lemma DistParts(d: nat)
    requires d < D_CODES
    ensures FixedDists()[d] == 5 && Greedy()[d] <= 15 && XBits(ExtraD(), 0, d) <= 13
    ensures d == 0 ==> Greedy()[d] == 1 && XBits(ExtraD(), 0, d) == 0
  {
    hide ExtraDBits;
    SmallExtra(d);
    assert ExtraDBits(0) == 0 by { NoExtraBits(); }
  }

  lemma NoExtraBits()
    ensures ExtraDBits(0) == 0
  {
  }

  /** The first half of the tokens takes few bits, and the rest not very many. */
  lemma {:induction false} SamplePrefix(ll: Lengths, dl: Lengths, i: nat)
    requires i <= |Samples(D_CODES)| && AllCodable(ll, dl, Samples(D_CODES)) && dl == Greedy() && At(ll, 285) == 1
    requires AllCodable(FixedLengths(), FixedDists(), Samples(D_CODES))
    ensures var x, y := PrefixBits(ll, dl, Samples(D_CODES), i), PrefixBits(FixedLengths(), FixedDists(), Samples(D_CODES), i);
            if i <= 0x3FFF then x == 2 * i && y == 13 * i
            else x <= 2 * 0x3FFF + 29 * (i - 0x3FFF) && y + 3 * (i - 0x3FFF) >= x + 11 * 0x3FFF
    decreases i
  {
    hide Samples, TokenBits, TokensBits, Codable, FixedLengths, FixedDists, Greedy;
    var ts := Samples(D_CODES);
    if i == 0 {
      NoTokens(ll, dl, [], ts);
      NoTokens(FixedLengths(), FixedDists(), [], ts);
    } else {
      SamplePrefix(ll, dl, i - 1);
      SampleBits(ll, dl, i - 1);
      TokenSent(ll, dl, ts, i - 1, []);
      TokenSent(FixedLengths(), FixedDists(), ts, i - 1, []);
    }
  }

  // ---------- the header ----------

  lemma {:induction false} ItemsGrow(have: seq<nat>, items: seq<Item>)
    requires Addable(have, items)
    ensures |AddItems(have, items)| >= |have| + |items|
    decreases |items|
  {
    if items != [] { ItemsGrow(AddItem(have, items[0]), items[1..]); }
  }

  lemma {:induction false} ItemsMost(bl: Lengths, items: seq<Item>)
    requires ItemsCodable(bl, items)
    ensures |ItemsBits(bl, items)| <= 22 * |items|
  {
    hide CodeBits, ToBits;
    if items != [] { ItemsMost(bl, items[1..]); }
  }

  lemma LengthsMost(bl: Lengths, lens: Lengths)
    requires lens != [] && InRange(lens) && ItemsCodable(bl, TreeItems(lens))
    ensures |ItemsBits(bl, TreeItems(lens))| <= 22 * |lens|
  {
    hide ItemsBits, ItemsCodable, TreeItems, Addable, AddItems;
    TreeItemsAdd([], lens);
    ItemsGrow([], TreeItems(lens));
    ItemsMost(bl, TreeItems(lens));
  }

  lemma {:induction false} LenLensMost(bl: Lengths, i: nat, n: nat)
    requires i <= n <= 19 == |bl|
    ensures |LenLensBits(bl, i, n)| == 3 * (n - i)
    decreases n - i
  {
    hide ToBits;
    if i < n { LenLensMost(bl, i + 1, n); }
  }

  lemma HeaderMost(tr: Trees)
    requires TreesSent(tr.ll, tr.dl, tr.bl, tr.blcodes)
    ensures |TreesBits(tr.ll, tr.dl, tr.bl, tr.blcodes)| <= 8000
  {
    hide ItemsBits, ItemsCodable, TreeItems, LenLensBits, ToBits, Partial, InRange;
    LengthsMost(tr.bl, tr.ll);
    LengthsMost(tr.bl, tr.dl);
    LenLensMost(tr.bl, 0, tr.blcodes);
  }

  // ---------- what is sent ----------

  /** When there is no room for the block as it is, it is sent with its own codes,
      none of its tokens is overtaken, and the decoder refuses it. */
  lemma FullTableSent(b: Block, tr: Trees, bits: nat)
    requires Choice(b, Gone, false, Samples(D_CODES), tr) && bits <= 16
    ensures b == DynamicBlock(b.last, Samples(D_CODES), tr) && tr.dl == Greedy()
    ensures Sendable(b) && BlockIntact(b, 32768, bits) && !Acceptable(b)
  {
    hide Samples, Greedy, AllCodable, FixedLengths, FixedDists, TreesBits, BodyBits, SoleTrees, Intact, Used, TreesSent, TreesFor,
         BothFit, Shortest, Choice, Sendable, Acceptable, BlockIntact;
    var ts := Samples(D_CODES);
    ChoiceParts(b, tr, ts);
    TreesSizes(tr);
    TreesAre(tr);
    HeaderMost(tr);
    SamplesShorter(tr);
    IsDynamic(b, tr, ts);
    GreedyRefused(b);
    FromIntact(tr, bits + 3 + |TreesBits(tr.ll, tr.dl, tr.bl, tr.blcodes)|);
    DynamicIntact(b.last, ts, tr, 32768, bits);
  }

  lemma ChoiceParts(b: Block, tr: Trees, ts: seq<Token>)
    requires Choice(b, Gone, false, ts, tr)
    ensures TreesFor(tr, ts) && TreesSent(tr.ll, tr.dl, tr.bl, tr.blcodes) && SoleTrees(tr, ts)
    ensures AllCodable(tr.ll, tr.dl, ts) && Used(tr.ll, END_BLOCK)
    ensures AllCodable(FixedLengths(), FixedDists(), ts) && Used(FixedLengths(), END_BLOCK) && Shortest(b, Gone, false, ts, tr)
  {
    hide SoleTrees, ShortestBody, TreesSent, AllCodable, Used, FixedLengths, FixedDists, Shortest, Complete;
  }

  lemma IsDynamic(b: Block, tr: Trees, ts: seq<Token>)
    requires TreesFor(tr, ts) && AllCodable(FixedLengths(), FixedDists(), ts) && Used(FixedLengths(), END_BLOCK)
    requires Shortest(b, Gone, false, ts, tr) && |TreesBits(tr.ll, tr.dl, tr.bl, tr.blcodes)| <= 8000
    requires |BodyBits(FixedLengths(), FixedDists(), ts)| >= |BodyBits(tr.ll, tr.dl, ts)| + 100000
    ensures b == DynamicBlock(b.last, ts, tr)
  {
    hide TreesFor, AllCodable, FixedLengths, FixedDists, TreesBits, BodyBits, Used;
  }

  lemma GreedyRefused(b: Block)
    requires b.DynamicBlock? && b.tr.dl == Greedy()
    ensures !Acceptable(b)
  {
    hide Greedy, InflateTable.Fits, InflateTable.Space;
    FullTableRefused();
  }

  /** With its own codes the block is shorter by more than any header. */
  lemma SamplesShorter(tr: Trees)
    requires AllCodable(tr.ll, tr.dl, Samples(D_CODES)) && Used(tr.ll, END_BLOCK) && tr.dl == Greedy()
    requires At(tr.ll, 285) == 1 && At(tr.ll, END_BLOCK) == 1
    requires AllCodable(FixedLengths(), FixedDists(), Samples(D_CODES)) && Used(FixedLengths(), END_BLOCK)
    ensures |BodyBits(FixedLengths(), FixedDists(), Samples(D_CODES))| >= |BodyBits(tr.ll, tr.dl, Samples(D_CODES))| + 100000
  {
    hide Samples, Greedy, AllCodable, FixedLengths, FixedDists, TokensBits, BodyBits, Used;
    var ts := Samples(D_CODES);
    SampleSizes(D_CODES);
    NoSizes();
    SamplePrefix(tr.ll, tr.dl, |ts|);
    assert ts[..|ts|] == ts;
    BodySize(tr.ll, tr.dl, ts);
    BodySize(FixedLengths(), FixedDists(), ts);
    FixedEnd();
  }

  lemma DynamicIntact(last: bool, ts: seq<Token>, tr: Trees, litBufsize: nat, bits: nat)
    requires TreesFor(tr, ts) && Intact(tr.ll, tr.dl, ts, litBufsize, bits + 3 + |TreesBits(tr.ll, tr.dl, tr.bl, tr.blcodes)|)
    ensures Sendable(DynamicBlock(last, ts, tr)) && BlockIntact(DynamicBlock(last, ts, tr), litBufsize, bits)
  {
    hide TreesFor, TreesBits, Intact;
  }

  lemma FromIntact(tr: Trees, bits: nat)
    requires AllCodable(tr.ll, tr.dl, Samples(D_CODES)) && tr.dl == Greedy() && At(tr.ll, 285) == 1 && bits <= 262144
    requires AllCodable(FixedLengths(), FixedDists(), Samples(D_CODES))
    ensures Intact(tr.ll, tr.dl, Samples(D_CODES), 32768, bits)
  {
    hide Samples, Greedy, AllCodable, FixedLengths, FixedDists, PrefixBits, Intact;
    SampleSizes(D_CODES);
    NoSizes();
    forall i | 0 <= i < |Samples(D_CODES)|
      ensures PrefixBits(tr.ll, tr.dl, Samples(D_CODES), i) <= 16 * i
    {
      SamplePrefix(tr.ll, tr.dl, i);
    }
    AverageIntact(tr.ll, tr.dl, Samples(D_CODES), 32768, bits);
  }

  /** A new coder that is given these tokens in one last block: what it sends is
      refused. */
  method SendFullTable() returns (c: Coder)
    ensures fresh(c) && c.Valid() && c.finished && |c.sent| == 1 && !Acceptable(c.sent[0])
  {
    hide Coder.Valid, Coder.Tokens, Choice, Samples, Sendable, Acceptable, BlockIntact;
    c := new Coder(32768, WSIZE);
    var ts := Samples(D_CODES);
    SampleSizes(D_CODES);
    NoSizes();
    var i := 0;
    while i < |ts|
      invariant i <= |ts| && c.Valid() && !c.finished && c.sent == [] && c.Tokens() == ts[..i] && c.lastLit == i
      invariant c.sink.count == 0 && c.litBufsize == 32768 && c.reach == WSIZE
      modifies c`lastLit, c`matches, c.sink.buf, c.w.lfc, c.w.dfc
    {
      SampleAt(i);
      SampleToken(i);
      assert ts[..i + 1] == ts[..i] + [ts[i]];
      var full := c.Tally(ts[i].dist, MAX_MATCH - MIN_MATCH);
      i := i + 1;
    }
    assert ts[..i] == ts;
    c.FewBits();
    ghost var bits := c.sink.biValid;
    var intact;
    ghost var b, tr;
    intact, b, tr := c.FlushBlock(Gone, true, 6, false);
    FullTableSent(b, tr, bits);
  }

  lemma SampleToken(i: nat)
    requires i < |Samples(D_CODES)|
    ensures var t := Samples(D_CODES)[i]; t.Match? && t == TokenOf(t.dist, MAX_MATCH - MIN_MATCH) && 1 <= t.dist <= WSIZE
  {
    hide Samples;
    SampleAt(i);
    SamplesAre(D_CODES);
    assert IsSample(Samples(D_CODES)[i], D_CODES);
  }
}
