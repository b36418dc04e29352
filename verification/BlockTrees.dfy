/** The three trees of a dynamic block (deps/zlib/trees.c): built from the
    frequencies of the tokens, with the exact number of bits the block will take. */
module BlockTrees {
  import opened Bits
  import opened HuffmanCode
  import opened TableTheory
  import opened InflateTable
  import opened Tokens
  import opened InflateSpec
  import opened InflateProps
  import opened CodeLengths
  import opened BlockFormat
  import opened PriorityHeap
  import opened Sums
  import opened BitLengths
  import opened Optimal
  import opened SoleCode
  import opened BuildTree
  import opened CheapestCode
  import opened GenCodes
  import opened BitWriter
  import opened BlockSender
  import opened StaticTables
  import opened TokenSender

  const HEAP_SIZE: nat := 573
  const BL_CODES: nat := 19

  /** Code lengths, codes, and how many lengths of the code length code to send. */
  datatype Trees = Trees(ll: Lengths, dl: Lengths, bl: Lengths, lcodes: seq<nat>, dcodes: seq<nat>, bcodes: seq<nat>, blcodes: nat)

  /** A complete code for all symbols that occur. */
  ghost predicate TreeOk(freq: seq<nat>, lens: Lengths, codes: seq<nat>, elems: nat, max: nat)
  {
    && 1 <= |lens| <= elems <= |freq| && elems <= |codes| && Complete(lens) && InRange(lens) && CodesOf(codes, lens)
    && (forall s :: 0 <= s < |lens| ==> lens[s] <= max)
    && (forall s :: 0 <= s < elems && freq[s] > 0 ==> s < |lens| && lens[s] > 0)
  }

  lemma BuiltOk(freq0: seq<nat>, freq: seq<nat>, fc: seq<nat>, lens: Lengths, elems: nat, max: nat)
    requires 1 <= |lens| <= elems <= |freq| && elems <= |freq0| && elems <= |fc| && CodeFor(lens, freq, max) && InRange(lens)
    requires Coded(lens, fc[..elems], freq[..elems], |lens|)
    requires forall x :: 0 <= x < elems ==> freq0[x] > 0 ==> x < |lens| && freq[x] == freq0[x]
    ensures TreeOk(freq0, lens, fc[..elems], elems, max)
  {
    hide Huff, Kraft;
    CompleteKraft(lens);
  }

  lemma CompleteKraft(lens: Lengths)
    requires Complete(lens)
    ensures Kraft(lens) <= Pow2(MAXBITS)
  {
  }

  /** Unused symbols at the end make no difference. */
  lemma {:induction false} CountPadded(lens: Lengths, all: Lengths, n: nat, l: nat)
    requires |lens| <= n <= |all| && lens == all[..|lens|] && (forall x :: |lens| <= x < |all| ==> all[x] == 0) && l >= 1
    ensures Count(all, n, l) == Total(lens, l)
    decreases n
  {
    if n > |lens| {
      CountPadded(lens, all, n - 1, l);
    } else {
      CountPrefix(lens, all, n, l);
    }
  }

  lemma {:induction false} CountPrefix(lens: Lengths, all: Lengths, n: nat, l: nat)
    requires n <= |lens| <= |all| && lens == all[..|lens|]
    ensures Count(all, n, l) == Count(lens, n, l)
    decreases n
  {
    if n > 0 { CountPrefix(lens, all, n - 1, l); }
  }

  lemma {:induction false} BelowSame(a: Lengths, b: Lengths, L: nat)
    requires L <= MAXBITS + 1 && forall l: nat :: l >= 1 ==> Total(a, l) == Total(b, l)
    ensures Below(a, L) == Below(b, L)
  {
    hide Total;
    if L > 1 { BelowSame(a, b, L - 1); }
  }

  lemma {:induction false} FirstSame(a: Lengths, b: Lengths, L: nat)
    requires forall l: nat :: l >= 1 ==> Total(a, l) == Total(b, l)
    ensures FirstCode(a, L) == FirstCode(b, L)
  {
    hide Total;
    if L > 1 { FirstSame(a, b, L - 1); }
  }

  /** The lengths of all symbols, the last of which may be unused, are the same code. */
  lemma Padded(lens: Lengths, all: Lengths)
    requires |lens| <= |all| && lens == all[..|lens|] && forall x :: |lens| <= x < |all| ==> all[x] == 0
    ensures Complete(lens) ==> Complete(all)
    ensures forall s :: Used(all, s) <==> Used(lens, s)
    ensures forall s: nat :: Used(lens, s) ==> Used(all, s) && Huff(all, s) == Huff(lens, s)
  {
    hide Total, FirstCode, Below;
    forall l: nat | l >= 1
      ensures Total(all, l) == Total(lens, l)
    {
      CountPadded(lens, all, |all|, l);
      TotalIsCount(all, l);
    }
    BelowSame(lens, all, MAXBITS + 1);
    forall s: nat | Used(lens, s)
      ensures Used(all, s) && Huff(all, s) == Huff(lens, s)
    {
      CountPrefix(lens, all, s, lens[s]);
      FirstSame(lens, all, lens[s]);
    }
  }

  lemma TotalIsCount(lens: Lengths, l: nat)
    ensures Total(lens, l) == Count(lens, |lens|, l)
  {
  }

  // ---------- cost of the trees ----------

  function ExtraBl(): (s: seq<nat>)
    ensures |s| == BL_CODES && forall i :: 0 <= i < BL_CODES ==> s[i] == if i == 16 then 2 else if i == 17 then 3 else if i == 18 then 7 else 0
  {
    seq(BL_CODES, i => if i == 16 then 2 else if i == 17 then 3 else if i == 18 then 7 else 0)
  }

  function ItemTable(items: seq<Item>): (f: seq<nat>)
    ensures |f| == BL_CODES && forall s :: 0 <= s < BL_CODES ==> f[s] == ItemCount(items, s)
  {
    seq(BL_CODES, s requires 0 <= s < BL_CODES => ItemCount(items, s))
  }

  lemma ItemSize(bl: Lengths, i: Item)
    requires ValidItem(i) && Used(bl, Sym(i))
    ensures Sym(i) < BL_CODES && |ItemBits(bl, i)| == bl[Sym(i)] + XBits(ExtraBl(), 0, Sym(i))
  {
    hide CodeBits, ToBits;
  }

  /** The items take exactly as many bits as their frequencies say. */
  lemma {:induction false} ItemsCost(bl: Lengths, items: seq<Item>)
    requires |bl| == BL_CODES && ItemsCodable(bl, items)
    ensures |ItemsBits(bl, items)| == Cost(ItemTable(items), bl, ExtraBl(), 0, BL_CODES)
    decreases |items|
  {
    hide ItemCount, Cost, XBits, ItemBits, ExtraBl, Sym, ValidItem, Used;
    if items == [] {
      NoItemsCost(bl);
    } else {
      ItemsCost(bl, items[1..]);
      ItemSize(bl, items[0]);
      ItemTablePush(items);
      CostOneMore(ItemTable(items[1..]), ItemTable(items), bl, ExtraBl(), 0, BL_CODES, Sym(items[0]));
    }
  }

  lemma ItemTablePush(items: seq<Item>)
    requires items != []
    ensures forall s: nat :: ItemCount(items, s) == ItemCount(items[1..], s) + (if Sym(items[0]) == s then 1 else 0)
  {
    hide Sym;
  }

  lemma NoItemsCost(bl: Lengths)
    requires |bl| == BL_CODES
    ensures ItemsBits(bl, []) == [] && Cost(ItemTable([]), bl, ExtraBl(), 0, BL_CODES) == 0
  {
    hide Cost, ExtraBl;
    ZeroCost(ItemTable([]), bl, ExtraBl(), 0, BL_CODES);
  }

  lemma ZeroCost(f: seq<nat>, d: seq<nat>, extra: seq<nat>, base: nat, top: nat)
    requires forall x :: 0 <= x < top ==> At(f, x) == 0
    ensures Cost(f, d, extra, base, top) == 0
  {
    hide SumAt, XBits;
    ZeroSum(Costs(f, d, extra, base, top), Upto(top));
  }

  /** The cost only depends on the frequencies that are looked at. */
  lemma CostSame(f: seq<nat>, g: seq<nat>, d: seq<nat>, e: seq<nat>, extra: seq<nat>, base: nat, top: nat)
    requires top <= |d| && top <= |e| && forall x :: 0 <= x < top ==> At(f, x) == At(g, x) && d[x] == e[x]
    ensures Cost(f, d, extra, base, top) == Cost(g, e, extra, base, top)
  {
    hide SumAt, XBits;
    SumSame(Costs(f, d, extra, base, top), Costs(g, e, extra, base, top), Upto(top));
  }

  /** Symbols beyond the last used one cost nothing. */
  lemma {:induction false} CostTop(f: seq<nat>, d: seq<nat>, extra: seq<nat>, base: nat, top: nat, n: nat)
    requires top <= n <= |d| && forall x :: top <= x < n ==> At(f, x) == 0
    ensures Cost(f, d, extra, base, n) == Cost(f, d, extra, base, top)
    decreases n
  {
    hide SumAt, XBits;
    if n > top {
      CostTop(f, d, extra, base, top, n - 1);
      UptoNext(n - 1);
      SumPush(Costs(f, d, extra, base, n), Upto(n - 1), n - 1);
      SumSame(Costs(f, d, extra, base, n), Costs(f, d, extra, base, n - 1), Upto(n - 1));
    }
  }

  // ---------- building ----------

  /** build_tree() on one of the three descriptors, with what it leaves behind. */
  method BuildOne(heap: array<nat>, depth: array<nat>, blCount: array<nat>, fc: array<nat>, dl: array<nat>, elems: nat,
                  maxLength: nat, stree: seq<nat>, extra: seq<nat>, base: nat, optLen0: int, staticLen0: int)
    returns (lens: Lengths, codes: seq<nat>, all: Lengths, optLen: int, staticLen: int, ghost cut: nat)
    requires 3 <= elems && 2 * elems + 1 <= heap.Length && 2 * elems <= fc.Length <= dl.Length && fc.Length <= depth.Length
    requires blCount.Length == MAXBITS + 1 && 1 <= maxLength <= MAXBITS && elems <= Pow2(maxLength)
    requires fc != dl && fc != depth && dl != depth && heap != fc && heap != dl && heap != depth
    requires blCount != heap && blCount != fc && blCount != dl && blCount != depth
    requires (stree == [] || |stree| >= elems) && (base <= elems ==> elems - base <= |extra|)
    requires forall x :: 0 <= x <= 2 ==> XBits(extra, base, x) == 0
    requires SumAt(fc[..], Upto(elems)) + 3 < 0x1_0000
    modifies heap, depth, blCount, fc, dl
    ensures TreeOk(old(fc[..]), lens, codes, elems, maxLength) && |codes| == |all| == elems
    ensures lens == all[..|lens|] && forall x :: |lens| <= x < elems ==> all[x] == 0
    ensures optLen == optLen0 + Cost(old(fc[..]), lens, extra, base, |lens|)
    ensures staticLen == staticLen0 + (if stree == [] then 0 else Cost(old(fc[..]), stree, extra, base, |lens|))
    ensures if cut == 0 then CheapestFor(old(fc[..]), lens, |lens|) else Fib(maxLength + 3) <= SumAt(old(fc[..]), Upto(elems)) + 2
    ensures SoleFound(old(fc[..]), lens, elems, maxLength)
  {
    hide XBits, Cost, Coded, CodeFor, InRange, Kraft, Pow2, TreeOk, SumAt, CheapestFor, Fib, SoleFound, NoSole, Symbols;
    ghost var freq0 := fc[..];
    var maxCode;
    ghost var freq;
    maxCode, optLen, staticLen, freq, cut := BuildTree.BuildTree(heap, depth, blCount, fc, dl, elems, maxLength, stree, extra,
                                                                 base, optLen0, staticLen0);
    lens, codes, all := dl[..maxCode + 1], fc[..elems], dl[..elems];
    BuiltOk(freq0, freq, fc[..], lens, elems, maxLength);
    CostSame(freq0, freq0, dl[..], lens, extra, base, maxCode + 1);
    if cut == 0 { CheapestPrefix(freq0, dl[..], maxCode + 1); }
    BuiltSole(freq0, lens, codes, elems, maxLength, cut);
  }

  lemma BuiltSole(freq: seq<nat>, lens: Lengths, codes: seq<nat>, elems: nat, max: nat, cut: nat)
    requires TreeOk(freq, lens, codes, elems, max)
    requires if cut == 0 then CheapestFor(freq, lens, |lens|) else |Symbols(freq, elems)| >= 2 ==> NoSole(freq, Symbols(freq, elems), max)
    ensures SoleFound(freq, lens, elems, max)
  {
    hide Pow2, CheapestFor, NoSole, Symbols, SoleFound, CodesOf;
    CompleteKraft(lens);
    SoleIsFound(freq, lens, elems, max, cut);
  }

  lemma CheapestPrefix(freq: seq<nat>, d: seq<nat>, top: nat)
    requires top <= |d| && CheapestFor(freq, d, top)
    ensures CheapestFor(freq, d[..top], top)
  {
    hide SumAt, Symbols, Prefix;
    SymbolsRange(freq, top);
    SumSame(Spent(freq, d), Spent(freq, d[..top]), Symbols(freq, top));
  }

  /** Zero lengths only add up to zero lengths. */
  lemma {:induction false} OnlyZeros(have: seq<nat>, items: seq<Item>)
    requires Addable(have, items) && (forall i :: 0 <= i < |have| ==> have[i] == 0)
    requires forall k :: 0 <= k < |items| ==> items[k].Len? ==> items[k].l == 0
    ensures forall i :: 0 <= i < |AddItems(have, items)| ==> AddItems(have, items)[i] == 0
    decreases |items|
  {
    hide ValidItem;
    if items != [] { OnlyZeros(AddItem(have, items[0]), items[1..]); }
  }

  /** A code with symbols sends at least one of its lengths as it is. */
  lemma SomeLength(lens: Lengths, x: nat)
    requires InRange(lens) && x < |lens| && lens[x] != 0
    ensures exists k :: 0 <= k < |TreeItems(lens)| && TreeItems(lens)[k].Len? && TreeItems(lens)[k].l != 0
  {
    hide Addable, AddItems, TreeItems;
    TreeItemsAdd([], lens);
    assert [] + lens == lens;
    if forall k :: 0 <= k < |TreeItems(lens)| ==> TreeItems(lens)[k].Len? ==> TreeItems(lens)[k].l == 0 {
      OnlyZeros([], TreeItems(lens));
    }
  }

  /** The index of the last code length code to send, from 3 on. */
  method LastIndex(bl: Lengths) returns (max: nat)
    requires |bl| == BL_CODES && exists s :: 1 <= s <= MAXBITS && bl[s] != 0
    ensures 3 <= max < BL_CODES && Partial(bl, bl, max + 1)
    ensures max > 3 ==> bl[Order(max)] != 0
  {
    hide Rank, Order;
    ghost var s :| 1 <= s <= MAXBITS && bl[s] != 0;
    RankBig(s);
    max := BL_CODES - 1;
    while max >= 3
      invariant 2 <= max < BL_CODES
      invariant forall x :: 0 <= x < BL_CODES && Rank(x) > max ==> bl[x] == 0
    {
      if bl[Order(max)] != 0 { break; }
      forall x | 0 <= x < BL_CODES && Rank(x) == max
        ensures bl[x] == 0
      {
        assert Order(Rank(x)) == x;
      }
      max := max - 1;
    }
  }

  lemma RankBig(s: nat)
    requires 1 <= s <= MAXBITS
    ensures Rank(s) >= 3
  {
  }

  /** scan_tree() on both trees and build_tree() on what it counts. */
  method BuildBlTree(heap: array<nat>, depth: array<nat>, blCount: array<nat>, bfc: array<nat>, bdl: array<nat>,
                     ll: Lengths, dl: Lengths, optLen0: int)
    returns (bl: Lengths, codes: seq<nat>, maxIndex: nat, optLen: int)
    requires 39 <= heap.Length && 38 <= bfc.Length <= bdl.Length && bfc.Length <= depth.Length && blCount.Length == MAXBITS + 1
    requires bfc != bdl && bfc != depth && bdl != depth && heap != bfc && heap != bdl && heap != depth
    requires blCount != heap && blCount != bfc && blCount != bdl && blCount != depth
    requires InRange(ll) && InRange(dl) && 1 <= |dl| <= D_CODES && END_BLOCK < |ll| <= L_CODES && ll[END_BLOCK] != 0
    requires forall s :: 0 <= s < BL_CODES ==> bfc[s] == 0
    modifies heap, depth, blCount, bfc, bdl
    ensures |bl| == |codes| == BL_CODES && Complete(bl) && InRange(bl) && CodesOf(codes, bl)
    ensures forall s :: 0 <= s < BL_CODES ==> bl[s] <= CODEBITS
    ensures 3 <= maxIndex < BL_CODES && Partial(bl, bl, maxIndex + 1)
    ensures ItemsCodable(bl, TreeItems(ll)) && ItemsCodable(bl, TreeItems(dl))
    ensures optLen == optLen0 + |ItemsBits(bl, TreeItems(ll))| + |ItemsBits(bl, TreeItems(dl))| + 3 * (maxIndex + 1) + 14
  {
    hide XBits, Cost, Complete, InRange, CodesOf, Pow2, TreeItems, ItemCount, ItemsBits, ItemsCodable, Partial, TreeOk, ExtraBl, SumAt, CheapestFor, Fib;
    FewCounts(ll);
    BlockSender.ScanTree(ll, bfc);
    BlockSender.ScanTree(dl, bfc);
    ghost var f0 := bfc[..];
    BothCounts(f0, ll, dl);
    CountsLoad(f0, ll, dl);
    BlSizes();
    var lens, staticLen;
    ghost var cut;
    lens, codes, bl, optLen, staticLen, cut := BuildOne(heap, depth, blCount, bfc, bdl, BL_CODES, CODEBITS, [], ExtraBl(), 0, optLen0, 0);
    BlTreeOk(f0, lens, bl, codes, ll, dl);
    maxIndex := LastIndex(bl);
    optLen := optLen + 3 * (maxIndex + 1) + 5 + 5 + 4;
  }

  lemma FewCounts(lens: Lengths)
    requires InRange(lens) && lens != []
    ensures forall s :: ItemCount(TreeItems(lens), s) <= |lens|
  {
    hide ItemCount, TreeItems;
    FewItems(lens);
    forall s: nat { ItemCountMost(TreeItems(lens), s); }
  }

  /** The items of both trees are counted once each. */
  lemma {:induction false} ItemsLoad(items: seq<Item>)
    requires forall k :: 0 <= k < |items| ==> ValidItem(items[k])
    ensures SumAt(ItemTable(items), Upto(BL_CODES)) == |items|
  {
    hide ItemCount, ValidItem, Sym, SumAt;
    if items == [] {
      NoItemCounts();
      ZeroSum(ItemTable(items), Upto(BL_CODES));
    } else {
      ItemsLoad(items[1..]);
      ItemTablePush(items);
      SymSmall(items[0]);
      SumOneMore(ItemTable(items[1..]), ItemTable(items), BL_CODES, Sym(items[0]));
    }
  }

  lemma NoItemCounts()
    ensures forall s :: ItemCount([], s) == 0
  {
  }

  lemma CountsLoad(f: seq<nat>, ll: Lengths, dl: Lengths)
    requires InRange(ll) && InRange(dl) && ll != [] && dl != [] && BlCounts(f, ll, dl)
    ensures SumAt(f, Upto(BL_CODES)) <= |ll| + |dl|
  {
    hide ItemCount, TreeItems, SumAt, ValidItem;
    var li, di := TreeItems(ll), TreeItems(dl);
    FewItems(ll);
    FewItems(dl);
    TreeItemsValid(ll);
    TreeItemsValid(dl);
    assert forall k :: |li| <= k < |li + di| ==> (li + di)[k] == di[k - |li|];
    ItemsLoad(li + di);
    SumSame(f, ItemTable(li + di), Upto(BL_CODES));
  }

  lemma BlSizes()
    ensures BL_CODES <= Pow2(CODEBITS) && forall x :: 0 <= x <= 2 ==> XBits(ExtraBl(), 0, x) == 0
  {
    SmallPowers();
  }

  /** The frequencies of the code length symbols of both trees. */
  ghost predicate BlCounts(f: seq<nat>, ll: Lengths, dl: Lengths)
    requires ll != [] && dl != []
  {
    |f| >= BL_CODES && forall s :: 0 <= s < BL_CODES ==> f[s] == ItemCount(TreeItems(ll) + TreeItems(dl), s)
  }

  lemma BothCounts(f: seq<nat>, ll: Lengths, dl: Lengths)
    requires ll != [] && dl != [] && |f| >= BL_CODES
    requires forall s :: 0 <= s < BL_CODES ==> f[s] == ItemCount(TreeItems(ll), s) + ItemCount(TreeItems(dl), s)
    ensures BlCounts(f, ll, dl)
  {
    hide ItemCount, TreeItems;
    forall s | 0 <= s < BL_CODES
      ensures ItemCount(TreeItems(ll) + TreeItems(dl), s) == ItemCount(TreeItems(ll), s) + ItemCount(TreeItems(dl), s)
    {
      ItemCountConcat(TreeItems(ll), TreeItems(dl), s);
    }
  }

  lemma {:induction false} ItemOccurs(items: seq<Item>, k: nat)
    requires k < |items|
    ensures ItemCount(items, Sym(items[k])) > 0
  {
    hide Sym;
    if k > 0 { ItemOccurs(items[1..], k - 1); }
  }

  /** Every item that occurs gets a code. */
  lemma ItemsGetCodes(f: seq<nat>, bl: Lengths, items: seq<Item>)
    requires |bl| == BL_CODES <= |f| && InRange(bl) && (forall k :: 0 <= k < |items| ==> ValidItem(items[k]))
    requires forall s :: 0 <= s < BL_CODES ==> f[s] == ItemCount(items, s)
    requires forall s :: 0 <= s < BL_CODES && f[s] > 0 ==> bl[s] > 0
    ensures ItemsCodable(bl, items)
  {
    hide ItemCount;
    forall k | 0 <= k < |items|
      ensures Used(bl, Sym(items[k]))
    {
      ItemOccurs(items, k);
      SymSmall(items[k]);
    }
  }

  lemma SymSmall(i: Item)
    requires ValidItem(i)
    ensures Sym(i) < BL_CODES
  {
  }

  /** All items of a tree are well formed. */
  lemma {:induction false} AddableValid(have: seq<nat>, items: seq<Item>)
    requires Addable(have, items)
    ensures forall k :: 0 <= k < |items| ==> ValidItem(items[k])
    decreases |items|
  {
    hide ValidItem, AddItem;
    if items != [] { AddableValid(AddItem(have, items[0]), items[1..]); }
  }

  lemma TreeItemsValid(lens: Lengths)
    requires InRange(lens) && lens != []
    ensures forall k :: 0 <= k < |TreeItems(lens)| ==> ValidItem(TreeItems(lens)[k])
  {
    hide TreeItems, Addable;
    TreeItemsAdd([], lens);
    AddableValid([], TreeItems(lens));
  }

  lemma CodableHalves(bl: Lengths, a: seq<Item>, b: seq<Item>)
    requires ItemsCodable(bl, a + b)
    ensures ItemsCodable(bl, a) && ItemsCodable(bl, b)
  {
    hide ValidItem, Used;
    assert forall k :: 0 <= k < |a| ==> (a + b)[k] == a[k];
    forall k | 0 <= k < |b|
      ensures ValidItem(b[k]) && Used(bl, Sym(b[k]))
    {
      assert (a + b)[|a| + k] == b[k];
    }
  }

  /** What build_tree leaves for the code length code. */
  lemma BlTreeOk(f: seq<nat>, lens: Lengths, bl: Lengths, codes: seq<nat>, ll: Lengths, dl: Lengths)
    requires InRange(ll) && InRange(dl) && dl != [] && END_BLOCK < |ll| && ll[END_BLOCK] != 0
    requires BlCounts(f, ll, dl) && TreeOk(f, lens, codes, BL_CODES, CODEBITS) && |bl| == |codes| == BL_CODES
    requires lens == bl[..|lens|] && forall x :: |lens| <= x < BL_CODES ==> bl[x] == 0
    ensures Complete(bl) && InRange(bl) && CodesOf(codes, bl) && forall s :: 0 <= s < BL_CODES ==> bl[s] <= CODEBITS
    ensures ItemsCodable(bl, TreeItems(ll)) && ItemsCodable(bl, TreeItems(dl))
    ensures exists s :: 1 <= s <= MAXBITS && bl[s] != 0
    ensures Cost(f, lens, ExtraBl(), 0, |lens|) == |ItemsBits(bl, TreeItems(ll))| + |ItemsBits(bl, TreeItems(dl))|
  {
    hide Kraft, Huff, TreeItems, ItemCount, ItemsBits, ItemsCodable, Cost, XBits, ExtraBl, Pow2, CodesOf, Complete, Used;
    Padded(lens, bl);
    SameCodes(codes, lens, bl);
    var li, di := TreeItems(ll), TreeItems(dl);
    TreeItemsValid(ll);
    TreeItemsValid(dl);
    assert forall k :: |li| <= k < |li + di| ==> (li + di)[k] == di[k - |li|];
    ItemsGetCodes(f, bl, li + di);
    CodableHalves(bl, li, di);
    ItemsConcat(bl, li, di);
    ItemsCost(bl, li + di);
    CostTop(f, bl, ExtraBl(), 0, |lens|, BL_CODES);
    CostSame(f, f, bl, lens, ExtraBl(), 0, |lens|);
    CostSame(f, ItemTable(li + di), bl, bl, ExtraBl(), 0, BL_CODES);
    SomeLength(ll, END_BLOCK);
    var k :| 0 <= k < |li| && li[k].Len? && li[k].l != 0;
    LenUsed(bl, li, k);
  }

  lemma LenUsed(bl: Lengths, items: seq<Item>, k: nat)
    requires |bl| == BL_CODES && ItemsCodable(bl, items) && k < |items| && items[k].Len? && items[k].l != 0
    ensures 1 <= items[k].l <= MAXBITS && bl[items[k].l] != 0
  {
  }

  lemma SameCodes(codes: seq<nat>, lens: Lengths, all: Lengths)
    requires CodesOf(codes, lens) && Complete(all)
    requires forall s :: Used(all, s) <==> Used(lens, s)
    requires forall s: nat :: Used(lens, s) ==> Huff(all, s) == Huff(lens, s)
    ensures CodesOf(codes, all)
  {
    hide Used, Huff, Kraft, Pow2;
    CompleteKraft(all);
  }

  // ---------- all three trees ----------

  /** Trees of complete codes from which all of ts can be coded. */
  ghost predicate TreesFor(tr: Trees, ts: seq<Token>)
  {
    && TreesSent(tr.ll, tr.dl, tr.bl, tr.blcodes) && Complete(tr.ll) && Complete(tr.dl)
    && CodesOf(tr.lcodes, tr.ll) && |tr.lcodes| == L_CODES && CodesOf(tr.dcodes, tr.dl) && |tr.dcodes| == D_CODES
    && CodesOf(tr.bcodes, tr.bl) && |tr.bcodes| == BL_CODES
    && AllCodable(tr.ll, tr.dl, ts) && Used(tr.ll, END_BLOCK)
  }

  /** Frequencies of a block cost what its body takes. */
  lemma BodyCost(ts: seq<Token>, lf: seq<nat>, df: seq<nat>, ll: Lengths, dl: Lengths, lt: nat, dt: nat)
    requires Tallied(lf, df, ts) && AllCodable(ll, dl, ts) && Used(ll, END_BLOCK)
    requires END_BLOCK < lt <= |ll| && lt <= L_CODES && dt <= |dl| && dt <= D_CODES
    requires forall i :: 0 <= i < |ts| ==> LSym(ts[i]) < lt && (ts[i].Match? ==> DSym(ts[i]) < dt)
    ensures Cost(lf, ll, ExtraL(), 257, lt) + Cost(df, dl, ExtraD(), 0, dt) == |BodyBits(ll, dl, ts)|
  {
    hide Cost, LCount, DCount, TokensBits, AllCodable, LSym, DSym, ExtraL, ExtraD;
    TokensCost(ll, dl, ts, lt, dt);
    CostOneMore(LTable(ts), lf, ll, ExtraL(), 257, lt, END_BLOCK);
    CostSame(df, DTable(ts), dl, dl, ExtraD(), 0, dt);
  }

  lemma SymsBelow(ts: seq<Token>, lf: seq<nat>, df: seq<nat>, lt: nat, dt: nat)
    requires Tallied(lf, df, ts) && forall i :: 0 <= i < |ts| ==> Expressible(ts[i])
    requires forall s :: 0 <= s < L_CODES && lf[s] > 0 ==> s < lt
    requires forall s :: 0 <= s < D_CODES && df[s] > 0 ==> s < dt
    ensures forall i :: 0 <= i < |ts| ==> LSym(ts[i]) < lt && (ts[i].Match? ==> DSym(ts[i]) < dt)
  {
    hide LCount, DCount, LSym, DSym;
    forall i | 0 <= i < |ts|
      ensures LSym(ts[i]) < lt && (ts[i].Match? ==> DSym(ts[i]) < dt)
    {
      CountsPositive(ts, i);
      SymRange(ts[i]);
    }
  }

  /** The fixed codes cover every token. */
  lemma FixedCodable(ts: seq<Token>)
    requires forall i :: 0 <= i < |ts| ==> Expressible(ts[i])
    ensures AllCodable(FixedLengths(), FixedDists(), ts) && Used(FixedLengths(), END_BLOCK)
  {
    hide FixedDists, Codable, LSym, DSym;
    forall i | 0 <= i < |ts|
      ensures Codable(FixedLengths(), FixedDists(), ts[i])
    {
      SymRange(ts[i]);
      FixedUsed(LSym(ts[i]), DSym(ts[i]));
      SymsCodable(FixedLengths(), FixedDists(), ts[i]);
    }
  }

  lemma FixedUsed(l: nat, d: nat)
    ensures l < L_CODES ==> FixedLengths()[l] > 0
    ensures d < D_CODES ==> |FixedDists()| == 32 && FixedDists()[d] > 0
  {
  }

  /** What build_tree leaves for the two trees of a block. */
  lemma BothBuilt(ts: seq<Token>, lf: seq<nat>, df: seq<nat>, ll: Lengths, dl: Lengths, lcodes: seq<nat>, dcodes: seq<nat>)
    requires Tallied(lf, df, ts) && forall i :: 0 <= i < |ts| ==> Expressible(ts[i])
    requires TreeOk(lf, ll, lcodes, L_CODES, MAXBITS) && TreeOk(df, dl, dcodes, D_CODES, MAXBITS)
    ensures AllCodable(ll, dl, ts) && Used(ll, END_BLOCK) && 257 <= |ll| <= L_CODES && 1 <= |dl| <= D_CODES && ll[END_BLOCK] != 0
    ensures InRange(ll) && InRange(dl)
    ensures Cost(lf, ll, ExtraL(), 257, |ll|) + Cost(df, dl, ExtraD(), 0, |dl|) == |BodyBits(ll, dl, ts)|
    ensures AllCodable(FixedLengths(), FixedDists(), ts) && Used(FixedLengths(), END_BLOCK)
    ensures Cost(lf, FixedLengths(), ExtraL(), 257, |ll|) + Cost(df, FixedDists()[..D_CODES], ExtraD(), 0, |dl|) ==
            |BodyBits(FixedLengths(), FixedDists(), ts)|
  {
    hide Cost, LCount, DCount, AllCodable, LSym, DSym, ExtraL, ExtraD, Kraft, Pow2, Huff, BodyBits, FixedLengths, FixedDists, Complete, Expressible;
    assert lf[END_BLOCK] > 0;
    TalliedCodable(lf, df, ts, ll, dl);
    SymsBelow(ts, lf, df, |ll|, |dl|);
    BodyCost(ts, lf, df, ll, dl, |ll|, |dl|);
    FixedCodable(ts);
    BodyCost(ts, lf, df, FixedLengths(), FixedDists(), |ll|, |dl|);
    CostSame(df, df, FixedDists()[..D_CODES], FixedDists(), ExtraD(), 0, |dl|);
  }

  /** The arrays of a deflate_state that hold the trees and the work space. */
  datatype Work = Work(heap: array<nat>, depth: array<nat>, blCount: array<nat>,
                       lfc: array<nat>, ldl: array<nat>, dfc: array<nat>, ddl: array<nat>, bfc: array<nat>, bdl: array<nat>)

  ghost predicate Separate(w: Work)
  {
    && w.heap.Length == 2 * L_CODES + 1 && w.depth.Length == 2 * L_CODES + 1 && w.blCount.Length == MAXBITS + 1
    && w.lfc.Length == w.ldl.Length == HEAP_SIZE && w.dfc.Length == w.ddl.Length == 2 * D_CODES + 1
    && w.bfc.Length == w.bdl.Length == 2 * BL_CODES + 1
    && w.heap !in {w.depth, w.blCount, w.lfc, w.ldl, w.dfc, w.ddl, w.bfc, w.bdl}
    && w.depth !in {w.blCount, w.lfc, w.ldl, w.dfc, w.ddl, w.bfc, w.bdl}
    && w.blCount !in {w.lfc, w.ldl, w.dfc, w.ddl, w.bfc, w.bdl}
    && w.lfc !in {w.ldl, w.dfc, w.ddl, w.bfc, w.bdl}
    && w.ldl !in {w.dfc, w.ddl, w.bfc, w.bdl}
    && w.dfc !in {w.ddl, w.bfc, w.bdl}
    && w.ddl !in {w.bfc, w.bdl}
    && w.bfc != w.bdl
  }

  lemma TreeSizes()
    ensures L_CODES <= Pow2(MAXBITS) && D_CODES <= Pow2(MAXBITS)
    ensures forall x :: 0 <= x <= 2 ==> XBits(ExtraL(), 257, x) == 0 && XBits(ExtraD(), 0, x) == 0
  {
    Pow2Values();
  }

  /** Frequencies of a block, with the end of block. */
  function LFreqs(ts: seq<Token>): (f: seq<nat>)
    ensures |f| == L_CODES && forall s :: 0 <= s < L_CODES ==> f[s] == LCount(ts, s) + (if s == END_BLOCK then 1 else 0)
  {
    seq(L_CODES, s requires 0 <= s < L_CODES => LCount(ts, s) + (if s == END_BLOCK then 1 else 0))
  }

  /** A code within the limit that costs less than all others is found. */
  ghost predicate SoleTrees(tr: Trees, ts: seq<Token>)
  {
    SoleFound(LFreqs(ts), tr.ll, L_CODES, MAXBITS) && SoleFound(DTable(ts), tr.dl, D_CODES, MAXBITS)
  }

  lemma BothSole(tr: Trees, ts: seq<Token>, lf: seq<nat>, df: seq<nat>)
    requires Tallied(lf, df, ts) && SoleFound(lf, tr.ll, L_CODES, MAXBITS) && SoleFound(df, tr.dl, D_CODES, MAXBITS)
    ensures SoleTrees(tr, ts)
  {
    hide SoleFound, LCount, DCount;
    SameSoleFound(lf, LFreqs(ts), tr.ll, L_CODES, MAXBITS);
    SameSoleFound(df, DTable(ts), tr.dl, D_CODES, MAXBITS);
  }

  /** The first half of _tr_flush_block(): build the trees of the block and count
      the bits that each way to send it would take, without the block header. */
  method MakeTrees(w: Work, ghost ts: seq<Token>, t: Static) returns (tr: Trees, optLen: int, staticLen: int, ghost cut: nat)
    requires Separate(w) && StaticOk(t) && Tallied(w.lfc[..], w.dfc[..], ts) && |ts| < 0x8000
    requires forall i :: 0 <= i < |ts| ==> Expressible(ts[i])
    requires forall s :: 0 <= s < BL_CODES ==> w.bfc[s] == 0
    modifies w.heap, w.depth, w.blCount, w.lfc, w.ldl, w.dfc, w.ddl, w.bfc, w.bdl
    ensures TreesFor(tr, ts) && AllCodable(FixedLengths(), FixedDists(), ts) && Used(FixedLengths(), END_BLOCK)
    ensures optLen == |TreesBits(tr.ll, tr.dl, tr.bl, tr.blcodes)| + |BodyBits(tr.ll, tr.dl, ts)|
    ensures staticLen == |BodyBits(FixedLengths(), FixedDists(), ts)|
    ensures cut == 0 ==> ShortestBody(tr, ts)
    ensures |ts| <= 2580 ==> cut == 0
    ensures SoleTrees(tr, ts)
  {
    hide Cost, Tallied, SumAt, CheapestFor, SoleFound, SoleTrees, ShortestBody, Fib, TreeOk, ExtraL, ExtraD, ExtraBl, XBits, Kraft, Pow2, FixedLengths, FixedDists, Complete, Expressible, AllCodable,
         Used, BodyBits, TreeItems, ItemsBits, ItemsCodable, Partial, InRange, CodesOf, StaticOk;
    ghost var lf, df := w.lfc[..], w.dfc[..];
    TreeSizes();
    TalliedLoad(lf, df, ts);
    var sl, sd := FixedLengths(), FixedDists()[..D_CODES];
    var ll, lcodes, l0, opt1, stat1, cut1 := BuildOne(w.heap, w.depth, w.blCount, w.lfc, w.ldl, L_CODES, MAXBITS, sl, ExtraL(), 257, 0, 0);
    assert w.dfc[..] == df;
    var dl, dcodes, d0, opt2, stat2, cut2 := BuildOne(w.heap, w.depth, w.blCount, w.dfc, w.ddl, D_CODES, MAXBITS, sd, ExtraD(), 0, opt1, stat1);
    BothBuilt(ts, lf, df, ll, dl, lcodes, dcodes);
    var bl, bcodes, maxIndex;
    bl, bcodes, maxIndex, optLen := BuildBlTree(w.heap, w.depth, w.blCount, w.bfc, w.bdl, ll, dl, opt2);
    staticLen := stat2;
    tr := Trees(ll, dl, bl, lcodes, dcodes, bcodes, maxIndex + 1);
    AllBuilt(tr, ts, lf, df);
    cut := cut1 + cut2;
    Fib18();
    if cut == 0 { BothCheapest(tr, ts, lf, df); }
    BothSole(tr, ts, lf, df);
  }

  /** No other pair of prefix codes makes the body of the block shorter. */
  ghost predicate ShortestBody(tr: Trees, ts: seq<Token>)
    requires AllCodable(tr.ll, tr.dl, ts) && Used(tr.ll, END_BLOCK)
  {
    forall ll, dl :: BodyCodes(ll, dl, ts) ==> |BodyBits(tr.ll, tr.dl, ts)| <= |BodyBits(ll, dl, ts)|
  }

  /** Lengths of prefix codes with which the block can be written. */
  predicate BodyCodes(ll: Lengths, dl: Lengths, ts: seq<Token>)
  {
    InRange(ll) && InRange(dl) && Kraft(ll) <= Pow2(MAXBITS) && Kraft(dl) <= Pow2(MAXBITS) && AllCodable(ll, dl, ts) && Used(ll, END_BLOCK)
  }

  /** A symbol that is counted occurs. */
  lemma {:induction false} CountedOccurs(ts: seq<Token>, s: nat)
    ensures LCount(ts, s) > 0 ==> exists i :: 0 <= i < |ts| && LSym(ts[i]) == s
    ensures DCount(ts, s) > 0 ==> exists i :: 0 <= i < |ts| && DSym(ts[i]) == s
    decreases |ts|
  {
    hide LSym, DSym;
    if ts != [] {
      var n := |ts| - 1;
      CountedOccurs(ts[..n], s);
      if i :| 0 <= i < n && LSym(ts[..n][i]) == s { assert LSym(ts[i]) == s; }
      if i :| 0 <= i < n && DSym(ts[..n][i]) == s { assert DSym(ts[i]) == s; }
    }
  }

  /** Codes for the tokens have lengths for all symbols that are counted. */
  lemma CountedUsed(ts: seq<Token>, lf: seq<nat>, df: seq<nat>, ll: Lengths, dl: Lengths)
    requires Tallied(lf, df, ts) && AllCodable(ll, dl, ts) && Used(ll, END_BLOCK)
    ensures forall s :: 0 <= s < L_CODES && lf[s] > 0 ==> s < |ll| && ll[s] > 0
    ensures forall s :: 0 <= s < D_CODES && df[s] > 0 ==> s < |dl| && dl[s] > 0
  {
    hide LCount, DCount, Codable;
    forall s | 0 <= s < L_CODES && lf[s] > 0
      ensures s < |ll| && ll[s] > 0
    {
      CountedOccurs(ts, s);
      if i :| 0 <= i < |ts| && LSym(ts[i]) == s { SymsUsed(ll, dl, ts[i]); }
    }
    forall s | 0 <= s < D_CODES && df[s] > 0
      ensures s < |dl| && dl[s] > 0
    {
      CountedOccurs(ts, s);
      if i :| 0 <= i < |ts| && DSym(ts[i]) == s { SymsUsed(ll, dl, ts[i]); }
    }
  }

  lemma SymsUsed(ll: Lengths, dl: Lengths, t: Token)
    requires Codable(ll, dl, t)
    ensures Used(ll, LSym(t)) && (DSym(t) < D_CODES ==> Used(dl, DSym(t)))
  {
    hide LengthCode, DistCode;
  }

  /** Two cheapest codes make a shortest body. */
  lemma BothCheapest(tr: Trees, ts: seq<Token>, lf: seq<nat>, df: seq<nat>)
    requires Tallied(lf, df, ts) && (forall i :: 0 <= i < |ts| ==> Expressible(ts[i]))
    requires TreeOk(lf, tr.ll, tr.lcodes, L_CODES, MAXBITS) && TreeOk(df, tr.dl, tr.dcodes, D_CODES, MAXBITS)
    requires CheapestFor(lf, tr.ll, |tr.ll|) && CheapestFor(df, tr.dl, |tr.dl|)
    ensures AllCodable(tr.ll, tr.dl, ts) && Used(tr.ll, END_BLOCK) && ShortestBody(tr, ts)
  {
    hide Cost, LCount, DCount, AllCodable, Used, Kraft, Pow2, BodyBits, Complete, Expressible, ExtraL, ExtraD, CheapestFor,
         FixedLengths, FixedDists, TreeOk, Tallied, InRange;
    BothBuilt(ts, lf, df, tr.ll, tr.dl, tr.lcodes, tr.dcodes);
    forall ll, dl | BodyCodes(ll, dl, ts)
      ensures |BodyBits(tr.ll, tr.dl, ts)| <= |BodyBits(ll, dl, ts)|
    {
      NotShorter(tr, ts, lf, df, ll, dl);
    }
  }

  lemma NotShorter(tr: Trees, ts: seq<Token>, lf: seq<nat>, df: seq<nat>, ll: Lengths, dl: Lengths)
    requires Tallied(lf, df, ts) && (forall i :: 0 <= i < |ts| ==> Expressible(ts[i])) && BodyCodes(ll, dl, ts)
    requires TreeOk(lf, tr.ll, tr.lcodes, L_CODES, MAXBITS) && TreeOk(df, tr.dl, tr.dcodes, D_CODES, MAXBITS)
    requires CheapestFor(lf, tr.ll, |tr.ll|) && CheapestFor(df, tr.dl, |tr.dl|)
    ensures Cost(lf, tr.ll, ExtraL(), 257, |tr.ll|) + Cost(df, tr.dl, ExtraD(), 0, |tr.dl|) <= |BodyBits(ll, dl, ts)|
  {
    hide Cost, LCount, DCount, AllCodable, Kraft, Pow2, BodyBits, Complete, Expressible, ExtraL, ExtraD, CheapestFor, TokenBits, LSym, DSym;
    var lt, dt := if |ll| < L_CODES then |ll| else L_CODES, if |dl| < D_CODES then |dl| else D_CODES;
    CountedUsed(ts, lf, df, ll, dl);
    SymsBelow(ts, lf, df, lt, dt);
    BodyCost(ts, lf, df, ll, dl, lt, dt);
    OneCheapest(lf, tr.ll, ll, ExtraL(), 257, |tr.ll|, lt);
    OneCheapest(df, tr.dl, dl, ExtraD(), 0, |tr.dl|, dt);
  }

  lemma Fib18()
    ensures Fib(MAXBITS + 3) == 2584
  {
    assert Fib(8) == 21 && Fib(9) == 34;
    assert Fib(10) == 55 && Fib(11) == 89;
    assert Fib(12) == 144 && Fib(13) == 233;
    assert Fib(14) == 377 && Fib(15) == 610;
    assert Fib(16) == 987 && Fib(17) == 1597;
  }

  lemma AllBuilt(tr: Trees, ts: seq<Token>, lf: seq<nat>, df: seq<nat>)
    requires TreeOk(lf, tr.ll, tr.lcodes, L_CODES, MAXBITS) && TreeOk(df, tr.dl, tr.dcodes, D_CODES, MAXBITS)
    requires |tr.lcodes| == L_CODES && |tr.dcodes| == D_CODES && |tr.bl| == |tr.bcodes| == BL_CODES
    requires Complete(tr.bl) && InRange(tr.bl) && CodesOf(tr.bcodes, tr.bl) && forall s :: 0 <= s < BL_CODES ==> tr.bl[s] <= CODEBITS
    requires 4 <= tr.blcodes <= BL_CODES && Partial(tr.bl, tr.bl, tr.blcodes)
    requires AllCodable(tr.ll, tr.dl, ts) && Used(tr.ll, END_BLOCK) && 257 <= |tr.ll| <= L_CODES && 1 <= |tr.dl| <= D_CODES
    requires ItemsCodable(tr.bl, TreeItems(tr.ll)) && ItemsCodable(tr.bl, TreeItems(tr.dl))
    ensures TreesFor(tr, ts)
    ensures |TreesBits(tr.ll, tr.dl, tr.bl, tr.blcodes)| ==
            14 + 3 * tr.blcodes + |ItemsBits(tr.bl, TreeItems(tr.ll))| + |ItemsBits(tr.bl, TreeItems(tr.dl))|
  {
    hide Kraft, Huff, TreeItems, ItemsBits, ItemsCodable, AllCodable, Partial, Pow2, Longest, Space, LenLensBits, CodesOf, Complete;
    CompleteFits(tr.bl);
    LenLensSize(tr.bl, 0, tr.blcodes);
  }

  /** The code length code is complete, and its table has no size limit. */
  lemma CompleteFits(bl: Lengths)
    requires Complete(bl)
    ensures Fits(CODES, bl, CODEBITS)
  {
    hide Kraft, Longest, Space, Pow2, RootBits;
  }

  lemma {:induction false} LenLensSize(bl: Lengths, i: nat, n: nat)
    requires i <= n <= 19 == |bl|
    ensures |LenLensBits(bl, i, n)| == 3 * (n - i)
    decreases n - i
  {
    hide Order;
    if i < n { LenLensSize(bl, i + 1, n); }
  }

  /** send_all_trees() */
  method SendAllTrees(s: BitSink, tr: Trees)
    requires s.Open() && TreesSent(tr.ll, tr.dl, tr.bl, tr.blcodes) && CodesOf(tr.bcodes, tr.bl) && |tr.bcodes| == BL_CODES
    requires |s.Stream()| + |TreesBits(tr.ll, tr.dl, tr.bl, tr.blcodes)| <= s.Limit()
    modifies s, s.buf
    ensures s.Open() && s.Limit() == old(s.Limit()) && Grown(old(s.St()), s.St()) && (old(s.Paced()) ==> s.Paced())
    ensures s.Stream() == old(s.Stream()) + TreesBits(tr.ll, tr.dl, tr.bl, tr.blcodes)
  {
    hide CodesOf, ItemsBits, ItemsCodable, TreeItems, ToBits, Pow2, Partial, Fits, LenLensBits, Order, Grown, BitSink.Open, BitSink.St, BitSink.Stream, BitSink.Limit, BitSink.Paced;
    ghost var start, s0 := s.Stream(), s.St();
    SmallPowers();
    SixParts(start, ToBits(|tr.ll| - 257, 5), ToBits(|tr.dl| - 1, 5), ToBits(tr.blcodes - 4, 4), LenLensBits(tr.bl, 0, tr.blcodes),
             ItemsBits(tr.bl, TreeItems(tr.ll)), ItemsBits(tr.bl, TreeItems(tr.dl)));
    s.SendBits(|tr.ll| - 257, 5);
    ghost var s1 := s.St();
    s.SendBits(|tr.dl| - 1, 5);
    GrownTrans(s0, s1, s.St());
    ghost var s2 := s.St();
    s.SendBits(tr.blcodes - 4, 4);
    GrownTrans(s0, s2, s.St());
    ghost var s3 := s.St();
    SendLenLens(s, tr.bl, tr.blcodes);
    GrownTrans(s0, s3, s.St());
    ghost var s4 := s.St();
    BlockSender.SendTree(s, tr.ll, tr.bcodes, tr.bl);
    GrownTrans(s0, s4, s.St());
    ghost var s5 := s.St();
    BlockSender.SendTree(s, tr.dl, tr.bcodes, tr.bl);
    GrownTrans(s0, s5, s.St());
  }

  /** The lengths of the code length code, in their order. */
  method SendLenLens(s: BitSink, bl: Lengths, blcodes: nat)
    requires s.Open() && |bl| == BL_CODES && blcodes <= BL_CODES && forall x :: 0 <= x < BL_CODES ==> bl[x] <= CODEBITS
    requires |s.Stream()| + |LenLensBits(bl, 0, blcodes)| <= s.Limit()
    modifies s, s.buf
    ensures s.Open() && s.Limit() == old(s.Limit()) && Grown(old(s.St()), s.St()) && (old(s.Paced()) ==> s.Paced())
    ensures s.Stream() == old(s.Stream()) + LenLensBits(bl, 0, blcodes)
  {
    hide ToBits, Pow2, LenLensBits, Order, Grown, BitSink.Open, BitSink.St, BitSink.Stream, BitSink.Limit, BitSink.Paced;
    ghost var head, s0 := s.Stream(), s.St();
    SmallPowers();
    GrownSelf(s0);
    LenLensNone(bl, head);
    LenLensSize(bl, 0, blcodes);
    for rank := 0 to blcodes
      invariant s.Open() && s.Limit() == old(s.Limit()) && Grown(s0, s.St()) && (old(s.Paced()) ==> s.Paced())
      invariant s.Stream() == head + LenLensBits(bl, 0, rank)
    {
      LenLensPush(bl, 0, rank, head);
      LenLensSize(bl, 0, rank);
      ghost var s1 := s.St();
      s.SendBits(bl[Order(rank)], 3);
      GrownTrans(s0, s1, s.St());
    }
  }

  lemma SixParts(s: seq<bool>, a: seq<bool>, b: seq<bool>, c: seq<bool>, d: seq<bool>, e: seq<bool>, f: seq<bool>)
    ensures s + (a + b + c + d + e + f) == s + a + b + c + d + e + f
    ensures |a + b + c + d + e + f| == |a| + |b| + |c| + |d| + |e| + |f|
  {
  }

  lemma LenLensNone(bl: Lengths, head: seq<bool>)
    requires |bl| == 19
    ensures head == head + LenLensBits(bl, 0, 0)
  {
  }

  lemma {:induction false} LenLensSnoc(bl: Lengths, i: nat, n: nat)
    requires i <= n < 19 == |bl|
    ensures LenLensBits(bl, i, n + 1) == LenLensBits(bl, i, n) + ToBits(bl[Order(n)], 3)
    decreases n - i
  {
    hide Order, ToBits;
    if i < n { LenLensSnoc(bl, i + 1, n); }
  }

  lemma LenLensPush(bl: Lengths, i: nat, n: nat, head: seq<bool>)
    requires i <= n < 19 == |bl|
    ensures head + LenLensBits(bl, i, n + 1) == head + LenLensBits(bl, i, n) + ToBits(bl[Order(n)], 3)
  {
    hide LenLensBits, Order, ToBits;
    LenLensSnoc(bl, i, n);
  }
}
