/** The parts of deps/zlib/trees.c that write a block: codes, code length trees,
    and the tokens. */
module BlockSender {
  import opened Bits
  import opened HuffmanCode
  import opened TableTheory
  import opened Tokens
  import opened InflateSpec
  import opened CodeLengths
  import opened BlockFormat
  import opened BitWriter

  /** The code fields of a tree are the reversed codes of its lengths. */
  ghost predicate CodesOf(codes: seq<nat>, lens: Lengths)
  {
    && Kraft(lens) <= Pow2(MAXBITS)
    && forall c :: 0 <= c < |codes| && Used(lens, c) ==> codes[c] == Huff(lens, c)
  }

  /** send_code(s, c, tree) */
  method SendCode(s: BitSink, c: nat, codes: seq<nat>, lens: Lengths)
    requires s.Open() && CodesOf(codes, lens) && Used(lens, c) && c < |codes| && |s.Stream()| + lens[c] <= s.Limit()
    modifies s, s.buf
    ensures s.Open() && s.Limit() == old(s.Limit()) && Grown(old(s.St()), s.St()) && (old(s.Paced()) ==> s.Paced())
    ensures s.Stream() == old(s.Stream()) + CodeBits(lens, c)
  {
    hide Kraft, Code, Rev, ToBits, Pow2, Grown, BitSink.Open, BitSink.St, BitSink.Stream, BitSink.Limit, BitSink.Paced;
    RevBound(Code(lens, c), lens[c]);
    s.SendBits(codes[c], lens[c]);
  }

  // ---------- code lengths ----------

  /** How many of the items have symbol s. */
  function ItemCount(items: seq<Item>, s: nat): nat
  {
    if items == [] then 0 else (if Sym(items[0]) == s then 1 else 0) + ItemCount(items[1..], s)
  }

  lemma {:induction false} ItemCountConcat(a: seq<Item>, b: seq<Item>, s: nat)
    ensures ItemCount(a + b, s) == ItemCount(a, s) + ItemCount(b, s)
  {
    hide Sym;
    if a == [] {
      assert a + b == b;
    } else {
      assert (a + b)[1..] == a[1..] + b;
      ItemCountConcat(a[1..], b, s);
    }
  }

  lemma {:induction false} LensCount(l: nat, n: nat, s: nat)
    ensures ItemCount(Lens(l, n), s) == if s == l then n else 0
  {
    if n > 0 {
      LensCount(l, n - 1, s);
      assert Lens(l, n)[1..] == Lens(l, n - 1);
    }
  }

  lemma ItemCountOne(i: Item, s: nat)
    ensures ItemCount([i], s) == if Sym(i) == s then 1 else 0
  {
    assert [i][1..] == [];
  }

  /** What scan_tree() adds for one run. */
  lemma RunCount(curlen: nat, prevlen: int, count: nat, minCount: nat, s: nat)
    requires 1 <= count
    ensures ItemCount(RunItems(curlen, prevlen, count, minCount), s) ==
            if count < minCount then (if s == curlen then count else 0)
            else if curlen != 0 then (if curlen != prevlen && s == curlen then 1 else 0) + (if s == 16 then 1 else 0)
            else if count <= 10 then (if s == 17 then 1 else 0)
            else (if s == 18 then 1 else 0)
  {
    if count < minCount {
      LensCount(curlen, count, s);
    } else if curlen != 0 && curlen != prevlen {
      ItemCountOne(Prev(count - 1), s);
      assert [Len(curlen), Prev(count - 1)][1..] == [Prev(count - 1)];
    } else if curlen != 0 {
      ItemCountOne(Prev(count), s);
    } else {
      ItemCountOne(Zeros3(count), s);
      ItemCountOne(Zeros11(count), s);
    }
  }

  /** scan_tree(): count the symbols that send_tree() will emit. */
  method ScanTree(lens: seq<nat>, freq: array<nat>)
    requires lens != [] && InRange(lens) && freq.Length >= 19
    requires forall s :: 0 <= s < 19 ==> freq[s] + |lens| < 0x1_0000
    modifies freq
    ensures forall s :: 0 <= s < freq.Length ==> freq[s] == old(freq[s]) + ItemCount(TreeItems(lens), s)
  {
    hide ItemCount, Items, RunItems, Sym;
    FewItems(lens);
    var prevlen: int := -1;
    var nextlen, count, maxCount, minCount := lens[0], 0, 7, 4;
    if nextlen == 0 { maxCount, minCount := 138, 3; }
    ghost var done: seq<Item> := [];
    NoItems(freq[..], lens);
    for n := 0 to |lens|
      invariant nextlen == (if n < |lens| then lens[n] else GUARD)
      invariant done + Items(lens, n, Run(prevlen, count, maxCount, minCount)) == TreeItems(lens)
      invariant forall s :: 0 <= s < freq.Length ==> freq[s] == old(freq[s]) + ItemCount(done, s)
    {
      var curlen := nextlen;
      nextlen := NextLen(lens, n);
      count := count + 1;
      ItemsStep(lens, n, prevlen, count, maxCount, minCount);
      if count < maxCount && curlen == nextlen {
        continue;
      }
      ghost var items := RunItems(curlen, prevlen, count, minCount);
      assert done + (items + Items(lens, n + 1, NextRun(curlen, nextlen))) == (done + items) + Items(lens, n + 1, NextRun(curlen, nextlen));
      CountsFit(done, items, Items(lens, n + 1, NextRun(curlen, nextlen)), TreeItems(lens));
      CountRun(freq, curlen, prevlen, count, minCount, done);
      done := done + items;
      count, prevlen := 0, curlen;
      if nextlen == 0 {
        maxCount, minCount := 138, 3;
      } else if curlen == nextlen {
        maxCount, minCount := 6, 3;
      } else {
        maxCount, minCount := 7, 4;
      }
    }
    ItemsEnd(lens, Run(prevlen, count, maxCount, minCount));
    assert done + [] == done;
  }

  lemma {:induction false} MoreLengths(have: seq<nat>, items: seq<Item>)
    requires Addable(have, items)
    ensures |have| + |items| <= |AddItems(have, items)|
    decreases |items|
  {
    if items != [] { MoreLengths(AddItem(have, items[0]), items[1..]); }
  }

  /** Every item stands for at least one length. */
  lemma FewItems(lens: seq<nat>)
    requires lens != [] && InRange(lens)
    ensures |TreeItems(lens)| <= |lens|
  {
    hide Addable, AddItems, TreeItems;
    TreeItemsAdd([], lens);
    MoreLengths([], TreeItems(lens));
    assert [] + lens == lens;
  }

  lemma {:induction false} ItemCountMost(items: seq<Item>, s: nat)
    ensures ItemCount(items, s) <= |items|
  {
    hide Sym;
    if items != [] { ItemCountMost(items[1..], s); }
  }

  lemma CountsFit(done: seq<Item>, items: seq<Item>, rest: seq<Item>, all: seq<Item>)
    requires done + (items + rest) == all
    ensures forall s :: ItemCount(done, s) + ItemCount(items, s) <= |all|
  {
    hide ItemCount;
    forall s: nat
      ensures ItemCount(done, s) + ItemCount(items, s) <= |all|
    {
      ItemCountConcat(done, items, s);
      ItemCountMost(done + items, s);
    }
  }

  lemma NoItems(freq: seq<nat>, lens: seq<nat>)
    requires lens != []
    ensures (forall s :: ItemCount([], s) == 0) && [] + TreeItems(lens) == TreeItems(lens)
  {
  }

  lemma ItemsEnd(lens: seq<nat>, r: Run)
    ensures Items(lens, |lens|, r) == []
  {
  }

  lemma ItemsStep(lens: seq<nat>, n: nat, prevlen: int, count: nat, maxCount: nat, minCount: nat)
    requires n < |lens| && count > 0
    ensures Items(lens, n, Run(prevlen, count - 1, maxCount, minCount)) ==
            if count < maxCount && lens[n] == NextLen(lens, n) then Items(lens, n + 1, Run(prevlen, count, maxCount, minCount))
            else RunItems(lens[n], prevlen, count, minCount) + Items(lens, n + 1, NextRun(lens[n], NextLen(lens, n)))
  {
  }

  method CountRun(freq: array<nat>, curlen: nat, prevlen: int, count: nat, minCount: nat, ghost done: seq<Item>)
    requires freq.Length >= 19 && curlen <= MAXBITS && 1 <= count
    requires forall s :: 0 <= s < 19 ==> freq[s] + ItemCount(RunItems(curlen, prevlen, count, minCount), s) < 0x1_0000
    modifies freq
    ensures forall s :: 0 <= s < freq.Length ==>
              freq[s] + ItemCount(done, s) == old(freq[s]) + ItemCount(done + RunItems(curlen, prevlen, count, minCount), s)
  {
    hide ItemCount, RunItems;
    forall s: nat
      ensures ItemCount(done + RunItems(curlen, prevlen, count, minCount), s) ==
              ItemCount(done, s) + ItemCount(RunItems(curlen, prevlen, count, minCount), s)
    {
      ItemCountConcat(done, RunItems(curlen, prevlen, count, minCount), s);
    }
    forall s: nat { RunCount(curlen, prevlen, count, minCount, s); }
    if count < minCount {
      freq[curlen] := Ush(freq[curlen] + count);
    } else if curlen != 0 {
      if curlen != prevlen { freq[curlen] := Ush(freq[curlen] + 1); }
      freq[16] := Ush(freq[16] + 1);
    } else if count <= 10 {
      freq[17] := Ush(freq[17] + 1);
    } else {
      freq[18] := Ush(freq[18] + 1);
    }
  }

  /** send_tree(): send the lengths in compressed form. */
  method SendTree(s: BitSink, lens: seq<nat>, codes: seq<nat>, bl: Lengths)
    requires s.Open() && lens != [] && InRange(lens) && CodesOf(codes, bl) && |bl| <= |codes| && ItemsCodable(bl, TreeItems(lens))
    requires |s.Stream()| + |ItemsBits(bl, TreeItems(lens))| <= s.Limit()
    modifies s, s.buf
    ensures s.Open() && s.Limit() == old(s.Limit()) && Grown(old(s.St()), s.St()) && (old(s.Paced()) ==> s.Paced())
    ensures s.Stream() == old(s.Stream()) + ItemsBits(bl, TreeItems(lens))
  {
    hide Items, RunItems, ItemsBits, ItemsCodable, CodesOf, ItemBits, Used, ToBits, Grown, BitSink.Open, BitSink.St, BitSink.Stream, BitSink.Limit, BitSink.Paced;
    ghost var s0 := s.St();
    GrownSelf(s0);
    var prevlen: int := -1;
    var nextlen, count, maxCount, minCount := lens[0], 0, 7, 4;
    if nextlen == 0 { maxCount, minCount := 138, 3; }
    ghost var done: seq<Item> := [];
    ghost var start := s.Stream();
    NothingSent(bl, lens, start);
    for n := 0 to |lens|
      invariant s.Open() && nextlen == (if n < |lens| then lens[n] else GUARD)
      invariant s.Open() && s.Limit() == old(s.Limit()) && Grown(old(s.St()), s.St()) && (old(s.Paced()) ==> s.Paced())
      invariant done + Items(lens, n, Run(prevlen, count, maxCount, minCount)) == TreeItems(lens)
      invariant ItemsCodable(bl, done) && s.Stream() == start + ItemsBits(bl, done)
    {
      var curlen := nextlen;
      nextlen := NextLen(lens, n);
      count := count + 1;
      ItemsStep(lens, n, prevlen, count, maxCount, minCount);
      if count < maxCount && curlen == nextlen {
        continue;
      }
      ghost var items, rest := RunItems(curlen, prevlen, count, minCount), Items(lens, n + 1, NextRun(curlen, nextlen));
      assert done + (items + rest) == (done + items) + rest;
      CodableParts(bl, done, items, rest);
      ghost var s1 := s.St();
      SendRun(s, curlen, prevlen, count, minCount, codes, bl);
      GrownTrans(s0, s1, s.St());
      ItemsConcat(bl, done, items);
      assert start + ItemsBits(bl, done) + ItemsBits(bl, items) == start + (ItemsBits(bl, done) + ItemsBits(bl, items));
      done := done + items;
      count, prevlen := 0, curlen;
      if nextlen == 0 {
        maxCount, minCount := 138, 3;
      } else if curlen == nextlen {
        maxCount, minCount := 6, 3;
      } else {
        maxCount, minCount := 7, 4;
      }
    }
    ItemsEnd(lens, Run(prevlen, count, maxCount, minCount));
    assert done + [] == done;
  }

  lemma NothingSent(bl: Lengths, lens: seq<nat>, start: seq<bool>)
    requires lens != []
    ensures ItemsCodable(bl, []) && start + ItemsBits(bl, []) == start && [] + TreeItems(lens) == TreeItems(lens)
  {
  }

  lemma CodableParts(bl: Lengths, a: seq<Item>, b: seq<Item>, c: seq<Item>)
    requires ItemsCodable(bl, a + b + c)
    ensures ItemsCodable(bl, a) && ItemsCodable(bl, b)
    ensures |ItemsBits(bl, a)| + |ItemsBits(bl, b)| <= |ItemsBits(bl, a + b + c)|
  {
    hide ItemsBits, ValidItem, Used;
    assert forall k :: 0 <= k < |a| ==> (a + b + c)[k] == a[k];
    assert forall k :: |a| <= k < |a| + |b| ==> (a + b + c)[k] == b[k - |a|];
    assert forall k :: |a| + |b| <= k < |a + b + c| ==> (a + b + c)[k] == c[k - |a| - |b|];
    CodableBy(bl, a + b + c, a, 0);
    CodableBy(bl, a + b + c, b, |a|);
    CodableBy(bl, a + b + c, c, |a| + |b|);
    ItemsConcat(bl, a, b);
    ItemsConcat(bl, a + b, c);
  }

  lemma CodableBy(bl: Lengths, all: seq<Item>, b: seq<Item>, from: nat)
    requires ItemsCodable(bl, all) && from + |b| <= |all| && forall k :: from <= k < from + |b| ==> all[k] == b[k - from]
    ensures ItemsCodable(bl, b)
  {
    forall k | 0 <= k < |b|
      ensures ValidItem(b[k]) && Used(bl, Sym(b[k]))
    {
      assert all[from + k] == b[k];
    }
  }

  /** The items of one run. */
  method SendRun(s: BitSink, curlen: nat, prevlen: int, count0: nat, minCount: nat, codes: seq<nat>, bl: Lengths)
    requires s.Open() && CodesOf(codes, bl) && |bl| <= |codes| && 1 <= count0 && ItemsCodable(bl, RunItems(curlen, prevlen, count0, minCount))
    requires |s.Stream()| + |ItemsBits(bl, RunItems(curlen, prevlen, count0, minCount))| <= s.Limit()
    modifies s, s.buf
    ensures s.Open() && s.Limit() == old(s.Limit()) && Grown(old(s.St()), s.St()) && (old(s.Paced()) ==> s.Paced())
    ensures s.Stream() == old(s.Stream()) + ItemsBits(bl, RunItems(curlen, prevlen, count0, minCount))
  {
    hide CodesOf, ItemsBits, ItemBits, ItemsCodable, Used, ToBits, ItemExtra, CodeBits, Grown, BitSink.Open, BitSink.St, BitSink.Stream, BitSink.Limit, BitSink.Paced;
    ghost var s0 := s.St();
    var count := count0;
    if count < minCount {
      SendLens(s, curlen, count, codes, bl);
    } else if curlen != 0 {
      if curlen != prevlen {
        TwoItems(bl, Len(curlen), Prev(count - 1));
        SendItem(s, Len(curlen), codes, bl);
        count := count - 1;
        ghost var s1 := s.St();
        SendItem(s, Prev(count), codes, bl);
        GrownTrans(s0, s1, s.St());
      } else {
        OneItemBits(bl, Prev(count));
        SendItem(s, Prev(count), codes, bl);
      }
    } else if count <= 10 {
      OneItemBits(bl, Zeros3(count));
      SendItem(s, Zeros3(count), codes, bl);
    } else {
      OneItemBits(bl, Zeros11(count));
      SendItem(s, Zeros11(count), codes, bl);
    }
  }

  lemma OneItemBits(bl: Lengths, i: Item)
    requires ItemsCodable(bl, [i])
    ensures ValidItem(i) && Used(bl, Sym(i)) && ItemsBits(bl, [i]) == ItemBits(bl, i)
  {
    hide ItemBits, Used;
    assert [i][0] == i && [i][1..] == [];
    assert ItemBits(bl, i) + [] == ItemBits(bl, i);
  }

  lemma TwoItems(bl: Lengths, i: Item, j: Item)
    requires ItemsCodable(bl, [i, j])
    ensures ValidItem(i) && Used(bl, Sym(i)) && ValidItem(j) && Used(bl, Sym(j))
    ensures ItemsBits(bl, [i, j]) == ItemBits(bl, i) + ItemBits(bl, j)
  {
    hide ItemBits, Used;
    assert [i, j][0] == i && [i, j][1] == j && [i, j][1..] == [j];
    OneItemBits(bl, j);
  }

  /** do { send_code(s, curlen, bl_tree); } while (--count != 0) */
  method SendLens(s: BitSink, l: nat, count0: nat, codes: seq<nat>, bl: Lengths)
    requires s.Open() && CodesOf(codes, bl) && |bl| <= |codes| && ItemsCodable(bl, Lens(l, count0))
    requires |s.Stream()| + |ItemsBits(bl, Lens(l, count0))| <= s.Limit()
    modifies s, s.buf
    ensures s.Open() && s.Limit() == old(s.Limit()) && Grown(old(s.St()), s.St()) && (old(s.Paced()) ==> s.Paced())
    ensures s.Stream() == old(s.Stream()) + ItemsBits(bl, Lens(l, count0))
  {
    hide CodesOf, ItemBits, Used, CodeBits, ItemsBits, ItemsCodable, Lens, Grown, BitSink.Open, BitSink.St, BitSink.Stream, BitSink.Limit, BitSink.Paced;
    ghost var s0 := s.St();
    GrownSelf(s0);
    var count: nat := count0;
    ghost var start := s.Stream();
    NoLens(bl, l, start);
    while count != 0
      invariant count <= count0 && s.Open() && ItemsCodable(bl, Lens(l, count0 - count))
      invariant s.Open() && s.Limit() == old(s.Limit()) && Grown(old(s.St()), s.St()) && (old(s.Paced()) ==> s.Paced())
      invariant s.Stream() == start + ItemsBits(bl, Lens(l, count0 - count))
    {
      LensPush(bl, l, count0 - count, count0, start);
      ghost var s1 := s.St();
      SendItem(s, Len(l), codes, bl);
      GrownTrans(s0, s1, s.St());
      count := count - 1;
    }
  }

  lemma NoLens(bl: Lengths, l: nat, start: seq<bool>)
    ensures ItemsCodable(bl, Lens(l, 0)) && start + ItemsBits(bl, Lens(l, 0)) == start
  {
  }

  lemma {:induction false} LensNext(l: nat, n: nat)
    ensures Lens(l, n + 1) == Lens(l, n) + [Len(l)]
  {
    if n > 0 { LensNext(l, n - 1); }
  }

  lemma LensPush(bl: Lengths, l: nat, n: nat, all: nat, start: seq<bool>)
    requires n < all && ItemsCodable(bl, Lens(l, all)) && ItemsCodable(bl, Lens(l, n))
    ensures ValidItem(Len(l)) && Used(bl, Sym(Len(l))) && ItemsCodable(bl, Lens(l, n + 1))
    ensures |ItemsBits(bl, Lens(l, n))| + |ItemBits(bl, Len(l))| <= |ItemsBits(bl, Lens(l, all))|
    ensures start + ItemsBits(bl, Lens(l, n + 1)) == start + ItemsBits(bl, Lens(l, n)) + ItemBits(bl, Len(l))
  {
    hide ItemBits, Used;
    assert Lens(l, all)[0] == Len(l);
    LensNext(l, n);
    OneItemBits(bl, Len(l));
    ItemsConcat(bl, Lens(l, n), [Len(l)]);
    LensSplit(l, n + 1, all);
    assert Lens(l, n) + [Len(l)] + Lens(l, all - n - 1) == Lens(l, all);
    CodableParts(bl, Lens(l, n), [Len(l)], Lens(l, all - n - 1));
  }

  lemma {:induction false} LensSplit(l: nat, n: nat, all: nat)
    requires n <= all
    ensures Lens(l, n) + Lens(l, all - n) == Lens(l, all)
    decreases n
  {
    if n > 0 {
      LensSplit(l, n - 1, all - 1);
      assert Lens(l, n) + Lens(l, all - n) == [Len(l)] + (Lens(l, n - 1) + Lens(l, all - n));
    } else {
      assert [] + Lens(l, all) == Lens(l, all);
    }
  }

  /** A code and its extra bits. */
  method SendItem(s: BitSink, i: Item, codes: seq<nat>, bl: Lengths)
    requires s.Open() && CodesOf(codes, bl) && |bl| <= |codes| && ValidItem(i) && Used(bl, Sym(i))
    requires |s.Stream()| + |ItemBits(bl, i)| <= s.Limit()
    modifies s, s.buf
    ensures s.Open() && s.Limit() == old(s.Limit()) && Grown(old(s.St()), s.St()) && (old(s.Paced()) ==> s.Paced())
    ensures s.Stream() == old(s.Stream()) + ItemBits(bl, i)
  {
    hide CodesOf, CodeBits, ToBits, Pow2, Grown, BitSink.Open, BitSink.St, BitSink.Stream, BitSink.Limit, BitSink.Paced;
    Powers7();
    ghost var start, s0 := s.Stream(), s.St();
    ItemParts(bl, i, start);
    SendCode(s, Sym(i), codes, bl);
    ghost var s1 := s.St();
    GrownSelf(s1);
    match i {
      case Len(_) =>
      case Prev(n) => s.SendBits(n - 3, 2);
      case Zeros3(n) => s.SendBits(n - 3, 3);
      case Zeros11(n) => s.SendBits(n - 11, 7);
    }
    GrownTrans(s0, s1, s.St());
  }

  lemma ItemParts(bl: Lengths, i: Item, start: seq<bool>)
    requires ValidItem(i) && Used(bl, Sym(i))
    ensures start + ItemBits(bl, i) == start + CodeBits(bl, Sym(i)) + ItemExtra(i)
    ensures i.Len? ==> start + ItemBits(bl, i) == start + CodeBits(bl, Sym(i))
  {
    hide CodeBits, ToBits;
  }

  lemma Powers7()
    ensures Pow2(2) == 4 && Pow2(3) == 8 && Pow2(4) == 16 && Pow2(5) == 32 && Pow2(7) == 128
  {
    SmallPowers();
  }
}
