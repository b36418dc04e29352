/** build_tree() of deps/zlib/trees.c as a whole: from frequencies to a complete
    length-limited code, with the exact change of the block's cost. */
module BuildTree {
  import opened Bits
  import opened HuffmanCode
  import opened PriorityHeap
  import opened Sums
  import opened HuffmanTree
  import opened BitLengths
  import opened LengthLimit
  import opened Reassign
  import opened Optimal
  import opened SoleCode
  import opened GenCodes

  // ---------- symbols that occur ----------

  /** The symbols below n that occur, in order. */
  function Symbols(freq: seq<nat>, n: nat): seq<nat>
  {
    if n == 0 then [] else Symbols(freq, n - 1) + (if At(freq, n - 1) > 0 then [n - 1] else [])
  }

  lemma SymbolsNext(freq: seq<nat>, n: nat)
    ensures Symbols(freq, n + 1) == if At(freq, n) > 0 then Symbols(freq, n) + [n] else Symbols(freq, n)
  {
  }

  lemma SymbolsNone(freq: seq<nat>)
    ensures Symbols(freq, 0) == [] && multiset(Symbols(freq, 0)) == multiset{}
  {
  }

  lemma {:induction false} SymbolsCount(freq: seq<nat>, n: nat, x: nat)
    ensures multiset(Symbols(freq, n))[x] == if x < n && At(freq, x) > 0 then 1 else 0
    decreases n
  {
    hide Symbols, At;
    if n > 0 {
      SymbolsCount(freq, n - 1, x);
      SymbolsNext(freq, n - 1);
      if At(freq, n - 1) > 0 {
        CountPush(Symbols(freq, n - 1), n - 1, x);
      }
    } else {
      SymbolsNone(freq);
    }
  }

  lemma CountPush(s: seq<nat>, y: nat, x: nat)
    ensures multiset(s + [y])[x] == multiset(s)[x] + (if x == y then 1 else 0)
  {
    assert multiset(s + [y]) == multiset(s) + multiset([y]);
  }

  lemma {:induction false} SymbolsRange(freq: seq<nat>, n: nat)
    ensures forall i :: 0 <= i < |Symbols(freq, n)| ==> Symbols(freq, n)[i] < n && At(freq, Symbols(freq, n)[i]) > 0
  {
    if n > 0 { SymbolsRange(freq, n - 1); }
  }

  lemma {:induction false} SymbolsEnd(freq: seq<nat>, top: nat, n: nat)
    requires top <= n && forall x :: top <= x < n ==> At(freq, x) == 0
    ensures Symbols(freq, n) == Symbols(freq, top)
    decreases n
  {
    if n > top { SymbolsEnd(freq, top, n - 1); }
  }

  /** A table that vanishes on the symbols that do not occur. */
  lemma {:induction false} SymbolsSum(freq: seq<nat>, a: seq<nat>, n: nat)
    requires forall x :: 0 <= x < n && At(freq, x) == 0 ==> At(a, x) == 0
    ensures SumAt(a, Symbols(freq, n)) == SumAt(a, Upto(n))
    decreases n
  {
    hide SumAt, Symbols, Upto;
    if n > 0 {
      SymbolsSum(freq, a, n - 1);
      SymbolsNext(freq, n - 1);
      UptoNext(n - 1);
      SumPush(a, Upto(n - 1), n - 1);
      SumPush(a, Symbols(freq, n - 1), n - 1);
    } else {
      SymbolsNone(freq);
      UptoNone();
    }
  }

  lemma UptoNone()
    ensures Upto(0) == []
  {
  }

  lemma QueueIsSymbols(g: seq<nat>, len: nat, freq: seq<nat>, elems: nat)
    requires Holds(g, len, freq, elems)
    ensures Queue(g, len) == multiset(Symbols(freq, elems)) && |Symbols(freq, elems)| == len
  {
    hide Queue, Symbols;
    forall x: nat
      ensures Queue(g, len)[x] == multiset(Symbols(freq, elems))[x]
    {
      SymbolsCount(freq, elems, x);
    }
    QueueSize(g, len);
    assert |multiset(Symbols(freq, elems))| == |Symbols(freq, elems)|;
  }

  // ---------- the lengths as a code ----------

  lemma {:induction false} CountSum(d: seq<nat>, top: nat, n: nat, b: nat)
    requires n <= top <= |d|
    ensures Count(d[..top], n, b) == SumAt(Marks(d, top, b), Upto(n))
    decreases n
  {
    if n > 0 {
      CountSum(d, top, n - 1, b);
      UptoNext(n - 1);
      SumPush(Marks(d, top, b), Upto(n - 1), n - 1);
    }
  }

  /** The lengths of the symbols 0 to top - 1: positive for those that occur. */
  ghost predicate LengthsOf(d: seq<nat>, freq: seq<nat>, top: nat, max: nat)
  {
    top <= |d| && forall x :: 0 <= x < top ==> d[x] <= max && (d[x] > 0 <==> At(freq, x) > 0)
  }

  lemma TotalIs(d: seq<nat>, freq: seq<nat>, top: nat, max: nat, b: nat)
    requires LengthsOf(d, freq, top, max) && b >= 1
    ensures Total(d[..top], b) == SumAt(Marks(d, top, b), Symbols(freq, top))
  {
    hide SumAt, Symbols;
    CountSum(d, top, top, b);
    SymbolsSum(freq, Marks(d, top, b), top);
  }

  /** Room in units of the longest possible code. */
  lemma {:induction false} RoomIsBelow(lens: Lengths, bl: seq<nat>, max: nat, n: nat)
    requires n <= max + 1 <= MAXBITS + 1 && At(bl, 0) == 0
    requires forall b :: 1 <= b <= max ==> At(bl, b) == Total(lens, b)
    ensures Below(lens, n) == Shl(Room(bl, max, n), MAXBITS - max)
    decreases n
  {
    hide Total;
    if n == 0 {
      ShlOne(MAXBITS - max);
    } else if n == 1 {
      ShlOne(max);
      ShlOne(MAXBITS - max);
    } else {
      RoomIsBelow(lens, bl, max, n - 1);
      ShlAdd(Room(bl, max, n - 1), Shl(At(bl, n - 1), max - (n - 1)), MAXBITS - max);
      ShlShl(At(bl, n - 1), max - (n - 1), MAXBITS - max);
    }
  }

  lemma {:induction false} BelowEnd(lens: Lengths, max: nat, n: nat)
    requires max + 1 <= n <= MAXBITS + 1 && forall b :: max < b < n ==> Total(lens, b) == 0
    ensures Below(lens, n) == Below(lens, max + 1)
    decreases n
  {
    hide Total;
    if n > max + 1 {
      BelowEnd(lens, max, n - 1);
      ShlOne(MAXBITS + 1 - n);
    }
  }

  /** Counts without excess make a complete code. */
  lemma CountsComplete(lens: Lengths, bl: seq<nat>, max: nat, codes: nat)
    requires 1 <= max <= MAXBITS && |bl| == MAXBITS + 1 && Excess(bl, max, codes, 0)
    requires forall b :: 1 <= b <= MAXBITS ==> bl[b] == Total(lens, b)
    requires forall b :: max < b <= MAXBITS ==> bl[b] == 0
    ensures Complete(lens)
  {
    hide Total, Room, Shl, Codes;
    RoomIsBelow(lens, bl, max, max + 1);
    BelowEnd(lens, max, MAXBITS + 1);
    PowerShift(max);
  }

  lemma PowerShift(max: nat)
    requires max <= MAXBITS
    ensures Shl(Pow2(max), MAXBITS - max) == Pow2(MAXBITS)
  {
    ShlOne(max);
    ShlShl(1, max, MAXBITS - max);
    ShlOne(MAXBITS);
  }

  // ---------- gen_bitlen ----------

  /** What gen_bitlen() establishes for the symbols of the tree. */
  ghost predicate Limited(d: seq<nat>, bl: seq<nat>, syms: seq<nat>, top: nat, max: nat)
  {
    && |bl| == MAXBITS + 1 && Excess(bl, max, |syms|, 0)
    && (forall b :: 1 <= b <= MAXBITS ==> bl[b] == SumAt(Marks(d, top, b), syms))
    && (forall b :: max < b <= MAXBITS ==> bl[b] == 0)
    && forall i :: 0 <= i < |syms| ==> syms[i] < |d| && 1 <= d[syms[i]] <= max
  }

  method GenBitLen(heap: array<nat>, heapMax: nat, freq: array<nat>, dl: array<nat>, blCount: array<nat>, ghost elems: nat,
                   maxCode: nat, maxLength: nat, stree: seq<nat>, extra: seq<nat>, base: nat, ghost syms: seq<nat>,
                   ghost order: seq<nat>, optLen0: int, staticLen0: int)
    returns (optLen: int, staticLen: int, ghost cut: nat)
    requires heapMax < heap.Length && freq.Length <= dl.Length && blCount.Length == MAXBITS + 1 && 1 <= maxLength <= MAXBITS
    requires dl != heap && dl != freq && blCount != heap && blCount != freq && blCount != dl
    requires order == heap[heapMax..] && Shape(order, dl[..], elems, multiset(syms)) && Leaves(multiset(syms), elems)
    requires Weighted(order, elems, freq[..]) && forall i :: 0 <= i < |syms| ==> At(freq[..], syms[i]) > 0
    requires maxCode < elems && 2 * elems <= freq.Length && |syms| <= elems && |syms| <= Pow2(maxLength)
    requires forall i :: 0 <= i < |syms| ==> syms[i] <= maxCode
    requires (stree == [] || maxCode < |stree|) && (base <= maxCode ==> maxCode - base < |extra|)
    modifies dl, blCount
    ensures Limited(dl[..], blCount[..], syms, maxCode + 1, maxLength)
    ensures if cut == 0 then Cheapest(freq[..], dl[..], syms) else Fib(maxLength + 3) <= At(freq[..], heap[heapMax])
    ensures cut > 0 ==> NoSole(freq[..], syms, maxLength)
    ensures optLen == optLen0 + SumAt(Costs(freq[..], dl[..], extra, base, maxCode + 1), syms)
    ensures staticLen == staticLen0 + (if stree == [] then 0 else SumAt(Costs(freq[..], stree, extra, base, maxCode + 1), syms))
    ensures forall x :: 0 <= x < elems && x !in syms ==> dl[x] == old(dl[x])
  {
    hide Shape, Distinct, Leaves, SumAt, Excess, Codes, Pow2, XBits, Limited, Weighted, Cheapest, Fib, NoSole;
    ghost var d0 := dl[..];
    var overflow, opt, stat := FirstPass(heap, heapMax, freq, dl, blCount, elems, maxCode, maxLength, stree, extra, base,
                                         syms, order);
    optLen, staticLen, cut := optLen0 + opt, staticLen0 + stat, overflow;
    if overflow == 0 {
      CountedLimited(dl[..], blCount[..], syms, maxCode + 1, maxLength);
    } else {
      optLen := CutOff(heap, heapMax, freq, dl, blCount, elems, maxCode, maxLength, extra, base, syms, order, d0, overflow, optLen);
    }
  }

  /** Levels, and what they mean for the code. */
  method FirstPass(heap: array<nat>, heapMax: nat, freq: array<nat>, dl: array<nat>, blCount: array<nat>, ghost elems: nat,
                   maxCode: nat, maxLength: nat, stree: seq<nat>, extra: seq<nat>, base: nat, ghost syms: seq<nat>,
                   ghost order: seq<nat>)
    returns (overflow: nat, opt: int, stat: int)
    requires heapMax < heap.Length && freq.Length <= dl.Length && blCount.Length == MAXBITS + 1 && 1 <= maxLength <= MAXBITS
    requires dl != heap && dl != freq && blCount != heap && blCount != freq && blCount != dl
    requires Weighted(heap[heapMax..], elems, freq[..]) && forall i :: 0 <= i < |syms| ==> At(freq[..], syms[i]) > 0
    requires order == heap[heapMax..] && Shape(order, dl[..], elems, multiset(syms)) && Leaves(multiset(syms), elems)
    requires maxCode < elems && 2 * elems <= freq.Length && |syms| <= elems && |syms| <= Pow2(maxLength)
    requires forall i :: 0 <= i < |syms| ==> syms[i] <= maxCode
    requires (stree == [] || maxCode < |stree|) && (base <= maxCode ==> maxCode - base < |extra|)
    modifies dl, blCount
    ensures Begun(order, freq[..], dl[..], blCount[..], syms, elems, maxCode + 1, maxLength, extra, base, stree, overflow, opt, stat)
    ensures if overflow == 0 then Cheapest(freq[..], dl[..], syms) else Fib(maxLength + 3) <= At(freq[..], heap[heapMax])
    ensures overflow > 0 ==> NoSole(freq[..], syms, maxLength)
    ensures forall x :: 0 <= x < dl.Length && x !in order ==> dl[x] == old(dl[x])
  {
    hide Shape, Leveled, Counted, Leaves, Pow2, Begun, Dad, Inside, Weighted, Cheapest, Fib, NoSole;
    ghost var d0 := dl[..];
    assert |multiset(syms)| == |syms|;
    overflow, opt, stat := Levels(heap, heapMax, freq, dl, blCount, elems, maxCode, maxLength, stree, extra, base,
                                  multiset(syms), order);
    HasBegun(order, d0, freq[..], dl[..], blCount[..], syms, elems, maxCode + 1, maxLength, extra, base, stree,
             overflow, opt, stat);
    Uncut(order, d0, freq[..], dl[..], blCount[..], syms, elems, maxCode + 1, maxLength, extra, base, stree, overflow, opt, stat);
  }

  /** Without overflow no code is cheaper; and overflow takes many symbols. */
  lemma Uncut(order: seq<nat>, dad: seq<nat>, freq: seq<nat>, d: seq<nat>, bl: seq<nat>, syms: seq<nat>, elems: nat, top: nat,
              max: nat, extra: seq<nat>, base: nat, stree: seq<nat>, overflow: nat, opt: int, stat: int)
    requires Shape(order, dad, elems, multiset(syms)) && Leaves(multiset(syms), elems) && Weighted(order, elems, freq)
    requires |syms| <= elems && 2 * elems <= |d| && Leveled(order, d, elems, max, |order|)
    requires Counted(order, freq, d, bl, elems, top, max, extra, base, stree, |order|, overflow, opt, stat)
    requires forall i :: 0 <= i < |syms| ==> At(freq, syms[i]) > 0
    ensures if overflow == 0 then Cheapest(freq, d, syms) else Fib(max + 3) <= At(freq, order[0]) && NoSole(freq, syms, max)
  {
    hide Shape, Leveled, Leaves, Weighted, SumAt, Cheapest, Marks, Costs, Dad, Fib, NoSole;
    assert |multiset(syms)| == |syms|;
    ShapeBounds(order, dad, elems, multiset(syms));
    ThreeNodes(order, dad, elems, multiset(syms));
    if overflow == 0 {
      NoneCheaper(order, dad, freq, d, elems, max, syms);
    } else {
      CutIsHeavy(order, dad, freq, d, elems, max, syms);
      CutNoSole(order, dad, freq, d, elems, max, syms);
    }
  }

  /** What is known after the first pass. */
  ghost predicate Begun(order: seq<nat>, freq: seq<nat>, d: seq<nat>, bl: seq<nat>, syms: seq<nat>, elems: nat, top: nat,
                        max: nat, extra: seq<nat>, base: nat, stree: seq<nat>, overflow: nat, opt: int, stat: int)
  {
    && |bl| == MAXBITS + 1 && overflow % 2 == 0 && Excess(bl, max, |syms|, overflow / 2)
    && (forall b :: 0 <= b <= MAXBITS ==> bl[b] == SumAt(Marks(d, top, b), syms))
    && (forall b :: max < b <= MAXBITS ==> bl[b] == 0)
    && opt == SumAt(Costs(freq, d, extra, base, top), syms)
    && stat == (if stree == [] then 0 else SumAt(Costs(freq, stree, extra, base, top), syms))
    && (forall i :: 0 <= i < |syms| ==> syms[i] < |d| && 1 <= d[syms[i]] <= max)
    && Distinct(order) && (forall i :: 0 <= i < |order| ==> order[i] < |freq| && (order[i] < elems ==> order[i] in syms))
  }

  lemma HasBegun(order: seq<nat>, dad: seq<nat>, freq: seq<nat>, d: seq<nat>, bl: seq<nat>, syms: seq<nat>, elems: nat, top: nat,
                 max: nat, extra: seq<nat>, base: nat, stree: seq<nat>, overflow: nat, opt: int, stat: int)
    requires Shape(order, dad, elems, multiset(syms)) && Leaves(multiset(syms), elems) && |syms| <= elems
    requires 1 <= max <= MAXBITS && Leveled(order, d, elems, max, |order|) && 2 * elems <= |freq| <= |d|
    requires Counted(order, freq, d, bl, elems, top, max, extra, base, stree, |order|, overflow, opt, stat)
    requires top <= elems && (forall i :: 0 <= i < |syms| ==> syms[i] < top) && |syms| <= Pow2(max)
    ensures Begun(order, freq, d, bl, syms, elems, top, max, extra, base, stree, overflow, opt, stat)
  {
    hide Shape, Leveled, Counted, Distinct, FathersFirst, Leaves, SumAt, Excess, Pow2, Marks, Costs, Dad;
    assert |multiset(syms)| == |syms|;
    ShapeFacts(order, dad, elems, multiset(syms));
    ShapeBounds(order, dad, elems, multiset(syms));
    ShapeLeaves(order, dad, elems, syms);
    CountSize(order, freq, d, bl, elems, top, max, extra, base, stree, |order|, overflow, opt, stat);
    CountedExcess(order, dad, freq, d, bl, elems, top, max, extra, base, stree, syms, overflow, opt, stat);
    LeafLevels(order, dad, d, elems, syms, max);
  }

  lemma CountedLimited(d: seq<nat>, bl: seq<nat>, syms: seq<nat>, top: nat, max: nat)
    requires |bl| == MAXBITS + 1 && Excess(bl, max, |syms|, 0)
    requires forall b :: 0 <= b <= MAXBITS ==> bl[b] == SumAt(Marks(d, top, b), syms)
    requires forall b :: max < b <= MAXBITS ==> bl[b] == 0
    requires forall i :: 0 <= i < |syms| ==> syms[i] < |d| && 1 <= d[syms[i]] <= max
    ensures Limited(d, bl, syms, top, max)
  {
    hide SumAt, Excess;
  }

  /** Lengths beyond the limit: shorten the code and hand out the lengths again. */
  method CutOff(heap: array<nat>, heapMax: nat, freq: array<nat>, dl: array<nat>, blCount: array<nat>, ghost elems: nat,
                maxCode: nat, maxLength: nat, ghost extra: seq<nat>, ghost base: nat, ghost syms: seq<nat>,
                ghost order: seq<nat>, ghost d0: seq<nat>, overflow: nat, optLen0: int)
    returns (optLen: int)
    requires heapMax < heap.Length && freq.Length <= dl.Length && blCount.Length == MAXBITS + 1 && 1 <= maxLength <= MAXBITS
    requires dl != heap && dl != freq && blCount != heap && blCount != freq && blCount != dl
    requires order == heap[heapMax..] && Shape(order, d0, elems, multiset(syms)) && Distinct(order)
    requires maxCode < elems <= dl.Length && forall i :: 0 <= i < |order| ==> order[i] < freq.Length
    requires forall i :: 0 <= i < |syms| ==> syms[i] <= maxCode
    requires overflow > 0 && overflow % 2 == 0 && Excess(blCount[..], maxLength, |syms|, overflow / 2)
    requires forall b :: maxLength < b <= MAXBITS ==> blCount[b] == 0
    modifies dl, blCount
    ensures Limited(dl[..], blCount[..], syms, maxCode + 1, maxLength)
    ensures optLen == optLen0 + SumAt(Costs(freq[..], dl[..], extra, base, maxCode + 1), syms) -
                      SumAt(Costs(freq[..], old(dl[..]), extra, base, maxCode + 1), syms)
    ensures forall x :: 0 <= x < dl.Length && x !in order ==> dl[x] == old(dl[x])
  {
    hide Shape, Distinct, SumAt, Excess, Codes, Pow2, XBits, Limited;
    ghost var d1, top := dl[..], maxCode + 1;
    Shorten(blCount, maxLength, overflow, |syms|);
    ExcessFacts(blCount[..], maxLength, |syms|, 0);
    LeafTotal(order, d0, elems, syms, dl.Length, top);
    ExcessCodes(blCount[..], maxLength, |syms|, 0);
    assert dl[..] == d1;
    optLen := HandOut(heap, heapMax, freq, dl, blCount, elems, maxCode, maxLength, extra, base, order, optLen0);
    LeavesOnly(order, d0, elems, syms, Costs(freq[..], d1, extra, base, top));
    LeavesOnly(order, d0, elems, syms, Costs(freq[..], dl[..], extra, base, top));
    HandedLimited(order, d0, elems, syms, dl[..], blCount[..], top, maxLength);
  }

  lemma ExcessCodes(bl: seq<nat>, max: nat, codes: nat, e: nat)
    requires Excess(bl, max, codes, e)
    ensures Codes(bl, max + 1) == codes
  {
  }

  /** Nodes below elems are leaves, and leaves are symbols. */
  lemma ShapeLeaves(order: seq<nat>, dad: seq<nat>, elems: nat, syms: seq<nat>)
    requires Shape(order, dad, elems, multiset(syms))
    ensures forall i :: 0 <= i < |order| && order[i] < elems ==> order[i] in syms
    ensures forall i :: 0 <= i < |syms| ==> syms[i] in order
  {
    var k := |multiset(syms)| - 1;
    forall i | 0 <= i < |order| && order[i] < elems
      ensures order[i] in syms
    {
      assert order[i] in multiset(order);
      InternalsOnce(elems, k, order[i]);
    }
    forall i | 0 <= i < |syms|
      ensures syms[i] in order
    {
      assert syms[i] in multiset(syms);
      assert syms[i] in multiset(order);
    }
  }

  lemma LeafTotal(order: seq<nat>, dad: seq<nat>, elems: nat, syms: seq<nat>, size: nat, top: nat)
    requires Shape(order, dad, elems, multiset(syms)) && top <= elems <= size
    requires forall i :: 0 <= i < |syms| ==> syms[i] < top
    ensures SumAt(LeafMarks(size, top), order) == |syms|
  {
    hide SumAt, Shape;
    LeavesOnly(order, dad, elems, syms, LeafMarks(size, top));
    OnesSum(LeafMarks(size, top), syms);
  }

  lemma {:induction false} OnesSum(a: seq<nat>, s: seq<nat>)
    requires forall i :: 0 <= i < |s| ==> At(a, s[i]) == 1
    ensures SumAt(a, s) == |s|
    decreases |s|
  {
    if s != [] { OnesSum(a, s[..|s| - 1]); }
  }

  lemma HandedLimited(order: seq<nat>, dad: seq<nat>, elems: nat, syms: seq<nat>, d: seq<nat>, bl: seq<nat>, top: nat, max: nat)
    requires Shape(order, dad, elems, multiset(syms)) && top <= elems && |bl| == MAXBITS + 1 && 1 <= max <= MAXBITS
    requires forall b :: 1 <= b <= max ==> SumAt(Marks(d, top, b), order) == bl[b]
    requires forall b :: max < b <= MAXBITS ==> bl[b] == 0
    requires forall i :: 0 <= i < |order| ==> order[i] < |d|
    requires forall i :: 0 <= i < |order| && order[i] < top ==> 1 <= d[order[i]] <= max
    requires forall i :: 0 <= i < |syms| ==> syms[i] < top
    requires Excess(bl, max, |syms|, 0)
    ensures Limited(d, bl, syms, top, max)
  {
    hide SumAt, Shape, Excess;
    ShapeLeaves(order, dad, elems, syms);
    forall i | 0 <= i < |syms|
      ensures syms[i] < |d| && 1 <= d[syms[i]] <= max
    {
      var p :| 0 <= p < |order| && order[p] == syms[i];
    }
    NoneAt(d, top, syms, max);
    forall b | 1 <= b <= MAXBITS
      ensures bl[b] == SumAt(Marks(d, top, b), syms)
    {
      LeavesOnly(order, dad, elems, syms, Marks(d, top, b));
    }
  }

  // ---------- build_tree ----------

  /** The cost of all symbols below top with lengths d. */
  ghost function Cost(freq: seq<nat>, d: seq<nat>, extra: seq<nat>, base: nat, top: nat): nat
  {
    SumAt(Costs(freq, d, extra, base, top), Upto(top))
  }

  /** Symbols that do not occur cost nothing. */
  lemma CostOfSymbols(freq: seq<nat>, d: seq<nat>, extra: seq<nat>, base: nat, top: nat)
    ensures SumAt(Costs(freq, d, extra, base, top), Symbols(freq, top)) == Cost(freq, d, extra, base, top)
  {
    hide SumAt, Symbols, XBits;
    SymbolsSum(freq, Costs(freq, d, extra, base, top), top);
  }

  /** A code of two symbols gives both of them one bit. */
  lemma TwoSymbols(d: seq<nat>, bl: seq<nat>, syms: seq<nat>, top: nat, max: nat)
    requires Limited(d, bl, syms, top, max) && |syms| == 2 && 1 <= max <= MAXBITS && forall i :: 0 <= i < 2 ==> syms[i] < top
    ensures forall i :: 0 <= i < 2 ==> At(d, syms[i]) == 1
  {
    hide SumAt, Room, Codes;
    NoneAt(d, top, syms, max);
    assert forall b :: 0 <= b < |bl| ==> bl[b] == SumAt(Marks(d, top, b), syms);
    CountsRoom(d, top, syms, bl, max);
    assert syms == [syms[0], syms[1]] + [];
    TwoFront(Weights(d, max), syms[0], syms[1], []);
    SumNone(Weights(d, max));
    HalfRoom(max, d[syms[0]]);
    HalfRoom(max, d[syms[1]]);
  }

  lemma HalfRoom(max: nat, l: nat)
    requires 1 <= l <= max
    ensures 2 * Pow2(max - l) <= Pow2(max) && (2 * Pow2(max - l) == Pow2(max) ==> l == 1)
  {
    Pow2Mono(max - l, max - 1);
  }

  /** The cost of forced symbols: their length, once. */
  lemma {:induction false} ForcedCost(freq: seq<nat>, freq': seq<nat>, forced: seq<nat>, d: seq<nat>, extra: seq<nat>, base: nat,
                                      top: nat)
    requires ForcedOnes(freq, freq', forced) && top <= |d| && forall i :: 0 <= i < |forced| ==> forced[i] < top
    requires forall x :: 0 <= x <= 2 ==> XBits(extra, base, x) == 0
    ensures Cost(freq', d, extra, base, top) == Cost(freq, d, extra, base, top) + SumAt(d, forced)
    decreases |forced|
  {
    hide SumAt, XBits;
    if forced == [] {
      assert freq' == freq;
      SumNone(d);
    } else {
      var n := |forced| - 1;
      var x, rest := forced[n], forced[..n];
      ForcedRest(freq, freq', forced);
      var f := freq'[x := 0];
      assert forced == rest + [x];
      ForcedCost(freq, f, rest, d, extra, base, top);
      SumPush(d, rest, x);
      SumChange(Costs(f, d, extra, base, top), Costs(freq', d, extra, base, top), Upto(top), x);
    }
  }

  lemma ForcedRest(freq: seq<nat>, freq': seq<nat>, forced: seq<nat>)
    requires ForcedOnes(freq, freq', forced) && forced != []
    ensures var n := |forced| - 1; forced[n] < |freq'| && ForcedOnes(freq, freq'[forced[n] := 0], forced[..n])
  {
    var n := |forced| - 1;
    assert forced[n] in forced;
    assert forall x :: x in forced <==> x in forced[..n] || x == forced[n];
  }

  /** The lengths are a complete code for exactly the symbols that occur. */
  ghost predicate CodeFor(lens: Lengths, freq: seq<nat>, max: nat)
  {
    Complete(lens) && forall x :: 0 <= x < |lens| ==> lens[x] <= max && (lens[x] > 0 <==> At(freq, x) > 0)
  }

  lemma LimitedComplete(d: seq<nat>, bl: seq<nat>, freq: seq<nat>, top: nat, max: nat)
    requires Limited(d, bl, Symbols(freq, top), top, max) && top <= |d| && 1 <= max <= MAXBITS
    requires forall x :: 0 <= x < top && At(freq, x) == 0 ==> d[x] == 0
    ensures CodeFor(d[..top], freq, max) && forall l :: 1 <= l <= MAXBITS ==> bl[l] == Total(d[..top], l)
    ensures bl[0] == 0 && |bl| == MAXBITS + 1
  {
    hide SumAt, Total, Symbols, Complete;
    SymbolsRange(freq, top);
    forall x | 0 <= x < top && At(freq, x) > 0
      ensures 1 <= d[x] <= max
    {
      SymbolPlace(freq, top, x);
    }
    ExcessFacts(bl, max, |Symbols(freq, top)|, 0);
    forall l | 1 <= l <= MAXBITS
      ensures bl[l] == Total(d[..top], l)
    {
      TotalIs(d, freq, top, max, l);
    }
    CountsComplete(d[..top], bl, max, |Symbols(freq, top)|);
  }

  lemma SymbolPlace(freq: seq<nat>, n: nat, x: nat)
    requires x < n && At(freq, x) > 0
    ensures exists i :: 0 <= i < |Symbols(freq, n)| && Symbols(freq, n)[i] == x
  {
    hide Symbols;
    SymbolsCount(freq, n, x);
    assert x in multiset(Symbols(freq, n));
  }

  lemma ForcedRange(freq0: seq<nat>, freq: seq<nat>, forced: seq<nat>, elems: nat, max: nat)
    requires ForcedOnes(freq0, freq, forced) && Largest(freq, elems, max) && 3 <= elems <= |freq|
    ensures forall i :: 0 <= i < |forced| ==> forced[i] <= max && At(freq, forced[i]) == 1
    ensures forall x :: 0 <= x < elems ==> freq0[x] > 0 ==> x <= max && freq[x] == freq0[x]
    ensures forall x :: 0 <= x < elems ==> freq[x] == 0 ==> freq0[x] == 0
  {
    forall i | 0 <= i < |forced|
      ensures forced[i] <= max && At(freq, forced[i]) == 1
    {
      assert forced[i] in forced;
      assert At(freq, forced[i]) > 0;
    }
    forall x | 0 <= x < elems && freq0[x] > 0
      ensures x <= max && freq[x] == freq0[x]
    {
      assert x !in forced;
      assert At(freq, x) > 0;
    }
  }

  // ---------- frequencies fit into sixteen bits ----------

  lemma QueueLoad(g: seq<nat>, len: nat, freq: seq<nat>, elems: nat)
    requires Holds(g, len, freq, elems)
    ensures Load(g, len, freq) == SumAt(freq, Upto(elems))
  {
    hide Queue, Load, SumAt, Symbols;
    QueueIsSymbols(g, len, freq, elems);
    LoadOf(g, len, freq, Symbols(freq, elems));
    SymbolsSum(freq, freq, elems);
  }

  lemma LoadOf(g: seq<nat>, len: nat, freq: seq<nat>, s: seq<nat>)
    requires len < |g| && Queue(g, len) == multiset(s)
    ensures Load(g, len, freq) == SumAt(freq, s)
  {
    SumPerm(freq, g[1..len + 1], s);
  }

  /** Forced symbols add one each. */
  lemma {:induction false} ForcedLoad(freq: seq<nat>, freq': seq<nat>, forced: seq<nat>, elems: nat)
    requires ForcedOnes(freq, freq', forced) && 3 <= elems
    ensures SumAt(freq', Upto(elems)) == SumAt(freq, Upto(elems)) + |forced|
    decreases |forced|
  {
    hide SumAt;
    if forced == [] {
      assert freq' == freq;
    } else {
      var n := |forced| - 1;
      ForcedRest(freq, freq', forced);
      assert forced[n] in forced;
      ForcedLoad(freq, freq'[forced[n] := 0], forced[..n], elems);
      SumChange(freq'[forced[n] := 0], freq', Upto(elems), forced[n]);
    }
  }

  // ---------- no code is cheaper ----------

  /** No lengths of a prefix code with at least one bit for each symbol below top
      that occurs cost less than d. */
  ghost predicate CheapestFor(freq: seq<nat>, d: seq<nat>, top: nat)
  {
    forall e: seq<nat>, max: nat :: Prefix(e, Symbols(freq, top), max) && (forall x :: x in Symbols(freq, top) ==> At(e, x) > 0) ==>
      SumAt(Spent(freq, d), Symbols(freq, top)) <= SumAt(Spent(freq, e), Symbols(freq, top))
  }

  lemma OneBitCheapest(freq0: seq<nat>, freq: seq<nat>, forced: seq<nat>, d: seq<nat>, top: nat)
    requires ForcedOnes(freq0, freq, forced) && top <= |d| && top <= |freq|
    requires if forced == [] then Cheapest(freq, d, Symbols(freq, top)) else forall x :: 0 <= x < top && freq[x] > 0 ==> d[x] == 1
    ensures CheapestFor(freq0, d, top)
  {
    hide SumAt, Symbols, Prefix;
    if forced == [] {
      assert freq == freq0;
    } else {
      var syms := Symbols(freq0, top);
      SymbolsRange(freq0, top);
      forall e: seq<nat>, max: nat | Prefix(e, syms, max) && (forall x :: x in syms ==> At(e, x) > 0)
        ensures SumAt(Spent(freq0, d), syms) <= SumAt(Spent(freq0, e), syms)
      {
        forall i | 0 <= i < |syms|
          ensures At(Spent(freq0, d), syms[i]) <= At(Spent(freq0, e), syms[i])
        {
          var x := syms[i];
          assert x in syms && freq[x] > 0;
          Scale(1, At(e, x), At(freq0, x));
        }
        SumMono(Spent(freq0, d), Spent(freq0, e), syms);
      }
    }
  }

  // ---------- the whole ----------

  /** build_tree(). The frequencies are at most 65532 together, so that no sum of
      them wraps around. cut is the overflow that gen_bitlen() has found. */
  method BuildTree(heap: array<nat>, depth: array<nat>, blCount: array<nat>, fc: array<nat>, dl: array<nat>, elems: nat,
                   maxLength: nat, stree: seq<nat>, extra: seq<nat>, base: nat, optLen0: int, staticLen0: int)
    returns (maxCode: nat, optLen: int, staticLen: int, ghost freq: seq<nat>, ghost cut: nat)
    requires 3 <= elems && 2 * elems + 1 <= heap.Length && 2 * elems <= fc.Length <= dl.Length && fc.Length <= depth.Length
    requires blCount.Length == MAXBITS + 1 && 1 <= maxLength <= MAXBITS && elems <= Pow2(maxLength)
    requires fc != dl && fc != depth && dl != depth && heap != fc && heap != dl && heap != depth
    requires blCount != heap && blCount != fc && blCount != dl && blCount != depth
    requires (stree == [] || |stree| >= elems) && (base <= elems ==> elems - base <= |extra|)
    requires forall x :: 0 <= x <= 2 ==> XBits(extra, base, x) == 0
    requires SumAt(fc[..], Upto(elems)) + 3 < 0x1_0000
    modifies heap, depth, blCount, fc, dl
    ensures maxCode < elems && At(freq, maxCode) > 0 && |freq| == fc.Length
    ensures forall x :: 0 <= x < elems ==> old(fc[x]) > 0 ==> x <= maxCode && freq[x] == old(fc[x])
    ensures CodeFor(dl[..maxCode + 1], freq, maxLength) && InRange(dl[..maxCode + 1])
    ensures forall x :: maxCode < x < elems ==> dl[x] == 0
    ensures Coded(dl[..maxCode + 1], fc[..elems], freq[..elems], maxCode + 1)
    ensures optLen == optLen0 + Cost(old(fc[..]), dl[..], extra, base, maxCode + 1)
    ensures staticLen == staticLen0 + (if stree == [] then 0 else Cost(old(fc[..]), stree, extra, base, maxCode + 1))
    ensures if cut == 0 then CheapestFor(old(fc[..]), dl[..], maxCode + 1) else Fib(maxLength + 3) <= SumAt(old(fc[..]), Upto(elems)) + 2
    ensures cut > 0 && |Symbols(old(fc[..]), elems)| >= 2 ==> NoSole(old(fc[..]), Symbols(old(fc[..]), elems), maxLength)
  {
    hide Holds, Queue, Shape, Weighted, Leaves, Limited, ForcedOnes, SumAt, XBits, Costs, Symbols, Cost, Coded, InRange, Kraft,
         Cheapest, CheapestFor, Fib, NoSole;
    ghost var freq0 := fc[..];
    var heapLen, max := InitHeap(heap, fc, dl, depth, elems);
    QueueIsSymbols(heap[..], heapLen, freq0, elems);
    ghost var d0 := dl[..];
    ghost var forced;
    heapLen, max, optLen, staticLen, forced := ForceTwo(heap, heapLen, fc, dl, depth, elems, max, stree, optLen0, staticLen0);
    freq := fc[..];
    maxCode := max;
    ForcedLoad(freq0, freq, forced, elems);
    QueueIsSymbols(heap[..], heapLen, freq, elems);
    assert dl[..] == d0;
    ForcedRange(freq0, freq, forced, elems, maxCode);
    optLen, staticLen, cut := FromFrequencies(heap, heapLen, depth, blCount, fc, dl, elems, maxCode, maxLength, stree, extra, base,
                                              optLen, staticLen, freq);
    CostsEven(freq0, freq, forced, dl[..], extra, base, maxCode + 1, stree);
    NoneForced(freq0, freq, forced);
    if cut == 0 { OneBitCheapest(freq0, freq, forced, dl[..], maxCode + 1); }
  }

  lemma NoneForced(freq0: seq<nat>, freq: seq<nat>, forced: seq<nat>)
    requires ForcedOnes(freq0, freq, forced)
    ensures forced == [] ==> freq == freq0
  {
  }

  /** The second half: tree, lengths and codes from the queue of symbols. */
  method FromFrequencies(heap: array<nat>, heapLen: nat, depth: array<nat>, blCount: array<nat>, fc: array<nat>, dl: array<nat>,
                         elems: nat, maxCode: nat, maxLength: nat, stree: seq<nat>, extra: seq<nat>, base: nat,
                         optLen0: int, staticLen0: int, ghost freq: seq<nat>)
    returns (optLen: int, staticLen: int, ghost cut: nat)
    requires 2 <= heapLen <= elems && 2 * elems + 1 <= heap.Length && 2 * elems <= fc.Length <= dl.Length
    requires fc.Length <= depth.Length && blCount.Length == MAXBITS + 1 && 1 <= maxLength <= MAXBITS && elems <= Pow2(maxLength)
    requires fc != dl && fc != depth && dl != depth && heap != fc && heap != dl && heap != depth
    requires blCount != heap && blCount != fc && blCount != dl && blCount != depth
    requires (stree == [] || |stree| >= elems) && (base <= elems ==> elems - base <= |extra|)
    requires freq == fc[..] && Holds(heap[..], heapLen, freq, elems) && Largest(freq, elems, maxCode)
    requires (forall x :: 0 <= x < elems ==> freq[x] == 0 ==> dl[x] == 0) && SumAt(freq, Upto(elems)) < 0x1_0000
    modifies heap, depth, blCount, fc, dl
    ensures CodeFor(dl[..maxCode + 1], freq, maxLength) && InRange(dl[..maxCode + 1])
    ensures forall x :: maxCode < x < elems ==> dl[x] == 0
    ensures Coded(dl[..maxCode + 1], fc[..elems], freq[..elems], maxCode + 1)
    ensures optLen == optLen0 + Cost(freq, dl[..], extra, base, maxCode + 1)
    ensures staticLen == staticLen0 + (if stree == [] then 0 else Cost(freq, stree, extra, base, maxCode + 1))
    ensures heapLen == 2 ==> forall x :: 0 <= x < elems && At(freq, x) > 0 ==> dl[x] == 1
    ensures if cut == 0 then Cheapest(freq, dl[..], Symbols(freq, maxCode + 1)) else Fib(maxLength + 3) <= SumAt(freq, Upto(elems))
    ensures cut > 0 ==> NoSole(freq, Symbols(freq, elems), maxLength)
  {
    hide Holds, Queue, Limited, SumAt, XBits, Symbols, Cost, Coded, InRange, Kraft, Complete, CodeFor, Total, Pow2, Cheapest, Largest, Fib,
         NoSole;
    optLen, staticLen, cut := TreeLengths(heap, heapLen, depth, blCount, fc, dl, elems, maxCode, maxLength, stree, extra, base,
                                          optLen0, staticLen0, freq);
    QueueIsSymbols(old(heap[..]), heapLen, freq, elems);
    NoneAbove(freq, elems, maxCode);
    LimitedComplete(dl[..], blCount[..], freq, maxCode + 1, maxLength);
    LimitedOne(dl[..], blCount[..], freq, maxCode + 1, elems, maxLength);
    CodeInRange(dl[..maxCode + 1], freq, maxLength);
    ghost var f := fc[..];
    GenCodes.GenCodes(fc, dl[..maxCode + 1], blCount);
    CodedPrefix(dl[..maxCode + 1], fc[..], f, freq, elems, maxCode + 1);
  }

  lemma NoneAbove(freq: seq<nat>, elems: nat, max: nat)
    requires Largest(freq, elems, max)
    ensures (forall x :: max + 1 <= x < elems ==> At(freq, x) == 0) && Symbols(freq, elems) == Symbols(freq, max + 1) && max < elems
  {
    hide Symbols;
    SymbolsEnd(freq, max + 1, elems);
  }

  /** Tree and lengths. */
  method TreeLengths(heap: array<nat>, heapLen: nat, depth: array<nat>, blCount: array<nat>, fc: array<nat>, dl: array<nat>,
                     elems: nat, maxCode: nat, maxLength: nat, stree: seq<nat>, extra: seq<nat>, base: nat,
                     optLen0: int, staticLen0: int, ghost freq: seq<nat>)
    returns (optLen: int, staticLen: int, ghost cut: nat)
    requires 2 <= heapLen <= elems && 2 * elems + 1 <= heap.Length && 2 * elems <= fc.Length <= dl.Length
    requires fc.Length <= depth.Length && blCount.Length == MAXBITS + 1 && 1 <= maxLength <= MAXBITS && elems <= Pow2(maxLength)
    requires fc != dl && fc != depth && dl != depth && heap != fc && heap != dl && heap != depth
    requires blCount != heap && blCount != fc && blCount != dl && blCount != depth
    requires (stree == [] || |stree| >= elems) && (base <= elems ==> elems - base <= |extra|)
    requires freq == fc[..] && Holds(heap[..], heapLen, freq, elems) && Largest(freq, elems, maxCode)
    requires (forall x :: 0 <= x < elems ==> freq[x] == 0 ==> dl[x] == 0) && SumAt(freq, Upto(elems)) < 0x1_0000
    modifies heap, depth, blCount, fc, dl
    ensures Limited(dl[..], blCount[..], Symbols(freq, maxCode + 1), maxCode + 1, maxLength)
    ensures forall x :: 0 <= x < elems ==> fc[x] == freq[x]
    ensures forall x :: 0 <= x <= maxCode && At(freq, x) == 0 ==> dl[x] == 0
    ensures forall x :: maxCode < x < elems ==> dl[x] == 0
    ensures optLen == optLen0 + Cost(freq, dl[..], extra, base, maxCode + 1)
    ensures staticLen == staticLen0 + (if stree == [] then 0 else Cost(freq, stree, extra, base, maxCode + 1))
    ensures if cut == 0 then Cheapest(freq, dl[..], Symbols(freq, maxCode + 1)) else Fib(maxLength + 3) <= SumAt(freq, Upto(elems))
    ensures cut > 0 ==> NoSole(freq, Symbols(freq, maxCode + 1), maxLength)
  {
    hide Holds, Queue, Shape, Weighted, Leaves, Limited, SumAt, XBits, Symbols, Cost, Pow2, Cheapest, Largest, Load, Fib, Costs, Spent,
         NoSole;
    QueueIsSymbols(heap[..], heapLen, freq, elems);
    QueueLoad(heap[..], heapLen, freq, elems);
    NoneAbove(freq, elems, maxCode);
    ghost var syms := Symbols(freq, maxCode + 1);
    SymbolsRange(freq, maxCode + 1);
    ghost var d0 := dl[..];
    var heapMax;
    ghost var leaves;
    heapMax, leaves := GrowTree(heap, heapLen, fc, dl, depth, elems);
    ghost var d1 := dl[..];
    optLen, staticLen, cut := GenBitLen(heap, heapMax, fc, dl, blCount, elems, maxCode, maxLength, stree, extra, base, syms,
                                        heap[heapMax..], optLen0, staticLen0);
    SameCosts(freq, fc[..], dl[..], extra, base, maxCode + 1, elems, stree);
    StillZero(freq, d0, d1, dl[..], syms, elems, maxCode + 1);
    if cut == 0 {
      SameCheapest(freq, fc[..], dl[..], maxCode + 1, elems);
    } else {
      SameNoSole(freq, fc[..], syms, maxLength);
    }
  }

  lemma SameCheapest(freq: seq<nat>, f: seq<nat>, d: seq<nat>, top: nat, elems: nat)
    requires top <= elems && (forall x :: 0 <= x < elems ==> At(f, x) == At(freq, x)) && Cheapest(f, d, Symbols(freq, top))
    ensures Cheapest(freq, d, Symbols(freq, top))
  {
    hide SumAt, Symbols, Prefix;
    var syms := Symbols(freq, top);
    SymbolsRange(freq, top);
    SumSame(Spent(f, d), Spent(freq, d), syms);
    forall e: seq<nat>, max: nat | Prefix(e, syms, max)
      ensures SumAt(Spent(freq, d), syms) <= SumAt(Spent(freq, e), syms)
    {
      SumSame(Spent(f, e), Spent(freq, e), syms);
    }
  }

  lemma CodeInRange(lens: Lengths, freq: seq<nat>, max: nat)
    requires CodeFor(lens, freq, max) && max <= MAXBITS
    ensures InRange(lens) && Kraft(lens) <= Pow2(MAXBITS)
  {
  }

  lemma CodedPrefix(lens: Lengths, fc: seq<nat>, f: seq<nat>, freq: seq<nat>, elems: nat, top: nat)
    requires InRange(lens) && |lens| == top && Coded(lens, fc, f, top) && elems <= |f| && elems <= |freq|
    requires forall x :: 0 <= x < elems ==> f[x] == freq[x]
    ensures elems <= |fc| && Coded(lens, fc[..elems], freq[..elems], top)
  {
  }

  /** Frequencies of symbols have not changed while the tree was built. */
  lemma SameCosts(freq: seq<nat>, f: seq<nat>, d: seq<nat>, extra: seq<nat>, base: nat, top: nat, elems: nat, stree: seq<nat>)
    requires top <= elems && forall x :: 0 <= x < elems ==> At(f, x) == At(freq, x)
    ensures SumAt(Costs(f, d, extra, base, top), Symbols(freq, top)) == Cost(freq, d, extra, base, top)
    ensures SumAt(Costs(f, stree, extra, base, top), Symbols(freq, top)) == Cost(freq, stree, extra, base, top)
  {
    hide SumAt, XBits, Symbols, Cost;
    SymbolsRange(freq, top);
    SumSame(Costs(f, d, extra, base, top), Costs(freq, d, extra, base, top), Symbols(freq, top));
    SumSame(Costs(f, stree, extra, base, top), Costs(freq, stree, extra, base, top), Symbols(freq, top));
    CostOfSymbols(freq, d, extra, base, top);
    CostOfSymbols(freq, stree, extra, base, top);
  }

  lemma StillZero(freq: seq<nat>, d0: seq<nat>, d1: seq<nat>, d: seq<nat>, syms: seq<nat>, elems: nat, top: nat)
    requires top <= elems <= |d0| == |d1| == |d| && syms == Symbols(freq, top)
    requires forall x :: 0 <= x < elems && At(freq, x) == 0 ==> d0[x] == 0
    requires forall x: nat :: x < elems && x !in multiset(syms) ==> d1[x] == d0[x]
    requires forall x :: 0 <= x < elems && x !in syms ==> d[x] == d1[x]
    ensures forall x :: 0 <= x < top && At(freq, x) == 0 ==> d[x] == 0
    ensures (forall x :: top <= x < elems ==> At(freq, x) == 0) ==> forall x :: top <= x < elems ==> d[x] == 0
  {
    SymbolsRange(freq, top);
  }

  /** Of two symbols each has one bit. */
  lemma LimitedOne(d: seq<nat>, bl: seq<nat>, freq: seq<nat>, top: nat, elems: nat, max: nat)
    requires Limited(d, bl, Symbols(freq, top), top, max) && top <= elems <= |d| && 1 <= max <= MAXBITS
    requires forall x :: top <= x < elems ==> At(freq, x) == 0
    ensures |Symbols(freq, top)| == 2 ==> forall x :: 0 <= x < elems && At(freq, x) > 0 ==> d[x] == 1
  {
    hide Limited, Symbols;
    SymbolsRange(freq, top);
    if |Symbols(freq, top)| == 2 {
      TwoSymbols(d, bl, Symbols(freq, top), top, max);
      forall x | 0 <= x < elems && At(freq, x) > 0
        ensures d[x] == 1
      {
        SymbolPlace(freq, top, x);
      }
    }
  }

  /** Taking back the cost of the forced symbols in advance. */
  lemma CostsEven(freq0: seq<nat>, freq: seq<nat>, forced: seq<nat>, d: seq<nat>, extra: seq<nat>, base: nat, top: nat,
                  stree: seq<nat>)
    requires ForcedOnes(freq0, freq, forced) && top <= |d| && (stree == [] || top <= |stree|)
    requires forall i :: 0 <= i < |forced| ==> forced[i] < top && d[forced[i]] == 1
    requires forall x :: 0 <= x <= 2 ==> XBits(extra, base, x) == 0
    ensures Cost(freq, d, extra, base, top) == Cost(freq0, d, extra, base, top) + |forced|
    ensures stree != [] ==> Cost(freq, stree, extra, base, top) == Cost(freq0, stree, extra, base, top) + SumAt(stree, forced)
  {
    hide SumAt, XBits, Cost;
    ForcedCost(freq0, freq, forced, d, extra, base, top);
    OnesSum(d, forced);
    if stree != [] { ForcedCost(freq0, freq, forced, stree, extra, base, top); }
  }
}
