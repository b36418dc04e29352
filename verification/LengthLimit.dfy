/** Why limiting code lengths works: the levels of a tree cut off at a maximum
    over-subscribe the code by half the number of nodes that were cut off, and
    every pass of the overflow loop of gen_bitlen() (deps/zlib/trees.c) removes
    exactly one unit of that. */
module LengthLimit {
  import opened Bits
  import opened HuffmanCode
  import opened PriorityHeap
  import opened Sums
  import opened HuffmanTree
  import opened BitLengths

  // ---------- weights of nodes ----------

  /** Room taken by a node of each level, in units of the longest code. */
  function Weights(d: seq<nat>, max: nat): (t: seq<nat>)
    ensures |t| == |d| && forall x :: 0 <= x < |d| ==> t[x] == if d[x] <= max then Pow2(max - d[x]) else 0
  {
    seq(|d|, x requires 0 <= x < |d| => if d[x] <= max then Pow2(max - d[x]) else 0)
  }

  /** Nodes at the limit. */
  function AtLimit(d: seq<nat>, max: nat): seq<nat> { Marks(d, |d|, max) }

  /** Two sons take the room of their father, and one unit more if he is at the limit. */
  lemma SonsWeight(f: nat, max: nat)
    requires f <= max
    ensures 2 * Pow2(max - Min(f + 1, max)) == Pow2(max - f) + (if f == max then 1 else 0)
  {
  }

  lemma TwoFront(a: seq<nat>, x: nat, y: nat, s: seq<nat>)
    ensures SumAt(a, [x, y] + s) == At(a, x) + At(a, y) + SumAt(a, s)
  {
    SumConcat(a, [x, y], s);
    assert [x, y] == [x] + [y];
    SumPush(a, [x], y);
    assert [x][..0] == [];
  }

  ghost predicate Inside(order: seq<nat>, d: seq<nat>, elems: nat)
  {
    forall i :: 0 <= i < |order| ==> order[i] < |d| && Dad(order, elems, i) < |d|
  }

  lemma LevelRange(order: seq<nat>, d: seq<nat>, elems: nat, max: nat, i: nat)
    requires Leveled(order, d, elems, max, |order|) && FathersFirst(order, elems) && i < |order|
    ensures At(d, order[i]) <= max && (i > 0 ==> At(d, Dad(order, elems, i)) <= max)
    ensures i > 0 && max > 0 ==> 1 <= At(d, order[i])
  {
    if i > 0 {
      var p :| 0 <= p < i && order[p] == Dad(order, elems, i);
    }
  }

  /** The sons of the first j internal nodes take the room of those nodes, and one
      unit more for each of them at the limit. */
  lemma {:induction false} SuffixWeight(order: seq<nat>, d: seq<nat>, elems: nat, max: nat, j: nat)
    requires Leveled(order, d, elems, max, |order|) && FathersFirst(order, elems) && Inside(order, d, elems)
    requires |order| % 2 == 1 && 2 * j <= |order| - 1
    ensures SumAt(Weights(d, max), order[|order| - 2 * j..]) ==
            SumAt(Weights(d, max), Internals(elems, j)) + SumAt(AtLimit(d, max), Internals(elems, j))
    decreases j
  {
    hide SumAt, Pow2, Dad, FathersFirst, Leveled;
    var w, n := Weights(d, max), |order|;
    if j == 0 {
      assert order[n..] == [] && Internals(elems, 0) == [];
      SumNone(w);
      SumNone(AtLimit(d, max));
    } else {
      var a, b := n - 2 * j, n - 2 * j + 1;
      SuffixWeight(order, d, elems, max, j - 1);
      SonWeight(order, d, elems, max, a, j - 1);
      SonWeight(order, d, elems, max, b, j - 1);
      LevelRange(order, d, elems, max, a);
      SonsWeight(At(d, elems + j - 1), max);
      assert order[a..] == [order[a], order[b]] + order[n - 2 * (j - 1)..];
      TwoFront(w, order[a], order[b], order[n - 2 * (j - 1)..]);
      assert Internals(elems, j) == Internals(elems, j - 1) + [elems + j - 1];
      SumPush(w, Internals(elems, j - 1), elems + j - 1);
      SumPush(AtLimit(d, max), Internals(elems, j - 1), elems + j - 1);
    }
  }

  lemma SumNone(a: seq<nat>)
    ensures SumAt(a, []) == 0
  {
  }

  /** A son of internal node j. */
  lemma SonWeight(order: seq<nat>, d: seq<nat>, elems: nat, max: nat, i: nat, j: nat)
    requires Leveled(order, d, elems, max, |order|) && FathersFirst(order, elems) && Inside(order, d, elems)
    requires 1 <= i < |order| && (|order| - 1 - i) / 2 == j
    ensures elems + j < |d| && At(d, elems + j) <= max && Dad(order, elems, i) == elems + j
    ensures At(Weights(d, max), order[i]) == Pow2(max - Min(At(d, elems + j) + 1, max))
    ensures At(AtLimit(d, max), elems + j) <= At(AtLimit(d, max), order[i])
  {
    hide Pow2, FathersFirst;
    LevelRange(order, d, elems, max, i);
  }

  /** Every internal node is the father of two. */
  lemma {:induction false} SuffixDads(order: seq<nat>, a: seq<nat>, elems: nat, j: nat)
    requires |order| % 2 == 1 && 2 * j <= |order| - 1
    ensures SumAt(a, DadsTo(order, elems, |order|)[|order| - 1 - 2 * j..]) == 2 * SumAt(a, Internals(elems, j))
    decreases j
  {
    hide SumAt, Dad;
    var n, s := |order|, DadsTo(order, elems, |order|);
    if j == 0 {
      assert s[n - 1..] == [] && Internals(elems, 0) == [];
      SumNone(a);
    } else {
      SuffixDads(order, a, elems, j - 1);
      var k := n - 1 - 2 * j;
      PairDads(order, elems, j - 1);
      assert s[k..] == [s[k], s[k + 1]] + s[n - 1 - 2 * (j - 1)..];
      TwoFront(a, elems + j - 1, elems + j - 1, s[n - 1 - 2 * (j - 1)..]);
      assert Internals(elems, j) == Internals(elems, j - 1) + [elems + j - 1];
      SumPush(a, Internals(elems, j - 1), elems + j - 1);
    }
  }

  lemma PairDads(order: seq<nat>, elems: nat, j: nat)
    requires |order| % 2 == 1 && 2 * j + 2 <= |order| - 1
    ensures var k := |order| - 3 - 2 * j;
            Dad(order, elems, k + 1) == elems + j && Dad(order, elems, k + 2) == elems + j
  {
  }

  /** At least as many nodes as fathers are at the limit. */
  lemma {:induction false} LimitNodes(order: seq<nat>, d: seq<nat>, elems: nat, max: nat, i: nat)
    requires Leveled(order, d, elems, max, |order|) && FathersFirst(order, elems) && Inside(order, d, elems)
    requires 1 <= i <= |order|
    ensures SumAt(AtLimit(d, max), DadsTo(order, elems, i)) <= SumAt(AtLimit(d, max), order[1..i])
    decreases i
  {
    hide SumAt, Dad, FathersFirst, Leveled;
    var a := AtLimit(d, max);
    if i == 1 {
      assert DadsTo(order, elems, 1) == [] && order[1..1] == [];
    } else {
      LimitNodes(order, d, elems, max, i - 1);
      SonWeight(order, d, elems, max, i - 1, (|order| - i) / 2);
      assert DadsTo(order, elems, i) == DadsTo(order, elems, i - 1) + [Dad(order, elems, i - 1)];
      assert order[1..i] == order[1..i - 1] + [order[i - 1]];
      SumPush(a, DadsTo(order, elems, i - 1), Dad(order, elems, i - 1));
      SumPush(a, order[1..i - 1], order[i - 1]);
    }
  }

  /** Half the overflow is the number of units by which the leaves take too much
      room; and at least as many leaves are at the limit. */
  lemma LeavesWeight(order: seq<nat>, d: seq<nat>, elems: nat, max: nat, syms: seq<nat>, dad: seq<nat>, overflow: nat)
    requires Shape(order, dad, elems, multiset(syms)) && Leaves(multiset(syms), elems) && Inside(order, d, elems) && max > 0
    requires Leveled(order, d, elems, max, |order|)
    requires overflow == SumAt(AtLimit(d, max), DadsTo(order, elems, |order|))
    ensures overflow % 2 == 0 && SumAt(Weights(d, max), syms) == Pow2(max) + overflow / 2
    ensures overflow / 2 <= SumAt(AtLimit(d, max), syms)
  {
    hide SumAt, Pow2, Dad, Shape, Leveled, Distinct;
    var w, a, k := Weights(d, max), AtLimit(d, max), |syms| - 1;
    ShapeFacts(order, dad, elems, multiset(syms));
    ShapeSplit(order, dad, elems, syms, w);
    ShapeSplit(order, dad, elems, syms, a);
    SuffixWeight(order, d, elems, max, k);
    SuffixDads(order, a, elems, k);
    LimitNodes(order, d, elems, max, |order|);
    assert DadsTo(order, elems, |order|)[0..] == DadsTo(order, elems, |order|);
    assert order[1..|order|] == order[1..];
    RootLevel(order, d, elems, max);
  }

  lemma RootLevel(order: seq<nat>, d: seq<nat>, elems: nat, max: nat)
    requires Leveled(order, d, elems, max, |order|) && Inside(order, d, elems) && max > 0
    ensures At(Weights(d, max), order[0]) == Pow2(max) && At(AtLimit(d, max), order[0]) == 0
  {
    hide Pow2;
  }

  /** The nodes are the leaves and the internal nodes; the root comes first. */
  lemma ShapeSplit(order: seq<nat>, dad: seq<nat>, elems: nat, syms: seq<nat>, a: seq<nat>)
    requires Shape(order, dad, elems, multiset(syms))
    ensures |syms| >= 2 && |order| == 2 * (|syms| - 1) + 1
    ensures At(a, order[0]) + SumAt(a, order[1..]) == SumAt(a, syms) + SumAt(a, Internals(elems, |syms| - 1))
  {
    hide SumAt;
    assert |multiset(syms)| == |syms|;
    var inner := Internals(elems, |syms| - 1);
    assert multiset(syms + inner) == multiset(syms) + multiset(inner);
    SumPerm(a, order, syms + inner);
    SumConcat(a, syms, inner);
    assert order == [order[0]] + order[1..];
    SumConcat(a, [order[0]], order[1..]);
    OneSum(a, order[0]);
  }

  lemma OneSum(a: seq<nat>, x: nat)
    ensures SumAt(a, [x]) == At(a, x)
  {
    assert [x][..0] == [];
  }

  // ---------- counts per length ----------

  /** Room taken by bl[b] codes of every length b below n. */
  function Room(bl: seq<nat>, max: nat, n: nat): nat
    requires n <= max + 1
  {
    if n == 0 then 0 else Room(bl, max, n - 1) + Shl(At(bl, n - 1), max - (n - 1))
  }

  /** Number of codes shorter than n. */
  function Codes(bl: seq<nat>, n: nat): nat
  {
    if n == 0 then 0 else Codes(bl, n - 1) + At(bl, n - 1)
  }

  lemma {:induction false} RoomSet(bl: seq<nat>, max: nat, n: nat, b: nat, v: nat)
    requires n <= max + 1 && b < |bl|
    ensures b < n ==> Room(bl[b := v], max, n) + Shl(bl[b], max - b) == Room(bl, max, n) + Shl(v, max - b)
    ensures b >= n ==> Room(bl[b := v], max, n) == Room(bl, max, n)
    decreases n
  {
    if n > 0 { RoomSet(bl, max, n - 1, b, v); }
  }

  lemma {:induction false} CodesSet(bl: seq<nat>, n: nat, b: nat, v: nat)
    requires b < |bl|
    ensures b < n ==> Codes(bl[b := v], n) + bl[b] == Codes(bl, n) + v
    ensures b >= n ==> Codes(bl[b := v], n) == Codes(bl, n)
    decreases n
  {
    if n > 0 { CodesSet(bl, n - 1, b, v); }
  }

  /** Changing a count by plus or minus m changes the room by m codes of that length. */
  lemma RoomAdd(bl: seq<nat>, max: nat, b: nat, m: nat)
    requires b <= max < |bl|
    ensures Room(bl[b := bl[b] + m], max, max + 1) == Room(bl, max, max + 1) + Shl(m, max - b)
    ensures Codes(bl[b := bl[b] + m], max + 1) == Codes(bl, max + 1) + m
  {
    RoomSet(bl, max, max + 1, b, bl[b] + m);
    CodesSet(bl, max + 1, b, bl[b] + m);
    ShlAdd(bl[b], m, max - b);
  }

  lemma RoomSub(bl: seq<nat>, max: nat, b: nat)
    requires b <= max < |bl| && bl[b] > 0
    ensures Room(bl[b := bl[b] - 1], max, max + 1) + Pow2(max - b) == Room(bl, max, max + 1)
    ensures Codes(bl[b := bl[b] - 1], max + 1) + 1 == Codes(bl, max + 1)
  {
    RoomAdd(bl[b := bl[b] - 1], max, b, 1);
    assert bl[b := bl[b] - 1][b := bl[b]] == bl;
    ShlOne(max - b);
  }

  /** e units too many: not more codes than fit, and enough at the limit. */
  ghost predicate Excess(bl: seq<nat>, max: nat, codes: nat, e: nat)
  {
    && 1 <= max < |bl| && bl[0] == 0 && Codes(bl, max + 1) == codes <= Pow2(max)
    && Room(bl, max, max + 1) == Pow2(max) + e && e <= bl[max]
  }

  /** One pass: a leaf moves down and takes one from the limit as its brother. */
  function Moved(bl: seq<nat>, max: nat, b: nat): seq<nat>
    requires 1 <= b < max < |bl| && bl[b] > 0 && bl[max] > 0
  {
    var bl1 := bl[b := bl[b] - 1];
    var bl2 := bl1[b + 1 := bl1[b + 1] + 2];
    bl2[max := bl2[max] - 1]
  }

  /** Each pass removes exactly one unit and keeps the number of codes. */
  lemma MoveRemovesOne(bl: seq<nat>, max: nat, codes: nat, e: nat, b: nat)
    requires Excess(bl, max, codes, e) && e > 0 && 1 <= b < max && bl[b] > 0
    ensures Excess(Moved(bl, max, b), max, codes, e - 1) && |Moved(bl, max, b)| == |bl|
  {
    hide Room, Codes, Shl;
    var bl1 := bl[b := bl[b] - 1];
    var bl2 := bl1[b + 1 := bl1[b + 1] + 2];
    RoomSub(bl, max, b);
    RoomAdd(bl1, max, b + 1, 2);
    RoomSub(bl2, max, max);
    ShlTwo(max - b - 1);
  }

  lemma ShlTwo(k: nat)
    ensures Shl(2, k) == Pow2(k + 1) && Pow2(0) == 1
  {
    ShlAdd(1, 1, k);
    ShlOne(k);
  }

  lemma {:induction false} OnlyAtLimit(bl: seq<nat>, max: nat, n: nat)
    requires n <= max && forall b :: 0 <= b < n ==> At(bl, b) == 0
    ensures Room(bl, max, n) == 0 && Codes(bl, n) == 0
  {
    if n > 0 {
      OnlyAtLimit(bl, max, n - 1);
      ShlOne(max - (n - 1));
    }
  }

  /** With some excess there is a shorter code left to move down. */
  lemma SomeShorter(bl: seq<nat>, max: nat, codes: nat, e: nat)
    requires Excess(bl, max, codes, e) && e > 0
    ensures exists b :: 1 <= b < max && bl[b] > 0
  {
    if forall b :: 1 <= b < max ==> bl[b] == 0 {
      OnlyAtLimit(bl, max, max);
    }
  }

  /** do { ... } while (overflow > 0) */
  method Shorten(blCount: array<nat>, maxLength: nat, overflow0: nat, ghost codes: nat)
    requires maxLength < blCount.Length && overflow0 > 0 && overflow0 % 2 == 0
    requires Excess(blCount[..], maxLength, codes, overflow0 / 2)
    modifies blCount
    ensures Excess(blCount[..], maxLength, codes, 0)
    ensures forall b :: maxLength < b < blCount.Length ==> blCount[b] == old(blCount[b])
  {
    hide Room, Codes, Shl, Pow2, Excess;
    var overflow: int := overflow0;
    while overflow > 0
      invariant overflow >= 0 && overflow % 2 == 0 && Excess(blCount[..], maxLength, codes, overflow / 2)
      invariant forall b :: maxLength < b < blCount.Length ==> blCount[b] == old(blCount[b])
      decreases overflow
    {
      MoveDown(blCount, maxLength, codes, overflow / 2);
      overflow := overflow - 2;
    }
  }

  method MoveDown(blCount: array<nat>, maxLength: nat, ghost codes: nat, ghost e: nat)
    requires maxLength < blCount.Length && e > 0 && Excess(blCount[..], maxLength, codes, e)
    modifies blCount
    ensures Excess(blCount[..], maxLength, codes, e - 1)
    ensures forall b :: maxLength < b < blCount.Length ==> blCount[b] == old(blCount[b])
  {
    hide Room, Codes, Shl, Pow2, Excess;
    ghost var bl := blCount[..];
    ExcessFacts(bl, maxLength, codes, e);
    SomeShorter(bl, maxLength, codes, e);
    var bits := maxLength - 1;
    while blCount[bits] == 0
      invariant 1 <= bits < maxLength && exists b :: 1 <= b <= bits && blCount[b] > 0
      decreases bits
    {
      bits := bits - 1;
    }
    MoveRemovesOne(bl, maxLength, codes, e, bits);
    blCount[bits] := blCount[bits] - 1;
    blCount[bits + 1] := blCount[bits + 1] + 2;
    blCount[maxLength] := blCount[maxLength] - 1;
    assert blCount[..] == Moved(bl, maxLength, bits);
  }

  lemma ExcessFacts(bl: seq<nat>, max: nat, codes: nat, e: nat)
    requires Excess(bl, max, codes, e)
    ensures 1 <= max < |bl| && bl[0] == 0 && e <= bl[max]
  {
  }

  // ---------- what the first pass has counted ----------

  /** Counting the leaves one by one. */
  lemma {:induction false} CountsRoom(d: seq<nat>, top: nat, syms: seq<nat>, bl: seq<nat>, max: nat)
    requires max < |bl| && forall b :: 0 <= b < |bl| ==> bl[b] == SumAt(Marks(d, top, b), syms)
    requires forall i :: 0 <= i < |syms| ==> syms[i] < top && syms[i] < |d| && 1 <= d[syms[i]] <= max
    ensures Room(bl, max, max + 1) == SumAt(Weights(d, max), syms) && Codes(bl, max + 1) == |syms|
    decreases |syms|
  {
    hide SumAt, Room, Codes, Shl, Pow2;
    if syms == [] {
      forall b | 0 <= b < |bl|
        ensures bl[b] == 0
      {
        SumNone(Marks(d, top, b));
      }
      SumNone(Weights(d, max));
      NoCodes(bl, max, max + 1);
    } else {
      var n := |syms| - 1;
      var x := syms[n];
      var l, s := d[x], syms[..n];
      assert syms == s + [x];
      forall b | 0 <= b < |bl|
        ensures bl[b] == SumAt(Marks(d, top, b), s) + (if b == l then 1 else 0)
      {
        SumPush(Marks(d, top, b), s, x);
      }
      var bl0 := bl[l := bl[l] - 1];
      CountsRoom(d, top, s, bl0, max);
      RoomAdd(bl0, max, l, 1);
      assert bl0[l := bl0[l] + 1] == bl;
      SumPush(Weights(d, max), s, x);
      ShlOne(max - l);
    }
  }

  lemma {:induction false} NoCodes(bl: seq<nat>, max: nat, n: nat)
    requires n <= max + 1 && forall b :: 0 <= b < n ==> At(bl, b) == 0
    ensures Room(bl, max, n) == 0 && Codes(bl, n) == 0
  {
    if n > 0 {
      NoCodes(bl, max, n - 1);
      ShlOne(max - (n - 1));
    }
  }

  /** A table that only marks leaves has the same sum over all nodes, over the
      nodes without the root, and over the leaves. */
  lemma LeavesOnly(order: seq<nat>, dad: seq<nat>, elems: nat, syms: seq<nat>, a: seq<nat>)
    requires Shape(order, dad, elems, multiset(syms)) && forall x :: elems <= x < |a| ==> a[x] == 0
    ensures SumAt(a, order[1..]) == SumAt(a, syms) == SumAt(a, order)
  {
    hide SumAt;
    ShapeSplit(order, dad, elems, syms, a);
    ZeroSum(a, Internals(elems, |syms| - 1));
    assert order == [order[0]] + order[1..];
    SumConcat(a, [order[0]], order[1..]);
    OneSum(a, order[0]);
  }

  /** Symbols are leaves of the tree, with levels from one to the limit. */
  lemma LeafLevels(order: seq<nat>, dad: seq<nat>, d: seq<nat>, elems: nat, syms: seq<nat>, max: nat)
    requires Shape(order, dad, elems, multiset(syms)) && Leaves(multiset(syms), elems) && max > 0
    requires Leveled(order, d, elems, max, |order|) && Inside(order, d, elems)
    ensures forall i :: 0 <= i < |syms| ==> syms[i] < elems && syms[i] < |d| && 1 <= d[syms[i]] <= max
  {
    hide Leveled, Dad, Distinct, FathersFirst;
    ShapeFacts(order, dad, elems, multiset(syms));
    forall i | 0 <= i < |syms|
      ensures syms[i] < elems && syms[i] < |d| && 1 <= d[syms[i]] <= max
    {
      assert syms[i] in multiset(syms);
      assert syms[i] in multiset(order);
      var p :| 0 <= p < |order| && order[p] == syms[i];
      assert |multiset(syms)| == |syms|;
      LevelRange(order, d, elems, max, p);
    }
  }

  /** After the first pass the counts exceed the room by half the overflow. */
  lemma CountedExcess(order: seq<nat>, dad: seq<nat>, freq: seq<nat>, d: seq<nat>, bl: seq<nat>, elems: nat, top: nat, max: nat,
                      extra: seq<nat>, base: nat, stree: seq<nat>, syms: seq<nat>, overflow: nat, opt: int, stat: int)
    requires Shape(order, dad, elems, multiset(syms)) && Leaves(multiset(syms), elems) && Inside(order, d, elems)
    requires 1 <= max <= MAXBITS && Leveled(order, d, elems, max, |order|)
    requires Counted(order, freq, d, bl, elems, top, max, extra, base, stree, |order|, overflow, opt, stat)
    requires top <= elems && (forall i :: 0 <= i < |syms| ==> syms[i] < top) && |syms| <= Pow2(max)
    ensures overflow % 2 == 0 && Excess(bl, max, |syms|, overflow / 2)
    ensures forall b :: 0 <= b <= MAXBITS ==> bl[b] == SumAt(Marks(d, top, b), syms)
    ensures forall b :: max < b <= MAXBITS ==> bl[b] == 0
    ensures opt == SumAt(Costs(freq, d, extra, base, top), syms)
    ensures stat == if stree == [] then 0 else SumAt(Costs(freq, stree, extra, base, top), syms)
  {
    hide SumAt, Room, Codes, Pow2, Shape, Leveled, Dad, Leaves;
    assert order[1..|order|] == order[1..];
    forall b | 0 <= b <= MAXBITS
      ensures bl[b] == SumAt(Marks(d, top, b), syms)
    {
      LeavesOnly(order, dad, elems, syms, Marks(d, top, b));
    }
    LeavesOnly(order, dad, elems, syms, Costs(freq, d, extra, base, top));
    LeavesOnly(order, dad, elems, syms, Costs(freq, stree, extra, base, top));
    LeafLevels(order, dad, d, elems, syms, max);
    CountsRoom(d, top, syms, bl, max);
    LeavesWeight(order, d, elems, max, syms, dad, overflow);
    SumSame(Marks(d, top, max), AtLimit(d, max), syms);
    NoneAt(d, top, syms, max);
  }

  lemma NoneAt(d: seq<nat>, top: nat, syms: seq<nat>, max: nat)
    requires forall i :: 0 <= i < |syms| ==> syms[i] < |d| && 1 <= d[syms[i]] <= max
    ensures SumAt(Marks(d, top, 0), syms) == 0 && forall b :: max < b ==> SumAt(Marks(d, top, b), syms) == 0
  {
    hide SumAt;
    ZeroSum(Marks(d, top, 0), syms);
    forall b: nat | max < b
      ensures SumAt(Marks(d, top, b), syms) == 0
    {
      ZeroSum(Marks(d, top, b), syms);
    }
  }
}
