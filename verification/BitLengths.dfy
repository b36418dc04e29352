/** gen_bitlen() of deps/zlib/trees.c: the lengths of the codes of a tree, none
    longer than a limit. */
module BitLengths {
  import opened Bits
  import opened HuffmanCode
  import opened PriorityHeap
  import opened Sums
  import opened HuffmanTree

  // ---------- tables over the nodes ----------

  /** Marks the symbols below top whose length is b. */
  function Marks(d: seq<nat>, top: nat, b: nat): (t: seq<nat>)
    ensures |t| == |d| && forall x :: 0 <= x < |d| ==> t[x] == if x < top && d[x] == b then 1 else 0
  {
    seq(|d|, x requires 0 <= x < |d| => if x < top && d[x] == b then 1 else 0)
  }

  /** Extra bits of a symbol. */
  function XBits(extra: seq<nat>, base: nat, n: nat): nat { if n >= base then At(extra, n - base) else 0 }

  /** The cost of the symbols below top: frequency times code and extra bits. */
  function Costs(freq: seq<nat>, d: seq<nat>, extra: seq<nat>, base: nat, top: nat): (t: seq<nat>)
    ensures |t| == |d| &&
            forall x :: 0 <= x < |d| ==> t[x] == if x < top then At(freq, x) * (d[x] + XBits(extra, base, x)) else 0
  {
    seq(|d|, x requires 0 <= x < |d| => if x < top then At(freq, x) * (d[x] + XBits(extra, base, x)) else 0)
  }

  // ---------- levels ----------

  /** The father of the node at place i. */
  function Dad(order: seq<nat>, elems: nat, i: nat): nat
    requires i < |order|
  {
    elems + (|order| - 1 - i) / 2
  }

  function Min(a: nat, b: nat): nat { if a < b then a else b }

  /** The first i nodes have their levels, at most max; the others still have
      the number of their father. */
  ghost predicate Leveled(order: seq<nat>, d: seq<nat>, elems: nat, max: nat, i: nat)
  {
    && 1 <= i <= |order| && At(d, order[0]) == 0
    && (forall j :: 1 <= j < i ==> At(d, order[j]) == Min(At(d, Dad(order, elems, j)) + 1, max))
    && forall j :: i <= j < |order| ==> At(d, order[j]) == Dad(order, elems, j)
  }

  ghost predicate Distinct(order: seq<nat>) { forall i, j :: 0 <= i < j < |order| ==> order[i] != order[j] }

  /** The father of every node but the root lies before it. */
  ghost predicate FathersFirst(order: seq<nat>, elems: nat)
  {
    forall i :: 1 <= i < |order| ==> exists p :: 0 <= p < i && order[p] == Dad(order, elems, i)
  }

  lemma CountsOnce(order: seq<nat>, i: nat, j: nat)
    requires i < j < |order| && forall x: nat :: multiset(order)[x] <= 1
    ensures order[i] != order[j]
  {
    var a, b := order[..j], order[j..];
    assert order == a + b && a[i] == order[i] && b[0] == order[j];
    assert order[i] in multiset(a) && order[j] in multiset(b);
    assert multiset(order)[order[i]] == multiset(a)[order[i]] + multiset(b)[order[i]];
  }

  lemma ShapeFacts(order: seq<nat>, dad: seq<nat>, elems: nat, leaves: multiset<nat>)
    requires Shape(order, dad, elems, leaves) && Leaves(leaves, elems)
    ensures Distinct(order) && FathersFirst(order, elems)
  {
    forall x: nat
      ensures multiset(order)[x] <= 1
    {
      InternalsOnce(elems, |leaves| - 1, x);
      assert leaves[x] <= (if x < elems then 1 else 0) by { if x in leaves {} }
      assert (leaves + multiset(Internals(elems, |leaves| - 1)))[x] <= 1;
    }
    forall i, j | 0 <= i < j < |order|
      ensures order[i] != order[j]
    {
      CountsOnce(order, i, j);
    }
    forall i | 1 <= i < |order|
      ensures exists p :: 0 <= p < i && order[p] == Dad(order, elems, i)
    {
      FatherPlace(order, dad, elems, leaves, i);
    }
  }

  lemma FatherPlace(order: seq<nat>, dad: seq<nat>, elems: nat, leaves: multiset<nat>, i: nat)
    requires Shape(order, dad, elems, leaves) && 1 <= i < |order|
    ensures exists p :: 0 <= p < i && order[p] == Dad(order, elems, i)
  {
    var x := Dad(order, elems, i);
    InternalsOnce(elems, |leaves| - 1, x);
    assert (leaves + multiset(Internals(elems, |leaves| - 1)))[x] >= 1;
    assert x in multiset(order);
    var p :| 0 <= p < |order| && order[p] == x;
    assert p > 0 ==> order[p] < Dad(order, elems, p);
  }

  lemma OthersKept(order: seq<nat>, d: seq<nat>, i: nat, v: nat)
    requires Distinct(order) && i < |order| && order[i] < |d|
    ensures forall j :: 0 <= j < |order| && j != i ==> At(d[order[i] := v], order[j]) == At(d, order[j])
  {
  }

  lemma FatherKept(order: seq<nat>, elems: nat, d: seq<nat>, i: nat, v: nat, j: nat)
    requires Distinct(order) && FathersFirst(order, elems) && 1 <= j <= i < |order| && order[i] < |d|
    ensures At(d[order[i] := v], Dad(order, elems, j)) == At(d, Dad(order, elems, j))
  {
    hide Dad;
    var p :| 0 <= p < j && order[p] == Dad(order, elems, j);
  }

  /** Giving node i its level changes nothing that has been looked at. */
  lemma LevelStep(order: seq<nat>, d: seq<nat>, elems: nat, max: nat, i: nat)
    requires Leveled(order, d, elems, max, i) && Distinct(order) && FathersFirst(order, elems) && i < |order|
    requires order[i] < |d|
    ensures var d' := d[order[i] := Min(At(d, Dad(order, elems, i)) + 1, max)];
            && Leveled(order, d', elems, max, i + 1)
            && (forall j :: 0 <= j < i ==> At(d', order[j]) == At(d, order[j]))
            && (forall j :: 1 <= j <= i ==> At(d', Dad(order, elems, j)) == At(d, Dad(order, elems, j)))
  {
    hide Dad, Min, Distinct, FathersFirst;
    var v := Min(At(d, Dad(order, elems, i)) + 1, max);
    OthersKept(order, d, i, v);
    forall j | 1 <= j <= i
      ensures At(d[order[i] := v], Dad(order, elems, j)) == At(d, Dad(order, elems, j))
    {
      FatherKept(order, elems, d, i, v, j);
    }
  }

  // ---------- first pass ----------

  /** The fathers of the nodes at places 1 to i - 1. */
  function DadsTo(order: seq<nat>, elems: nat, i: nat): (s: seq<nat>)
    requires 1 <= i <= |order|
    ensures |s| == i - 1 && forall j :: 0 <= j < i - 1 ==> s[j] == Dad(order, elems, j + 1)
  {
    seq(i - 1, j requires 0 <= j < i - 1 => Dad(order, elems, j + 1))
  }

  /** What the first pass has counted after i places. */
  ghost predicate Counted(order: seq<nat>, freq: seq<nat>, d: seq<nat>, bl: seq<nat>, elems: nat, top: nat, max: nat,
                          extra: seq<nat>, base: nat, stree: seq<nat>, i: nat, overflow: nat, opt: int, stat: int)
  {
    && 1 <= i <= |order| && |bl| == MAXBITS + 1
    && (forall b :: 0 <= b <= MAXBITS ==> bl[b] == SumAt(Marks(d, top, b), order[1..i]))
    && overflow == SumAt(Marks(d, |d|, max), DadsTo(order, elems, i))
    && opt == SumAt(Costs(freq, d, extra, base, top), order[1..i])
    && stat == (if stree == [] then 0 else SumAt(Costs(freq, stree, extra, base, top), order[1..i]))
  }

  lemma CountStart(order: seq<nat>, freq: seq<nat>, d: seq<nat>, bl: seq<nat>, elems: nat, top: nat, max: nat,
                   extra: seq<nat>, base: nat, stree: seq<nat>)
    requires |order| >= 1 && |bl| == MAXBITS + 1 && forall b :: 0 <= b <= MAXBITS ==> bl[b] == 0
    ensures Counted(order, freq, d, bl, elems, top, max, extra, base, stree, 1, 0, 0, 0)
  {
    assert order[1..1] == [] && DadsTo(order, elems, 1) == [];
  }

  /** Counting node i. */
  lemma CountStep(order: seq<nat>, freq: seq<nat>, d: seq<nat>, d': seq<nat>, bl: seq<nat>, bl': seq<nat>, elems: nat, top: nat,
                  max: nat, extra: seq<nat>, base: nat, stree: seq<nat>, i: nat, overflow: nat, opt: int, stat: int, bits: nat)
    requires Counted(order, freq, d, bl, elems, top, max, extra, base, stree, i, overflow, opt, stat) && i < |order|
    requires order[i] < |d| == |d'| && d'[order[i]] == bits <= MAXBITS && Dad(order, elems, i) < |d|
    requires forall j :: 0 <= j < i ==> At(d', order[j]) == At(d, order[j])
    requires forall j :: 1 <= j <= i ==> At(d', Dad(order, elems, j)) == At(d, Dad(order, elems, j))
    requires bl' == if order[i] < top then bl[bits := bl[bits] + 1] else bl
    requires stree != [] ==> top <= |stree|
    ensures var f, x := At(freq, order[i]), XBits(extra, base, order[i]);
            Counted(order, freq, d', bl', elems, top, max, extra, base, stree, i + 1,
                    overflow + (if At(d, Dad(order, elems, i)) == max then 1 else 0),
                    opt + (if order[i] < top then f * (bits + x) else 0),
                    stat + (if order[i] < top && stree != [] then f * (At(stree, order[i]) + x) else 0))
  {
    hide SumAt;
    var n, s := order[i], order[1..i];
    assert order[1..i + 1] == s + [n];
    assert DadsTo(order, elems, i + 1) == DadsTo(order, elems, i) + [Dad(order, elems, i)];
    forall b | 0 <= b <= MAXBITS
      ensures bl'[b] == SumAt(Marks(d', top, b), order[1..i + 1])
    {
      SumSame(Marks(d, top, b), Marks(d', top, b), s);
      SumPush(Marks(d', top, b), s, n);
    }
    SumSame(Marks(d, |d|, max), Marks(d', |d|, max), DadsTo(order, elems, i));
    SumPush(Marks(d', |d|, max), DadsTo(order, elems, i), Dad(order, elems, i));
    SumSame(Costs(freq, d, extra, base, top), Costs(freq, d', extra, base, top), s);
    SumPush(Costs(freq, d', extra, base, top), s, n);
    SumPush(Costs(freq, stree, extra, base, top), s, n);
  }

  lemma ShapeBounds(order: seq<nat>, dad: seq<nat>, elems: nat, leaves: multiset<nat>)
    requires Shape(order, dad, elems, leaves) && Leaves(leaves, elems) && |leaves| <= elems
    ensures |order| == 2 * |leaves| - 1 && forall i :: 0 <= i < |order| ==> order[i] < 2 * elems && Dad(order, elems, i) < 2 * elems
  {
  }

  lemma LevelStart(order: seq<nat>, d: seq<nat>, elems: nat, leaves: multiset<nat>, max: nat)
    requires Shape(order, d, elems, leaves) && Distinct(order) && order[0] < |d|
    ensures Leveled(order, d[order[0] := 0], elems, max, 1)
  {
  }

  /** The node whose turn it is knows its father, whose level is known. */
  lemma LevelNow(order: seq<nat>, d: seq<nat>, elems: nat, max: nat, i: nat)
    requires Leveled(order, d, elems, max, i) && FathersFirst(order, elems) && i < |order|
    ensures At(d, order[i]) == Dad(order, elems, i) && At(d, Dad(order, elems, i)) <= max
  {
    var p :| 0 <= p < i && order[p] == Dad(order, elems, i);
  }

  /** Count a node with its level: only the leaves matter. */
  method CountLeaf(freq: array<nat>, blCount: array<nat>, n: nat, bits: nat, maxCode: nat, stree: seq<nat>, extra: seq<nat>,
                   base: nat)
    returns (opt: nat, stat: nat)
    requires n < freq.Length && bits < blCount.Length && blCount != freq
    requires (stree == [] || maxCode < |stree|) && (base <= maxCode ==> maxCode - base < |extra|)
    modifies blCount
    ensures blCount[..] == if n <= maxCode then old(blCount[..])[bits := old(blCount[bits]) + 1] else old(blCount[..])
    ensures opt == if n <= maxCode then freq[n] * (bits + XBits(extra, base, n)) else 0
    ensures stat == if n <= maxCode && stree != [] then freq[n] * (stree[n] + XBits(extra, base, n)) else 0
  {
    opt, stat := 0, 0;
    if n <= maxCode {
      blCount[bits] := blCount[bits] + 1;
      var xbits := 0;
      if n >= base { xbits := extra[n - base]; }
      var f := freq[n];
      opt := f * (bits + xbits);
      if stree != [] { stat := f * (stree[n] + xbits); }
    }
  }

  /** One node of the first pass. */
  method LevelNode(ghost order: seq<nat>, n: nat, ghost i: nat, freq: array<nat>, dl: array<nat>, blCount: array<nat>,
                   ghost elems: nat, maxCode: nat, maxLength: nat, stree: seq<nat>, extra: seq<nat>, base: nat,
                   overflow: nat, opt: int, stat: int)
    returns (overflow': nat, opt': int, stat': int)
    requires i < |order| && n == order[i] < freq.Length <= dl.Length && Dad(order, elems, i) < dl.Length
    requires 1 <= maxLength <= MAXBITS && dl != freq && blCount != freq && blCount != dl
    requires Distinct(order) && FathersFirst(order, elems)
    requires (stree == [] || maxCode < |stree|) && (base <= maxCode ==> maxCode - base < |extra|)
    requires Leveled(order, dl[..], elems, maxLength, i)
    requires Counted(order, freq[..], dl[..], blCount[..], elems, maxCode + 1, maxLength, extra, base, stree, i, overflow, opt, stat)
    modifies dl, blCount
    ensures Leveled(order, dl[..], elems, maxLength, i + 1)
    ensures Counted(order, freq[..], dl[..], blCount[..], elems, maxCode + 1, maxLength, extra, base, stree, i + 1,
                    overflow', opt', stat')
    ensures forall x :: 0 <= x < dl.Length && x != n ==> dl[x] == old(dl[x])
  {
    hide Leveled, Counted, Distinct, FathersFirst, XBits, Dad;
    ghost var d, bl := dl[..], blCount[..];
    CountSize(order, freq[..], d, bl, elems, maxCode + 1, maxLength, extra, base, stree, i, overflow, opt, stat);
    LevelNow(order, d, elems, maxLength, i);
    LevelStep(order, d, elems, maxLength, i);
    var bits := dl[dl[n]] + 1;
    overflow' := overflow;
    if bits > maxLength {
      bits := maxLength;
      overflow' := overflow' + 1;
    }
    dl[n] := bits;
    assert dl[..] == d[order[i] := Min(At(d, Dad(order, elems, i)) + 1, maxLength)];
    var o, t := CountLeaf(freq, blCount, n, bits, maxCode, stree, extra, base);
    opt', stat' := opt + o, stat + t;
    CountStep(order, freq[..], d, dl[..], bl, blCount[..], elems, maxCode + 1, maxLength, extra, base, stree, i, overflow, opt,
              stat, bits);
  }

  lemma CountSize(order: seq<nat>, freq: seq<nat>, d: seq<nat>, bl: seq<nat>, elems: nat, top: nat, max: nat,
                  extra: seq<nat>, base: nat, stree: seq<nat>, i: nat, overflow: nat, opt: int, stat: int)
    requires Counted(order, freq, d, bl, elems, top, max, extra, base, stree, i, overflow, opt, stat)
    ensures |bl| == MAXBITS + 1
  {
  }

  /** The first pass: levels, cut off at maxLength, and how many leaves have each. */
  method Levels(heap: array<nat>, heapMax: nat, freq: array<nat>, dl: array<nat>, blCount: array<nat>, ghost elems: nat,
                maxCode: nat, maxLength: nat, stree: seq<nat>, extra: seq<nat>, base: nat, ghost leaves: multiset<nat>,
                ghost order: seq<nat>)
    returns (overflow: nat, opt: int, stat: int)
    requires heapMax < heap.Length && freq.Length <= dl.Length && blCount.Length == MAXBITS + 1 && 1 <= maxLength <= MAXBITS
    requires dl != heap && dl != freq && blCount != heap && blCount != freq && blCount != dl
    requires order == heap[heapMax..] && Shape(order, dl[..], elems, leaves) && Leaves(leaves, elems)
    requires maxCode < elems && 2 * elems <= freq.Length && |leaves| <= elems
    requires (stree == [] || maxCode < |stree|) && (base <= maxCode ==> maxCode - base < |extra|)
    modifies dl, blCount
    ensures Leveled(order, dl[..], elems, maxLength, |order|)
    ensures Counted(order, freq[..], dl[..], blCount[..], elems, maxCode + 1, maxLength, extra, base, stree, |order|,
                    overflow, opt, stat)
    ensures forall x :: 0 <= x < dl.Length && x !in order ==> dl[x] == old(dl[x])
  {
    hide Shape, Leveled, Counted, Distinct, FathersFirst, Leaves, XBits, Dad;
    ShapeFacts(order, dl[..], elems, leaves);
    ShapeBounds(order, dl[..], elems, leaves);
    LevelStart(order, dl[..], elems, leaves, maxLength);
    ghost var d0 := dl[..];
    ClearCounts(blCount);
    assert dl[..] == d0;
    dl[heap[heapMax]] := 0;
    overflow, opt, stat := 0, 0, 0;
    CountStart(order, freq[..], dl[..], blCount[..], elems, maxCode + 1, maxLength, extra, base, stree);
    var h := heapMax + 1;
    while h < heap.Length
      invariant heapMax < h <= heap.Length
      invariant Leveled(order, dl[..], elems, maxLength, h - heapMax)
      invariant Counted(order, freq[..], dl[..], blCount[..], elems, maxCode + 1, maxLength, extra, base, stree,
                        h - heapMax, overflow, opt, stat)
      invariant forall x :: 0 <= x < dl.Length && x !in order ==> dl[x] == d0[x]
    {
      assert heap[h] == order[h - heapMax];
      overflow, opt, stat := LevelNode(order, heap[h], h - heapMax, freq, dl, blCount, elems, maxCode, maxLength, stree,
                                       extra, base, overflow, opt, stat);
      h := h + 1;
    }
  }

  method ClearCounts(blCount: array<nat>)
    requires blCount.Length == MAXBITS + 1
    modifies blCount
    ensures forall b :: 0 <= b <= MAXBITS ==> blCount[b] == 0
  {
    for i := 0 to MAXBITS + 1
      invariant forall b :: 0 <= b < i ==> blCount[b] == 0
    {
      blCount[i] := 0;
    }
  }
}
