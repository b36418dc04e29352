/** The last pass of gen_bitlen() (deps/zlib/trees.c): handing out the shortened
    lengths again, longest first, in the order of increasing frequency. */
module Reassign {
  import opened Bits
  import opened HuffmanCode
  import opened PriorityHeap
  import opened Sums
  import opened HuffmanTree
  import opened BitLengths
  import opened LengthLimit

  /** Marks the symbols below top. */
  function LeafMarks(size: nat, top: nat): (t: seq<nat>)
    ensures |t| == size && forall x :: 0 <= x < size ==> t[x] == if x < top then 1 else 0
  {
    seq(size, x => if x < top then 1 else 0)
  }

  /** The nodes from place p on have new lengths.  All lengths above bits are used
      up, and n codes of length bits are left. */
  ghost predicate Handed(order: seq<nat>, d: seq<nat>, top: nat, bl: seq<nat>, max: nat, p: nat, bits: nat, n: nat)
  {
    && p <= |order| && bits <= max < |bl|
    && (forall b :: bits < b <= max ==> SumAt(Marks(d, top, b), order[p..]) == bl[b])
    && (bits > 0 ==> SumAt(Marks(d, top, bits), order[p..]) + n == bl[bits])
    && (forall b :: 1 <= b < bits ==> SumAt(Marks(d, top, b), order[p..]) == 0)
    && SumAt(LeafMarks(|d|, top), order[..p]) == n + Codes(bl, bits)
    && (forall j :: p <= j < |order| && order[j] < top ==> 1 <= At(d, order[j]) <= max)
  }

  lemma SumFront(a: seq<nat>, x: nat, s: seq<nat>)
    ensures SumAt(a, [x] + s) == At(a, x) + SumAt(a, s)
  {
    SumConcat(a, [x], s);
    OneSum(a, x);
  }

  lemma HandedStart(order: seq<nat>, d: seq<nat>, top: nat, bl: seq<nat>, max: nat)
    requires max < |bl| && SumAt(LeafMarks(|d|, top), order) == Codes(bl, max + 1)
    ensures Handed(order, d, top, bl, max, |order|, max, At(bl, max))
  {
    hide SumAt, Marks, LeafMarks, Codes;
    assert order[|order|..] == [] && order[..|order|] == order;
    forall b: nat
      ensures SumAt(Marks(d, top, b), []) == 0
    {
      NoneToSum(Marks(d, top, b));
    }
    CodesNext(bl, max);
  }

  lemma NoneToSum(a: seq<nat>)
    ensures SumAt(a, []) == 0
  {
  }

  lemma CodesNext(bl: seq<nat>, n: nat)
    ensures Codes(bl, n + 1) == Codes(bl, n) + At(bl, n)
  {
  }

  lemma HandedNext(order: seq<nat>, d: seq<nat>, top: nat, bl: seq<nat>, max: nat, p: nat, bits: nat)
    requires Handed(order, d, top, bl, max, p, bits, 0) && bits >= 1
    ensures bits >= 2 ==> Handed(order, d, top, bl, max, p, bits - 1, bl[bits - 1])
    ensures bits == 1 && bl[0] == 0 ==> Handed(order, d, top, bl, max, p, 0, 0)
  {
    hide SumAt;
  }

  /** An internal node is passed over. */
  lemma HandedSkip(order: seq<nat>, d: seq<nat>, top: nat, bl: seq<nat>, max: nat, p: nat, bits: nat, n: nat)
    requires Handed(order, d, top, bl, max, p, bits, n) && p > 0 && order[p - 1] >= top
    ensures Handed(order, d, top, bl, max, p - 1, bits, n)
  {
    hide SumAt, Codes;
    assert order[p - 1..] == [order[p - 1]] + order[p..];
    assert order[..p] == order[..p - 1] + [order[p - 1]];
    forall b: nat
      ensures SumAt(Marks(d, top, b), order[p - 1..]) == SumAt(Marks(d, top, b), order[p..])
    {
      SumFront(Marks(d, top, b), order[p - 1], order[p..]);
    }
    SumPush(LeafMarks(|d|, top), order[..p - 1], order[p - 1]);
  }

  /** A leaf gets length bits. */
  lemma HandedLeaf(order: seq<nat>, d: seq<nat>, top: nat, bl: seq<nat>, max: nat, p: nat, bits: nat, n: nat)
    requires Handed(order, d, top, bl, max, p, bits, n) && Distinct(order) && bits >= 1 && n > 0
    requires p > 0 && order[p - 1] < top && order[p - 1] < |d|
    ensures Handed(order, d[order[p - 1] := bits], top, bl, max, p - 1, bits, n - 1)
  {
    hide SumAt, Codes;
    var x := order[p - 1];
    var d' := d[x := bits];
    assert order[p - 1..] == [x] + order[p..];
    assert order[..p] == order[..p - 1] + [x];
    forall b: nat
      ensures SumAt(Marks(d', top, b), order[p - 1..]) == SumAt(Marks(d, top, b), order[p..]) + (if b == bits then 1 else 0)
    {
      SumFront(Marks(d', top, b), x, order[p..]);
      SumSame(Marks(d, top, b), Marks(d', top, b), order[p..]);
    }
    SumPush(LeafMarks(|d|, top), order[..p - 1], x);
  }

  /** As long as codes are left there are nodes left. */
  lemma HandedMore(order: seq<nat>, d: seq<nat>, top: nat, bl: seq<nat>, max: nat, p: nat, bits: nat, n: nat)
    requires Handed(order, d, top, bl, max, p, bits, n) && n > 0
    ensures p > 0
  {
  }

  lemma CostChange(order: seq<nat>, freq: seq<nat>, d: seq<nat>, extra: seq<nat>, base: nat, top: nat, p: nat, bits: nat)
    requires Distinct(order) && p < |order| && order[p] < top && order[p] < |d|
    ensures (SumAt(Costs(freq, d[order[p] := bits], extra, base, top), order) as int) ==
            SumAt(Costs(freq, d, extra, base, top), order) + (bits - d[order[p]]) * At(freq, order[p])
  {
    hide SumAt, XBits;
    var x := order[p];
    var a, b := Costs(freq, d, extra, base, top), Costs(freq, d[x := bits], extra, base, top);
    SumChange(a, b, order, p);
    Spread(At(freq, x), bits, d[x], XBits(extra, base, x));
  }

  lemma Spread(f: nat, a: nat, b: nat, x: nat)
    ensures f * (a + x) == f * (b + x) + (a - b) * f
  {
  }

  /** Give the lengths counted in blCount to the leaves. */
  method HandOut(heap: array<nat>, heapMax: nat, freq: array<nat>, dl: array<nat>, blCount: array<nat>, ghost elems: nat,
                 maxCode: nat, maxLength: nat, ghost extra: seq<nat>, ghost base: nat, ghost order: seq<nat>, opt0: int)
    returns (opt: int)
    requires heapMax < heap.Length && order == heap[heapMax..] && Distinct(order) && freq.Length <= dl.Length
    requires dl != heap && dl != freq && dl != blCount && 1 <= maxLength < blCount.Length && blCount[0] == 0
    requires forall i :: 0 <= i < |order| ==> order[i] < freq.Length
    requires SumAt(LeafMarks(dl.Length, maxCode + 1), order) == Codes(blCount[..], maxLength + 1)
    modifies dl
    ensures forall b :: 1 <= b <= maxLength ==> SumAt(Marks(dl[..], maxCode + 1, b), order) == blCount[b]
    ensures forall i :: 0 <= i < |order| && order[i] <= maxCode ==> 1 <= dl[order[i]] <= maxLength
    ensures opt == opt0 + SumAt(Costs(freq[..], dl[..], extra, base, maxCode + 1), order) -
                   SumAt(Costs(freq[..], old(dl[..]), extra, base, maxCode + 1), order)
    ensures forall x :: 0 <= x < dl.Length && x !in order ==> dl[x] == old(dl[x])
  {
    hide SumAt, Handed, Distinct, Codes, XBits;
    ghost var bl, top := blCount[..], maxCode + 1;
    HandedStart(order, dl[..], top, bl, maxLength);
    opt := opt0;
    var h := heap.Length;
    var bits := maxLength;
    while bits != 0
      invariant 0 <= bits <= maxLength && heapMax <= h <= heap.Length
      invariant Handed(order, dl[..], top, bl, maxLength, h - heapMax, bits, if bits == 0 then 0 else bl[bits])
      invariant opt == opt0 + SumAt(Costs(freq[..], dl[..], extra, base, top), order) -
                       SumAt(Costs(freq[..], old(dl[..]), extra, base, top), order)
      invariant forall x :: 0 <= x < dl.Length && x !in order ==> dl[x] == old(dl[x])
    {
      h, opt := HandLength(heap, heapMax, freq, dl, blCount[bits], maxCode, maxLength, bits, extra, base, order, bl, h, opt);
      HandedNext(order, dl[..], top, bl, maxLength, h - heapMax, bits);
      bits := bits - 1;
    }
    HandedAll(order, dl[..], top, bl, maxLength, h - heapMax);
  }

  lemma HandedAll(order: seq<nat>, d: seq<nat>, top: nat, bl: seq<nat>, max: nat, p: nat)
    requires Handed(order, d, top, bl, max, p, 0, 0)
    requires forall i :: 0 <= i < |order| ==> order[i] < |d|
    ensures forall b :: 1 <= b <= max ==> SumAt(Marks(d, top, b), order) == bl[b]
    ensures forall i :: 0 <= i < |order| && order[i] < top ==> 1 <= d[order[i]] <= max
  {
    hide SumAt, Codes;
    assert order == order[..p] + order[p..];
    NoneBelow(bl);
    forall b | 1 <= b <= max
      ensures SumAt(Marks(d, top, b), order) == bl[b]
    {
      SumMono(Marks(d, top, b), LeafMarks(|d|, top), order[..p]);
      SumConcat(Marks(d, top, b), order[..p], order[p..]);
    }
    forall i | 0 <= i < |order| && order[i] < top
      ensures 1 <= d[order[i]] <= max
    {
      if i < p { SumPositive(LeafMarks(|d|, top), order[..p], i); }
    }
  }

  lemma NoneBelow(bl: seq<nat>)
    ensures Codes(bl, 0) == 0
  {
  }

  lemma {:induction false} SumPositive(a: seq<nat>, s: seq<nat>, i: nat)
    requires i < |s|
    ensures SumAt(a, s) >= At(a, s[i])
    decreases |s|
  {
    if i < |s| - 1 { SumPositive(a, s[..|s| - 1], i); }
  }

  /** n leaves get length bits. */
  method HandLength(heap: array<nat>, heapMax: nat, freq: array<nat>, dl: array<nat>, n0: nat, maxCode: nat,
                    ghost maxLength: nat, bits: nat, ghost extra: seq<nat>, ghost base: nat, ghost order: seq<nat>,
                    ghost bl: seq<nat>, h0: nat, opt0: int)
    returns (h: nat, opt: int)
    requires heapMax <= h0 <= heap.Length && order == heap[heapMax..] && Distinct(order) && freq.Length <= dl.Length
    requires dl != heap && dl != freq && 1 <= bits <= maxLength < |bl|
    requires forall i :: 0 <= i < |order| ==> order[i] < freq.Length
    requires Handed(order, dl[..], maxCode + 1, bl, maxLength, h0 - heapMax, bits, n0)
    modifies dl
    ensures heapMax <= h <= heap.Length && Handed(order, dl[..], maxCode + 1, bl, maxLength, h - heapMax, bits, 0)
    ensures opt == opt0 + SumAt(Costs(freq[..], dl[..], extra, base, maxCode + 1), order) -
                   SumAt(Costs(freq[..], old(dl[..]), extra, base, maxCode + 1), order)
    ensures forall x :: 0 <= x < dl.Length && x !in order ==> dl[x] == old(dl[x])
  {
    hide SumAt, Handed, Distinct, Codes, XBits;
    var n := n0;
    h, opt := h0, opt0;
    ghost var top := maxCode + 1;
    while n != 0
      invariant heapMax <= h <= heap.Length && Handed(order, dl[..], top, bl, maxLength, h - heapMax, bits, n)
      invariant opt == opt0 + SumAt(Costs(freq[..], dl[..], extra, base, top), order) -
                       SumAt(Costs(freq[..], old(dl[..]), extra, base, top), order)
      invariant forall x :: 0 <= x < dl.Length && x !in order ==> dl[x] == old(dl[x])
      decreases h
    {
      ghost var d := dl[..];
      HandedMore(order, d, top, bl, maxLength, h - heapMax, bits, n);
      h := h - 1;
      var m := heap[h];
      assert m == order[h - heapMax];
      if m > maxCode {
        HandedSkip(order, d, top, bl, maxLength, h - heapMax + 1, bits, n);
        continue;
      }
      HandedLeaf(order, d, top, bl, maxLength, h - heapMax + 1, bits, n);
      CostChange(order, freq[..], d, extra, base, top, h - heapMax, bits);
      if dl[m] != bits {
        opt := opt + (bits - dl[m]) * freq[m];
        dl[m] := bits;
        assert dl[..] == d[m := bits];
      } else {
        assert d[m := bits] == d;
      }
      n := n - 1;
    }
  }
}
