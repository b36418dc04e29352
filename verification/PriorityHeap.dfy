/** The priority queue of deps/zlib/trees.c: an implicit binary heap of tree
    nodes ordered by frequency, with the depth of the subtree as tie breaker. */
module PriorityHeap {

  /** Frequencies and depths of the nodes. */
  datatype Keys = Keys(freq: seq<nat>, depth: seq<nat>)

  function At(s: seq<nat>, n: nat): nat { if n < |s| then s[n] else 0 }

  /** The smaller() macro. */
  predicate Smaller(q: Keys, n: nat, m: nat)
  {
    At(q.freq, n) < At(q.freq, m) || (At(q.freq, n) == At(q.freq, m) && At(q.depth, n) <= At(q.depth, m))
  }

  /** From place k on every father is no larger than its sons; the sons of the
      place hole are left out. */
  ghost predicate Ordered(g: seq<nat>, len: nat, q: Keys, k: nat, hole: nat)
  {
    len < |g| && forall i :: 2 <= i <= len && k <= i / 2 && i / 2 != hole ==> Smaller(q, g[i / 2], g[i])
  }

  /** The father of the hole is no larger than the sons of the hole. */
  ghost predicate Bridged(g: seq<nat>, len: nat, q: Keys, k: nat, hole: nat)
  {
    len < |g| && hole <= len &&
    forall i :: 2 <= i <= len && i / 2 == hole && k <= hole / 2 && 1 <= hole / 2 ==> Smaller(q, g[hole / 2], g[i])
  }

  ghost predicate HeapFrom(g: seq<nat>, len: nat, q: Keys, k: nat) { Ordered(g, len, q, k, 0) }

  /** The queue as a multiset. */
  ghost function Queue(g: seq<nat>, len: nat): multiset<nat>
    requires len < |g|
  {
    multiset(g[1..len + 1])
  }

  /** j is the smaller son of place k. */
  ghost predicate LeastSon(g: seq<nat>, len: nat, q: Keys, k: nat, j: nat)
  {
    1 <= k && j / 2 == k && j <= len < |g| && forall i :: i / 2 == k && i <= len ==> Smaller(q, g[j], g[i])
  }

  lemma SiftStep(g: seq<nat>, len: nat, q: Keys, top: nat, k: nat, j: nat)
    requires 1 <= top <= k && Ordered(g, len, q, top, k) && Bridged(g, len, q, top, k) && LeastSon(g, len, q, k, j)
    requires !Smaller(q, g[k], g[j])
    ensures var g' := g[k := g[j]][j := g[k]];
            Ordered(g', len, q, top, j) && Bridged(g', len, q, top, j) && Queue(g', len) == Queue(g, len)
  {
    SwapQueue(g, len, k, j);
    var g' := g[k := g[j]][j := g[k]];
    forall i | 2 <= i <= len && top <= i / 2 && i / 2 != j
      ensures Smaller(q, g'[i / 2], g'[i])
    {
    }
  }

  lemma SiftEnd(g: seq<nat>, len: nat, q: Keys, top: nat, k: nat, j: nat)
    requires 1 <= top <= k && Ordered(g, len, q, top, k) && LeastSon(g, len, q, k, j) && Smaller(q, g[k], g[j])
    ensures HeapFrom(g, len, q, top)
  {
  }

  lemma SiftLeaf(g: seq<nat>, len: nat, q: Keys, top: nat, k: nat)
    requires 1 <= top <= k && Ordered(g, len, q, top, k) && 2 * k > len
    ensures HeapFrom(g, len, q, top)
  {
  }

  lemma SwapQueue(g: seq<nat>, len: nat, i: nat, j: nat)
    requires 1 <= i <= len && 1 <= j <= len < |g| && i != j
    ensures Queue(g[i := g[j]][j := g[i]], len) == Queue(g, len)
  {
    var a, b := g[1..len + 1], g[i := g[j]][j := g[i]][1..len + 1];
    assert b == a[i - 1 := a[j - 1]][j - 1 := a[i - 1]];
  }

  /** The least element of a heap is on top. */
  lemma {:induction false} TopLeast(g: seq<nat>, len: nat, q: Keys, i: nat)
    requires HeapFrom(g, len, q, 1) && 1 <= i <= len
    ensures Smaller(q, g[1], g[i])
    decreases i
  {
    if i > 1 { TopLeast(g, len, q, i / 2); }
  }

  /** Move the node at place k down until the heap is restored from k on. */
  method PqDownHeap(heap: array<nat>, heapLen: nat, freq: array<nat>, depth: array<nat>, k0: nat, ghost q: Keys)
    requires 1 <= k0 <= heapLen < heap.Length && heap != freq && heap != depth
    requires q == Keys(freq[..], depth[..]) && freq.Length <= depth.Length
    requires forall i :: 1 <= i <= heapLen ==> heap[i] < freq.Length
    requires HeapFrom(heap[..], heapLen, q, k0 + 1)
    modifies heap
    ensures HeapFrom(heap[..], heapLen, q, k0) && Queue(heap[..], heapLen) == old(Queue(heap[..], heapLen))
    ensures forall i :: 0 <= i < heap.Length && !(k0 <= i <= heapLen) ==> heap[i] == old(heap[i])
  {
    hide Ordered, Bridged, Smaller, Queue, HeapFrom;
    var k := k0;
    var v := heap[k];
    var j := 2 * k;
    ghost var g := heap[..];
    SiftStart(g, heapLen, q, k0);
    while j <= heapLen
      invariant k0 <= k <= heapLen && j == 2 * k && |g| == heap.Length && heap[..][k := v] == g
      invariant Ordered(g, heapLen, q, k0, k) && Bridged(g, heapLen, q, k0, k)
      invariant Queue(g, heapLen) == old(Queue(heap[..], heapLen))
      invariant forall i :: 1 <= i <= heapLen ==> g[i] < freq.Length
      invariant forall i :: 0 <= i < heap.Length && !(k0 <= i <= heapLen) ==> heap[i] == old(heap[i])
      decreases heapLen - k
    {
      j := LeastOf(heap, heapLen, freq, depth, j, g, v, q);
      if IsSmaller(freq, depth, v, heap[j], q) {
        SiftEnd(g, heapLen, q, k0, k, j);
        break;
      }
      SiftStep(g, heapLen, q, k0, k, j);
      heap[k] := heap[j];
      g := g[k := g[j]][j := v];
      k := j;
      j := 2 * k;
      assert heap[..][k := v] == g;
    }
    if j > heapLen { SiftLeaf(g, heapLen, q, k0, k); }
    heap[k] := v;
    assert heap[..] == g;
  }

  lemma SiftStart(g: seq<nat>, len: nat, q: Keys, k: nat)
    requires HeapFrom(g, len, q, k + 1) && 1 <= k <= len
    ensures Ordered(g, len, q, k, k) && Bridged(g, len, q, k, k)
  {
  }

  predicate IsSmaller(freq: array<nat>, depth: array<nat>, n: nat, m: nat, ghost q: Keys)
    requires n < freq.Length <= depth.Length && m < freq.Length && q == Keys(freq[..], depth[..])
    reads freq, depth
    ensures IsSmaller(freq, depth, n, m, q) == Smaller(q, n, m)
  {
    freq[n] < freq[m] || (freq[n] == freq[m] && depth[n] <= depth[m])
  }

  /** The smaller of the sons at j and j + 1. */
  method LeastOf(heap: array<nat>, heapLen: nat, freq: array<nat>, depth: array<nat>, j: nat, ghost g: seq<nat>, v: nat,
                 ghost q: Keys)
    returns (r: nat)
    requires j / 2 >= 1 && j % 2 == 0 && j <= heapLen < heap.Length && freq.Length <= depth.Length
    requires q == Keys(freq[..], depth[..]) && heap[..][j / 2 := v] == g && forall i :: 1 <= i <= heapLen ==> g[i] < freq.Length
    ensures LeastSon(g, heapLen, q, j / 2, r) && (r == j || r == j + 1) && heap[r] == g[r]
  {
    hide Ordered, Bridged, Queue;
    r := j;
    assert g[j] == heap[j];
    if j < heapLen {
      assert g[j + 1] == heap[j + 1];
      if IsSmaller(freq, depth, heap[j + 1], heap[j], q) {
        r := j + 1;
      }
    }
    SonsOf(g, heapLen, j, q, r);
  }

  lemma SonsOf(g: seq<nat>, len: nat, j: nat, q: Keys, r: nat)
    requires j / 2 >= 1 && j % 2 == 0 && j <= len < |g|
    requires r == if j < len && Smaller(q, g[j + 1], g[j]) then j + 1 else j
    ensures LeastSon(g, len, q, j / 2, r)
  {
    forall i: nat | i / 2 == j / 2 && i <= len
      ensures Smaller(q, g[r], g[i])
    {
      assert i == j || i == j + 1;
    }
  }

  /** pqremove(): take out a node of least frequency. */
  method PqRemove(heap: array<nat>, heapLen: nat, freq: array<nat>, depth: array<nat>, ghost q: Keys)
    returns (top: nat, heapLen': nat)
    requires 2 <= heapLen < heap.Length && heap != freq && heap != depth
    requires q == Keys(freq[..], depth[..]) && freq.Length <= depth.Length
    requires forall i :: 1 <= i <= heapLen ==> heap[i] < freq.Length
    requires HeapFrom(heap[..], heapLen, q, 1)
    modifies heap
    ensures heapLen' == heapLen - 1 && HeapFrom(heap[..], heapLen', q, 1)
    ensures Queue(heap[..], heapLen') + multiset{top} == old(Queue(heap[..], heapLen))
    ensures top < freq.Length && forall i :: 1 <= i <= heapLen' ==> heap[i] < freq.Length && Smaller(q, top, heap[i])
    ensures forall i :: 0 <= i < heap.Length && !(1 <= i <= heapLen') ==> heap[i] == old(heap[i])
  {
    hide Ordered, Smaller, Queue, HeapFrom;
    ghost var g := heap[..];
    top := heap[1];
    heap[1] := heap[heapLen];
    heapLen' := heapLen - 1;
    RemoveTop(g, heapLen, q, heap[..]);
    PqDownHeap(heap, heapLen', freq, depth, 1, q);
    RemovedLeast(g, heapLen, q, heap[..], freq.Length);
  }

  lemma RemoveTop(g: seq<nat>, len: nat, q: Keys, g': seq<nat>)
    requires HeapFrom(g, len, q, 1) && 2 <= len && g' == g[1 := g[len]]
    ensures HeapFrom(g', len - 1, q, 2)
    ensures Queue(g', len - 1) + multiset{g[1]} == Queue(g, len)
  {
    assert g[1..len + 1] == [g[1]] + g[2..len] + [g[len]];
    assert g'[1..len] == [g[len]] + g[2..len];
  }

  lemma RemovedLeast(g: seq<nat>, len: nat, q: Keys, g': seq<nat>, bound: nat)
    requires HeapFrom(g, len, q, 1) && 2 <= len < |g| == |g'| && Queue(g', len - 1) + multiset{g[1]} == Queue(g, len)
    requires forall i :: 1 <= i <= len ==> g[i] < bound
    ensures forall i :: 1 <= i <= len - 1 ==> g'[i] < bound && Smaller(q, g[1], g'[i])
  {
    hide Ordered, Smaller, HeapFrom;
    forall i | 1 <= i <= len - 1
      ensures g'[i] < bound && Smaller(q, g[1], g'[i])
    {
      var a, b := g[1..len + 1], g'[1..len - 1 + 1];
      assert b[i - 1] == g'[i] && b[i - 1] in multiset(b);
      assert g'[i] in multiset(a);
      var j :| 0 <= j < len && a[j] == g'[i];
      TopLeast(g, len, q, j + 1);
    }
  }
}
