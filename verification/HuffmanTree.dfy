/** build_tree() of deps/zlib/trees.c, first half: combining the two least
    frequent nodes until one tree is left. */
module HuffmanTree {
  import opened Bits
  import opened PriorityHeap
  import opened Sums

  /** The internal nodes created so far. */
  function Internals(elems: nat, k: nat): (s: seq<nat>)
    ensures |s| == k && forall i :: 0 <= i < k ==> s[i] == elems + i
  {
    seq(k, i => elems + i)
  }

  /** Number of the internal node that is the father of the node at place i of
      the heap array, counted from its end. */
  function Father(size: nat, i: nat): nat
    requires i < size
  {
    (size - 1 - i) / 2
  }

  /** Leaves are distinct symbols. */
  ghost predicate Leaves(leaves: multiset<nat>, elems: nat)
  {
    |leaves| >= 2 && forall x :: x in leaves ==> x < elems && leaves[x] == 1
  }

  /** k nodes have been created.  The queue holds the roots of the subtrees, and
      from heapMax on lie the nodes that already have a father: two by two, the
      sons of the first node created at the very end. */
  ghost predicate Growing(g: seq<nat>, len: nat, k: nat, elems: nat, leaves: multiset<nat>, freq: seq<nat>, dad: seq<nat>)
  {
    && 1 <= len && len + k == |leaves| && len < |g| - 2 * k
    && Nodes(g, len, k, elems, leaves) && Fathers(g, k, elems, dad) && SonsAdd(g, k, elems, freq)
  }

  /** Every leaf and every node created is there once. */
  ghost predicate Nodes(g: seq<nat>, len: nat, k: nat, elems: nat, leaves: multiset<nat>)
  {
    && len < |g| - 2 * k
    && Queue(g, len) + multiset(g[|g| - 2 * k..]) == leaves + multiset(Internals(elems, k))
    && forall i :: 1 <= i <= len ==> g[i] < elems + k
  }

  ghost predicate Fathers(g: seq<nat>, k: nat, elems: nat, dad: seq<nat>)
  {
    2 * k <= |g| && forall i :: |g| - 2 * k <= i < |g| ==> g[i] < elems + Father(|g|, i) == At(dad, g[i])
  }

  ghost predicate SonsAdd(g: seq<nat>, k: nat, elems: nat, freq: seq<nat>)
  {
    2 * k <= |g| && forall j :: 0 <= j < k ==>
      At(freq, elems + j) == At(freq, g[|g| - 1 - 2 * j]) + At(freq, g[|g| - 2 - 2 * j])
  }

  /** The nodes that have a father lie in order of decreasing frequency, and none
      is more frequent than a node in the queue. */
  ghost predicate Sorted(g: seq<nat>, len: nat, k: nat, freq: seq<nat>)
    requires len < |g| - 2 * k
  {
    && (forall i :: |g| - 2 * k <= i < |g| - 1 ==> At(freq, g[i]) >= At(freq, g[i + 1]))
    && (k > 0 ==> forall i :: 1 <= i <= len ==> At(freq, g[i]) >= At(freq, g[|g| - 2 * k]))
  }

  function One(x: nat): multiset<nat> { multiset{x} }

  lemma InternalsNext(elems: nat, k: nat)
    ensures multiset(Internals(elems, k + 1)) == multiset(Internals(elems, k)) + One(elems + k)
  {
    assert Internals(elems, k + 1) == Internals(elems, k) + [elems + k];
  }

  lemma InternalsOnce(elems: nat, k: nat, x: nat)
    ensures multiset(Internals(elems, k))[x] == if elems <= x < elems + k then 1 else 0
  {
    if k > 0 {
      InternalsOnce(elems, k - 1, x);
      InternalsNext(elems, k - 1);
    }
  }

  /** Every node occurs once, in the queue or among those that have a father. */
  lemma Once(g: seq<nat>, len: nat, k: nat, elems: nat, leaves: multiset<nat>, x: nat)
    requires len < |g| - 2 * k && Leaves(leaves, elems)
    requires Queue(g, len) + multiset(g[|g| - 2 * k..]) == leaves + multiset(Internals(elems, k))
    ensures Queue(g, len)[x] + multiset(g[|g| - 2 * k..])[x] <= 1
  {
    hide Queue;
    InternalsOnce(elems, k, x);
    assert leaves[x] <= (if x < elems then 1 else 0) by { if x in leaves {} }
    assert (leaves + multiset(Internals(elems, k)))[x] <= 1;
    assert (Queue(g, len) + multiset(g[|g| - 2 * k..]))[x] <= 1;
  }

  lemma Apart(g: seq<nat>, len: nat, k: nat, elems: nat, leaves: multiset<nat>, freq: seq<nat>, dad: seq<nat>, i: nat, j: nat)
    requires Growing(g, len, k, elems, leaves, freq, dad) && Leaves(leaves, elems)
    requires 1 <= i <= len && |g| - 2 * k <= j < |g|
    ensures g[i] != g[j]
  {
    hide Queue;
    Once(g, len, k, elems, leaves, g[i]);
    QueueMember(g, len, i);
    var b := g[|g| - 2 * k..];
    assert b[j - (|g| - 2 * k)] == g[j] && g[j] in multiset(b);
  }

  /** The array after one node n was taken out and it and the next one, m, became
      the sons of a new node. */
  function Combined(g: seq<nat>, k: nat, n: nat, m: nat, node: nat): (r: seq<nat>)
    requires 2 * k + 2 < |g|
    ensures |r| == |g|
  {
    g[|g| - 2 * k - 1 := n][|g| - 2 * k - 2 := m][1 := node]
  }

  /** What is known when n has been taken out and m is the next one. */
  ghost predicate Taken(g0: seq<nat>, len: nat, k: nat, g: seq<nat>, n: nat, m: nat)
  {
    && 2 <= len < |g0| - 2 * k && |g| == |g0| && len - 1 < |g| - 2 * k - 2
    && Queue(g, len - 1) + One(n) == Queue(g0, len) && m == g[1]
    && forall i :: len <= i < |g| ==> g[i] == g0[i]
  }

  lemma Combine(g0: seq<nat>, len: nat, k: nat, elems: nat, leaves: multiset<nat>, freq: seq<nat>, dad: seq<nat>,
                g: seq<nat>, n: nat, m: nat, freq': seq<nat>, dad': seq<nat>)
    requires Growing(g0, len, k, elems, leaves, freq, dad) && Leaves(leaves, elems) && Taken(g0, len, k, g, n, m)
    requires elems + k < |freq| <= |dad| && n < |dad| && m < |dad|
    requires freq' == freq[elems + k := At(freq, n) + At(freq, m)] && dad' == dad[n := elems + k][m := elems + k]
    ensures Growing(Combined(g, k, n, m, elems + k), len - 1, k + 1, elems, leaves, freq', dad')
  {
    hide Queue, Nodes, Fathers, SonsAdd;
    CombineNodes(g0, len, k, elems, leaves, g, n, m);
    CombineFathers(g0, len, k, elems, leaves, freq, dad, g, n, m, dad');
    CombineSums(g0, len, k, elems, leaves, freq, dad, g, n, m, freq');
  }

  lemma CombineNodes(g0: seq<nat>, len: nat, k: nat, elems: nat, leaves: multiset<nat>, g: seq<nat>, n: nat, m: nat)
    requires Taken(g0, len, k, g, n, m) && Nodes(g0, len, k, elems, leaves)
    ensures Nodes(Combined(g, k, n, m, elems + k), len - 1, k + 1, elems, leaves)
  {
    hide Queue, Internals, One, Combined;
    CombineTotal(g0, len, k, elems, leaves, g, n, m);
    CombineBound(g0, len, k, g, n, m, elems + k);
    assert |g| - 2 * (k + 1) == |g| - 2 * k - 2;
  }

  lemma CombineTotal(g0: seq<nat>, len: nat, k: nat, elems: nat, leaves: multiset<nat>, g: seq<nat>, n: nat, m: nat)
    requires Taken(g0, len, k, g, n, m) && Nodes(g0, len, k, elems, leaves)
    ensures Queue(Combined(g, k, n, m, elems + k), len - 1) + multiset(Combined(g, k, n, m, elems + k)[|g| - 2 * k - 2..]) ==
            leaves + multiset(Internals(elems, k + 1))
  {
    hide Queue, Internals, One, Combined;
    var node, h := elems + k, |g| - 2 * k;
    var g' := Combined(g, k, n, m, node);
    CombineQueue(g, len, k, n, m, node);
    InternalsNext(elems, k);
    CombineRest(g0, len, k, g, n, m, node);
    MoveOne(Queue(g', len - 1), Queue(g, len - 1), Queue(g0, len), multiset(g0[h..]), multiset(g'[h - 2..]), One(m), One(n),
            One(node), leaves, multiset(Internals(elems, k)), multiset(Internals(elems, k + 1)));
  }

  lemma CombineRest(g0: seq<nat>, len: nat, k: nat, g: seq<nat>, n: nat, m: nat, node: nat)
    requires Taken(g0, len, k, g, n, m)
    ensures var h := |g| - 2 * k; multiset(Combined(g, k, n, m, node)[h - 2..]) == One(m) + One(n) + multiset(g0[h..])
  {
    hide Queue, One, Combined;
    var h := |g| - 2 * k;
    CombineEnd(g0, len, k, g, n, m, node);
    Front(n, g0[h..]);
    Front(m, [n] + g0[h..]);
  }

  lemma CombineEnd(g0: seq<nat>, len: nat, k: nat, g: seq<nat>, n: nat, m: nat, node: nat)
    requires Taken(g0, len, k, g, n, m)
    ensures var h := |g| - 2 * k; Combined(g, k, n, m, node)[h - 2..] == [m] + ([n] + g0[h..])
  {
    hide Queue, One;
    var h := |g| - 2 * k;
    var a, b := Combined(g, k, n, m, node)[h - 2..], [m] + ([n] + g0[h..]);
    assert |a| == |b| && a[0] == m && a[1] == n;
    forall i | 2 <= i < |a|
      ensures a[i] == b[i]
    {
      assert a[i] == g[h - 2 + i];
    }
  }

  lemma Front(x: nat, s: seq<nat>)
    ensures multiset([x] + s) == One(x) + multiset(s)
  {
  }

  lemma CombineBound(g0: seq<nat>, len: nat, k: nat, g: seq<nat>, n: nat, m: nat, node: nat)
    requires Taken(g0, len, k, g, n, m) && forall i :: 1 <= i <= len ==> g0[i] < node
    ensures forall i :: 1 <= i <= len - 1 ==> Combined(g, k, n, m, node)[i] < node + 1
  {
    hide Queue;
    QueueParts(g0, len, g, n, m);
    forall i | 2 <= i <= len - 1
      ensures g[i] < node
    {
      QueueMember(g, len - 1, i);
      QueuePlace(g0, len, g[i]);
    }
  }

  lemma MoveOne(q': multiset<nat>, q: multiset<nat>, q0: multiset<nat>, r: multiset<nat>, r': multiset<nat>, m: multiset<nat>,
                n: multiset<nat>, node: multiset<nat>, leaves: multiset<nat>, inner: multiset<nat>, inner': multiset<nat>)
    requires q' + m == q + node && q + n == q0 && r' == m + n + r && q0 + r == leaves + inner && inner' == inner + node
    ensures q' + r' == leaves + inner'
  {
    assert q' + r' == (q' + m) + n + r;
    assert (q + node) + n + r == (q + n) + r + node;
    assert (leaves + inner) + node == leaves + inner';
  }

  lemma CombineFathers(g0: seq<nat>, len: nat, k: nat, elems: nat, leaves: multiset<nat>, freq: seq<nat>, dad: seq<nat>,
                       g: seq<nat>, n: nat, m: nat, dad': seq<nat>)
    requires Growing(g0, len, k, elems, leaves, freq, dad) && Leaves(leaves, elems) && Taken(g0, len, k, g, n, m)
    requires n < |dad| && m < |dad| && dad' == dad[n := elems + k][m := elems + k]
    ensures Fathers(Combined(g, k, n, m, elems + k), k + 1, elems, dad')
  {
    hide Queue;
    var g', h := Combined(g, k, n, m, elems + k), |g| - 2 * k;
    QueueParts(g0, len, g, n, m);
    var a :| 1 <= a <= len && g0[a] == n;
    var b :| 1 <= b <= len && g0[b] == m;
    forall i | h - 2 <= i < |g|
      ensures g'[i] < elems + Father(|g|, i) == At(dad', g'[i])
    {
      if i >= h {
        Apart(g0, len, k, elems, leaves, freq, dad, a, i);
        Apart(g0, len, k, elems, leaves, freq, dad, b, i);
      } else {
        FatherOfPair(|g|, k);
      }
    }
  }

  lemma FatherOfPair(size: nat, k: nat)
    requires 2 * k + 2 <= size
    ensures Father(size, size - 2 * k - 1) == k && Father(size, size - 2 * k - 2) == k
  {
  }

  lemma CombineSums(g0: seq<nat>, len: nat, k: nat, elems: nat, leaves: multiset<nat>, freq: seq<nat>, dad: seq<nat>,
                    g: seq<nat>, n: nat, m: nat, freq': seq<nat>)
    requires Growing(g0, len, k, elems, leaves, freq, dad) && Taken(g0, len, k, g, n, m)
    requires elems + k < |freq| && freq' == freq[elems + k := At(freq, n) + At(freq, m)]
    ensures SonsAdd(Combined(g, k, n, m, elems + k), k + 1, elems, freq')
  {
    hide Queue, Growing, Combined, Nodes;
    var g', s := Combined(g, k, n, m, elems + k), |g|;
    QueueParts(g0, len, g, n, m);
    GrowingBounds(g0, len, k, elems, leaves, freq, dad);
    CombinedAt(g, k, n, m, elems + k);
    forall j | 0 <= j < k + 1
      ensures At(freq', elems + j) == At(freq', g'[s - 1 - 2 * j]) + At(freq', g'[s - 2 - 2 * j])
    {
      if j < k {
        SonsKept(g0, len, k, elems, leaves, freq, dad, j);
      }
    }
  }

  lemma CombinedAt(g: seq<nat>, k: nat, n: nat, m: nat, node: nat)
    requires 2 * k + 3 < |g|
    ensures var g' := Combined(g, k, n, m, node);
            && g'[|g| - 1 - 2 * k] == n && g'[|g| - 2 - 2 * k] == m && forall i :: |g| - 2 * k <= i < |g| ==> g'[i] == g[i]
  {
  }

  lemma SonsKept(g: seq<nat>, len: nat, k: nat, elems: nat, leaves: multiset<nat>, freq: seq<nat>, dad: seq<nat>, j: nat)
    requires Growing(g, len, k, elems, leaves, freq, dad) && j < k
    ensures g[|g| - 1 - 2 * j] < elems + j && g[|g| - 2 - 2 * j] < elems + j
    ensures At(freq, elems + j) == At(freq, g[|g| - 1 - 2 * j]) + At(freq, g[|g| - 2 - 2 * j])
  {
    hide Nodes;
    FatherOfPair(|g|, j);
  }

  lemma QueuePlace(g: seq<nat>, len: nat, x: nat)
    requires len < |g| && x in Queue(g, len)
    ensures exists i :: 1 <= i <= len && g[i] == x
  {
    var a := g[1..len + 1];
    assert x in a;
    var j :| 0 <= j < |a| && a[j] == x;
    assert g[j + 1] == x;
  }

  lemma QueueMember(g: seq<nat>, len: nat, i: nat)
    requires 1 <= i <= len < |g|
    ensures g[i] in Queue(g, len)
  {
    var a := g[1..len + 1];
    assert a[i - 1] == g[i];
  }

  lemma QueueParts(g0: seq<nat>, len: nat, g: seq<nat>, n: nat, m: nat)
    requires 2 <= len < |g0| == |g| && Queue(g, len - 1) + One(n) == Queue(g0, len) && m == g[1]
    ensures exists i :: 1 <= i <= len && g0[i] == n
    ensures exists i :: 1 <= i <= len && g0[i] == m
    ensures forall x :: x in Queue(g, len - 1) ==> x in Queue(g0, len)
  {
    hide Queue;
    QueueMember(g, len - 1, 1);
    QueuePlace(g0, len, n);
    QueuePlace(g0, len, m);
  }

  lemma CombineQueue(g: seq<nat>, len: nat, k: nat, n: nat, m: nat, node: nat)
    requires 2 <= len <= |g| - 2 * k - 2 && m == g[1]
    ensures Queue(Combined(g, k, n, m, node), len - 1) + One(m) == Queue(g, len - 1) + One(node)
  {
    var g' := Combined(g, k, n, m, node);
    var a, b := g[1..len - 1 + 1], g'[1..len - 1 + 1];
    assert a == [m] + a[1..] && b == [node] + a[1..];
  }

  /** n is the least node and m the next one. */
  lemma CombineSorted(g0: seq<nat>, len: nat, k: nat, elems: nat, leaves: multiset<nat>, freq: seq<nat>, dad: seq<nat>,
                      g: seq<nat>, n: nat, m: nat, freq': seq<nat>)
    requires Growing(g0, len, k, elems, leaves, freq, dad) && Sorted(g0, len, k, freq) && Taken(g0, len, k, g, n, m)
    requires elems + k < |freq| && freq' == freq[elems + k := At(freq, n) + At(freq, m)]
    requires At(freq, n) <= At(freq, m) && forall i :: 1 <= i <= len - 1 ==> At(freq, m) <= At(freq, g[i])
    ensures Sorted(Combined(g, k, n, m, elems + k), len - 1, k + 1, freq')
  {
    hide Queue, SonsAdd;
    var g', h := Combined(g, k, n, m, elems + k), |g| - 2 * k;
    QueueParts(g0, len, g, n, m);
    CombineBound(g0, len, k, g, n, m, elems + k);
    forall i | h - 2 <= i < |g| - 1
      ensures At(freq', g'[i]) >= At(freq', g'[i + 1])
    {
      if i >= h {
        assert g0[i] < elems + Father(|g|, i) && g0[i + 1] < elems + Father(|g|, i + 1);
      }
    }
    forall i | 1 <= i <= len - 1
      ensures At(freq', g'[i]) >= At(freq', g'[h - 2])
    {
      if i > 1 {
        QueueMember(g, len - 1, i);
        QueuePlace(g0, len, g[i]);
      }
    }
  }

  /** The order within the queue does not matter. */
  lemma Permuted(g: seq<nat>, g': seq<nat>, len: nat, k: nat, elems: nat, leaves: multiset<nat>, freq: seq<nat>, dad: seq<nat>)
    requires Growing(g, len, k, elems, leaves, freq, dad) && Sorted(g, len, k, freq)
    requires |g'| == |g| && Queue(g', len) == Queue(g, len) && forall i :: len < i < |g| ==> g'[i] == g[i]
    ensures Growing(g', len, k, elems, leaves, freq, dad) && Sorted(g', len, k, freq)
  {
    hide Queue;
    assert g'[|g| - 2 * k..] == g[|g| - 2 * k..];
    forall i | 1 <= i <= len
      ensures g'[i] < elems + k && (k > 0 ==> At(freq, g'[i]) >= At(freq, g'[|g| - 2 * k]))
    {
      QueueMember(g', len, i);
      QueuePlace(g, len, g'[i]);
    }
  }

  // ---------- frequencies fit into sixteen bits ----------

  /** The frequencies of the queue together. */
  ghost function Load(g: seq<nat>, len: nat, freq: seq<nat>): nat
    requires len < |g|
  {
    SumAt(freq, g[1..len + 1])
  }

  lemma LoadSame(g: seq<nat>, g': seq<nat>, len: nat, freq: seq<nat>)
    requires len < |g| && len < |g'| && Queue(g', len) == Queue(g, len)
    ensures Load(g', len, freq) == Load(g, len, freq)
  {
    SumPerm(freq, g'[1..len + 1], g[1..len + 1]);
  }

  lemma LoadOne(g: seq<nat>, freq: seq<nat>)
    requires 1 < |g|
    ensures Load(g, 1, freq) == At(freq, g[1])
  {
    assert g[1..1 + 1] == [] + [g[1]];
    SumPush(freq, [], g[1]);
  }

  /** Two nodes of the queue are no more than all of it. */
  lemma LoadTaken(g0: seq<nat>, len: nat, k: nat, g: seq<nat>, n: nat, m: nat, freq: seq<nat>)
    requires Taken(g0, len, k, g, n, m)
    ensures Load(g0, len, freq) == Load(g, len - 1, freq) + At(freq, n) && At(freq, m) <= Load(g, len - 1, freq)
  {
    hide SumAt, Queue;
    var a := g[1..len - 1 + 1];
    QueueWith(g0, len, g, n);
    SumPerm(freq, g0[1..len + 1], a + [n]);
    SumPush(freq, a, n);
    FirstOf(g, len, m);
    SumInsert(freq, [], m, g[2..len]);
  }

  lemma FirstOf(g: seq<nat>, len: nat, m: nat)
    requires 2 <= len <= |g| && m == g[1]
    ensures g[1..len - 1 + 1] == [] + ([m] + g[2..len]) && [] + g[2..len] == g[2..len]
  {
  }

  lemma QueueWith(g0: seq<nat>, len: nat, g: seq<nat>, n: nat)
    requires 2 <= len < |g0| == |g| && Queue(g, len - 1) + One(n) == Queue(g0, len)
    ensures multiset(g0[1..len + 1]) == multiset(g[1..len - 1 + 1] + [n])
  {
  }

  /** The new node has what its sons had. */
  lemma LoadCombined(g: seq<nat>, len: nat, k: nat, n: nat, m: nat, node: nat, freq: seq<nat>, freq': seq<nat>)
    requires 2 <= len <= |g| - 2 * k - 2 && m == g[1] && node < |freq| && freq' == freq[node := At(freq, n) + At(freq, m)]
    requires forall i :: 1 <= i <= len - 1 ==> g[i] < node
    ensures Load(Combined(g, k, n, m, node), len - 1, freq') == Load(g, len - 1, freq) + At(freq, n)
  {
    hide SumAt, Combined;
    var r := g[2..len];
    FirstOf(g, len, m);
    CombinedFront(g, len, k, n, m, node);
    SumInsert(freq, [], m, r);
    SumInsert(freq', [], node, r);
    assert forall i :: 0 <= i < |r| ==> r[i] == g[i + 2];
    SumSame(freq, freq', r);
  }

  lemma CombinedFront(g: seq<nat>, len: nat, k: nat, n: nat, m: nat, node: nat)
    requires 2 <= len <= |g| - 2 * k - 2
    ensures Combined(g, k, n, m, node)[1..len - 1 + 1] == [] + ([node] + g[2..len])
  {
  }

  // ---------- the loop ----------

  /** The new node: father of n and m, put on top of the queue. */
  method Link(heap: array<nat>, heapMax: nat, freq: array<nat>, dl: array<nat>, depth: array<nat>, node: nat, n: nat, m: nat)
    requires 3 < heapMax <= heap.Length && n < node && m < node < freq.Length
    requires freq.Length <= dl.Length && freq.Length <= depth.Length
    requires freq != dl && freq != depth && dl != depth && heap != freq && heap != dl && heap != depth
    requires freq[n] + freq[m] < 0x1_0000
    modifies heap, freq, dl, depth
    ensures heap[..] == old(heap[..])[heapMax - 1 := n][heapMax - 2 := m][1 := node]
    ensures freq[..] == old(freq[..])[node := old(freq[n] + freq[m])]
    ensures dl[..] == old(dl[..])[n := node][m := node]
    ensures forall i :: 0 <= i < depth.Length && i != node ==> depth[i] == old(depth[i])
  {
    heap[heapMax - 1] := n;
    heap[heapMax - 2] := m;
    freq[node] := Ush(freq[n] + freq[m]);
    depth[node] := ((if depth[n] >= depth[m] then depth[n] else depth[m]) + 1) % 256;
    dl[n] := node;
    dl[m] := node;
    heap[1] := node;
  }

  /** New keys for a node that is not in the queue. */
  lemma KeepsHeap(g: seq<nat>, g': seq<nat>, len: nat, q: Keys, q': Keys, node: nat)
    requires HeapFrom(g, len, q, 1) && |g'| == |g| && forall i :: 2 <= i <= len ==> g'[i] == g[i]
    requires forall i :: 1 <= i <= len ==> g[i] < node
    requires forall i :: 0 <= i < node ==> At(q'.freq, i) == At(q.freq, i) && At(q'.depth, i) == At(q.depth, i)
    ensures HeapFrom(g', len, q', 2)
  {
  }

  /** Combine the two least frequent nodes. */
  method JoinTwo(heap: array<nat>, heapLen: nat, heapMax: nat, freq: array<nat>, dl: array<nat>, depth: array<nat>, node: nat,
                 ghost k: nat, ghost elems: nat, ghost leaves: multiset<nat>)
    returns (heapLen': nat, heapMax': nat)
    requires 2 <= heapLen && heapMax == heap.Length - 2 * k && node == elems + k < freq.Length && heapLen < heapMax - 2
    requires freq.Length <= dl.Length && freq.Length <= depth.Length
    requires freq != dl && freq != depth && dl != depth && heap != freq && heap != dl && heap != depth
    requires Leaves(leaves, elems) && Growing(heap[..], heapLen, k, elems, leaves, freq[..], dl[..])
    requires Sorted(heap[..], heapLen, k, freq[..]) && HeapFrom(heap[..], heapLen, Keys(freq[..], depth[..]), 1)
    requires Load(heap[..], heapLen, freq[..]) < 0x1_0000
    modifies heap, freq, dl, depth
    ensures heapLen' < heap.Length && Load(heap[..], heapLen', freq[..]) == old(Load(heap[..], heapLen, freq[..]))
    ensures heapLen' == heapLen - 1 && heapMax' == heapMax - 2 == heap.Length - 2 * (k + 1)
    ensures Growing(heap[..], heapLen', k + 1, elems, leaves, freq[..], dl[..])
    ensures Sorted(heap[..], heapLen', k + 1, freq[..]) && HeapFrom(heap[..], heapLen', Keys(freq[..], depth[..]), 1)
    ensures forall i :: 0 <= i < elems ==> freq[i] == old(freq[i])
    ensures forall x: nat :: x < elems && x !in leaves ==> dl[x] == old(dl[x])
  {
    hide Growing, Sorted, Queue, Ordered, HeapFrom, Smaller, Combined, Leaves, Load;
    ghost var g0, q := heap[..], Keys(freq[..], depth[..]);
    ghost var f0, d0 := freq[..], dl[..];
    var n, m;
    GrowingBounds(g0, heapLen, k, elems, leaves, f0, d0);
    n, heapLen' := PqRemove(heap, heapLen, freq, depth, q);
    m := heap[1];
    ghost var g := heap[..];
    TakenLeast(g0, heapLen, k, elems, leaves, f0, d0, g, n, m, q);
    TakenLeaves(g0, heapLen, k, elems, leaves, f0, d0, g, n, m);
    LoadTaken(g0, heapLen, k, g, n, m, f0);
    heapMax' := heapMax - 2;
    Link(heap, heapMax, freq, dl, depth, node, n, m);
    ghost var g1 := heap[..];
    CombinedIs(g, k, n, m, node);
    Combine(g0, heapLen, k, elems, leaves, f0, d0, g, n, m, freq[..], dl[..]);
    CombineSorted(g0, heapLen, k, elems, leaves, f0, d0, g, n, m, freq[..]);
    GrowingBounds(g1, heapLen', k + 1, elems, leaves, freq[..], dl[..]);
    KeepsHeap(g, g1, heapLen', q, Keys(freq[..], depth[..]), node);
    LoadCombined(g, heapLen, k, n, m, node, f0, freq[..]);
    PqDownHeap(heap, heapLen', freq, depth, 1, Keys(freq[..], depth[..]));
    LoadSame(g1, heap[..], heapLen', freq[..]);
    Permuted(g1, heap[..], heapLen', k + 1, elems, leaves, freq[..], dl[..]);
  }

  lemma GrowingBounds(g: seq<nat>, len: nat, k: nat, elems: nat, leaves: multiset<nat>, freq: seq<nat>, dad: seq<nat>)
    requires Growing(g, len, k, elems, leaves, freq, dad)
    ensures len < |g| - 2 * k && forall i :: 1 <= i <= len ==> g[i] < elems + k
  {
    hide Queue, SonsAdd, Fathers;
  }

  /** A node taken out of the queue that is a symbol is a leaf. */
  lemma TakenLeaves(g0: seq<nat>, len: nat, k: nat, elems: nat, leaves: multiset<nat>, freq: seq<nat>, dad: seq<nat>,
                    g: seq<nat>, n: nat, m: nat)
    requires Growing(g0, len, k, elems, leaves, freq, dad) && Taken(g0, len, k, g, n, m)
    ensures n < elems ==> n in leaves
    ensures m < elems ==> m in leaves
  {
    hide Queue, SonsAdd, Fathers;
    QueueMember(g, len - 1, 1);
    InternalsOnce(elems, k, n);
    InternalsOnce(elems, k, m);
    assert n in Queue(g0, len) && m in Queue(g0, len);
    assert n in leaves + multiset(Internals(elems, k)) && m in leaves + multiset(Internals(elems, k));
  }

  lemma CombinedIs(g: seq<nat>, k: nat, n: nat, m: nat, node: nat)
    requires 2 * k + 2 < |g|
    ensures Combined(g, k, n, m, node) == g[|g| - 2 * k - 1 := n][|g| - 2 * k - 2 := m][1 := node]
  {
  }

  lemma TakenLeast(g0: seq<nat>, len: nat, k: nat, elems: nat, leaves: multiset<nat>, freq: seq<nat>, dad: seq<nat>,
                   g: seq<nat>, n: nat, m: nat, q: Keys)
    requires Growing(g0, len, k, elems, leaves, freq, dad) && 2 <= len < |g0| - 2 * k - 2 && |g| == |g0|
    requires Queue(g, len - 1) + multiset{n} == Queue(g0, len) && m == g[1] && q.freq == freq
    requires forall i :: 0 <= i < |g| && !(1 <= i <= len - 1) ==> g[i] == g0[i]
    requires HeapFrom(g, len - 1, q, 1) && forall i :: 1 <= i <= len - 1 ==> Smaller(q, n, g[i])
    ensures Taken(g0, len, k, g, n, m) && n < elems + k && forall i :: 1 <= i <= len - 1 ==> g[i] < elems + k
    ensures At(freq, n) <= At(freq, m) && forall i :: 1 <= i <= len - 1 ==> At(freq, m) <= At(freq, g[i])
  {
    hide Queue, Ordered, HeapFrom, SonsAdd, Fathers;
    QueueParts(g0, len, g, n, m);
    forall i | 1 <= i <= len - 1
      ensures g[i] < elems + k && At(freq, m) <= At(freq, g[i])
    {
      QueueMember(g, len - 1, i);
      QueuePlace(g0, len, g[i]);
      TopLeast(g, len - 1, q, i);
    }
  }

  // ---------- the initial queue ----------

  /** The queue holds exactly those of the first n symbols that occur. */
  ghost predicate Holds(g: seq<nat>, len: nat, freq: seq<nat>, n: nat)
  {
    len < |g| && forall x: nat :: Queue(g, len)[x] == if x < n && At(freq, x) > 0 then 1 else 0
  }

  /** max is the largest of the first n symbols that occurs, or -1. */
  ghost predicate Largest(freq: seq<nat>, n: nat, max: int)
  {
    -1 <= max < n && (max >= 0 ==> At(freq, max) > 0) && forall x :: max < x < n ==> At(freq, x) == 0
  }

  lemma HoldsNone(g: seq<nat>, freq: seq<nat>)
    requires |g| > 0
    ensures Holds(g, 0, freq, 0)
  {
    assert g[1..0 + 1] == [];
  }

  lemma HoldsSkip(g: seq<nat>, len: nat, freq: seq<nat>, n: nat)
    requires Holds(g, len, freq, n) && At(freq, n) == 0
    ensures Holds(g, len, freq, n + 1)
  {
    hide Queue;
  }

  lemma QueuePush(g: seq<nat>, len: nat, x: nat)
    requires len + 1 < |g|
    ensures Queue(g[len + 1 := x], len + 1) == Queue(g, len) + One(x)
  {
    assert g[len + 1 := x][1..len + 1 + 1] == g[1..len + 1] + [x];
  }

  /** Adding a symbol that did not occur so far, or is the next one. */
  lemma HoldsPush(g: seq<nat>, len: nat, freq: seq<nat>, n: nat, x: nat, freq': seq<nat>, n': nat)
    requires Holds(g, len, freq, n) && len + 1 < |g| && n <= n' && x < n' && At(freq', x) > 0 && |freq'| == |freq|
    requires n <= x || At(freq, x) == 0
    requires forall y: nat :: y != x ==> (y < n' && At(freq', y) > 0 <==> y < n && At(freq, y) > 0)
    ensures Holds(g[len + 1 := x], len + 1, freq', n')
  {
    hide Queue;
    QueuePush(g, len, x);
  }

  lemma QueueSize(g: seq<nat>, len: nat)
    requires len < |g|
    ensures |Queue(g, len)| == len
  {
    var a := g[1..len + 1];
    assert |a| == len;
  }

  lemma TwoMembers(a: multiset<nat>, x: nat, y: nat)
    requires x in a && y in a && x != y
    ensures |a| >= 2
  {
    assert a == a - multiset{x, y} + multiset{x, y};
  }

  lemma NoneUsed(g: seq<nat>, freq: seq<nat>, elems: nat, max: int)
    requires Holds(g, 0, freq, elems) && Largest(freq, elems, max)
    ensures max == -1
  {
    assert g[1..0 + 1] == [];
    forall x: nat | x < elems
      ensures At(freq, x) == 0
    {
      assert Queue(g, 0)[x] == 0;
    }
  }

  /** The symbol that is forced into a queue with fewer than two: it does not occur. */
  lemma ForcedUnused(g: seq<nat>, len: nat, freq: seq<nat>, elems: nat, max: int)
    requires Holds(g, len, freq, elems) && Largest(freq, elems, max) && len < 2 && 3 <= elems <= |freq|
    ensures var node: int := if max < 2 then max + 1 else 0;
            && 0 <= node <= 2 && At(freq, node) == 0
            && Largest(freq[node := 1], elems, if max < 2 then max + 1 else max)
  {
    hide Queue;
    QueueSize(g, len);
    if len == 0 { NoneUsed(g, freq, elems, max); }
    if max >= 2 && At(freq, 0) > 0 {
      TwoMembers(Queue(g, len), 0, max);
    }
    var node: int := if max < 2 then max + 1 else 0;
    var max' := if max < 2 then max + 1 else max;
    var freq' := freq[node := 1];
    forall x | max' < x < elems
      ensures At(freq', x) == 0
    {
      assert At(freq, x) == 0;
    }
  }

  /** Put the symbols that occur into the queue; the lengths of the others are zero. */
  method InitHeap(heap: array<nat>, freq: array<nat>, dl: array<nat>, depth: array<nat>, elems: nat)
    returns (heapLen: nat, maxCode: int)
    requires elems + 1 < heap.Length && elems <= freq.Length && freq.Length <= dl.Length && freq.Length <= depth.Length
    requires freq != dl && freq != depth && dl != depth && heap != freq && heap != dl && heap != depth
    modifies heap, dl, depth
    ensures heapLen <= elems && Holds(heap[..], heapLen, freq[..], elems) && Largest(freq[..], elems, maxCode)
    ensures forall x :: 0 <= x < elems ==> freq[x] == 0 ==> dl[x] == 0
  {
    hide Queue, Holds;
    heapLen, maxCode := 0, -1;
    HoldsNone(heap[..], freq[..]);
    for n := 0 to elems
      invariant heapLen <= n && Holds(heap[..], heapLen, freq[..], n) && Largest(freq[..], n, maxCode)
      invariant forall x :: 0 <= x < n ==> freq[x] == 0 ==> dl[x] == 0
    {
      ghost var g := heap[..];
      if freq[n] != 0 {
        HoldsNext(g, heapLen, freq[..], n);
        heapLen := heapLen + 1;
        heap[heapLen] := n;
        maxCode := n;
        depth[n] := 0;
        assert heap[..] == g[heapLen := n];
      } else {
        HoldsSkip(g, heapLen, freq[..], n);
        dl[n] := 0;
      }
    }
  }

  lemma HoldsNext(g: seq<nat>, len: nat, freq: seq<nat>, n: nat)
    requires Holds(g, len, freq, n) && len + 1 < |g| && At(freq, n) > 0
    ensures Holds(g[len + 1 := n], len + 1, freq, n + 1)
  {
    hide Queue;
    HoldsPush(g, len, freq, n, n, freq, n + 1);
  }

  /** Force at least two symbols, so that every code has at least one bit.  The
      cost of each forced code, one bit, is taken back in advance. */
  method ForceTwo(heap: array<nat>, heapLen0: nat, freq: array<nat>, dl: array<nat>, depth: array<nat>, elems: nat,
                  maxCode0: int, stree: seq<nat>, optLen0: int, staticLen0: int)
    returns (heapLen: nat, maxCode: int, optLen: int, staticLen: int, ghost forced: seq<nat>)
    requires 3 <= elems && elems + 1 < heap.Length && elems <= freq.Length && freq.Length <= depth.Length && heapLen0 <= elems
    requires freq != depth && heap != freq && heap != depth && (stree == [] || |stree| >= elems)
    requires Holds(heap[..], heapLen0, freq[..], elems) && Largest(freq[..], elems, maxCode0)
    modifies heap, freq, depth
    ensures 2 <= heapLen <= elems && Holds(heap[..], heapLen, freq[..], elems) && Largest(freq[..], elems, maxCode) && maxCode >= 0
    ensures ForcedOnes(old(freq[..]), freq[..], forced) && (forced != [] ==> heapLen == 2 > heapLen0) && |forced| <= 2
    ensures optLen == optLen0 - |forced| && staticLen == staticLen0 - (if stree == [] then 0 else SumAt(stree, forced))
  {
    hide Queue, Holds, Largest;
    heapLen, maxCode, optLen, staticLen, forced := heapLen0, maxCode0, optLen0, staticLen0, [];
    while heapLen < 2
      invariant heapLen <= elems && Holds(heap[..], heapLen, freq[..], elems) && Largest(freq[..], elems, maxCode)
      invariant ForcedOnes(old(freq[..]), freq[..], forced) && (forced != [] ==> heapLen <= 2 && heapLen0 < 2) && |forced| == heapLen - heapLen0
      invariant optLen == optLen0 - |forced| && staticLen == staticLen0 - (if stree == [] then 0 else SumAt(stree, forced))
      decreases 2 - heapLen
    {
      ghost var f := freq[..];
      var node;
      heapLen, maxCode, node := ForceNode(heap, heapLen, freq, depth, elems, maxCode);
      ForceOne(old(freq[..]), f, forced, node);
      optLen := optLen - 1;
      if stree != [] { staticLen := staticLen - stree[node]; }
      SumPush(stree, forced, node);
      forced := forced + [node];
    }
    SomeLargest(heap[..], heapLen, freq[..], elems, maxCode);
  }

  /** node = s->heap[++(s->heap_len)] = (max_code < 2 ? ++max_code : 0) */
  method ForceNode(heap: array<nat>, heapLen0: nat, freq: array<nat>, depth: array<nat>, elems: nat, maxCode0: int)
    returns (heapLen: nat, maxCode: int, node: nat)
    requires 3 <= elems && elems + 1 < heap.Length && elems <= freq.Length <= depth.Length && heapLen0 < 2
    requires freq != depth && heap != freq && heap != depth
    requires Holds(heap[..], heapLen0, freq[..], elems) && Largest(freq[..], elems, maxCode0)
    modifies heap, freq, depth
    ensures heapLen == heapLen0 + 1 && Holds(heap[..], heapLen, freq[..], elems) && Largest(freq[..], elems, maxCode)
    ensures node <= 2 && old(freq[..])[node] == 0 && freq[..] == old(freq[..])[node := 1]
  {
    hide Queue, Holds, Largest;
    ghost var g, f := heap[..], freq[..];
    ForcedUnused(g, heapLen0, f, elems, maxCode0);
    if maxCode0 < 2 {
      maxCode := maxCode0 + 1;
      node := maxCode;
    } else {
      maxCode, node := maxCode0, 0;
    }
    HoldsForced(g, heapLen0, f, elems, node);
    heapLen := heapLen0 + 1;
    heap[heapLen] := node;
    freq[node] := 1;
    depth[node] := 0;
    assert heap[..] == g[heapLen := node] && freq[..] == f[node := 1];
  }

  lemma SomeLargest(g: seq<nat>, len: nat, freq: seq<nat>, elems: nat, max: int)
    requires Holds(g, len, freq, elems) && Largest(freq, elems, max) && len > 0
    ensures max >= 0
  {
    hide Queue;
    QueueMember(g, len, 1);
  }

  lemma HoldsForced(g: seq<nat>, len: nat, freq: seq<nat>, elems: nat, node: nat)
    requires Holds(g, len, freq, elems) && len + 1 < |g| && node < elems <= |freq| && freq[node] == 0
    ensures Holds(g[len + 1 := node], len + 1, freq[node := 1], elems)
  {
    hide Queue;
    HoldsPush(g, len, freq, elems, node, freq[node := 1], elems);
  }

  /** freq' is freq with frequency one for the forced symbols, which did not occur. */
  ghost predicate ForcedOnes(freq: seq<nat>, freq': seq<nat>, forced: seq<nat>)
  {
    && |freq'| == |freq| && (forall x :: x in forced ==> x <= 2 && x < |freq| && freq[x] == 0 && freq'[x] == 1)
    && (forall x :: 0 <= x < |freq| && x !in forced ==> freq'[x] == freq[x])
    && (forall i, j :: 0 <= i < j < |forced| ==> forced[i] != forced[j])
  }

  lemma ForceOne(freq: seq<nat>, freq': seq<nat>, forced: seq<nat>, node: nat)
    requires ForcedOnes(freq, freq', forced) && node <= 2 && node < |freq| && freq'[node] == 0
    ensures ForcedOnes(freq, freq'[node := 1], forced + [node])
  {
  }

  /** Establish sub-heaps of increasing lengths. */
  method MakeHeap(heap: array<nat>, heapLen: nat, freq: array<nat>, depth: array<nat>, ghost q: Keys)
    requires 2 <= heapLen < heap.Length && heap != freq && heap != depth
    requires q == Keys(freq[..], depth[..]) && freq.Length <= depth.Length
    requires forall i :: 1 <= i <= heapLen ==> heap[i] < freq.Length
    modifies heap
    ensures HeapFrom(heap[..], heapLen, q, 1) && Queue(heap[..], heapLen) == old(Queue(heap[..], heapLen))
    ensures forall i :: heapLen < i < heap.Length ==> heap[i] == old(heap[i])
  {
    hide Queue, Ordered, HeapFrom;
    LeavesHeap(heap[..], heapLen, q);
    ghost var g0 := heap[..];
    for n := heapLen / 2 + 1 downto 1
      invariant HeapFrom(heap[..], heapLen, q, n) && Queue(heap[..], heapLen) == Queue(g0, heapLen)
      invariant forall i :: 1 <= i <= heapLen ==> heap[i] < freq.Length
      invariant forall i :: heapLen < i < heap.Length ==> heap[i] == old(heap[i])
    {
      ghost var g := heap[..];
      PqDownHeap(heap, heapLen, freq, depth, n, q);
      SameBound(g, heap[..], heapLen, freq.Length);
    }
  }

  lemma LeavesHeap(g: seq<nat>, len: nat, q: Keys)
    requires len < |g|
    ensures HeapFrom(g, len, q, len / 2 + 1)
  {
  }

  lemma SameBound(g: seq<nat>, g': seq<nat>, len: nat, bound: nat)
    requires len < |g| == |g'| && Queue(g', len) == Queue(g, len) && forall i :: 1 <= i <= len ==> g[i] < bound
    ensures forall i :: 1 <= i <= len ==> g'[i] < bound
  {
    hide Queue;
    forall i | 1 <= i <= len
      ensures g'[i] < bound
    {
      QueueMember(g', len, i);
      QueuePlace(g, len, g'[i]);
    }
  }

  // ---------- the finished tree ----------

  /** The nodes of a finished tree, fathers before sons: the leaves, and one
      internal node for every two sons.  The node at place i is a son of internal
      node (2k - i) / 2, where k is the number of internal nodes. */
  ghost predicate Shape(order: seq<nat>, dad: seq<nat>, elems: nat, leaves: multiset<nat>)
  {
    && |leaves| >= 2 && |order| == 2 * |leaves| - 1 && order[0] == elems + |leaves| - 2
    && multiset(order) == leaves + multiset(Internals(elems, |leaves| - 1))
    && forall i :: 1 <= i < |order| ==> order[i] < elems + (|order| - 1 - i) / 2 == At(dad, order[i])
  }

  /** Internal nodes are as frequent as their two sons together, and frequencies decrease. */
  ghost predicate Weighted(order: seq<nat>, elems: nat, freq: seq<nat>)
  {
    && |order| % 2 == 1
    && (forall j :: 0 <= j < |order| / 2 ==>
          At(freq, elems + j) == At(freq, order[|order| - 1 - 2 * j]) + At(freq, order[|order| - 2 - 2 * j]))
    && forall i :: 0 <= i < |order| - 1 ==> At(freq, order[i]) >= At(freq, order[i + 1])
  }

  lemma ThreeNodes(order: seq<nat>, dad: seq<nat>, elems: nat, leaves: multiset<nat>)
    requires Shape(order, dad, elems, leaves)
    ensures |order| >= 3
  {
  }

  lemma Finished(g: seq<nat>, k: nat, elems: nat, leaves: multiset<nat>, freq: seq<nat>, dad: seq<nat>)
    requires Growing(g, 1, k, elems, leaves, freq, dad) && Sorted(g, 1, k, freq) && Leaves(leaves, elems)
    requires 2 * k + 2 < |g|
    ensures var order := g[|g| - 2 * k - 1 := g[1]][|g| - 2 * k - 1..];
            Shape(order, dad, elems, leaves) && Weighted(order, elems, freq)
  {
    hide Queue, Growing, Sorted, Shape, Weighted;
    var h := |g| - 2 * k - 1;
    var order := g[h := g[1]][h..];
    assert order == [g[1]] + g[h + 1..];
    FinishedShape(g, k, elems, leaves, freq, dad, order);
    FinishedWeights(g, k, elems, leaves, freq, dad, order);
  }

  lemma FinishedShape(g: seq<nat>, k: nat, elems: nat, leaves: multiset<nat>, freq: seq<nat>, dad: seq<nat>, order: seq<nat>)
    requires Growing(g, 1, k, elems, leaves, freq, dad) && Leaves(leaves, elems) && order == [g[1]] + g[|g| - 2 * k..]
    ensures Shape(order, dad, elems, leaves)
  {
    hide Queue, SonsAdd;
    RootIs(g, k, elems, leaves, freq, dad);
    OneInQueue(g);
    Front(g[1], g[|g| - 2 * k..]);
    forall i | 1 <= i < |order|
      ensures order[i] < elems + (|order| - 1 - i) / 2 == At(dad, order[i])
    {
      assert order[i] == g[|g| - 2 * k - 1 + i] && Father(|g|, |g| - 2 * k - 1 + i) == (2 * k - i) / 2;
    }
  }

  lemma FinishedWeights(g: seq<nat>, k: nat, elems: nat, leaves: multiset<nat>, freq: seq<nat>, dad: seq<nat>, order: seq<nat>)
    requires Growing(g, 1, k, elems, leaves, freq, dad) && Sorted(g, 1, k, freq) && order == [g[1]] + g[|g| - 2 * k..]
    ensures Weighted(order, elems, freq)
  {
    hide Queue, Nodes, Fathers;
    forall j | 0 <= j < k
      ensures order[|order| - 1 - 2 * j] == g[|g| - 1 - 2 * j] && order[|order| - 2 - 2 * j] == g[|g| - 2 - 2 * j]
    {
    }
    forall i | 0 <= i < |order| - 1
      ensures At(freq, order[i]) >= At(freq, order[i + 1])
    {
      if i > 0 { assert order[i] == g[|g| - 2 * k - 1 + i]; }
    }
  }

  lemma OneInQueue(g: seq<nat>)
    requires |g| > 1
    ensures Queue(g, 1) == One(g[1])
  {
    assert g[1..1 + 1] == [g[1]];
  }

  /** The last node in the queue is the node created last. */
  lemma RootIs(g: seq<nat>, k: nat, elems: nat, leaves: multiset<nat>, freq: seq<nat>, dad: seq<nat>)
    requires Growing(g, 1, k, elems, leaves, freq, dad) && Leaves(leaves, elems)
    ensures k > 0 && g[1] == elems + k - 1
  {
    hide Queue, SonsAdd;
    var root: nat := elems + k - 1;
    var b := g[|g| - 2 * k..];
    OneInQueue(g);
    InternalsOnce(elems, k, root);
    assert (Queue(g, 1) + multiset(b))[root] >= 1;
    forall i | 0 <= i < |b|
      ensures b[i] != root
    {
      assert g[|g| - 2 * k + i] < elems + Father(|g|, |g| - 2 * k + i);
    }
    assert root !in b;
  }

  lemma StartGrowing(g: seq<nat>, len: nat, elems: nat, freq: seq<nat>, dad: seq<nat>)
    requires Holds(g, len, freq, elems) && 2 <= len < |g|
    ensures Leaves(Queue(g, len), elems) && Growing(g, len, 0, elems, Queue(g, len), freq, dad) && Sorted(g, len, 0, freq)
    ensures |Queue(g, len)| == len
  {
    hide Queue;
    QueueSize(g, len);
    assert g[|g| - 2 * 0..] == [] && multiset(Internals(elems, 0)) == multiset{};
    forall i | 1 <= i <= len
      ensures g[i] < elems
    {
      QueueMember(g, len, i);
    }
  }

  /** Combine nodes until one tree is left; its nodes are then in heap[heapMax..]. */
  method GrowTree(heap: array<nat>, heapLen0: nat, freq: array<nat>, dl: array<nat>, depth: array<nat>, elems: nat)
    returns (heapMax: nat, ghost leaves: multiset<nat>)
    requires 2 <= heapLen0 <= elems && 2 * elems + 1 <= heap.Length && 2 * elems <= freq.Length
    requires freq.Length <= dl.Length && freq.Length <= depth.Length
    requires freq != dl && freq != depth && dl != depth && heap != freq && heap != dl && heap != depth
    requires Holds(heap[..], heapLen0, freq[..], elems) && Load(heap[..], heapLen0, freq[..]) < 0x1_0000
    modifies heap, freq, dl, depth
    ensures leaves == old(Queue(heap[..], heapLen0)) && |leaves| == heapLen0 && Leaves(leaves, elems)
    ensures heapMax + 2 * heapLen0 - 1 == heap.Length && At(freq[..], heap[heapMax]) == old(Load(heap[..], heapLen0, freq[..]))
    ensures Shape(heap[heapMax..], dl[..], elems, leaves) && Weighted(heap[heapMax..], elems, freq[..])
    ensures forall i :: 0 <= i < elems ==> freq[i] == old(freq[i])
    ensures forall x: nat :: x < elems && x !in leaves ==> dl[x] == old(dl[x])
  {
    hide Queue, Ordered, HeapFrom, Holds, Growing, Sorted, Leaves, Shape, Weighted, Load;
    StartGrowing(heap[..], heapLen0, elems, freq[..], dl[..]);
    leaves := Queue(heap[..], heapLen0);
    ghost var g := heap[..];
    GrowingBounds(g, heapLen0, 0, elems, leaves, freq[..], dl[..]);
    ghost var load := Load(heap[..], heapLen0, freq[..]);
    MakeHeap(heap, heapLen0, freq, depth, Keys(freq[..], depth[..]));
    LoadSame(g, heap[..], heapLen0, freq[..]);
    Permuted(g, heap[..], heapLen0, 0, elems, leaves, freq[..], dl[..]);
    var heapLen, node := heapLen0, elems;
    heapMax := heap.Length;
    ghost var k := 0;
    while heapLen >= 2
      invariant 1 <= heapLen && heapLen + k == heapLen0 && node == elems + k && heapMax == heap.Length - 2 * k
      invariant Growing(heap[..], heapLen, k, elems, leaves, freq[..], dl[..]) && Sorted(heap[..], heapLen, k, freq[..])
      invariant HeapFrom(heap[..], heapLen, Keys(freq[..], depth[..]), 1) && Load(heap[..], heapLen, freq[..]) == load
      invariant forall i :: 0 <= i < elems ==> freq[i] == old(freq[i])
      invariant forall x: nat :: x < elems && x !in leaves ==> dl[x] == old(dl[x])
      decreases heapLen
    {
      heapLen, heapMax := JoinTwo(heap, heapLen, heapMax, freq, dl, depth, node, k, elems, leaves);
      node := node + 1;
      k := k + 1;
    }
    LoadOne(heap[..], freq[..]);
    Finished(heap[..], k, elems, leaves, freq[..], dl[..]);
    heapMax := heapMax - 1;
    heap[heapMax] := heap[1];
  }
}
