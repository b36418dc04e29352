/** No prefix code costs less than a tree of build_tree() (deps/zlib/trees.c)
    that was not cut off: the argument goes back from the root, one pair of
    sons at a time, in the order in which the nodes were created. */
module Optimal {
  import opened Bits
  import opened PriorityHeap
  import opened Sums
  import opened HuffmanTree
  import opened BitLengths
  import opened LengthLimit

  /** Frequency times length of every node. */
  function Spent(freq: seq<nat>, d: seq<nat>): (t: seq<nat>)
    ensures |t| == |d| && forall x :: 0 <= x < |d| ==> t[x] == At(freq, x) * d[x]
  {
    seq(|d|, x requires 0 <= x < |d| => At(freq, x) * d[x])
  }

  /** Lengths for which there is a prefix code, by the inequality of Kraft. */
  ghost predicate Prefix(e: seq<nat>, act: seq<nat>, top: nat)
  {
    (forall i :: 0 <= i < |act| ==> act[i] < |e| && e[act[i]] <= top) && SumAt(Weights(e, top), act) <= Pow2(top)
  }

  // ---------- exchanging lengths ----------

  lemma SumTwo(a: seq<nat>, b: seq<nat>, at: seq<nat>, p: nat, q: nat)
    requires Distinct(at) && p < |at| && q < |at| && p != q && |a| == |b| && at[p] < |a| && at[q] < |a|
    requires forall i :: 0 <= i < |at| && i != p && i != q ==> At(a, at[i]) == At(b, at[i])
    ensures SumAt(b, at) + At(a, at[p]) + At(a, at[q]) == SumAt(a, at) + At(b, at[p]) + At(b, at[q])
  {
    hide SumAt;
    var c := a[at[p] := b[at[p]]];
    SumChange(a, c, at, p);
    SumChange(c, b, at, q);
  }

  lemma Exchange(f: nat, g: nat, x: nat, y: nat)
    requires f <= g && x <= y
    ensures f * y + g * x <= f * x + g * y
  {
    assert (g - f) * (y - x) >= 0;
    assert (g - f) * (y - x) == g * y - g * x - f * y + f * x;
  }

  function Swapped(e: seq<nat>, x: nat, y: nat): (r: seq<nat>)
    requires x < |e| && y < |e|
    ensures |r| == |e|
  {
    e[x := e[y]][y := e[x]]
  }

  /** Giving the longer length to the less frequent node costs no more. */
  lemma SwapLengths(freq: seq<nat>, e: seq<nat>, act: seq<nat>, top: nat, p: nat, q: nat)
    requires Distinct(act) && Prefix(e, act, top) && p < |act| && q < |act| && p != q
    requires At(freq, act[p]) <= At(freq, act[q]) && e[act[p]] <= e[act[q]]
    ensures var e' := Swapped(e, act[p], act[q]);
            Prefix(e', act, top) && SumAt(Spent(freq, e'), act) <= SumAt(Spent(freq, e), act)
  {
    hide SumAt, Pow2, Weights, Spent, Swapped, Distinct;
    var x, y := act[p], act[q];
    var e' := Swapped(e, x, y);
    SwapTables(freq, e, act, top, p, q);
    SumTwo(Weights(e, top), Weights(e', top), act, p, q);
    SumTwo(Spent(freq, e), Spent(freq, e'), act, p, q);
    SwapRange(e, act, top, p, q);
    Exchange(At(freq, x), At(freq, y), e[x], e[y]);
  }

  lemma SwapRange(e: seq<nat>, act: seq<nat>, top: nat, p: nat, q: nat)
    requires p < |act| && q < |act| && forall i :: 0 <= i < |act| ==> act[i] < |e| && e[act[i]] <= top
    ensures forall i :: 0 <= i < |act| ==> Swapped(e, act[p], act[q])[act[i]] <= top
  {
  }

  lemma SwapTables(freq: seq<nat>, e: seq<nat>, act: seq<nat>, top: nat, p: nat, q: nat)
    requires Distinct(act) && p < |act| && q < |act| && p != q && forall i :: 0 <= i < |act| ==> act[i] < |e| && e[act[i]] <= top
    ensures var x, y, e' := act[p], act[q], Swapped(e, act[p], act[q]);
            && |Weights(e, top)| == |Weights(e', top)| == |Spent(freq, e)| == |Spent(freq, e')| == |e|
            && At(Weights(e', top), x) == At(Weights(e, top), y) && At(Weights(e', top), y) == At(Weights(e, top), x)
            && At(Spent(freq, e), x) == At(freq, x) * e[x] && At(Spent(freq, e), y) == At(freq, y) * e[y]
            && At(Spent(freq, e'), x) == At(freq, x) * e[y] && At(Spent(freq, e'), y) == At(freq, y) * e[x]
    ensures var e' := Swapped(e, act[p], act[q]);
            forall i :: 0 <= i < |act| && i != p && i != q ==>
              At(Weights(e, top), act[i]) == At(Weights(e', top), act[i]) && At(Spent(freq, e), act[i]) == At(Spent(freq, e'), act[i])
  {
    hide Pow2;
    var e' := Swapped(e, act[p], act[q]);
    forall i | 0 <= i < |act| && i != p && i != q
      ensures e'[act[i]] == e[act[i]]
    {
    }
  }

  lemma {:induction false} DeepestAt(e: seq<nat>, act: seq<nat>) returns (q: nat)
    requires act != []
    ensures q < |act| && forall i :: 0 <= i < |act| ==> At(e, act[i]) <= At(e, act[q])
    decreases |act|
  {
    q := |act| - 1;
    if |act| > 1 {
      var r := DeepestAt(e, act[..q]);
      if At(e, act[r]) > At(e, act[q]) { q := r; }
    }
  }

  /** If the last two nodes are the least frequent they may as well be the deepest. */
  lemma Deepest(freq: seq<nat>, e: seq<nat>, act: seq<nat>, top: nat) returns (e': seq<nat>)
    requires |act| >= 2 && Distinct(act) && Prefix(e, act, top)
    requires At(freq, act[|act| - 1]) <= At(freq, act[|act| - 2])
    requires forall i :: 0 <= i < |act| - 2 ==> At(freq, act[|act| - 2]) <= At(freq, act[i])
    ensures |e'| == |e| && Prefix(e', act, top) && SumAt(Spent(freq, e'), act) <= SumAt(Spent(freq, e), act)
    ensures forall i :: 0 <= i < |act| - 1 ==> e'[act[i]] <= e'[act[|act| - 2]] <= e'[act[|act| - 1]]
  {
    hide SumAt, Pow2;
    var n := |act| - 1;
    var q := DeepestAt(e, act);
    e' := e;
    if q != n {
      SwapLengths(freq, e, act, top, n, q);
      e' := Swapped(e, act[n], act[q]);
    }
    assert forall i :: 0 <= i < n ==> e'[act[i]] <= e'[act[n]];
    var r := DeepestAt(e', act[..n]);
    if r != n - 1 {
      SwapLengths(freq, e', act, top, n - 1, r);
      e' := Swapped(e', act[n - 1], act[r]);
    }
  }

  // ---------- merging the deepest pair ----------

  lemma {:induction false} PowMul(a: nat, b: nat)
    ensures Pow2(a + b) == Pow2(a) * Pow2(b)
  {
    if a > 0 { PowMul(a - 1, b); }
  }

  /** In a coarser unit. */
  lemma {:induction false} Coarser(e: seq<nat>, s: seq<nat>, t: nat, top: nat)
    requires t <= top && forall i :: 0 <= i < |s| ==> s[i] < |e| && e[s[i]] <= t
    ensures SumAt(Weights(e, top), s) == SumAt(Weights(e, t), s) * Pow2(top - t)
    decreases |s|
  {
    hide Pow2;
    if s != [] {
      var n := |s| - 1;
      Coarser(e, s[..n], t, top);
      PowMul(t - e[s[n]], top - t);
    }
  }

  lemma Whole(q: nat, r: nat, t: nat, unit: nat)
    requires (q + 1) * unit + r <= Pow2(t) * unit && r > 0 && unit > 0
    ensures q + 2 <= Pow2(t) && t > 0 && (q + 2) * unit <= Pow2(t) * unit
  {
    if q + 1 >= Pow2(t) {
      Scale(Pow2(t), q + 1, unit);
      assert false;
    }
    Scale(q + 2, Pow2(t), unit);
  }

  lemma Scale(a: nat, b: nat, unit: nat)
    requires a <= b
    ensures a * unit <= b * unit
  {
  }

  /** The deepest pair makes way for its father, one level higher. */
  lemma Merge(e: seq<nat>, rest: seq<nat>, n: nat, m: nat, p: nat, top: nat)
    requires Prefix(e, rest + [n, m], top) && n < |e| && m < |e| && e[n] <= e[m] <= top && p < |e| && p !in rest
    requires forall i :: 0 <= i < |rest| ==> rest[i] < |e| && e[rest[i]] <= e[n]
    ensures e[n] > 0 && Prefix(e[p := e[n] - 1], rest + [p], top)
  {
    hide SumAt, Pow2;
    var w, t := Weights(e, top), e[n];
    SumPush(w, rest, n);
    SumPush(w, rest + [n], m);
    assert rest + [n, m] == rest + [n] + [m];
    Coarser(e, rest, t, top);
    PowMul(t, top - t);
    var q, unit := SumAt(Weights(e, t), rest), Pow2(top - t);
    Whole(q, Pow2(top - e[m]), t, unit);
    var e' := e[p := t - 1];
    SumSame(w, Weights(e', top), rest);
    SumPush(Weights(e', top), rest, p);
    TwicePow(top - t);
  }

  lemma TwicePow(k: nat)
    ensures Pow2(k + 1) == 2 * Pow2(k)
  {
  }

  // ---------- going back from the root ----------

  /** The nodes of s below bound. */
  function Active(s: seq<nat>, bound: nat): (r: seq<nat>)
    ensures |r| <= |s|
  {
    if s == [] then [] else
      var n := |s| - 1;
      Active(s[..n], bound) + (if s[n] < bound then [s[n]] else [])
  }

  lemma ActivePush(s: seq<nat>, x: nat, bound: nat)
    ensures Active(s + [x], bound) == Active(s, bound) + (if x < bound then [x] else [])
  {
    assert (s + [x])[..|s|] == s;
  }

  lemma {:induction false} ActiveIn(s: seq<nat>, bound: nat)
    requires Distinct(s)
    ensures Distinct(Active(s, bound))
    ensures forall x :: x in Active(s, bound) <==> x in s && x < bound
    decreases |s|
  {
    if s != [] {
      var n := |s| - 1;
      ActiveIn(s[..n], bound);
      assert s == s[..n] + [s[n]];
      assert s[n] !in s[..n];
    }
  }

  /** One more node counts. */
  lemma {:induction false} ActiveNext(a: seq<nat>, s: seq<nat>, b: nat)
    requires Distinct(s)
    ensures SumAt(a, Active(s, b + 1)) == SumAt(a, Active(s, b)) + (if b in s then At(a, b) else 0)
    decreases |s|
  {
    hide SumAt;
    if s != [] {
      var n := |s| - 1;
      ActiveNext(a, s[..n], b);
      assert s == s[..n] + [s[n]];
      assert s[n] !in s[..n];
      assert b in s <==> b in s[..n] || b == s[n];
      var r0, r1 := Active(s[..n], b), Active(s[..n], b + 1);
      assert r0 + [] == r0 && r1 + [] == r1;
      SumPush(a, r0, s[n]);
      SumPush(a, r1, s[n]);
    } else {
      SumNone(a);
    }
  }

  /** Fathers first, with levels. */
  ghost predicate Tree(order: seq<nat>, d: seq<nat>, elems: nat)
  {
    && |order| % 2 == 1 && order[0] == elems + |order| / 2 - 1 && At(d, order[0]) == 0 && Distinct(order) && FathersFirst(order, elems)
    && forall i :: 1 <= i < |order| ==> order[i] < Dad(order, elems, i) && At(d, order[i]) == At(d, Dad(order, elems, i)) + 1
  }

  lemma {:induction false} Decreasing(order: seq<nat>, freq: seq<nat>, elems: nat, i: nat, j: nat)
    requires Weighted(order, elems, freq) && i <= j < |order|
    ensures At(freq, order[i]) >= At(freq, order[j])
    decreases j - i
  {
    if i < j { Decreasing(order, freq, elems, i, j - 1); }
  }

  lemma PairDads(order: seq<nat>, d: seq<nat>, elems: nat, j: nat)
    requires Tree(order, d, elems) && 2 * j + 3 <= |order|
    ensures var h, p := |order| - 2 * j - 2, elems + j; var n, m := order[h], order[h + 1];
            n < p && m < p && p in order[..h] && At(d, n) == At(d, m) == At(d, p) + 1
  {
    hide Distinct;
    var h, p := |order| - 2 * j - 2, elems + j;
    assert Dad(order, elems, h) == p && Dad(order, elems, h + 1) == p;
    var a :| 0 <= a < h && order[a] == Dad(order, elems, h);
    assert order[..h][a] == p;
  }

  lemma PairWeight(order: seq<nat>, freq: seq<nat>, elems: nat, j: nat)
    requires Weighted(order, elems, freq) && 2 * j + 3 <= |order|
    ensures var h := |order| - 2 * j - 2; var n, m := order[h], order[h + 1];
            && At(freq, elems + j) == At(freq, n) + At(freq, m) && At(freq, m) <= At(freq, n)
            && forall x :: x in order[..h] ==> At(freq, n) <= At(freq, x)
  {
    var h := |order| - 2 * j - 2;
    assert |order| - 1 - 2 * j == h + 1;
    forall x | x in order[..h]
      ensures At(freq, order[h]) <= At(freq, x)
    {
      var i :| 0 <= i < h && order[i] == x;
      Decreasing(order, freq, elems, i, h);
    }
  }

  lemma OnlyRoot(order: seq<nat>, freq: seq<nat>, d: seq<nat>, elems: nat)
    requires Tree(order, d, elems) && order[0] < |d|
    ensures SumAt(Spent(freq, d), Active(order[..1], elems + |order| / 2)) == 0
  {
    hide FathersFirst, Distinct;
    assert order[..1] == [] + [order[0]];
    ActivePush([], order[0], elems + |order| / 2);
    OneSum(Spent(freq, d), order[0]);
  }

  /** The pair may as well be the deepest. */
  lemma BestPair(freq: seq<nat>, e: seq<nat>, rest: seq<nat>, n: nat, m: nat, top: nat) returns (e': seq<nat>)
    requires Distinct(rest + [n, m]) && Prefix(e, rest + [n, m], top)
    requires At(freq, m) <= At(freq, n) && forall x :: x in rest ==> At(freq, n) <= At(freq, x)
    ensures |e'| == |e| && Prefix(e', rest + [n, m], top)
    ensures SumAt(Spent(freq, e'), rest + [n, m]) <= SumAt(Spent(freq, e), rest + [n, m])
    ensures n < |e'| && m < |e'| && e'[n] <= e'[m] <= top && forall i :: 0 <= i < |rest| ==> rest[i] < |e'| && e'[rest[i]] <= e'[n]
  {
    hide SumAt, Prefix, Spent, Distinct;
    var act := rest + [n, m];
    forall i | 0 <= i < |act| - 2
      ensures At(freq, act[|act| - 2]) <= At(freq, act[i])
    {
      assert act[i] == rest[i] && rest[i] in rest;
    }
    e' := Deepest(freq, e, act, top);
    PrefixRange(e', act, top);
    assert forall i :: 0 <= i < |rest| ==> act[i] == rest[i];
  }

  lemma PrefixRange(e: seq<nat>, act: seq<nat>, top: nat)
    requires Prefix(e, act, top)
    ensures forall i :: 0 <= i < |act| ==> act[i] < |e| && e[act[i]] <= top
  {
    hide SumAt;
  }

  lemma PairActive(order: seq<nat>, d: seq<nat>, elems: nat, j: nat)
    requires Tree(order, d, elems) && 2 * j + 3 <= |order|
    ensures var h, p := |order| - 2 * j - 2, elems + j; var rest := Active(order[..h], p);
            && Active(order[..|order| - 2 * j], p) == rest + [order[h], order[h + 1]]
            && Distinct(rest + [order[h], order[h + 1]]) && Distinct(order[..h])
            && forall x :: x in rest <==> x in order[..h] && x < p
  {
    hide FathersFirst, Active;
    var h, p := |order| - 2 * j - 2, elems + j;
    assert Dad(order, elems, h) == p && Dad(order, elems, h + 1) == p;
    ActivePush(order[..h], order[h], p);
    ActivePush(order[..h + 1], order[h + 1], p);
    assert order[..h + 1] == order[..h] + [order[h]];
    assert order[..h + 2] == order[..h + 1] + [order[h + 1]];
    ActiveIn(order[..h], p);
    ActiveIn(order[..h + 2], p);
  }

  /** The father takes the place of the pair. */
  lemma ActiveFather(order: seq<nat>, d: seq<nat>, elems: nat, j: nat, e: seq<nat>, top: nat)
    requires Tree(order, d, elems) && 2 * j + 3 <= |order|
    requires Prefix(e, Active(order[..|order| - 2 * j - 2], elems + j) + [elems + j], top)
    requires elems + j in order[..|order| - 2 * j - 2]
    ensures Prefix(e, Active(order[..|order| - 2 * (j + 1)], elems + j + 1), top)
  {
    hide SumAt, Active, Tree, Pow2, Distinct;
    var h, p := |order| - 2 * j - 2, elems + j;
    var s, rest := order[..h], Active(order[..h], p);
    PairActive(order, d, elems, j);
    ActiveIn(s, p);
    ActiveIn(s, p + 1);
    ActiveNext(Weights(e, top), s, p);
    SumPush(Weights(e, top), rest, p);
    var act := Active(s, p + 1);
    assert (rest + [p])[|rest|] == p;
    forall i | 0 <= i < |act|
      ensures act[i] < |e| && e[act[i]] <= top
    {
      assert act[i] in act;
      if act[i] != p {
        assert act[i] in rest;
        var k :| 0 <= k < |rest| && rest[k] == act[i];
        assert (rest + [p])[k] == act[i];
      }
    }
  }

  lemma BackToPair(freq: seq<nat>, d: seq<nat>, e: seq<nat>, rest: seq<nat>, n: nat, m: nat, p: nat)
    requires n < |d| && m < |d| && p < |d| && n < |e| && m < |e| && p < |e| && p !in rest
    requires At(freq, p) == At(freq, n) + At(freq, m) && d[n] == d[m] == d[p] + 1 && 0 < e[n] <= e[m]
    requires SumAt(Spent(freq, d), rest) + At(freq, p) * d[p] <=
             SumAt(Spent(freq, e[p := e[n] - 1]), rest) + At(freq, p) * (e[n] - 1)
    ensures SumAt(Spent(freq, d), rest + [n, m]) <= SumAt(Spent(freq, e), rest + [n, m])
  {
    hide SumAt;
    var e2 := e[p := e[n] - 1];
    SumSame(Spent(freq, e), Spent(freq, e2), rest);
    PairSum(freq, d, rest, n, m);
    PairSum(freq, e, rest, n, m);
    Shared(At(freq, n), At(freq, m), d[p] + 1);
    Shared(At(freq, n), At(freq, m), e[n]);
    Scale(e[n], e[m], At(freq, m));
  }

  lemma PairSum(freq: seq<nat>, d: seq<nat>, rest: seq<nat>, n: nat, m: nat)
    requires n < |d| && m < |d|
    ensures SumAt(Spent(freq, d), rest + [n, m]) == SumAt(Spent(freq, d), rest) + At(freq, n) * d[n] + At(freq, m) * d[m]
  {
    hide SumAt;
    SumPush(Spent(freq, d), rest, n);
    SumPush(Spent(freq, d), rest + [n], m);
    assert rest + [n, m] == rest + [n] + [m];
  }

  lemma Shared(a: nat, b: nat, x: nat)
    requires x > 0
    ensures (a + b) * (x - 1) + a + b == a * x + b * x
  {
  }

  /** After j nodes have been created, no lengths for the roots of the subtrees
      cost less than their levels. */
  lemma {:induction false} Best(order: seq<nat>, freq: seq<nat>, d: seq<nat>, elems: nat, j: nat, e: seq<nat>, top: nat)
    requires Tree(order, d, elems) && Weighted(order, elems, freq) && |order| % 2 == 1 && 2 * j + 1 <= |order|
    requires (forall i :: 0 <= i < |order| ==> order[i] < |d| && order[i] < |e|)
    requires Prefix(e, Active(order[..|order| - 2 * j], elems + j), top)
    ensures var act := Active(order[..|order| - 2 * j], elems + j);
            SumAt(Spent(freq, d), act) <= SumAt(Spent(freq, e), act)
    decreases |order| - 2 * j
  {
    hide SumAt, Active, Prefix, Tree, Weighted;
    if 2 * j + 1 == |order| {
      OnlyRoot(order, freq, d, elems);
    } else {
      var h, p := |order| - 2 * j - 2, elems + j;
      var n, m, rest := order[h], order[h + 1], Active(order[..h], p);
      PairDads(order, d, elems, j);
      PairWeight(order, freq, elems, j);
      PairActive(order, d, elems, j);
      assert forall x :: x in rest ==> x in order[..h];
      var e' := BestPair(freq, e, rest, n, m, top);
      Merge(e', rest, n, m, p, top);
      var e2 := e'[p := e'[n] - 1];
      ActiveFather(order, d, elems, j, e2, top);
      Best(order, freq, d, elems, j + 1, e2, top);
      ActiveNext(Spent(freq, d), order[..h], p);
      ActiveNext(Spent(freq, e2), order[..h], p);
      BackToPair(freq, d, e', rest, n, m, p);
    }
  }

  // ---------- the leaves ----------

  /** No lengths of a prefix code for syms cost less than d. */
  ghost predicate Cheapest(freq: seq<nat>, d: seq<nat>, syms: seq<nat>)
  {
    forall e: seq<nat>, top: nat :: Prefix(e, syms, top) ==> SumAt(Spent(freq, d), syms) <= SumAt(Spent(freq, e), syms)
  }

  lemma {:induction false} AllZero(a: seq<nat>, s: seq<nat>, i: nat)
    requires SumAt(a, s) == 0 && i < |s|
    ensures At(a, s[i]) == 0
    decreases |s|
  {
    if i < |s| - 1 { AllZero(a, s[..|s| - 1], i); }
  }

  /** If no father is at the limit the levels were not cut off. */
  lemma NotCut(order: seq<nat>, dad: seq<nat>, d: seq<nat>, elems: nat, leaves: multiset<nat>, max: nat)
    requires Shape(order, dad, elems, leaves) && Leaves(leaves, elems) && Leveled(order, d, elems, max, |order|)
    requires Inside(order, d, elems) && SumAt(AtLimit(d, max), DadsTo(order, elems, |order|)) == 0
    ensures Tree(order, d, elems)
  {
    hide SumAt, FathersFirst, Distinct;
    ShapeFacts(order, dad, elems, leaves);
    forall i | 1 <= i < |order|
      ensures order[i] < Dad(order, elems, i) && At(d, order[i]) == At(d, Dad(order, elems, i)) + 1
    {
      AllZero(AtLimit(d, max), DadsTo(order, elems, |order|), i - 1);
      LevelRange(order, d, elems, max, i);
    }
  }

  lemma {:induction false} ActiveCount(s: seq<nat>, bound: nat, x: nat)
    ensures multiset(Active(s, bound))[x] == if x < bound then multiset(s)[x] else 0
    decreases |s|
  {
    if s != [] {
      var n := |s| - 1;
      ActiveCount(s[..n], bound, x);
      assert s == s[..n] + [s[n]];
    }
  }

  lemma ActiveLeaves(order: seq<nat>, dad: seq<nat>, elems: nat, leaves: multiset<nat>)
    requires Shape(order, dad, elems, leaves) && Leaves(leaves, elems)
    ensures multiset(Active(order, elems)) == leaves
  {
    hide Active;
    forall x: nat
      ensures multiset(Active(order, elems))[x] == leaves[x]
    {
      ActiveCount(order, elems, x);
      InternalsOnce(elems, |leaves| - 1, x);
      assert x !in leaves ==> leaves[x] == 0;
    }
  }

  /** The lengths as a table over all nodes. */
  function Widened(e: seq<nat>, size: nat): (r: seq<nat>)
    ensures |r| == size && forall x :: 0 <= x < size ==> r[x] == At(e, x)
  {
    seq(size, x requires 0 <= x => At(e, x))
  }

  lemma SamePrefix(e: seq<nat>, e': seq<nat>, s: seq<nat>, t: seq<nat>, top: nat)
    requires Prefix(e, s, top) && multiset(s) == multiset(t)
    requires forall i :: 0 <= i < |s| ==> s[i] < |e'| && e'[s[i]] == At(e, s[i])
    ensures Prefix(e', t, top)
  {
    hide SumAt, Pow2;
    SumSame(Weights(e, top), Weights(e', top), s);
    SumPerm(Weights(e', top), s, t);
    forall i | 0 <= i < |t|
      ensures t[i] < |e'| && e'[t[i]] <= top
    {
      assert t[i] in multiset(t);
      assert t[i] in multiset(s);
      var k :| 0 <= k < |s| && s[k] == t[i];
    }
  }

  /** Huffman's theorem for the trees of build_tree(): lengths that were not cut off
      cost no more than those of any other prefix code. */
  lemma NoneCheaper(order: seq<nat>, dad: seq<nat>, freq: seq<nat>, d: seq<nat>, elems: nat, max: nat, syms: seq<nat>)
    requires Shape(order, dad, elems, multiset(syms)) && Leaves(multiset(syms), elems) && Weighted(order, elems, freq)
    requires Leveled(order, d, elems, max, |order|) && Inside(order, d, elems)
    requires SumAt(AtLimit(d, max), DadsTo(order, elems, |order|)) == 0
    ensures Cheapest(freq, d, syms)
  {
    hide Tree;
    NotCut(order, dad, d, elems, multiset(syms), max);
    TreeCheapest(order, dad, freq, d, elems, syms);
  }

  lemma TreeCheapest(order: seq<nat>, dad: seq<nat>, freq: seq<nat>, d: seq<nat>, elems: nat, syms: seq<nat>)
    requires Shape(order, dad, elems, multiset(syms)) && Leaves(multiset(syms), elems) && Weighted(order, elems, freq)
    requires Tree(order, d, elems) && Inside(order, d, elems)
    ensures Cheapest(freq, d, syms)
  {
    hide SumAt, Active, Prefix, Tree, Weighted, Leaves;
    ActiveLeaves(order, dad, elems, multiset(syms));
    var act := Active(order, elems);
    assert order[..|order| - 2 * 0] == order;
    forall e: seq<nat>, top: nat | Prefix(e, syms, top)
      ensures SumAt(Spent(freq, d), syms) <= SumAt(Spent(freq, e), syms)
    {
      var e' := Widened(e, |d|);
      PrefixRange(e, syms, top);
      ShapeRange(order, dad, d, elems, syms);
      SamePrefix(e, e', syms, act, top);
      Best(order, freq, d, elems, 0, e', top);
      SumPerm(Spent(freq, d), syms, act);
      SumPerm(Spent(freq, e'), syms, act);
      SumSame(Spent(freq, e), Spent(freq, e'), syms);
    }
  }

  lemma ShapeRange(order: seq<nat>, dad: seq<nat>, d: seq<nat>, elems: nat, syms: seq<nat>)
    requires Shape(order, dad, elems, multiset(syms)) && Inside(order, d, elems)
    ensures forall i :: 0 <= i < |syms| ==> syms[i] < |d|
    ensures |order| % 2 == 1
  {
    forall i | 0 <= i < |syms|
      ensures syms[i] < |d|
    {
      assert syms[i] in multiset(syms);
      assert syms[i] in multiset(order);
    }
  }

  // ---------- how heavy a tree must be to be cut off ----------

  function Fib(n: nat): nat { if n < 2 then n else Fib(n - 1) + Fib(n - 2) }

  /** Going up from node i, frequencies grow at least like Fibonacci numbers: the
      brother of the father is at least as frequent as the node. */
  lemma {:induction false} Climb(order: seq<nat>, freq: seq<nat>, d: seq<nat>, elems: nat, max: nat, i: nat, n: nat)
    returns (k: nat)
    requires Weighted(order, elems, freq) && Leveled(order, d, elems, max, |order|) && FathersFirst(order, elems)
    requires 1 <= i < |order| && Fib(n) <= At(freq, order[i]) && Fib(n + 1) <= At(freq, Dad(order, elems, i))
    ensures At(d, Dad(order, elems, i)) <= k && Fib(n + 1 + k) <= At(freq, order[0])
    decreases i
  {
    hide FathersFirst, Leveled, Weighted, Fib, Dad;
    var p := FatherAt(order, elems, i);
    if p == 0 {
      RootLevelZero(order, d, elems, max);
      k := 0;
    } else {
      BrotherHeavy(order, freq, elems, p, i);
      FibNext(n);
      k := Climb(order, freq, d, elems, max, p, n + 1);
      LevelAbove(order, d, elems, max, p);
      k := k + 1;
    }
  }

  lemma FibNext(n: nat)
    ensures Fib(n + 2) == Fib(n + 1) + Fib(n)
  {
  }

  lemma FatherAt(order: seq<nat>, elems: nat, i: nat) returns (p: nat)
    requires FathersFirst(order, elems) && 1 <= i < |order|
    ensures p < i && order[p] == Dad(order, elems, i)
  {
    p :| 0 <= p < i && order[p] == Dad(order, elems, i);
  }

  lemma RootLevelZero(order: seq<nat>, d: seq<nat>, elems: nat, max: nat)
    requires Leveled(order, d, elems, max, |order|)
    ensures At(d, order[0]) == 0
  {
  }

  lemma LevelAbove(order: seq<nat>, d: seq<nat>, elems: nat, max: nat, p: nat)
    requires Leveled(order, d, elems, max, |order|) && 1 <= p < |order|
    ensures At(d, order[p]) <= At(d, Dad(order, elems, p)) + 1
  {
  }

  lemma BrotherHeavy(order: seq<nat>, freq: seq<nat>, elems: nat, p: nat, i: nat)
    requires Weighted(order, elems, freq) && 1 <= p < i < |order|
    ensures At(freq, Dad(order, elems, p)) >= At(freq, order[p]) + At(freq, order[i])
  {
    var j := (|order| - 1 - p) / 2;
    var b := if p == |order| - 1 - 2 * j then p - 1 else p + 1;
    Decreasing(order, freq, elems, b, i);
  }

  /** A tree is only cut off at max if its frequencies together are a Fibonacci number. */
  lemma CutIsHeavy(order: seq<nat>, dad: seq<nat>, freq: seq<nat>, d: seq<nat>, elems: nat, max: nat, syms: seq<nat>)
    requires Shape(order, dad, elems, multiset(syms)) && Leaves(multiset(syms), elems) && Weighted(order, elems, freq)
    requires |order| > 1 && Leveled(order, d, elems, max, |order|) && Inside(order, d, elems)
    requires forall i :: 0 <= i < |syms| ==> At(freq, syms[i]) > 0
    ensures SumAt(AtLimit(d, max), DadsTo(order, elems, |order|)) > 0 ==> Fib(max + 3) <= At(freq, order[0])
  {
    hide SumAt, Leveled, Weighted, Distinct, Leaves, Dad, FathersFirst, Shape, Fib, AtLimit;
    if SumAt(AtLimit(d, max), DadsTo(order, elems, |order|)) > 0 {
      var i := SomePositive(AtLimit(d, max), DadsTo(order, elems, |order|));
      LimitLevel(d, max, Dad(order, elems, i + 1));
      HeavyNode(order, dad, freq, d, elems, max, syms, i + 1);
    }
  }

  lemma HeavyNode(order: seq<nat>, dad: seq<nat>, freq: seq<nat>, d: seq<nat>, elems: nat, max: nat, syms: seq<nat>, i: nat)
    requires Shape(order, dad, elems, multiset(syms)) && Leaves(multiset(syms), elems) && Weighted(order, elems, freq)
    requires Leveled(order, d, elems, max, |order|) && 1 <= i < |order| && At(d, Dad(order, elems, i)) == max
    requires forall k :: 0 <= k < |syms| ==> At(freq, syms[k]) > 0
    ensures Fib(max + 3) <= At(freq, order[0])
  {
    hide Leveled, Weighted, Distinct, Leaves, Dad, FathersFirst, Shape, Fib;
    ShapeFacts(order, dad, elems, multiset(syms));
    AllPositive(order, dad, freq, elems, syms, i);
    FibSmall();
    var k := Climb(order, freq, d, elems, max, i, 2);
    FibMono(max + 3, k + 3);
  }

  lemma LimitLevel(d: seq<nat>, max: nat, x: nat)
    requires At(AtLimit(d, max), x) > 0
    ensures At(d, x) == max
  {
  }

  lemma {:induction false} SomePositive(a: seq<nat>, s: seq<nat>) returns (i: nat)
    requires SumAt(a, s) > 0
    ensures i < |s| && At(a, s[i]) > 0
    decreases |s|
  {
    i := |s| - 1;
    if At(a, s[i]) == 0 { i := SomePositive(a, s[..i]); }
  }

  lemma FibSmall()
    ensures Fib(2) == 1 && Fib(3) == 2
  {
  }

  lemma {:induction false} FibMono(a: nat, b: nat)
    requires 1 <= a <= b
    ensures Fib(a) <= Fib(b)
    decreases b
  {
    if a < b { FibMono(a, b - 1); }
  }

  /** Every node occurs, and a father at least twice. */
  lemma AllPositive(order: seq<nat>, dad: seq<nat>, freq: seq<nat>, elems: nat, syms: seq<nat>, i: nat)
    requires Shape(order, dad, elems, multiset(syms)) && Leaves(multiset(syms), elems) && Weighted(order, elems, freq)
    requires (forall k :: 0 <= k < |syms| ==> At(freq, syms[k]) > 0) && 1 <= i < |order|
    ensures At(freq, order[i]) >= 1 && At(freq, Dad(order, elems, i)) >= 2
  {
    var last := |order| - 1;
    LastIsLeaf(order, dad, elems, syms);
    assert order[last] in multiset(syms);
    var s :| 0 <= s < |syms| && syms[s] == order[last];
    var j := (last - i) / 2;
    Decreasing(order, freq, elems, i, last);
    Decreasing(order, freq, elems, last - 2 * j, last);
    Decreasing(order, freq, elems, last - 1 - 2 * j, last);
  }

  lemma LastIsLeaf(order: seq<nat>, dad: seq<nat>, elems: nat, syms: seq<nat>)
    requires Shape(order, dad, elems, multiset(syms)) && Leaves(multiset(syms), elems)
    ensures order[|order| - 1] in multiset(syms)
  {
    var x := order[|order| - 1];
    InternalsOnce(elems, |multiset(syms)| - 1, x);
    assert x in multiset(order);
  }
}
