/** Frequencies for which only one code is cheapest: build_tree() of
    deps/zlib/trees.c finds it whenever it respects the limit, however heavy the
    tree is. */
module SoleCode {
  import opened Bits
  import opened PriorityHeap
  import opened Sums
  import opened HuffmanTree
  import opened BitLengths
  import opened LengthLimit
  import opened Optimal

  predicate Differ(e: seq<nat>, g: seq<nat>, syms: seq<nat>)
  {
    exists i :: 0 <= i < |syms| && At(e, syms[i]) != At(g, syms[i])
  }

  /** The lengths g respect the limit, and all others cost more. */
  ghost predicate Sole(freq: seq<nat>, g: seq<nat>, syms: seq<nat>, max: nat)
  {
    && Prefix(g, syms, max) && (forall i :: 0 <= i < |syms| ==> At(g, syms[i]) > 0)
    && forall e: seq<nat>, top: nat :: Prefix(e, syms, top) && Differ(e, g, syms) ==>
         SumAt(Spent(freq, g), syms) < SumAt(Spent(freq, e), syms)
  }

  ghost predicate NoSole(freq: seq<nat>, syms: seq<nat>, max: nat)
  {
    forall g: seq<nat> :: !Sole(freq, g, syms, max)
  }

  // ---------- levels without a limit ----------

  /** The first i nodes have their levels in u. */
  ghost predicate Free(order: seq<nat>, u: seq<nat>, elems: nat, i: nat)
  {
    && 1 <= i <= |order| && At(u, order[0]) == 0
    && (forall j :: 1 <= j < i ==> At(u, order[j]) == At(u, Dad(order, elems, j)) + 1)
    && forall j :: 0 <= j < i ==> At(u, order[j]) <= j
  }

  lemma {:induction false} FreeLevels(order: seq<nat>, elems: nat, size: nat, i: nat) returns (u: seq<nat>)
    requires Distinct(order) && FathersFirst(order, elems) && 1 <= i <= |order|
    requires forall k :: 0 <= k < |order| ==> order[k] < size
    ensures |u| == size && Free(order, u, elems, i)
    decreases i
  {
    hide FathersFirst, Dad, Free, Distinct;
    if i == 1 {
      u := seq(size, k => 0);
      RootFree(order, u, elems);
    } else {
      var v := FreeLevels(order, elems, size, i - 1);
      var p := FatherAt(order, elems, i - 1);
      u := v[order[i - 1] := v[order[p]] + 1];
      SetLevel(order, v, elems, i - 1, p);
    }
  }

  lemma RootFree(order: seq<nat>, u: seq<nat>, elems: nat)
    requires order != [] && At(u, order[0]) == 0
    ensures Free(order, u, elems, 1)
  {
  }

  lemma SetLevel(order: seq<nat>, v: seq<nat>, elems: nat, i: nat, p: nat)
    requires Distinct(order) && FathersFirst(order, elems) && 1 <= i < |order| && Free(order, v, elems, i)
    requires (forall k :: 0 <= k < |order| ==> order[k] < |v|) && p < i && order[p] == Dad(order, elems, i)
    ensures Free(order, v[order[i] := v[order[p]] + 1], elems, i + 1)
  {
    hide FathersFirst, Dad;
    var u := v[order[i] := v[order[p]] + 1];
    forall j | 0 <= j < i
      ensures At(u, order[j]) == At(v, order[j]) <= j
      ensures j >= 1 ==> At(u, order[j]) == At(u, Dad(order, elems, j)) + 1
    {
      if j >= 1 {
        var q := FatherAt(order, elems, j);
      }
    }
  }

  lemma FreeStep(order: seq<nat>, u: seq<nat>, elems: nat, j: nat)
    requires Free(order, u, elems, |order|) && j < |order|
    ensures At(u, order[j]) <= j && (j >= 1 ==> At(u, order[j]) == At(u, Dad(order, elems, j)) + 1)
  {
  }

  /** Free levels are levels under a limit that is never reached. */
  lemma FreeLeveled(order: seq<nat>, u: seq<nat>, elems: nat)
    requires Free(order, u, elems, |order|) && FathersFirst(order, elems) && Inside(order, u, elems)
    ensures Leveled(order, u, elems, |order|, |order|)
    ensures SumAt(AtLimit(u, |order|), DadsTo(order, elems, |order|)) == 0
  {
    hide SumAt, FathersFirst;
    var dads := DadsTo(order, elems, |order|);
    forall j | 0 <= j < |dads|
      ensures At(AtLimit(u, |order|), dads[j]) == 0
    {
      var p := FatherAt(order, elems, j + 1);
      FreeStep(order, u, elems, p);
    }
    ZeroSum(AtLimit(u, |order|), dads);
  }

  /** The levels under a limit are the free ones, cut off. */
  lemma {:induction false} CutOffAt(order: seq<nat>, u: seq<nat>, d: seq<nat>, elems: nat, max: nat, i: nat)
    requires Free(order, u, elems, |order|) && Leveled(order, d, elems, max, |order|) && FathersFirst(order, elems) && i < |order|
    ensures At(d, order[i]) == Min(At(u, order[i]), max)
    decreases i
  {
    hide FathersFirst, Dad;
    if i > 0 {
      var p := FatherAt(order, elems, i);
      CutOffAt(order, u, d, elems, max, p);
      FreeStep(order, u, elems, i);
    }
  }

  /** Below a node there is a leaf that is at least as deep. */
  lemma {:induction false} DeepLeaf(order: seq<nat>, dad: seq<nat>, u: seq<nat>, elems: nat, syms: seq<nat>, i: nat) returns (x: nat)
    requires Shape(order, dad, elems, multiset(syms)) && Leaves(multiset(syms), elems) && Free(order, u, elems, |order|) && i < |order|
    ensures x in syms && At(u, x) >= At(u, order[i])
    decreases |order| - i
  {
    hide Free;
    ShapeFacts(order, dad, elems, multiset(syms));
    var size := |multiset(syms)|;
    InternalsOnce(elems, size - 1, order[i]);
    assert order[i] in multiset(order);
    if order[i] < elems {
      x := order[i];
      assert x in multiset(syms);
    } else {
      var j := order[i] - elems;
      var k := |order| - 1 - 2 * j;
      assert Dad(order, elems, k) == order[i];
      var p := FatherAt(order, elems, k);
      FreeStep(order, u, elems, k);
      x := DeepLeaf(order, dad, u, elems, syms, k);
    }
  }

  // ---------- the one code ----------

  lemma FreeCheapest(order: seq<nat>, dad: seq<nat>, freq: seq<nat>, u: seq<nat>, elems: nat, syms: seq<nat>)
    requires Shape(order, dad, elems, multiset(syms)) && Leaves(multiset(syms), elems) && Weighted(order, elems, freq)
    requires Free(order, u, elems, |order|) && Inside(order, u, elems)
    ensures Cheapest(freq, u, syms) && Prefix(u, syms, |order|)
  {
    hide SumAt, Leaves, Weighted, Shape, Cheapest, Leveled, Free, Distinct, FathersFirst, Pow2;
    ShapeFacts(order, dad, elems, multiset(syms));
    FreeLeveled(order, u, elems);
    NoneCheaper(order, dad, freq, u, elems, |order|, syms);
    LeavesWeight(order, u, elems, |order|, syms, dad, 0);
    ShapeRange(order, dad, u, elems, syms);
    forall i | 0 <= i < |syms|
      ensures u[syms[i]] <= |order|
    {
      LeafBelow(order, dad, u, elems, syms, i);
    }
  }

  lemma LeafBelow(order: seq<nat>, dad: seq<nat>, u: seq<nat>, elems: nat, syms: seq<nat>, i: nat)
    requires Shape(order, dad, elems, multiset(syms)) && Free(order, u, elems, |order|) && i < |syms|
    ensures At(u, syms[i]) <= |order|
  {
    assert syms[i] in multiset(syms);
    assert syms[i] in multiset(order);
    var p :| 0 <= p < |order| && order[p] == syms[i];
  }

  /** If the one cheapest code respects the limit, no level is cut off. */
  lemma SoleUncut(order: seq<nat>, dad: seq<nat>, freq: seq<nat>, d: seq<nat>, elems: nat, max: nat, syms: seq<nat>, g: seq<nat>)
    requires Shape(order, dad, elems, multiset(syms)) && Leaves(multiset(syms), elems) && Weighted(order, elems, freq)
    requires Leveled(order, d, elems, max, |order|) && Inside(order, d, elems) && Sole(freq, g, syms, max)
    ensures SumAt(AtLimit(d, max), DadsTo(order, elems, |order|)) == 0
  {
    hide SumAt, Leaves, Weighted, Shape, Cheapest, Leveled, Free, Distinct, FathersFirst, Prefix, Dad;
    ShapeFacts(order, dad, elems, multiset(syms));
    ThreeNodes(order, dad, elems, multiset(syms));
    var u := FreeLevels(order, elems, |d|, |order|);
    FreeCheapest(order, dad, freq, u, elems, syms);
    SameAsSole(freq, u, g, syms, max, |order|);
    var dads := DadsTo(order, elems, |order|);
    forall j | 0 <= j < |dads|
      ensures At(AtLimit(d, max), dads[j]) == 0
    {
      HighFather(order, dad, u, d, elems, max, syms, g, j + 1);
    }
    ZeroSum(AtLimit(d, max), dads);
  }

  lemma CutNoSole(order: seq<nat>, dad: seq<nat>, freq: seq<nat>, d: seq<nat>, elems: nat, max: nat, syms: seq<nat>)
    requires Shape(order, dad, elems, multiset(syms)) && Leaves(multiset(syms), elems) && Weighted(order, elems, freq)
    requires Leveled(order, d, elems, max, |order|) && Inside(order, d, elems)
    ensures SumAt(AtLimit(d, max), DadsTo(order, elems, |order|)) > 0 ==> NoSole(freq, syms, max)
  {
    hide SumAt, Leaves, Weighted, Shape, Leveled, Sole, Inside, AtLimit;
    ThreeNodes(order, dad, elems, multiset(syms));
    forall g: seq<nat>
      ensures Sole(freq, g, syms, max) ==> SumAt(AtLimit(d, max), DadsTo(order, elems, |order|)) == 0
    {
      if Sole(freq, g, syms, max) { SoleUncut(order, dad, freq, d, elems, max, syms, g); }
    }
  }

  /** The same frequencies for the symbols that count. */
  lemma SameSole(freq: seq<nat>, f: seq<nat>, g: seq<nat>, syms: seq<nat>, max: nat)
    requires Sole(freq, g, syms, max) && forall i :: 0 <= i < |syms| ==> At(f, syms[i]) == At(freq, syms[i])
    ensures Sole(f, g, syms, max)
  {
    hide SumAt, Prefix, Differ;
    PrefixRange(g, syms, max);
    SumSame(Spent(f, g), Spent(freq, g), syms);
    forall e: seq<nat>, top: nat | Prefix(e, syms, top) && Differ(e, g, syms)
      ensures SumAt(Spent(f, g), syms) < SumAt(Spent(f, e), syms)
    {
      PrefixRange(e, syms, top);
      SumSame(Spent(f, e), Spent(freq, e), syms);
    }
  }

  lemma SameNoSole(freq: seq<nat>, f: seq<nat>, syms: seq<nat>, max: nat)
    requires NoSole(f, syms, max) && forall i :: 0 <= i < |syms| ==> At(f, syms[i]) == At(freq, syms[i])
    ensures NoSole(freq, syms, max)
  {
    hide Sole;
    forall g: seq<nat> | Sole(freq, g, syms, max)
      ensures Sole(f, g, syms, max)
    {
      SameSole(freq, f, g, syms, max);
    }
  }

  lemma SameAsSole(freq: seq<nat>, u: seq<nat>, g: seq<nat>, syms: seq<nat>, max: nat, top: nat)
    requires Sole(freq, g, syms, max) && Cheapest(freq, u, syms) && Prefix(u, syms, top)
    ensures !Differ(u, g, syms)
  {
    hide Prefix, SumAt;
  }

  /** A father is above some leaf, and no leaf is below the limit. */
  lemma HighFather(order: seq<nat>, dad: seq<nat>, u: seq<nat>, d: seq<nat>, elems: nat, max: nat, syms: seq<nat>, g: seq<nat>, i: nat)
    requires Shape(order, dad, elems, multiset(syms)) && Leaves(multiset(syms), elems) && Free(order, u, elems, |order|)
    requires Leveled(order, d, elems, max, |order|) && Prefix(g, syms, max) && !Differ(u, g, syms)
    requires 1 <= i < |order|
    ensures At(d, Dad(order, elems, i)) < max
  {
    hide Shape, Leaves, Free, Leveled, SumAt, Dad;
    ShapeFacts(order, dad, elems, multiset(syms));
    var p := FatherAt(order, elems, i);
    CutOffAt(order, u, d, elems, max, p);
    FreeStep(order, u, elems, i);
    var x := DeepLeaf(order, dad, u, elems, syms, i);
    var k :| 0 <= k < |syms| && syms[k] == x;
    assert At(u, syms[k]) == At(g, syms[k]);
  }
}
