/** The lengths of build_tree() (deps/zlib/trees.c) against those of any other
    code that could be described in a block. */
module CheapestCode {
  import opened Bits
  import opened HuffmanCode
  import opened PriorityHeap
  import opened Sums
  import opened BitLengths
  import opened LengthLimit
  import opened Optimal
  import opened SoleCode
  import opened BuildTree

  // ---------- room of a code ----------

  function Totals(e: Lengths): (bl: seq<nat>)
    ensures |bl| == MAXBITS + 1 && bl[0] == 0 && forall b :: 1 <= b <= MAXBITS ==> bl[b] == Total(e, b)
  {
    seq(MAXBITS + 1, b requires 0 <= b => if b == 0 then 0 else Total(e, b))
  }

  /** The room of a code, length by length or symbol by symbol. */
  lemma KraftSum(e: Lengths)
    requires InRange(e)
    ensures SumAt(Weights(e, MAXBITS), Symbols(e, |e|)) == Kraft(e)
  {
    hide SumAt, Symbols, Total, Pow2, Room, Below;
    var syms, bl := Symbols(e, |e|), Totals(e);
    SymbolsRange(e, |e|);
    NoneAt(e, |e|, syms, MAXBITS);
    assert e[..|e|] == e;
    forall b | 1 <= b <= MAXBITS
      ensures bl[b] == SumAt(Marks(e, |e|, b), syms)
    {
      TotalIs(e, e, |e|, MAXBITS, b);
    }
    CountsRoom(e, |e|, syms, bl, MAXBITS);
    RoomIsBelow(e, bl, MAXBITS, MAXBITS + 1);
  }

  lemma {:induction false} SumUpto(a: seq<nat>, n: nat, m: nat)
    requires n <= m && forall x :: n <= x < m ==> At(a, x) == 0
    ensures SumAt(a, Upto(m)) == SumAt(a, Upto(n))
    decreases m
  {
    hide SumAt;
    if n < m {
      SumUpto(a, n, m - 1);
      UptoNext(m - 1);
      SumPush(a, Upto(m - 1), m - 1);
    }
  }

  /** The entries of those symbols below top that occur. */
  function Masked(a: seq<nat>, f: seq<nat>, top: nat): (t: seq<nat>)
    ensures |t| == |a| && forall x :: 0 <= x < |a| ==> t[x] == if x < top && At(f, x) > 0 then a[x] else 0
  {
    seq(|a|, x requires 0 <= x < |a| => if x < top && At(f, x) > 0 then a[x] else 0)
  }

  /** Every symbol below top that occurs has a length. */
  predicate Covers(e: seq<nat>, f: seq<nat>, top: nat)
  {
    forall x :: 0 <= x < top && At(f, x) > 0 ==> At(e, x) > 0
  }

  /** Some of the symbols of a code take no more room than all of them. */
  lemma PartOfCode(e: Lengths, f: seq<nat>, top: nat)
    requires InRange(e) && Kraft(e) <= Pow2(MAXBITS) && Covers(e, f, top)
    ensures Prefix(e, Symbols(f, top), MAXBITS)
  {
    hide SumAt, Symbols, Pow2, Kraft;
    var w, m := Weights(e, MAXBITS), Masked(Weights(e, MAXBITS), f, top);
    SymbolsRange(f, top);
    SymbolsRange(e, |e|);
    KraftSum(e);
    SumSame(w, m, Symbols(f, top));
    SymbolsSum(f, m, top);
    if top <= |e| { SumUpto(m, top, |e|); } else { SumUpto(m, |e|, top); }
    SymbolsSum(e, m, |e|);
    SumMono(m, w, Symbols(e, |e|));
  }

  // ---------- cost ----------

  /** The extra bits of all symbols. */
  function Extras(f: seq<nat>, extra: seq<nat>, base: nat, n: nat): (t: seq<nat>)
    ensures |t| == n && forall x :: 0 <= x < n ==> t[x] == At(f, x) * XBits(extra, base, x)
  {
    seq(n, x requires 0 <= x => At(f, x) * XBits(extra, base, x))
  }

  lemma CostSplit(f: seq<nat>, d: seq<nat>, extra: seq<nat>, base: nat, top: nat)
    requires top <= |d|
    ensures Cost(f, d, extra, base, top) ==
            SumAt(Spent(f, d), Symbols(f, top)) + SumAt(Extras(f, extra, base, top), Symbols(f, top))
  {
    hide SumAt, Symbols, XBits, Cost;
    CostOfSymbols(f, d, extra, base, top);
    SymbolsRange(f, top);
    forall i | 0 <= i < |Symbols(f, top)|
      ensures var x := Symbols(f, top)[i];
              At(Costs(f, d, extra, base, top), x) == At(Spent(f, d), x) + At(Extras(f, extra, base, top), x)
    {
      Distribute(At(f, Symbols(f, top)[i]), d[Symbols(f, top)[i]], XBits(extra, base, Symbols(f, top)[i]));
    }
    SumAdd(Spent(f, d), Extras(f, extra, base, top), Costs(f, d, extra, base, top), Symbols(f, top));
  }

  lemma Distribute(f: nat, a: nat, b: nat)
    ensures f * (a + b) == f * a + f * b
  {
  }

  /** No symbol occurs from the lesser of two bounds on. */
  lemma SameSymbols(f: seq<nat>, top: nat, top': nat)
    requires forall x: nat :: At(f, x) > 0 && (x < top || x < top') ==> x < top && x < top'
    ensures Symbols(f, top) == Symbols(f, top')
  {
    if top <= top' { SymbolsEnd(f, top, top'); } else { SymbolsEnd(f, top', top); }
  }

  /** Lengths that are cheapest cost no more than any that a block could describe. */
  lemma OneCheapest(f: seq<nat>, d: Lengths, e: Lengths, extra: seq<nat>, base: nat, top: nat, top': nat)
    requires CheapestFor(f, d, top) && top <= |d| && top' <= |e| && InRange(e) && Kraft(e) <= Pow2(MAXBITS)
    requires forall x: nat :: At(f, x) > 0 && (x < top || x < top') ==> x < top && x < top' && At(e, x) > 0
    ensures Cost(f, d, extra, base, top) <= Cost(f, e, extra, base, top')
  {
    hide SumAt, Symbols, Cost, XBits, Kraft, Pow2, Prefix;
    SameSymbols(f, top, top');
    SymbolsRange(f, top);
    PartOfCode(e, f, top);
    CostSplit(f, d, extra, base, top);
    CostSplit(f, e, extra, base, top');
    SumSame(Extras(f, extra, base, top), Extras(f, extra, base, top'), Symbols(f, top));
  }

  // ---------- the only cheapest code ----------

  /** If only one code is cheapest, and respects the limit, the lengths are its. */
  ghost predicate SoleFound(freq: seq<nat>, lens: Lengths, n: nat, max: nat)
  {
    |Symbols(freq, n)| >= 2 ==> forall g: seq<nat> :: Sole(freq, g, Symbols(freq, n), max) ==> !Differ(lens, g, Symbols(freq, n))
  }

  lemma {:induction false} SymbolsSame(f: seq<nat>, g: seq<nat>, n: nat)
    requires forall x :: 0 <= x < n ==> At(f, x) == At(g, x)
    ensures Symbols(f, n) == Symbols(g, n)
  {
    if n > 0 { SymbolsSame(f, g, n - 1); }
  }

  lemma SameSoleFound(f: seq<nat>, g: seq<nat>, lens: Lengths, n: nat, max: nat)
    requires SoleFound(f, lens, n, max) && forall x :: 0 <= x < n ==> At(f, x) == At(g, x)
    ensures SoleFound(g, lens, n, max)
  {
    hide Symbols, Sole, Differ;
    SymbolsSame(f, g, n);
    var syms := Symbols(f, n);
    SymbolsRange(f, n);
    forall e: seq<nat> | Sole(g, e, syms, max)
      ensures Sole(f, e, syms, max)
    {
      SameSole(g, f, e, syms, max);
    }
  }

  lemma SoleIsFound(freq: seq<nat>, lens: Lengths, n: nat, max: nat, cut: nat)
    requires |lens| <= n && InRange(lens) && Kraft(lens) <= Pow2(MAXBITS)
    requires forall x :: 0 <= x < n && At(freq, x) > 0 ==> x < |lens| && lens[x] > 0
    requires if cut == 0 then CheapestFor(freq, lens, |lens|) else |Symbols(freq, n)| >= 2 ==> NoSole(freq, Symbols(freq, n), max)
    ensures SoleFound(freq, lens, n, max)
  {
    hide SumAt, Symbols, Prefix, Differ, Kraft, Pow2;
    var syms := Symbols(freq, n);
    SymbolsEnd(freq, |lens|, n);
    SymbolsRange(freq, |lens|);
    PartOfCode(lens, freq, |lens|);
    if cut == 0 {
      forall g: seq<nat> | Sole(freq, g, syms, max)
        ensures !Differ(lens, g, syms)
      {
        assert Prefix(g, syms, max);
      }
    }
  }
}
