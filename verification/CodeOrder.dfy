/** The order in which inflate_table visits symbols: by length, and by symbol
    value within a length.  In that order the code intervals are adjacent. */
module CodeOrder {
  import opened Bits
  import opened HuffmanCode

  /** Number of symbols with a length in 1..L-1. */
  function Offs(lens: Lengths, L: nat): nat
  {
    if L <= 1 then 0 else Offs(lens, L - 1) + Total(lens, L - 1)
  }

  function Position(lens: Lengths, s: nat): nat
    requires Used(lens, s)
  {
    Offs(lens, lens[s]) + Count(lens, s, lens[s])
  }

  function UsedCount(lens: Lengths): nat { Offs(lens, MAXBITS + 1) }

  ghost predicate At(lens: Lengths, s: nat, k: nat)
  {
    Used(lens, s) && Position(lens, s) == k
  }

  lemma {:induction false} OffsMono(lens: Lengths, a: nat, b: nat)
    requires a <= b
    ensures Offs(lens, a) <= Offs(lens, b)
    decreases b
  {
    if a < b { OffsMono(lens, a, b - 1); }
  }

  lemma PositionBound(lens: Lengths, s: nat)
    requires Used(lens, s)
    ensures Offs(lens, lens[s]) <= Position(lens, s) < Offs(lens, lens[s] + 1) <= UsedCount(lens)
  {
    CountMono(lens, s, |lens|, lens[s]);
    OffsMono(lens, lens[s] + 1, MAXBITS + 1);
  }

  lemma PositionUnique(lens: Lengths, s: nat, t: nat)
    requires Used(lens, s) && Used(lens, t) && Position(lens, s) == Position(lens, t)
    ensures s == t
  {
    PositionBound(lens, s);
    PositionBound(lens, t);
    if lens[s] < lens[t] {
      OffsMono(lens, lens[s] + 1, lens[t]);
    } else if lens[t] < lens[s] {
      OffsMono(lens, lens[t] + 1, lens[s]);
    } else if s < t {
      CountMono(lens, s, t, lens[s]);
    } else if t < s {
      CountMono(lens, t, s, lens[s]);
    }
  }

  lemma {:induction false} AtExists(lens: Lengths, L: nat, k: nat) returns (s: nat)
    requires L <= MAXBITS + 1 && k < Offs(lens, L)
    ensures At(lens, s, k)
  {
    if k < Offs(lens, L - 1) {
      s := AtExists(lens, L - 1, k);
    } else {
      s := Nth(lens, |lens|, L - 1, k - Offs(lens, L - 1));
    }
  }

  lemma SomeAt(lens: Lengths, k: nat)
    requires k < UsedCount(lens)
    ensures exists s :: At(lens, s, k)
  {
    var s := AtExists(lens, MAXBITS + 1, k);
  }

  /** The symbol visited as number k. */
  ghost function SymAt(lens: Lengths, k: nat): (s: nat)
    requires k < UsedCount(lens)
    ensures At(lens, s, k)
  {
    SomeAt(lens, k);
    var s :| At(lens, s, k);
    s
  }

  lemma SymAtIs(lens: Lengths, s: nat)
    requires Used(lens, s)
    ensures Position(lens, s) < UsedCount(lens) && SymAt(lens, Position(lens, s)) == s
  {
    PositionBound(lens, s);
    PositionUnique(lens, s, SymAt(lens, Position(lens, s)));
  }

  /** Lengths do not decrease along the order, and earlier symbols come first. */
  lemma OrderSorted(lens: Lengths, j: nat, k: nat)
    requires j < k < UsedCount(lens)
    ensures lens[SymAt(lens, j)] <= lens[SymAt(lens, k)]
    ensures Start(lens, SymAt(lens, j)) + Width(lens[SymAt(lens, j)]) <= Start(lens, SymAt(lens, k))
  {
    var s, t := SymAt(lens, j), SymAt(lens, k);
    PositionBound(lens, s);
    PositionBound(lens, t);
    if lens[t] < lens[s] {
      OffsMono(lens, lens[t] + 1, lens[s]);
    } else {
      if lens[s] == lens[t] && t <= s { CountMono(lens, t, s, lens[s]); }
      Apart(lens, s, t);
    }
  }

  lemma {:induction false} SameOffsSameBelow(lens: Lengths, a: nat, b: nat)
    requires 1 <= a <= b <= MAXBITS + 1 && Offs(lens, a) == Offs(lens, b)
    ensures Below(lens, a) == Below(lens, b)
    decreases b
  {
    if a < b {
      OffsMono(lens, a, b - 1);
      SameOffsSameBelow(lens, a, b - 1);
      ShlOne(MAXBITS + 1 - b);
    }
  }

  /** Each interval starts where the previous one ends. */
  lemma NextStart(lens: Lengths, k: nat)
    requires k + 1 < UsedCount(lens)
    ensures Start(lens, SymAt(lens, k + 1)) ==
            Start(lens, SymAt(lens, k)) + Width(lens[SymAt(lens, k)])
  {
    hide Pow2, UsedCount, FirstCode;
    var s, t := SymAt(lens, k), SymAt(lens, k + 1);
    var l := lens[s];
    PositionBound(lens, s);
    PositionBound(lens, t);
    StartSplit(lens, s);
    StartSplit(lens, t);
    OrderSorted(lens, k, k + 1);
    ShlAdd(Count(lens, s, l), 1, MAXBITS - l);
    ShlOne(MAXBITS - l);
    if lens[t] > l {
      OffsMono(lens, l + 1, lens[t]);
      ShlOne(MAXBITS - lens[t]);
      SameOffsSameBelow(lens, l + 1, lens[t]);
    }
  }

  lemma FirstStart(lens: Lengths)
    requires UsedCount(lens) > 0
    ensures Start(lens, SymAt(lens, 0)) == 0
  {
    var s := SymAt(lens, 0);
    StartSplit(lens, s);
    ShlOne(MAXBITS - lens[s]);
    OffsMono(lens, 1, lens[s]);
    SameOffsSameBelow(lens, 1, lens[s]);
  }

  lemma LastEnd(lens: Lengths)
    requires UsedCount(lens) > 0
    ensures var s := SymAt(lens, UsedCount(lens) - 1);
            Start(lens, s) + Width(lens[s]) == Kraft(lens)
  {
    var s := SymAt(lens, UsedCount(lens) - 1);
    var l := lens[s];
    PositionBound(lens, s);
    StartSplit(lens, s);
    ShlAdd(Count(lens, s, l), 1, MAXBITS - l);
    ShlOne(MAXBITS - l);
    SameOffsSameBelow(lens, l + 1, MAXBITS + 1);
  }
}
