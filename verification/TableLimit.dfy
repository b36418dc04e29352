/** A complete distance code that inflate_table() (deps/zlib/inftrees.c) refuses:
    its table needs all 592 entries there are, and the code tests for >= 592. */
module TableLimit {
  import opened Bits
  import opened HuffmanCode
  import opened CodeOrder
  import opened TableTheory
  import opened InflateTable
  import opened Tokens

  /** Thirty distance symbols, one code each of 1, 2, 3, 4, 7 and 10 to 14 bits, nine
      of 8 and of 9 bits, and two of 15. */
  function Greedy(): (lens: Lengths)
    ensures |lens| == 30
  {
    [1, 2, 3, 4, 7, 8, 8, 8, 8, 8, 8, 8, 8, 8, 9, 9, 9, 9, 9, 9, 9, 9, 9, 10, 11, 12, 13, 14, 15, 15]
  }

  function Codes(l: nat): nat
  {
    if 1 <= l <= 4 || l == 7 || 10 <= l <= 14 then 1 else if l == 8 || l == 9 then 9 else if l == 15 then 2 else 0
  }

  /** Symbols 5 to 13 have 8 bits, and 14 to 22 have 9. */
  lemma FirstRuns(l: nat)
    ensures Count(Greedy(), 3, l) == (if 1 <= l <= 3 then 1 else 0) && Count(Greedy(), 4, l) == if 1 <= l <= 4 then 1 else 0
    ensures Count(Greedy(), 5, l) == if 1 <= l <= 4 || l == 7 then 1 else 0
  {
    hide Count;
    var lens := Greedy();
    CountNone(lens);
    CountRun(lens, 0, 1, 1, l);
    CountRun(lens, 1, 2, 2, l);
    CountRun(lens, 2, 3, 3, l);
    CountRun(lens, 3, 4, 4, l);
    CountRun(lens, 4, 5, 7, l);
  }

  lemma MiddleRuns(s: nat, l: nat)
    ensures 5 <= s <= 14 ==> Count(Greedy(), s, l) == Count(Greedy(), 5, l) + if l == 8 then s - 5 else 0
    ensures 14 <= s <= 23 ==> Count(Greedy(), s, l) == Count(Greedy(), 5, l) + (if l == 8 then 9 else 0) + if l == 9 then s - 14 else 0
  {
    hide Count;
    var lens := Greedy();
    if 5 <= s <= 14 {
      CountRun(lens, 5, s, 8, l);
    }
    if 14 <= s <= 23 {
      CountRun(lens, 5, 14, 8, l);
      CountRun(lens, 14, s, 9, l);
    }
  }

  lemma LastRuns(s: nat, l: nat)
    requires 23 <= s <= 30
    ensures Count(Greedy(), s, l) == Count(Greedy(), 23, l) +
                                     if 10 <= l <= 14 && l < s - 13 then 1 else if l == 15 && s >= 28 then s - 28 else 0
  {
    hide Count;
    var lens := Greedy();
    CountRun(lens, 23, if s < 24 then s else 24, 10, l);
    if s >= 24 { CountRun(lens, 24, if s < 25 then s else 25, 11, l); }
    if s >= 25 { CountRun(lens, 25, if s < 26 then s else 26, 12, l); }
    if s >= 26 { CountRun(lens, 26, if s < 27 then s else 27, 13, l); }
    if s >= 27 { CountRun(lens, 27, if s < 28 then s else 28, 14, l); }
    if s >= 28 { CountRun(lens, 28, s, 15, l); }
  }

  lemma Totals(l: nat)
    ensures Total(Greedy(), l) == Codes(l)
  {
    hide Count;
    FirstRuns(l);
    MiddleRuns(23, l);
    LastRuns(30, l);
  }

  /** How often the length of symbol s occurs before it. */
  lemma Before(s: nat)
    requires 3 <= s < 30
    ensures Count(Greedy(), s, Greedy()[s]) == if 5 <= s < 14 then s - 5 else if 14 <= s < 23 then s - 14 else if s == 29 then 1 else 0
  {
    hide Count;
    var l := Greedy()[s];
    FirstRuns(l);
    if 5 <= s < 14 {
      MiddleRuns(s, l);
    } else if 14 <= s < 23 {
      MiddleRuns(s, l);
    } else if 23 <= s {
      MiddleRuns(23, l);
      LastRuns(s, l);
    }
  }

  // ---------- order and codes ----------

  function OffsTo(l: nat): nat
  {
    if l <= 1 then 0 else if l <= 5 then l - 1 else if l <= 7 then 4 else if l == 8 then 5 else if l == 9 then 14
    else if l <= 15 then 13 + l else 30
  }

  lemma {:induction false} OffsIs(l: nat)
    requires l <= 16
    ensures Offs(Greedy(), l) == OffsTo(l)
  {
    hide Total, Greedy;
    if l > 1 {
      OffsIs(l - 1);
      Totals(l - 1);
    }
  }

  /** The codes of the lengths up to 4 end at 1110, those of 7 bits at 1111000, and
      so on: what is left is always ones. */
  function Firsts(l: nat): nat
  {
    match l case 2 => 2 case 3 => 6 case 4 => 14 case 5 => 30 case 6 => 60 case 7 => 120 case 8 => 242 case 9 => 502
    case 10 => 1022 case 11 => 2046 case 12 => 4094 case 13 => 8190 case 14 => 16382 case 15 => 32766 case _ => 0
  }

  lemma {:induction false} FirstIs(l: nat)
    requires l <= 15
    ensures FirstCode(Greedy(), l) == Firsts(l)
  {
    hide Total, Greedy;
    if l > 1 {
      FirstIs(l - 1);
      Totals(l - 1);
    }
  }

  /** The symbols are visited in order. */
  lemma InOrder(s: nat)
    requires 3 <= s < 30
    ensures Used(Greedy(), s) && Position(Greedy(), s) == s
    ensures UsedCount(Greedy()) == 30 && SymAt(Greedy(), s) == s
    ensures Code(Greedy(), s) == Firsts(Greedy()[s]) + if 5 <= s < 14 then s - 5 else if 14 <= s < 23 then s - 14 else if s == 29 then 1 else 0
  {
    hide Count, Offs, FirstCode;
    Before(s);
    OffsIs(Greedy()[s]);
    OffsIs(16);
    FirstIs(Greedy()[s]);
    SymAtIs(Greedy(), s);
  }

  /** The first six bits of the code of a symbol with more than six. */
  function Lead(s: nat): nat { if s < 7 then 60 else if s < 11 then 61 else if s < 16 then 62 else 63 }

  lemma LeadIs(s: nat)
    requires 4 <= s < 30
    ensures Used(Greedy(), s) && Low(Huff(Greedy(), s), 6) == Rev(Lead(s), 6)
  {
    hide Count, FirstCode, Rev, Low, Shr;
    InOrder(s);
    var l, c := Greedy()[s], Code(Greedy(), s);
    RevTop(c, l, l - 6);
    FirstSix(s, c);
  }

  lemma FirstSix(s: nat, c: nat)
    requires 4 <= s < 30
    requires c == Firsts(Greedy()[s]) + if 5 <= s < 14 then s - 5 else if 14 <= s < 23 then s - 14 else if s == 29 then 1 else 0
    ensures Shr(c, Greedy()[s] - 6) == Lead(s)
  {
    ShrIs(c, Greedy()[s] - 6, Lead(s), c - Lead(s) * Pow2(Greedy()[s] - 6));
  }

  lemma {:induction false} ShrIs(c: nat, k: nat, q: nat, r: int)
    requires c == q * Pow2(k) + r && 0 <= r < Pow2(k)
    ensures Shr(c, k) == q
  {
    if k > 0 {
      Halved(q, Pow2(k - 1), r);
      ShrIs(c / 2, k - 1, q, r / 2);
    }
  }

  lemma Halved(q: nat, p: nat, r: nat)
    ensures (q * (2 * p) + r) / 2 == q * p + r / 2
  {
    var x := q * p;
    assert q * (2 * p) == 2 * x;
  }

  // ---------- the table ----------

  /** How many bits the tables have that begin with symbols 4, 7, 11 and 16. */
  lemma Growths()
    ensures Longest(Greedy()) == 15
    ensures Grow(Greedy(), 15, 7, 2, 1) == 8 && Grow(Greedy(), 15, 8, 4, 7) == 8 && Grow(Greedy(), 15, 8, 4, 3) == 9
    ensures Grow(Greedy(), 15, 9, 8, 7) == 15
  {
    hide Total, Greedy;
    var lens := Greedy();
    forall l: nat
      ensures Total(lens, l) == Codes(l)
    {
      Totals(l);
    }
    assert Grow(lens, 15, 14, 2, 1) == 15;
    assert Grow(lens, 15, 13, 2, 1) == 15;
    assert Grow(lens, 15, 12, 2, 1) == 15;
    assert Grow(lens, 15, 11, 2, 1) == 15;
    assert Grow(lens, 15, 10, 2, 1) == 15;
    assert Grow(lens, 15, 9, 2, 9) == 9 && Grow(lens, 15, 8, 2, 9) == 8;
  }

  lemma TableBits(s: nat)
    requires s in {4, 7, 11, 16}
    ensures Used(Greedy(), s) && Greedy()[s] > 6
    ensures Growth(Greedy(), 6, s) == if s < 11 then 8 else if s == 11 then 9 else 15
  {
    hide Grow, Longest, Total, Count;
    Growths();
    Before(s);
    Totals(Greedy()[s]);
    SmallPowers();
  }

  lemma DifferentLeads(a: nat, b: nat)
    requires a < 64 && b < 64 && a != b
    ensures Rev(a, 6) != Rev(b, 6)
  {
    hide Rev, Low;
    SmallPowers();
    RevRev(a, 6);
    RevRev(b, 6);
    LowSmall(a, 6);
    LowSmall(b, 6);
  }

  /** A new table begins where the first six bits change. */
  lemma NewTables(k: nat)
    requires 4 <= k < 30
    ensures UsedCount(Greedy()) == 30 && (NewPrefix(Greedy(), 6, k) <==> k in {4, 7, 11, 16})
  {
    hide Huff, Low, Rev, UsedCount, Code, Greedy, Lead;
    InOrder(k);
    InOrder(k - 1);
    LongAt(k);
    if k > 4 {
      LongAt(k - 1);
      LeadIs(k);
      LeadIs(k - 1);
      LeadSteps(k);
      if Lead(k) != Lead(k - 1) { DifferentLeads(Lead(k), Lead(k - 1)); }
    } else {
      ShortBefore();
    }
  }

  lemma LongAt(s: nat)
    requires 4 <= s < 30
    ensures Greedy()[s] > 6
  {
  }

  lemma ShortBefore()
    ensures Greedy()[3] <= 6
  {
  }

  lemma LeadSteps(k: nat)
    requires 4 < k < 30
    ensures Lead(k) < 64 && Lead(k - 1) < 64 && (Lead(k) != Lead(k - 1) <==> k in {7, 11, 16})
  {
  }

  lemma {:induction false} SpaceAt(k: nat)
    requires 3 <= k < 30
    ensures UsedCount(Greedy()) == 30
    ensures Space(Greedy(), 6, k) == 64 + (if k >= 4 then 4 else 0) + (if k >= 7 then 4 else 0) + (if k >= 11 then 8 else 0) +
                                     (if k >= 16 then 512 else 0)
  {
    hide Space, UsedCount, Greedy, Pow2;
    Thirty();
    TablePowers();
    if k == 3 {
      RootOnly();
    } else {
      SpaceAt(k - 1);
      SpaceStep(k);
    }
  }

  lemma Thirty()
    ensures UsedCount(Greedy()) == 30
  {
    hide UsedCount, Code, Firsts;
    InOrder(3);
  }

  lemma TablePowers()
    ensures Pow2(2) == 4 && Pow2(3) == 8 && Pow2(6) == 64 && Pow2(9) == 512
  {
    hide Pow2;
    SmallPowers();
  }

  lemma SpaceStep(k: nat)
    requires 4 <= k < 30
    ensures UsedCount(Greedy()) == 30
    ensures Space(Greedy(), 6, k) == Space(Greedy(), 6, k - 1) +
                                     if k in {4, 7} then Pow2(2) else if k == 11 then Pow2(3) else if k == 16 then Pow2(9) else 0
  {
    hide NewPrefix, UsedCount, Growth, SymAt, Position, Greedy, Pow2;
    NewTables(k);
    InOrder(k);
    if k in {4, 7, 11, 16} { TableBits(k); }
  }

  /** The first four codes need no more than the root table. */
  lemma RootOnly()
    ensures UsedCount(Greedy()) == 30 && Space(Greedy(), 6, 3) == Pow2(6)
  {
    hide UsedCount, Pow2;
    InOrder(3);
    forall k | 0 < k <= 3
      ensures !NewPrefix(Greedy(), 6, k)
    {
      ShortAt(k);
    }
    assert Space(Greedy(), 6, 1) == Pow2(6) && Space(Greedy(), 6, 2) == Pow2(6);
  }

  lemma ShortAt(k: nat)
    requires k <= 3
    ensures UsedCount(Greedy()) == 30 && Greedy()[SymAt(Greedy(), k)] <= 6
  {
    hide Offs, Count;
    InOrder(3);
    var s := SymAt(Greedy(), k);
    OffsIs(Greedy()[s]);
  }

  /** The code is complete, so every compressor may send it; its table needs exactly
      as many entries as there are, and is refused. */
  lemma FullTableRefused()
    ensures Complete(Greedy()) && UsedCount(Greedy()) == 30 && RootBits(Greedy(), 6) == 6
    ensures Space(Greedy(), 6, 29) == ENOUGH_DISTS && !Fits(DISTS, Greedy(), 6)
  {
    hide Space, UsedCount, Total, Greedy, FirstCode;
    SpaceAt(29);
    Growths();
    Totals(1);
    Totals(15);
    FirstIs(15);
    BelowFirst(Greedy(), 15);
    Pow2Values();
    assert Below(Greedy(), 16) == Below(Greedy(), 15) + 2;
  }
}
