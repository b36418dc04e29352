/** inflate_table (deps/zlib/inftrees.c): building the decoding tables. */
module InflateTable {
  import opened Bits
  import opened HuffmanCode
  import opened CodeOrder
  import opened TableTheory

  const ENOUGH_LENS: nat := 852
  const ENOUGH_DISTS: nat := 592

  predicate TooBig(ty: CodeType, used: nat)
  {
    (ty == LENS && used >= ENOUGH_LENS) || (ty == DISTS && used >= ENOUGH_DISTS)
  }

  // ---------- specification of the outcome ----------

  function LongestFrom(lens: Lengths, L: nat): nat
  {
    if L == 0 then 0 else if Total(lens, L) != 0 then L else LongestFrom(lens, L - 1)
  }

  /** The longest code length in use, or 0. */
  function Longest(lens: Lengths): nat { LongestFrom(lens, MAXBITS) }

  function ShortestFrom(lens: Lengths, l: nat, max: nat): nat
    decreases max - l
  {
    if l < max && Total(lens, l) == 0 then ShortestFrom(lens, l + 1, max) else l
  }

  /** Index bits of the root table when bits are requested. */
  function RootBits(lens: Lengths, bits: nat): nat
  {
    var max := Longest(lens);
    var root := if bits > max then max else bits;
    var min := ShortestFrom(lens, 1, max);
    if max == 0 then 1 else if root < min then min else root
  }

  /** The length sets for which a table is built: complete ones, a single code
      of one bit (not for the code length code), and the empty set. */
  predicate Accepted(ty: CodeType, lens: Lengths)
  {
    Longest(lens) == 0 || Complete(lens) ||
    (Kraft(lens) < Pow2(MAXBITS) && ty != CODES && Longest(lens) == 1)
  }

  /** The code length up to which a table begun with symbol t reaches. */
  function Growth(lens: Lengths, root: nat, t: nat): nat
    requires Used(lens, t) && root < lens[t]
  {
    var l := lens[t];
    CountMono(lens, t, |lens|, l);
    Grow(lens, Longest(lens), l, Pow2(l - root), Total(lens, l) - Count(lens, t, l))
  }

  ghost function SubBits(lens: Lengths, root: nat, k: nat): nat
    requires k < UsedCount(lens) && lens[SymAt(lens, k)] > root
  {
    Growth(lens, root, SymAt(lens, k)) - root
  }

  /** Table entries allocated by the time symbol number k is entered. */
  ghost function Space(lens: Lengths, root: nat, k: nat): (r: nat)
    requires k < UsedCount(lens)
    ensures r >= Pow2(root)
  {
    if k == 0 then Pow2(root)
    else Space(lens, root, k - 1) + (if NewPrefix(lens, root, k) then Pow2(SubBits(lens, root, k)) else 0)
  }

  lemma {:induction false} SpaceMono(lens: Lengths, root: nat, j: nat, k: nat)
    requires j <= k < UsedCount(lens)
    ensures Space(lens, root, j) <= Space(lens, root, k)
    decreases k
  {
    if j < k { SpaceMono(lens, root, j, k - 1); }
  }

  lemma SpaceZero(lens: Lengths, root: nat)
    requires UsedCount(lens) > 0
    ensures Pow2(root) == Space(lens, root, 0) <= Space(lens, root, UsedCount(lens) - 1)
  {
    SpaceMono(lens, root, 0, UsedCount(lens) - 1);
  }

  /** The set is accepted and its table fits in the space reserved for it. */
  ghost predicate Fits(ty: CodeType, lens: Lengths, bits: nat)
  {
    Accepted(ty, lens) &&
    (UsedCount(lens) > 0 ==>
       !TooBig(ty, Space(lens, RootBits(lens, bits), UsedCount(lens) - 1)))
  }

  /** The table decodes every string: to the symbol whose code it starts with,
      dropping that code's length, or to the invalid marker. */
  ghost predicate Decodes(ty: CodeType, lens: Lengths, tab: seq<Entry>, root: nat)
    requires |lens| <= MaxSyms(ty)
  {
    (forall s, x {:trigger Hit(lens, s, x)} :: Hit(lens, s, x) ==> Leads(tab, root, x, Full(ty, lens, s))) &&
    (forall x :: Unmatched(lens, x) ==> Leads(tab, root, x, InvalidEntry))
  }

  ghost predicate Unmatched(lens: Lengths, x: nat)
  {
    forall s :: !Hit(lens, s, x)
  }

  // ---------- facts about the lengths ----------

  lemma {:induction false} LongestIs(lens: Lengths, L: nat)
    ensures var m := LongestFrom(lens, L);
            m <= L && (m > 0 ==> Total(lens, m) > 0) && (forall l :: m < l <= L ==> Total(lens, l) == 0)
  {
    if L > 0 { LongestIs(lens, L - 1); }
  }

  lemma {:induction false} OffsPositive(lens: Lengths, L: nat, l: nat)
    requires 1 <= l < L && Total(lens, l) > 0
    ensures Offs(lens, L) > 0
  {
    if L - 1 > l { OffsPositive(lens, L - 1, l); }
  }

  lemma {:induction false} OffsZero(lens: Lengths, L: nat)
    requires forall l :: 1 <= l < L ==> Total(lens, l) == 0
    ensures Offs(lens, L) == 0 && (L <= MAXBITS + 1 ==> Below(lens, L) == 0)
  {
    if L > 1 {
      OffsZero(lens, L - 1);
      if L <= MAXBITS + 1 { ShlOne(MAXBITS + 1 - L); }
    }
  }

  lemma LongestUsed(lens: Lengths)
    ensures Longest(lens) > 0 <==> UsedCount(lens) > 0
    ensures Longest(lens) <= MAXBITS
    ensures forall s: nat :: Used(lens, s) ==> lens[s] <= Longest(lens)
  {
    LongestIs(lens, MAXBITS);
    if Longest(lens) > 0 {
      OffsPositive(lens, MAXBITS + 1, Longest(lens));
    } else {
      OffsZero(lens, MAXBITS + 1);
    }
    forall s: nat | Used(lens, s)
      ensures lens[s] <= Longest(lens)
    {
      CountMono(lens, s, |lens|, lens[s]);
      assert Total(lens, lens[s]) > 0;
    }
  }

  /** The symbols visited first and last have the extreme lengths. */
  lemma Extremes(lens: Lengths, bits: nat)
    requires UsedCount(lens) > 0 && bits > 0
    ensures var f := lens[SymAt(lens, 0)];
            f == ShortestFrom(lens, 1, Longest(lens)) && 1 <= f <= RootBits(lens, bits) <= Longest(lens)
    ensures lens[SymAt(lens, UsedCount(lens) - 1)] == Longest(lens)
    ensures RootBits(lens, bits) <= bits || RootBits(lens, bits) == lens[SymAt(lens, 0)]
  {
    var max := Longest(lens);
    LongestUsed(lens);
    LongestIs(lens, MAXBITS);
    ShortestIs(lens, 1, max);
    ShortestFirst(lens, max);
    var g := Nth(lens, |lens|, max, 0);
    SymAtIs(lens, g);
    if Position(lens, g) < UsedCount(lens) - 1 {
      OrderSorted(lens, Position(lens, g), UsedCount(lens) - 1);
    }
  }

  lemma ShortestFirst(lens: Lengths, max: nat)
    requires UsedCount(lens) > 0 && 1 <= max <= MAXBITS && Total(lens, max) > 0
    requires lens[SymAt(lens, 0)] <= max
    ensures lens[SymAt(lens, 0)] == ShortestFrom(lens, 1, max)
  {
    var s, m := SymAt(lens, 0), ShortestFrom(lens, 1, max);
    ShortestIs(lens, 1, max);
    var t := Nth(lens, |lens|, m, 0);
    FirstOf(lens, t);
    CountMono(lens, s, |lens|, lens[s]);
    assert Total(lens, lens[s]) > 0;
  }

  lemma FirstOf(lens: Lengths, t: nat)
    requires Used(lens, t)
    ensures UsedCount(lens) > 0 && lens[SymAt(lens, 0)] <= lens[t]
  {
    SymAtIs(lens, t);
    if Position(lens, t) > 0 { OrderSorted(lens, 0, Position(lens, t)); }
  }

  lemma {:induction false} ShortestIs(lens: Lengths, l: nat, max: nat)
    requires l <= max && Total(lens, max) > 0
    ensures var m := ShortestFrom(lens, l, max);
            l <= m <= max && Total(lens, m) > 0 && (forall i :: l <= i < m ==> Total(lens, i) == 0)
    decreases max - l
  {
    if l < max && Total(lens, l) == 0 { ShortestIs(lens, l + 1, max); }
  }

  /** There are no more used symbols than symbols. */
  function SumCounts(lens: Lengths, n: nat, L: nat): nat
    requires n <= |lens|
  {
    if L <= 1 then 0 else SumCounts(lens, n, L - 1) + Count(lens, n, L - 1)
  }

  lemma {:induction false} SumStep(lens: Lengths, n: nat, L: nat)
    requires 0 < n <= |lens|
    ensures SumCounts(lens, n, L) == SumCounts(lens, n - 1, L) + (if 1 <= lens[n - 1] < L then 1 else 0)
  {
    if L > 1 { SumStep(lens, n, L - 1); }
  }

  lemma {:induction false} SumBound(lens: Lengths, n: nat, L: nat)
    requires n <= |lens|
    ensures SumCounts(lens, n, L) <= n
  {
    if n > 0 {
      SumStep(lens, n, L);
      SumBound(lens, n - 1, L);
    } else {
      SumEmpty(lens, L);
    }
  }

  lemma {:induction false} SumEmpty(lens: Lengths, L: nat)
    ensures SumCounts(lens, 0, L) == 0
  {
    if L > 1 { SumEmpty(lens, L - 1); }
  }

  lemma {:induction false} SumIsOffs(lens: Lengths, L: nat)
    ensures SumCounts(lens, |lens|, L) == Offs(lens, L)
  {
    if L > 1 { SumIsOffs(lens, L - 1); }
  }

  lemma UsedBound(lens: Lengths)
    ensures UsedCount(lens) <= |lens|
  {
    SumBound(lens, |lens|, MAXBITS + 1);
    SumIsOffs(lens, MAXBITS + 1);
  }

  // ---------- the phases of inflate_table ----------

  method CountLengths(lens: Lengths) returns (count: array<nat>)
    requires InRange(lens)
    ensures fresh(count) && count.Length == MAXBITS + 1
    ensures forall l :: 0 <= l <= MAXBITS ==> count[l] == Total(lens, l)
  {
    count := new nat[MAXBITS + 1](_ => 0);
    for sym := 0 to |lens|
      invariant forall l :: 0 <= l <= MAXBITS ==> count[l] == Count(lens, sym, l)
    {
      count[lens[sym]] := count[lens[sym]] + 1;
    }
  }

  method BoundLengths(ghost lens: Lengths, count: array<nat>, bits: nat)
    returns (root: nat, min: nat, max: nat)
    requires count.Length == MAXBITS + 1
    requires forall l :: 0 <= l <= MAXBITS ==> count[l] == Total(lens, l)
    ensures max == Longest(lens)
    ensures max > 0 ==> min == ShortestFrom(lens, 1, max) && root == RootBits(lens, bits)
  {
    root, min, max := bits, 1, MAXBITS;
    while max >= 1 && count[max] == 0
      invariant max <= MAXBITS && LongestFrom(lens, max) == Longest(lens)
    {
      max := max - 1;
    }
    if root > max { root := max; }
    if max == 0 { return; }
    while min < max && count[min] == 0
      invariant 1 <= min <= max && ShortestFrom(lens, min, max) == ShortestFrom(lens, 1, max)
    {
      min := min + 1;
    }
    if root < min { root := min; }
  }

  /** Negative when over-subscribed; otherwise the unused code space. */
  method CheckSet(ghost lens: Lengths, count: array<nat>) returns (left: int)
    requires count.Length == MAXBITS + 1
    requires forall l :: 0 <= l <= MAXBITS ==> count[l] == Total(lens, l)
    ensures if Kraft(lens) <= Pow2(MAXBITS) then left == Pow2(MAXBITS) - Kraft(lens) else left < 0
  {
    hide Shl, Below, Pow2, Total, Kraft;
    var free: nat := 1;
    var len := 1;
    ShlOne(MAXBITS);
    CheckEnds(lens);
    while len <= MAXBITS
      invariant 1 <= len <= MAXBITS + 1
      invariant Shl(free, MAXBITS + 1 - len) + Below(lens, len) == Pow2(MAXBITS)
    {
      var c := count[len];
      CheckStep(lens, len, free, c);
      if 2 * free < c { return 2 * free - c; }
      free := 2 * free - c;
      len := len + 1;
    }
    left := free;
  }

  lemma CheckEnds(lens: Lengths)
    ensures forall x: nat {:trigger Shl(x, 0)} :: Shl(x, 0) == x
    ensures Below(lens, 1) == 0 && Below(lens, MAXBITS + 1) == Kraft(lens)
  {
  }

  lemma CheckStep(lens: Lengths, len: nat, free: nat, c: nat)
    requires 1 <= len <= MAXBITS && c == Total(lens, len)
    requires Shl(free, MAXBITS + 1 - len) + Below(lens, len) == Pow2(MAXBITS)
    ensures if 2 * free < c then Kraft(lens) > Pow2(MAXBITS)
            else Shl(2 * free - c, MAXBITS - len) + Below(lens, len + 1) == Pow2(MAXBITS)
  {
    var k := MAXBITS - len;
    ShlShl(free, 1, k);
    assert Shl(free, 1) == 2 * Shl(free, 0);
    if 2 * free < c {
      ShlMono(2 * free, c, k);
      BelowMono(lens, len + 1, MAXBITS + 1);
    } else {
      ShlAdd(2 * free - c, c, k);
    }
  }

  method Offsets(ghost lens: Lengths, count: array<nat>) returns (offs: array<nat>)
    requires count.Length == MAXBITS + 1
    requires forall l :: 0 <= l <= MAXBITS ==> count[l] == Total(lens, l)
    ensures fresh(offs) && offs.Length == MAXBITS + 1
    ensures forall l :: 1 <= l <= MAXBITS ==> offs[l] == Offs(lens, l)
  {
    hide Offs, Total;
    offs := new nat[MAXBITS + 1](_ => 0);
    OffsNone(lens);
    var len := 1;
    while len < MAXBITS
      invariant 1 <= len <= MAXBITS
      invariant forall l :: 1 <= l <= len ==> offs[l] == Offs(lens, l)
    {
      OffsNext(lens, len);
      offs[len + 1] := offs[len] + count[len];
      len := len + 1;
    }
  }

  lemma OffsNone(lens: Lengths)
    ensures Offs(lens, 1) == 0
  {
  }

  lemma OffsNext(lens: Lengths, l: nat)
    requires 1 <= l < MAXBITS
    ensures Offs(lens, l + 1) == Offs(lens, l) + Total(lens, l)
  {
  }

  /** Counting sort of the used symbols by length, then by value. */
  method SortSymbols(lens: Lengths, count: array<nat>) returns (work: array<nat>)
    requires count.Length == MAXBITS + 1 && InRange(lens)
    requires forall l :: 0 <= l <= MAXBITS ==> count[l] == Total(lens, l)
    ensures fresh(work) && UsedCount(lens) <= work.Length
    ensures forall k :: 0 <= k < UsedCount(lens) ==> work[k] == SymAt(lens, k)
  {
    hide Offs, Position, UsedCount, Total, Sorted, Count, Used;
    UsedBound(lens);
    var offs := Offsets(lens, count);
    work := new nat[|lens|](_ => 0);
    SortInit(lens, work[..]);
    CountNone(lens);
    for sym := 0 to |lens|
      invariant forall l :: 1 <= l <= MAXBITS ==> offs[l] == Offs(lens, l) + Count(lens, sym, l)
      invariant Sorted(lens, work[..], sym)
    {
      CountNext(lens, sym);
      if lens[sym] != 0 {
        SortStep(lens, work[..], sym);
        ghost var was := work[..];
        work[offs[lens[sym]]] := sym;
        assert work[..] == was[offs[lens[sym]] := sym];
        offs[lens[sym]] := offs[lens[sym]] + 1;
      } else {
        SortSkip(lens, work[..], sym);
      }
    }
    SortedAll(lens, work[..]);
  }

  lemma SortInit(lens: Lengths, work: seq<nat>)
    ensures Sorted(lens, work, 0)
  {
  }

  lemma SortSkip(lens: Lengths, work: seq<nat>, sym: nat)
    requires sym < |lens| && lens[sym] == 0 && Sorted(lens, work, sym)
    ensures Sorted(lens, work, sym + 1)
  {
  }

  lemma SortedAll(lens: Lengths, work: seq<nat>)
    requires Sorted(lens, work, |lens|) && UsedCount(lens) <= |work|
    ensures forall k :: 0 <= k < UsedCount(lens) ==> work[k] == SymAt(lens, k)
  {
    forall k | 0 <= k < UsedCount(lens)
      ensures work[k] == SymAt(lens, k)
    {
      assert Used(lens, SymAt(lens, k));
    }
  }

  /** The used symbols below n stand at their positions. */
  ghost predicate Sorted(lens: Lengths, work: seq<nat>, n: nat)
    requires n <= |lens|
  {
    forall s: nat :: s < n && Used(lens, s) ==> Position(lens, s) < |work| && work[Position(lens, s)] == s
  }

  lemma SortStep(lens: Lengths, work: seq<nat>, sym: nat)
    requires sym < |lens| && 1 <= lens[sym] <= MAXBITS && Sorted(lens, work, sym)
    requires UsedCount(lens) <= |work|
    ensures Used(lens, sym)
    ensures Position(lens, sym) == Offs(lens, lens[sym]) + Count(lens, sym, lens[sym]) < |work|
    ensures Sorted(lens, work[Position(lens, sym) := sym], sym + 1)
  {
    PositionBound(lens, sym);
    forall s: nat | s < sym && Used(lens, s)
      ensures Position(lens, s) != Position(lens, sym)
    {
      if Position(lens, s) == Position(lens, sym) { PositionUnique(lens, s, sym); }
    }
  }

  /** Enter e at every index of the table at nx whose low d bits are h. */
  method Replicate(table: array<Entry>, at: nat, nx: nat, curr: nat, d: nat, h: nat, e: Entry)
    requires d <= curr && h < Pow2(d) && at + nx + Pow2(curr) <= table.Length
    modifies table
    ensures Filled(old(table[at..]), table[at..], nx, curr, d, h, e)
    ensures forall i :: 0 <= i < table.Length && !(at + nx <= i < at + nx + Pow2(curr)) ==> table[i] == old(table[i])
  {
    ghost var m: nat := Pow2(curr - d);
    var fill := Pow2(curr);
    var incr := Pow2(d);
    ShlOne(curr - d);
    ShlOne(curr);
    ShlShl(1, curr - d, d);
    ghost var before := table[..];
    forall i: nat | i < Pow2(curr)
      ensures Shr(i, d) < Pow2(curr - d)
    {
      ShrBound(i, d, curr - d);
    }
    while fill != 0
      invariant fill == Shl(m, d) && m <= Pow2(curr - d) && fill <= Pow2(curr)
      invariant Entered(before, table[..], at + nx, curr, d, h, m, e)
      decreases m
    {
      StepDown(m, d);
      EnterStep(before, table[..], at + nx, curr, d, h, m - 1, e);
      m := m - 1;
      fill := fill - incr;
      table[at + nx + (h + fill)] := e;
    }
    ShlMono(0, m, d);
    EnteredAll(before, table[..], at, nx, curr, d, h, e);
  }

  lemma EnteredAll(was: seq<Entry>, now: seq<Entry>, at: nat, nx: nat, curr: nat, d: nat, h: nat, e: Entry)
    requires Entered(was, now, at + nx, curr, d, h, 0, e) && at <= |was|
    ensures Filled(was[at..], now[at..], nx, curr, d, h, e)
  {
    forall i | 0 <= i < |was| - at
      ensures now[at..][i] == (if nx <= i < nx + Pow2(curr) && Low(i - nx, d) == h then e else was[at..][i])
    {
      assert at + i - (at + nx) == i - nx;
    }
  }

  /** The slots whose bits above the low d are at least m have been written. */
  ghost predicate Entered(was: seq<Entry>, now: seq<Entry>, from: nat, curr: nat, d: nat, h: nat, m: nat, e: Entry)
  {
    |was| == |now| &&
    forall i :: 0 <= i < |was| ==>
      now[i] == (if from <= i < from + Pow2(curr) && Low(i - from, d) == h && Shr(i - from, d) >= m then e else was[i])
  }

  lemma StepDown(m: nat, d: nat)
    requires Shl(m, d) != 0
    ensures m > 0 && Shl(m - 1, d) + Pow2(d) == Shl(m, d)
  {
    ShlOne(d);
    if m > 0 { ShlAdd(m - 1, 1, d); }
  }

  lemma EnterStep(was: seq<Entry>, now: seq<Entry>, from: nat, curr: nat, d: nat, h: nat, m: nat, e: Entry)
    requires Entered(was, now, from, curr, d, h, m + 1, e)
    requires h < Pow2(d) && h + Shl(m, d) < Pow2(curr) && from + Pow2(curr) <= |was|
    ensures Entered(was, now[from + (h + Shl(m, d)) := e], from, curr, d, h, m, e)
  {
    LowShrUnique(h, m, d);
    forall i: nat | i < Pow2(curr) && Low(i, d) == h && Shr(i, d) == m
      ensures i == h + Shl(m, d)
    {
      LowShr(i, d);
    }
  }

  /** Add one to the reversed code huff of len bits. */
  method IncrementCode(huff: nat, len: nat) returns (r: nat)
    requires huff < Pow2(len)
    ensures r == Increment(huff, len)
  {
    var i: nat := len;
    LowSmall(huff, len);
    while i > 0 && Shr(huff, i - 1) % 2 == 1
      invariant i <= len && Increment(Low(huff, i), i) == Increment(huff, len)
    {
      LowLow(huff, i, i - 1);
      TopBit(huff, i);
      i := i - 1;
    }
    if i > 0 {
      LowLow(huff, i, i - 1);
      TopBit(huff, i);
      r := Low(huff, i - 1) + Pow2(i - 1);
    } else {
      r := 0;
    }
  }

  lemma TopBit(x: nat, i: nat)
    requires i > 0
    ensures Shr(Low(x, i), i - 1) % 2 == Shr(x, i - 1) % 2
  {
    LowLow(x, i, i - 1);
    var y := Shr(x, i - 1);
    assert Low(y, 1) == y % 2 + 2 * Low(y / 2, 0);
  }

  /** Look ahead in the counts for the size of a second-level table. */
  method SubTableBits(ghost lens: Lengths, count: array<nat>, len: nat, drop: nat, max: nat) returns (curr: nat)
    requires count.Length == MAXBITS + 1 && drop < len <= max <= MAXBITS
    requires forall l :: len < l <= MAXBITS ==> count[l] == Total(lens, l)
    ensures drop + curr == Grow(lens, max, len, Pow2(len - drop), count[len])
  {
    curr := len - drop;
    var left := Pow2(curr);
    while curr + drop < max
      invariant len <= curr + drop <= max && left >= 0
      invariant Grow(lens, max, curr + drop, left, count[curr + drop]) ==
                Grow(lens, max, len, Pow2(len - drop), count[len])
    {
      if left <= count[curr + drop] { break; }
      left := left - count[curr + drop];
      curr := curr + 1;
      left := 2 * left;
    }
  }

  // ---------- the main loop ----------

  function Limit(ty: CodeType, bits: nat): nat
  {
    match ty case CODES => Pow2(bits) case LENS => ENOUGH_LENS case DISTS => ENOUGH_DISTS
  }

  /** What holds whenever the loop is about to enter symbol number k. */
  ghost predicate Filling(ty: CodeType, lens: Lengths, tab: seq<Entry>, c: Cursor, k: nat)
    requires |lens| <= MaxSyms(ty)
  {
    && k < UsedCount(lens) && c.root <= MAXBITS && Kraft(lens) <= Pow2(MAXBITS)
    && c.nx + Pow2(c.curr) == Space(lens, c.root, k) <= |tab|
    && Built(ty, lens, tab, c, k)
    && Ready(tab, c, lens[SymAt(lens, k)], Huff(lens, SymAt(lens, k)))
    && (c.drop == c.root ==> Roomy(lens, c.root, c.low, c.curr, Longest(lens)))
  }

  /** Moving to the next symbol within the same table. */
  lemma StayInTable(ty: CodeType, lens: Lengths, tab: seq<Entry>, tab': seq<Entry>, c: Cursor, k: nat)
    requires |lens| <= MaxSyms(ty) && c.root > 0 && Filling(ty, lens, tab, c, k) && k + 1 < UsedCount(lens)
    requires Built(ty, lens, tab', c, k + 1) && |tab'| == |tab|
    requires c.drop == c.root ==> tab'[c.low] == tab[c.low]
    requires var t := SymAt(lens, k + 1);
             lens[t] <= c.root || (c.drop == c.root && Low(Huff(lens, t), c.root) == c.low)
    ensures Filling(ty, lens, tab', c, k + 1)
  {
    hide Shl, Shr, Low, Rev, Below, Grow;
    var s, t := SymAt(lens, k), SymAt(lens, k + 1);
    OrderSorted(lens, k, k + 1);
    LongestUsed(lens);
    if lens[t] > c.root {
      RoomyFits(lens, c.root, c.low, c.curr, Longest(lens), t);
    }
  }

  /** Moving to the next symbol in a fresh second-level table. */
  lemma OpenTable(ty: CodeType, lens: Lengths, tab: seq<Entry>, tab': seq<Entry>, c: Cursor, c': Cursor, k: nat)
    requires |lens| <= MaxSyms(ty) && c.root > 0 && Filling(ty, lens, tab, c, k) && |tab'| == |tab|
    requires NewPrefix(lens, c.root, k + 1) && Built(ty, lens, tab', c, k + 1)
    requires c'.root == c.root && c'.drop == c.root && c'.nx == c.nx + Pow2(c.curr)
    requires c'.low == Low(Huff(lens, SymAt(lens, k + 1)), c.root)
    requires c'.curr == SubBits(lens, c.root, k + 1)
    requires c'.nx + Pow2(c'.curr) <= |tab|
    ensures c'.low < |tab| && c'.curr < 16
    ensures Filling(ty, lens, tab'[c'.low := Entry(c'.curr, c.root, c'.nx)], c', k + 1)
  {
    hide Shl, Shr, Low, Rev, Below, Grow, Offs;
    var t := SymAt(lens, k + 1);
    LongestUsed(lens);
    LowShr(Huff(lens, t), c.root);
    SubBitsRoomy(lens, c.root, k + 1);
    LinkKeeps(ty, lens, tab', c, c', k + 1);
  }

  lemma SubBitsRoomy(lens: Lengths, root: nat, k: nat)
    requires Kraft(lens) <= Pow2(MAXBITS) && 0 < root <= MAXBITS && NewPrefix(lens, root, k)
    ensures var t, b := SymAt(lens, k), SubBits(lens, root, k);
            1 <= b < 16 && lens[t] <= root + b &&
            Roomy(lens, root, Low(Huff(lens, t), root), b, Longest(lens))
  {
    hide Shl, Shr, Low, Rev, Below, Offs, Pow2, Longest, Huff, Position, Growth, Roomy, NewPrefix, Count, Start;
    BlockStart(lens, root, k);
    SubBitsDef(lens, root, k);
    GrowthRoomy(lens, root, SymAt(lens, k));
  }

  lemma SubBitsDef(lens: Lengths, root: nat, k: nat)
    requires Kraft(lens) <= Pow2(MAXBITS) && NewPrefix(lens, root, k)
    ensures 0 < k < UsedCount(lens) && Used(lens, SymAt(lens, k)) && root < lens[SymAt(lens, k)]
    ensures root + SubBits(lens, root, k) == Growth(lens, root, SymAt(lens, k))
  {
    hide Shl, Shr, Low, Rev, Below, Grow, Offs, Pow2, Longest, Huff, Position;
  }

  lemma GrowthRoomy(lens: Lengths, root: nat, t: nat)
    requires Kraft(lens) <= Pow2(MAXBITS) && 0 < root <= MAXBITS && Used(lens, t) && root < lens[t]
    requires Start(lens, t) == Shl(Top(lens, t, root), MAXBITS - root)
    ensures var g := Growth(lens, root, t);
            root < lens[t] <= g <= MAXBITS &&
            Roomy(lens, root, Low(Huff(lens, t), root), g - root, Longest(lens))
  {
    hide Shl, Shr, Low, Rev, Below, Grow, Offs, Count, Pow2, Longest, Code, Start;
    var l, max, top := lens[t], Longest(lens), Top(lens, t, root);
    var cnt := Total(lens, l) - Count(lens, t, l);
    LongestUsed(lens);
    TopIsLow(lens, t, root);
    RestOfLength(lens, t);
    RoomSum(top, root, l);
    GrowRoomy(lens, max, l, Pow2(l - root), cnt, Start(lens, t), Shl(top + 1, MAXBITS - root));
  }

  lemma RestOfLength(lens: Lengths, t: nat)
    requires Used(lens, t)
    ensures var l := lens[t];
            Count(lens, t, l) < Total(lens, l) &&
            Start(lens, t) + Shl(Total(lens, l) - Count(lens, t, l), MAXBITS - l) == Below(lens, l + 1)
  {
    var l := lens[t];
    StartSplit(lens, t);
    CountMono(lens, t, |lens|, l);
    ShlAdd(Count(lens, t, l), Total(lens, l) - Count(lens, t, l), MAXBITS - l);
  }

  lemma RoomSum(top: nat, root: nat, l: nat)
    requires root < l <= MAXBITS
    ensures Shl(top, MAXBITS - root) + Shl(Pow2(l - root), MAXBITS - l) == Shl(top + 1, MAXBITS - root)
  {
    ShlAdd(top, 1, MAXBITS - root);
    ShlOne(l - root);
    ShlShl(1, l - root, MAXBITS - l);
  }

  /** The symbol after number k, as the remaining counts tell it. */
  lemma CountStep(lens: Lengths, k: nat)
    requires k < UsedCount(lens)
    ensures var s := SymAt(lens, k); var l := lens[s]; var r := Count(lens, s, l);
            && r < Total(lens, l) && 1 <= l <= Longest(lens)
            && (r + 1 < Total(lens, l) ==>
                  k + 1 < UsedCount(lens) && lens[SymAt(lens, k + 1)] == l &&
                  Count(lens, SymAt(lens, k + 1), l) == r + 1)
            && (r + 1 == Total(lens, l) && l < Longest(lens) ==>
                  k + 1 < UsedCount(lens) && lens[SymAt(lens, k + 1)] > l &&
                  Count(lens, SymAt(lens, k + 1), lens[SymAt(lens, k + 1)]) == 0)
            && (r + 1 == Total(lens, l) && l == Longest(lens) ==> k + 1 == UsedCount(lens))
  {
    var s := SymAt(lens, k);
    var l := lens[s];
    var r := Count(lens, s, l);
    LongestUsed(lens);
    PositionBound(lens, s);
    if r + 1 < Total(lens, l) {
      var t := Nth(lens, |lens|, l, r + 1);
      SymAtIs(lens, t);
    } else {
      LongestIs(lens, MAXBITS);
      EndOfLength(lens, k, l);
    }
  }

  lemma EndOfLength(lens: Lengths, k: nat, l: nat)
    requires k + 1 == Offs(lens, l + 1) && 1 <= l <= Longest(lens) <= MAXBITS
    requires Total(lens, Longest(lens)) > 0
    requires forall i :: Longest(lens) < i <= MAXBITS ==> Total(lens, i) == 0
    ensures l == Longest(lens) ==> k + 1 == UsedCount(lens)
    ensures l < Longest(lens) ==>
              k + 1 < UsedCount(lens) && lens[SymAt(lens, k + 1)] > l &&
              Count(lens, SymAt(lens, k + 1), lens[SymAt(lens, k + 1)]) == 0
  {
    if l == Longest(lens) {
      OffsFlat(lens, l + 1, MAXBITS + 1);
    } else {
      OffsMono(lens, l + 1, Longest(lens));
      OffsMono(lens, Longest(lens) + 1, MAXBITS + 1);
      var t := SymAt(lens, k + 1);
      PositionBound(lens, t);
      if lens[t] <= l {
        OffsMono(lens, lens[t] + 1, l + 1);
      } else {
        OffsMono(lens, l + 1, lens[t]);
      }
    }
  }

  lemma {:induction false} OffsFlat(lens: Lengths, a: nat, b: nat)
    requires 1 <= a <= b && forall i :: a <= i < b ==> Total(lens, i) == 0
    ensures Offs(lens, a) == Offs(lens, b)
    decreases b
  {
    if a < b { OffsFlat(lens, a, b - 1); }
  }

  /** A filled table decodes all strings of a complete code. */
  lemma CompleteTable(ty: CodeType, lens: Lengths, tab: seq<Entry>, c: Cursor, used: nat)
    requires |lens| <= MaxSyms(ty) && Complete(lens) && c.root <= MAXBITS
    requires Built(ty, lens, tab, c, UsedCount(lens))
    requires Pow2(c.root) <= used && c.nx + Pow2(c.curr) <= used <= |tab|
    ensures Decodes(ty, lens, tab[..used], c.root)
  {
    forall s, x | Hit(lens, s, x)
      ensures Leads(tab[..used], c.root, x, Full(ty, lens, s))
    {
      PositionBound(lens, s);
      Restrict(tab, c, used, x, Full(ty, lens, s));
    }
    forall x: nat
      ensures !Unmatched(lens, x)
    {
      RevBound(x, MAXBITS);
      var s := OwnerExists(lens, Rev(x, MAXBITS));
      CodeFits(lens, s);
      OwnsIffPrefix(lens, s, x);
      assert Hit(lens, s, x);
    }
  }

  lemma Restrict(tab: seq<Entry>, c: Cursor, used: nat, x: nat, e: Entry)
    requires Placed(tab, c, x, e)
    requires Pow2(c.root) <= used && c.nx + Pow2(c.curr) <= used <= |tab|
    ensures Leads(tab[..used], c.root, x, e)
  {
    LowShr(x, c.root);
    var h := tab[Low(x, c.root)];
    LowShr(Shr(x, c.root), h.op);
  }

  lemma SingleCount(lens: Lengths)
    requires UsedCount(lens) > 0 && Kraft(lens) < Pow2(MAXBITS) && Longest(lens) == 1
    ensures Kraft(lens) == Pow2(MAXBITS - 1) && UsedCount(lens) == 1
  {
    hide Pow2, Shl;
    LongestIs(lens, MAXBITS);
    BelowFlat(lens, 2, MAXBITS + 1);
    OffsFlat(lens, 2, MAXBITS + 1);
    var t := Total(lens, 1);
    assert Kraft(lens) == Shl(t, MAXBITS - 1);
    assert UsedCount(lens) == t;
    if t >= 2 { TwoCodesFill(t); }
    ShlOne(MAXBITS - 1);
  }

  lemma TwoCodesFill(t: nat)
    requires t >= 2
    ensures Shl(t, MAXBITS - 1) >= Pow2(MAXBITS)
  {
    ShlMono(2, t, MAXBITS - 1);
    ShlShl(1, 1, MAXBITS - 1);
    ShlOne(MAXBITS);
  }

  /** A set with one code of one bit: the other bit is marked invalid. */
  lemma SingleCode(lens: Lengths)
    requires UsedCount(lens) > 0 && Kraft(lens) < Pow2(MAXBITS) && Longest(lens) == 1
    ensures Kraft(lens) == Pow2(MAXBITS - 1) && UsedCount(lens) == 1
    ensures var s := SymAt(lens, 0); lens[s] == 1 && Huff(lens, s) == 0
    ensures forall s: nat :: Used(lens, s) ==> s == SymAt(lens, 0)
  {
    hide Pow2, Below;
    SingleCount(lens);
    Extremes(lens, 1);
    forall s: nat | Used(lens, s)
      ensures s == SymAt(lens, 0)
    {
      SymAtIs(lens, s);
    }
    PositionBound(lens, SymAt(lens, 0));
    assert Code(lens, SymAt(lens, 0)) == 0;
  }

  lemma {:induction false} BelowFlat(lens: Lengths, a: nat, b: nat)
    requires 1 <= a <= b <= MAXBITS + 1 && forall i :: a <= i < b ==> Total(lens, i) == 0
    ensures Below(lens, a) == Below(lens, b)
    decreases b
  {
    if a < b {
      BelowFlat(lens, a, b - 1);
      ShlOne(MAXBITS + 1 - b);
    }
  }

  lemma SingleTable(ty: CodeType, lens: Lengths, tab: seq<Entry>, c: Cursor)
    requires |lens| <= MaxSyms(ty) && UsedCount(lens) > 0
    requires Kraft(lens) < Pow2(MAXBITS) && Longest(lens) == 1 && c.root == 1
    requires c.nx + Pow2(c.curr) == 2 <= |tab|
    requires Built(ty, lens, tab, c, UsedCount(lens))
    ensures Decodes(ty, lens, tab[..2][1 := InvalidEntry], 1)
  {
    var tab' := tab[..2][1 := InvalidEntry];
    SingleCode(lens);
    forall x: nat
      ensures Low(x, 1) == 0 || Low(x, 1) == 1
    {
      LowShr(x, 1);
    }
    forall s, x | Hit(lens, s, x)
      ensures Leads(tab', 1, x, Full(ty, lens, s))
    {
      PositionBound(lens, s);
      Restrict(tab, c, 2, x, Full(ty, lens, s));
      LowShr(x, 1);
    }
    forall x | Unmatched(lens, x)
      ensures Leads(tab', 1, x, InvalidEntry)
    {
      assert !Hit(lens, SymAt(lens, 0), x);
    }
  }

  /** The entry for a symbol, from the base and extra tables of its code type. */
  method MakeEntry(ty: CodeType, sym: nat, bits: nat) returns (here: Entry)
    requires sym < MaxSyms(ty)
    ensures here == Entry(Op(ty, sym), bits, Val(ty, sym))
  {
    var end := match ty case CODES => 19 case LENS => 256 case DISTS => -1;
    if sym < end {
      here := Entry(0, bits, sym);
    } else if sym > end {
      here := if ty == LENS then Entry(LExt(sym - 257), bits, LBase(sym - 257))
              else Entry(DExt(sym), bits, DBase(sym));
    } else {
      here := Entry(32 + 64, bits, 0);
    }
  }

  const NOLOW: nat := 0xFFFFFFFF

  ghost predicate CountsAt(lens: Lengths, count: seq<nat>, k: nat)
    requires |count| == MAXBITS + 1 && k < UsedCount(lens)
  {
    var l := lens[SymAt(lens, k)];
    count[l] + Count(lens, SymAt(lens, k), l) == Total(lens, l) &&
    forall i :: l < i <= MAXBITS ==> count[i] == Total(lens, i)
  }

  lemma EnterBounds(ty: CodeType, lens: Lengths, tab: seq<Entry>, c: Cursor, k: nat)
    requires |lens| <= MaxSyms(ty) && c.root > 0 && Filling(ty, lens, tab, c, k)
    ensures var s := SymAt(lens, k); var l, h := lens[s], Huff(lens, s);
            && s < |lens| && c.drop <= l && l - c.drop <= c.curr && Shr(h, c.drop) < Pow2(l - c.drop)
            && (c.drop == c.root ==> c.low < c.nx && c.low < |tab|)
            && c.nx + Pow2(c.curr) == Space(lens, c.root, k) <= |tab|
  {
    hide Shl, Shr, Low, Rev, Pow2, Below, Huff, Built, Position, Start, Space, Kraft, Roomy;
    var s := SymAt(lens, k);
    HuffReversal(lens, s);
    ShrBound(Huff(lens, s), c.drop, lens[s] - c.drop);
  }

  lemma EnterDone(ty: CodeType, lens: Lengths, was: seq<Entry>, now: seq<Entry>, c: Cursor, k: nat)
    requires |lens| <= MaxSyms(ty) && c.root > 0 && Filling(ty, lens, was, c, k)
    requires c.drop <= lens[SymAt(lens, k)]
    requires var s := SymAt(lens, k);
             Filled(was, now, c.nx, c.curr, lens[s] - c.drop, Shr(Huff(lens, s), c.drop),
                    Entry(Op(ty, s), lens[s] - c.drop, Val(ty, s)))
    ensures Built(ty, lens, now, c, k + 1)
    ensures c.drop == c.root ==> c.low < |now| && c.low < |was| && now[c.low] == was[c.low]
  {
    hide Shl, Shr, Low, Rev, Below, Grow, Offs, Count, Pow2, Built;
    FillKeeps(ty, lens, was, now, c, k);
    EnterBounds(ty, lens, was, c, k);
  }

  /** Enter one symbol into the current table. */
  method EnterSymbol(ty: CodeType, lens: Lengths, table: array<Entry>, at: nat, ghost k: nat, sym: nat,
                     huff: nat, root: nat, nx: nat, curr: nat, drop: nat, low: nat)
    requires InRange(lens) && |lens| <= MaxSyms(ty) && at <= table.Length && root > 0
    requires Filling(ty, lens, table[at..], Cursor(root, nx, curr, drop, low), k)
    requires sym == SymAt(lens, k) && huff == Huff(lens, sym)
    modifies table
    ensures Built(ty, lens, table[at..], Cursor(root, nx, curr, drop, low), k + 1)
    ensures drop == root ==> low < |table[at..]| && table[at..][low] == old(table[at..][low])
    ensures forall i :: 0 <= i < table.Length && !(at <= i < at + Space(lens, root, k)) ==> table[i] == old(table[i])
  {
    hide *;
    ghost var c := Cursor(root, nx, curr, drop, low);
    ghost var was := table[at..];
    EnterBounds(ty, lens, was, c, k);
    var len := lens[sym];
    var here := MakeEntry(ty, sym, len - drop);
    Replicate(table, at, nx, curr, len - drop, Shr(huff, drop), here);
    EnterDone(ty, lens, was, table[at..], c, k);
  }

  lemma FillInit(ty: CodeType, lens: Lengths, tab: seq<Entry>, root: nat)
    requires |lens| <= MaxSyms(ty) && Kraft(lens) <= Pow2(MAXBITS) && UsedCount(lens) > 0
    requires lens[SymAt(lens, 0)] <= root <= Longest(lens) && 0 < root && Pow2(root) <= |tab|
    ensures Filling(ty, lens, tab, Cursor(root, 0, root, 0, NOLOW), 0)
    ensures Huff(lens, SymAt(lens, 0)) == 0 && Count(lens, SymAt(lens, 0), lens[SymAt(lens, 0)]) == 0
  {
    var s := SymAt(lens, 0);
    LongestUsed(lens);
    FirstStart(lens);
    HuffReversal(lens, s);
    PositionBound(lens, s);
    ZeroRev(MAXBITS);
  }

  lemma {:induction false} ZeroRev(n: nat)
    ensures Rev(0, n) == 0
  {
    if n > 0 {
      ZeroRev(n - 1);
      ShlOne(n - 1);
    }
  }

  /** What the incremented code is. */
  lemma NextCode(lens: Lengths, k: nat)
    requires k < UsedCount(lens) && Kraft(lens) <= Pow2(MAXBITS)
    ensures var s := SymAt(lens, k);
            Huff(lens, s) < Pow2(lens[s]) &&
            Increment(Huff(lens, s), lens[s]) ==
              (if k + 1 < UsedCount(lens) then Huff(lens, SymAt(lens, k + 1)) else Rev(Kraft(lens), MAXBITS))
  {
    hide Shl, Rev, Increment, Below, Offs, Pow2, Huff, Start;
    var s := SymAt(lens, k);
    HuffReversal(lens, s);
    IncrementNext(lens, s);
    if k + 1 < UsedCount(lens) {
      NextStart(lens, k);
      HuffReversal(lens, SymAt(lens, k + 1));
    } else {
      LastEnd(lens);
    }
  }

  lemma NewPrefixIff(ty: CodeType, lens: Lengths, tab: seq<Entry>, c: Cursor, k: nat)
    requires |lens| <= MaxSyms(ty) && 0 < c.root && Filling(ty, lens, tab, c, k)
    requires k + 1 < UsedCount(lens) && (c.drop == 0 ==> c.low == NOLOW)
    ensures var t := SymAt(lens, k + 1);
            && (NewPrefix(lens, c.root, k + 1) <==> lens[t] > c.root && Low(Huff(lens, t), c.root) != c.low)
            && (c.drop == 0 || c.drop == c.root)
            && Low(Huff(lens, t), c.root) < Pow2(c.root) <= Space(lens, c.root, k)
            && Space(lens, c.root, k + 1) == Space(lens, c.root, k) +
                 (if NewPrefix(lens, c.root, k + 1) then Pow2(SubBits(lens, c.root, k + 1)) else 0)
  {
    hide Shl, Shr, Rev, Below, Offs, Count, Built, Huff, Growth, Roomy, Position;
    var t := SymAt(lens, k + 1);
    LowShr(Huff(lens, t), c.root);
    Pow2Mono(c.root, MAXBITS);
    assert Pow2(MAXBITS) == 32768;
  }

  /** Enter a symbol, step to the next code and count the symbol off. */
  method Advance(ty: CodeType, lens: Lengths, count: array<nat>, table: array<Entry>, at: nat,
                 ghost k: nat, sym: nat, len: nat, huff: nat, c: Cursor)
    returns (huff': nat)
    requires InRange(lens) && |lens| <= MaxSyms(ty) && at <= table.Length && c.root > 0
    requires count.Length == MAXBITS + 1
    requires Filling(ty, lens, table[at..], c, k) && CountsAt(lens, count[..], k)
    requires sym == SymAt(lens, k) && huff == Huff(lens, sym) && len == lens[sym] <= MAXBITS
    modifies table, count
    ensures Built(ty, lens, table[at..], c, k + 1)
    ensures c.drop == c.root ==> c.low < |table[at..]| && table[at..][c.low] == old(table[at..][c.low])
    ensures forall i :: 0 <= i < table.Length && !(at <= i < at + Space(lens, c.root, k)) ==> table[i] == old(table[i])
    ensures 1 <= len <= Longest(lens) <= MAXBITS
    ensures if count[len] == 0 && len == Longest(lens) then
              k + 1 == UsedCount(lens) && huff' == Rev(Kraft(lens), MAXBITS)
            else
              k + 1 < UsedCount(lens) && CountsAt(lens, count[..], k + 1) &&
              len <= lens[SymAt(lens, k + 1)] <= Longest(lens) && huff' == Huff(lens, SymAt(lens, k + 1)) &&
              (count[len] > 0 ==> lens[SymAt(lens, k + 1)] == len)
  {
    hide Shl, Shr, Low, Rev, Below, Grow, Offs, Built, Huff, Position, Start, Increment, Ready, Roomy, Longest,
         FirstCode, CountsAt, Count, Total, UsedCount, Kraft, Placed, Code, SubBits, Growth, Space;
    EnterSymbol(ty, lens, table, at, k, sym, huff, c.root, c.nx, c.curr, c.drop, c.low);
    CountsNext(lens, count[..], k);
    NextCode(lens, k);
    huff' := IncrementCode(huff, len);
    ghost var was := count[..];
    count[len] := count[len] - 1;
    assert count[..] == was[len := was[len] - 1];
  }

  /** Allocate the next second-level table, and link the root table to it if it
      fits. */
  method OpenSubTable(ty: CodeType, lens: Lengths, count: array<nat>, table: array<Entry>, at: nat,
                      root: nat, max: nat, len: nat, huff: nat, nx: nat, curr: nat, used: nat,
                      ghost c: Cursor, ghost was: seq<Entry>, ghost k: nat)
    returns (nx': nat, curr': nat, used': nat, lowbits: nat)
    requires |lens| <= MaxSyms(ty) && count.Length == MAXBITS + 1 && at <= table.Length
    requires 0 < c.root == root && c.nx == nx && c.curr == curr && max == Longest(lens) <= MAXBITS
    requires Filling(ty, lens, was, c, k) && |was| == |table[at..]|
    requires NewPrefix(lens, root, k + 1) && Built(ty, lens, table[at..], c, k + 1)
    requires CountsAt(lens, count[..], k + 1)
    requires len == lens[SymAt(lens, k + 1)] <= max && huff == Huff(lens, SymAt(lens, k + 1))
    requires used == nx + Pow2(curr) && Low(huff, root) < used
    requires at + Limit(ty, root) <= table.Length && ty != CODES
    modifies table
    ensures used' == used + Pow2(SubBits(lens, root, k + 1)) == nx' + Pow2(curr')
    ensures lowbits == Low(huff, root)
    ensures !TooBig(ty, used') ==>
              at + used' <= table.Length &&
              Filling(ty, lens, table[at..], Cursor(root, nx', curr', root, lowbits), k + 1)
    ensures forall i :: 0 <= i < table.Length && i != at + lowbits ==> table[i] == old(table[i])
  {
    hide Shl, Shr, Low, Rev, Below, Grow, Offs, Built, Huff, Position, Start, Increment, Ready, Roomy, Longest,
         FirstCode, Filling, CountsAt, Count, Total, UsedCount, Kraft, Placed, Code, SubBits, Growth;
    nx' := nx + Pow2(curr);
    GrowthIs(lens, root, count[..], k + 1);
    curr' := SubTableBits(lens, count, len, root, max);
    used' := used + Pow2(curr');
    lowbits := Low(huff, root);
    if TooBig(ty, used') { return; }
    ghost var now := table[at..];
    OpenTable(ty, lens, was, now, c, Cursor(root, nx', curr', root, lowbits), k);
    table[at + lowbits] := Entry(curr', root, nx');
    assert table[at..] == now[lowbits := Entry(curr', root, nx')];
  }

  /** The loop over all codes; returns the final reversed code and table. */
  method FillTables(ty: CodeType, lens: Lengths, count: array<nat>, work: array<nat>, table: array<Entry>,
                    at: nat, root: nat, max: nat)
    returns (ret: int, used: nat, huff: nat, nx: nat, curr: nat, low: nat, drop: nat, len: nat)
    requires InRange(lens) && |lens| <= MaxSyms(ty) && Kraft(lens) <= Pow2(MAXBITS)
    requires count.Length == MAXBITS + 1 && forall l :: 0 <= l <= MAXBITS ==> count[l] == Total(lens, l)
    requires 0 < UsedCount(lens) <= work.Length
    requires forall k :: 0 <= k < UsedCount(lens) ==> work[k] == SymAt(lens, k)
    requires max == Longest(lens) && lens[SymAt(lens, 0)] <= root <= max && 0 < root
    requires ty == CODES ==> max == root
    requires at + Limit(ty, root) <= table.Length && count != work
    modifies table, count
    ensures ret == (if TooBig(ty, Space(lens, root, UsedCount(lens) - 1)) then 1 else 0)
    ensures ret == 0 ==>
              && used == nx + Pow2(curr) == Space(lens, root, UsedCount(lens) - 1) && at + used <= table.Length
              && huff == Rev(Kraft(lens), MAXBITS) && len == max && (drop == 0 ==> nx == 0 && curr == root)
              && (max == root ==> drop == 0)
              && Built(ty, lens, table[at..], Cursor(root, nx, curr, drop, low), UsedCount(lens))
              && (forall i :: at + used <= i < table.Length ==> table[i] == old(table[i]))
    ensures forall i :: 0 <= i < at ==> table[i] == old(table[i])
  {
    hide Shl, Shr, Low, Rev, Below, Grow, Offs, Built, Huff, Position, Start, Increment, Ready, Roomy, Longest,
         FirstCode, Filling, CountsAt, Count, Total, UsedCount, Kraft, Placed, Code, NewPrefix, SubBits, Growth,
         Pow2, InRange, Space;
    var sym: nat := 0;
    huff, len, nx, curr, drop, low, ret := 0, lens[work[0]], 0, root, 0, NOLOW, 0;
    used := Pow2(root);
    SpaceZero(lens, root);
    if TooBig(ty, used) { return 1, used, huff, nx, curr, low, drop, len; }
    FillInit(ty, lens, table[at..], root);
    CountsInit(lens, count[..]);
    while true
      invariant sym < UsedCount(lens) && used == Space(lens, root, sym) == nx + Pow2(curr) && !TooBig(ty, used)
      invariant len == lens[SymAt(lens, sym)] && huff == Huff(lens, SymAt(lens, sym))
      invariant (drop == 0 ==> low == NOLOW && nx == 0 && curr == root)
      invariant at + used <= table.Length
      invariant CountsAt(lens, count[..], sym)
      invariant Filling(ty, lens, table[at..], Cursor(root, nx, curr, drop, low), sym)
      invariant forall i :: 0 <= i < table.Length && !(at <= i < at + used) ==> table[i] == old(table[i])
      decreases UsedCount(lens) - sym
    {
      ghost var k := sym;
      var c := Cursor(root, nx, curr, drop, low);
      ghost var was := table[at..];
      huff := Advance(ty, lens, count, table, at, sym, work[sym], len, huff, c);
      sym := sym + 1;
      if count[len] == 0 {
        if len == max {
          LongestRoot(ty, lens, was, c, k);
          break;
        }
        len := lens[work[sym]];
      }
      NewPrefixIff(ty, lens, was, c, k);
      if len > root && Low(huff, root) != low {
        if drop == 0 { drop := root; }
        nx, curr, used, low := OpenSubTable(ty, lens, count, table, at, root, max, len, huff, nx, curr, used, c, was, k);
        if TooBig(ty, used) {
          SpaceMono(lens, root, sym, UsedCount(lens) - 1);
          return 1, used, huff, nx, curr, low, drop, len;
        }
      } else {
        StayInTable(ty, lens, was, table[at..], c, k);
      }
    }
  }

  lemma CountsInit(lens: Lengths, count: seq<nat>)
    requires |count| == MAXBITS + 1 && forall l :: 0 <= l <= MAXBITS ==> count[l] == Total(lens, l)
    requires 0 < UsedCount(lens)
    ensures CountsAt(lens, count, 0)
  {
    PositionBound(lens, SymAt(lens, 0));
  }

  lemma CountsNext(lens: Lengths, count: seq<nat>, k: nat)
    requires k < UsedCount(lens) && |count| == MAXBITS + 1 && CountsAt(lens, count, k)
    ensures var l := lens[SymAt(lens, k)];
            && 1 <= l <= Longest(lens) <= MAXBITS && count[l] > 0
            && (count[l] == 1 && l == Longest(lens) ==> k + 1 == UsedCount(lens))
            && (count[l] > 1 || l < Longest(lens) ==>
                  k + 1 < UsedCount(lens) && CountsAt(lens, count[l := count[l] - 1], k + 1) &&
                  l <= lens[SymAt(lens, k + 1)] <= Longest(lens) &&
                  (count[l] > 1 ==> lens[SymAt(lens, k + 1)] == l))
  {
    CountStep(lens, k);
    LongestUsed(lens);
  }

  lemma LongestRoot(ty: CodeType, lens: Lengths, tab: seq<Entry>, c: Cursor, k: nat)
    requires |lens| <= MaxSyms(ty) && 0 < c.root && Filling(ty, lens, tab, c, k)
    requires lens[SymAt(lens, k)] == Longest(lens)
    ensures Longest(lens) == c.root ==> c.drop == 0
  {
  }

  lemma GrowthIs(lens: Lengths, root: nat, count: seq<nat>, k: nat)
    requires k < UsedCount(lens) && |count| == MAXBITS + 1 && CountsAt(lens, count, k)
    requires lens[SymAt(lens, k)] > root
    ensures var l := lens[SymAt(lens, k)];
            root + SubBits(lens, root, k) == Grow(lens, Longest(lens), l, Pow2(l - root), count[l])
    ensures forall i :: lens[SymAt(lens, k)] < i <= MAXBITS ==> count[i] == Total(lens, i)
  {
    hide Shl, Shr, Low, Rev, Below, Grow, Offs, Count, Pow2, Longest, Position;
  }

  /** Sort, fill, and mark the unused string of an incomplete code. */
  method FillAll(ty: CodeType, lens: Lengths, count: array<nat>, table: array<Entry>, at: nat, bits: nat,
                 root: nat, max: nat)
    returns (ret: int, used: nat)
    requires InRange(lens) && |lens| <= MaxSyms(ty) && 1 <= bits
    requires ty == CODES ==> forall i :: 0 <= i < |lens| ==> lens[i] <= bits
    requires at + Limit(ty, bits) <= table.Length
    requires count.Length == MAXBITS + 1 && forall l :: 0 <= l <= MAXBITS ==> count[l] == Total(lens, l)
    requires UsedCount(lens) > 0 && Accepted(ty, lens) && root == RootBits(lens, bits) && max == Longest(lens)
    modifies table, count
    ensures ret == (if TooBig(ty, Space(lens, root, UsedCount(lens) - 1)) then 1 else 0)
    ensures ret == 0 ==>
              && at + used <= table.Length && used <= Limit(ty, bits)
              && Decodes(ty, lens, table[at..at + used], root)
              && (forall i :: at + used <= i < table.Length ==> table[i] == old(table[i]))
    ensures forall i :: 0 <= i < at ==> table[i] == old(table[i])
  {
    hide Shl, Pow2, Below, Offs, Rev, Space, Longest, RootBits, Decodes, Count, UsedCount, InRange, Used, Accepted,
         Built, Kraft, Complete;
    FillBounds(ty, lens, bits);
    var work := SortSymbols(lens, count);
    var huff, nx, curr, low, drop, len;
    ret, used, huff, nx, curr, low, drop, len := FillTables(ty, lens, count, work, table, at, root, max);
    if ret != 0 { return; }
    ghost var tab := table[at..];
    Finish(ty, lens, tab, Cursor(root, nx, curr, drop, low), used);
    if huff != 0 {
      assert at + nx + huff == at + 1 && len - drop == 1;
      table[at + nx + huff] := Entry(64, len - drop, 0);
      assert table[at] == tab[0] && table[at + 1] == InvalidEntry;
      assert table[at..at + used] == [table[at], table[at + 1]] == tab[..2][1 := InvalidEntry];
    } else {
      assert table[at..at + used] == tab[..used];
    }
  }

  lemma FillBounds(ty: CodeType, lens: Lengths, bits: nat)
    requires UsedCount(lens) > 0 && Accepted(ty, lens) && 1 <= bits
    requires ty == CODES ==> forall i :: 0 <= i < |lens| ==> lens[i] <= bits
    ensures var root := RootBits(lens, bits);
            && Kraft(lens) <= Pow2(MAXBITS) && 0 < root <= Longest(lens) <= MAXBITS
            && SymAt(lens, 0) < |lens| && lens[SymAt(lens, 0)] <= root
            && (Longest(lens) == 1 ==> root == 1)
            && (ty == CODES ==> Longest(lens) == root && root <= bits)
            && Limit(ty, root) <= Limit(ty, bits)
  {
    LongestUsed(lens);
    Extremes(lens, bits);
    CodesRoot(lens, bits);
    if ty == CODES { Pow2Mono(RootBits(lens, bits), bits); }
  }

  /** Build the decoding tables for a set of code lengths.  Returns -1 for a set
      that is over-subscribed or incomplete in a way that is not allowed, 1 if
      the table space does not suffice, and otherwise 0 with the number of
      entries used and the index bits of the root table. */
  method InflateTable(ty: CodeType, lens: Lengths, table: array<Entry>, at: nat, bits: nat)
    returns (ret: int, used: nat, root: nat)
    requires InRange(lens) && |lens| <= MaxSyms(ty) && 1 <= bits
    requires ty == CODES ==> forall i :: 0 <= i < |lens| ==> lens[i] <= bits
    requires at + Limit(ty, bits) <= table.Length
    modifies table
    ensures ret == (if !Accepted(ty, lens) then -1 else if Fits(ty, lens, bits) then 0 else 1)
    ensures ret == 0 ==>
              && root == RootBits(lens, bits) && at + used <= table.Length
              && used <= Limit(ty, bits)
              && Decodes(ty, lens, table[at..at + used], root)
              && (forall i :: at + used <= i < table.Length ==> table[i] == old(table[i]))
    ensures forall i :: 0 <= i < at ==> table[i] == old(table[i])
  {
    hide Shl, Pow2, Below, Offs, Rev, Space, Longest, RootBits, Decodes, Count, UsedCount, InRange, Used, Limit;
    var count := CountLengths(lens);
    LongestUsed(lens);
    var min, max;
    root, min, max := BoundLengths(lens, count, bits);
    if max == 0 {
      EmptyOutcome(ty, lens, bits);
      table[at] := InvalidEntry;
      table[at + 1] := InvalidEntry;
      EmptyTable(ty, lens, table[at..at + 2]);
      return 0, 2, 1;
    }
    var left := CheckSet(lens, count);
    if left < 0 || (left > 0 && (ty == CODES || max != 1)) {
      return -1, 0, root;
    }
    ret, used := FillAll(ty, lens, count, table, at, bits, root, max);
  }

  lemma EmptyOutcome(ty: CodeType, lens: Lengths, bits: nat)
    requires 1 <= bits && Longest(lens) == 0
    ensures Accepted(ty, lens) && Fits(ty, lens, bits) && RootBits(lens, bits) == 1 && Limit(ty, bits) >= 2
  {
    LongestUsed(lens);
    Pow2Mono(1, bits);
  }

  lemma EmptyTable(ty: CodeType, lens: Lengths, tab: seq<Entry>)
    requires |lens| <= MaxSyms(ty) && Longest(lens) == 0 && tab == [InvalidEntry, InvalidEntry]
    ensures Decodes(ty, lens, tab, 1)
  {
    LongestUsed(lens);
    forall s, x | Hit(lens, s, x)
      ensures false
    {
      PositionBound(lens, s);
    }
    forall x: nat
      ensures Low(x, 1) < 2
    {
      LowShr(x, 1);
    }
  }

  lemma CodesRoot(lens: Lengths, bits: nat)
    requires UsedCount(lens) > 0 && bits > 0
    ensures Longest(lens) <= bits ==> RootBits(lens, bits) == Longest(lens)
    ensures (forall i :: 0 <= i < |lens| ==> lens[i] <= bits) ==> Longest(lens) <= bits
    ensures RootBits(lens, bits) <= bits || Longest(lens) > bits
  {
    LongestUsed(lens);
    LongestIs(lens, MAXBITS);
    var g := Nth(lens, |lens|, Longest(lens), 0);
    Extremes(lens, bits);
  }

  lemma Finish(ty: CodeType, lens: Lengths, tab: seq<Entry>, c: Cursor, used: nat)
    requires |lens| <= MaxSyms(ty) && UsedCount(lens) > 0 && c.root <= MAXBITS
    requires c.nx + Pow2(c.curr) == used == Space(lens, c.root, UsedCount(lens) - 1) <= |tab|
    requires Built(ty, lens, tab, c, UsedCount(lens))
    requires Accepted(ty, lens) && (c.drop == 0 ==> c.nx == 0 && c.curr == c.root)
    requires Longest(lens) == 1 ==> c.root == 1 && c.drop == 0
    ensures Complete(lens) ==> Rev(Kraft(lens), MAXBITS) == 0 && Decodes(ty, lens, tab[..used], c.root)
    ensures !Complete(lens) ==>
              Rev(Kraft(lens), MAXBITS) == 1 && used == 2 && c.root == 1 && c.drop == 0 && Longest(lens) == 1 &&
              Decodes(ty, lens, tab[..2][1 := InvalidEntry], 1)
  {
    LongestUsed(lens);
    if Complete(lens) {
      RevPow2(MAXBITS, MAXBITS);
      CompleteTable(ty, lens, tab, c, used);
    } else {
      SingleCode(lens);
      RevPow2(MAXBITS - 1, MAXBITS);
      SingleTable(ty, lens, tab, c);
    }
  }

  /** The reversal of a power of two. */
  lemma {:induction false} RevPow2(k: nat, n: nat)
    requires k <= n
    ensures Rev(Pow2(k), n) == if k == n then 0 else Pow2(n - 1 - k)
    decreases n
  {
    if k == 0 && n > 0 {
      ZeroRev(n - 1);
      ShlOne(n - 1);
    } else if n > 0 {
      RevPow2(k - 1, n - 1);
      ShlOne(n - 1);
    }
  }
}
