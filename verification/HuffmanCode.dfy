/** Canonical Huffman codes as section 3.2.2 of RFC 1951 defines them.

    Every symbol of length l owns the half-open interval
    [Start, Start + 2^(15-l)) of the 15-bit strings read most significant bit
    first.  Intervals of different symbols are disjoint, and together they tile
    [0, Kraft). */
module HuffmanCode {
  import opened Bits

  const MAXBITS: nat := 15

  type Lengths = seq<nat>

  predicate InRange(lens: Lengths)
  {
    forall i :: 0 <= i < |lens| ==> lens[i] <= MAXBITS
  }

  /** How many of the first n symbols have length l. */
  function Count(lens: Lengths, n: nat, l: nat): (r: nat)
    requires n <= |lens|
    ensures r <= n
  {
    if n == 0 then 0 else Count(lens, n - 1, l) + (if lens[n - 1] == l then 1 else 0)
  }

  function Total(lens: Lengths, l: nat): nat { Count(lens, |lens|, l) }

  /** Room taken by all codes shorter than L, in units of 2^-15. */
  function Below(lens: Lengths, L: nat): nat
    requires L <= MAXBITS + 1
  {
    if L <= 1 then 0 else Below(lens, L - 1) + Shl(Total(lens, L - 1), MAXBITS + 1 - L)
  }

  function Kraft(lens: Lengths): nat { Below(lens, MAXBITS + 1) }

  /** The length set leaves no bit string without a code. */
  predicate Complete(lens: Lengths) { Kraft(lens) == Pow2(MAXBITS) }

  predicate Used(lens: Lengths, s: nat) { s < |lens| && 1 <= lens[s] <= MAXBITS }

  /** The smallest code value of length L. */
  function FirstCode(lens: Lengths, L: nat): nat
  {
    if L <= 1 then 0 else 2 * (FirstCode(lens, L - 1) + Total(lens, L - 1))
  }

  function Code(lens: Lengths, s: nat): nat
    requires Used(lens, s)
  {
    FirstCode(lens, lens[s]) + Count(lens, s, lens[s])
  }

  function Width(l: nat): nat
    requires l <= MAXBITS
  {
    Pow2(MAXBITS - l)
  }

  function Start(lens: Lengths, s: nat): nat
    requires Used(lens, s)
  {
    Shl(Code(lens, s), MAXBITS - lens[s])
  }

  /** The bits of a code in the order in which they are sent. */
  function CodeBits(lens: Lengths, s: nat): (b: seq<bool>)
    requires Used(lens, s)
    ensures |b| == lens[s]
  {
    ToBits(Rev(Code(lens, s), lens[s]), lens[s])
  }

  // ---------- counting ----------

  lemma {:induction false} CountMono(lens: Lengths, m: nat, n: nat, l: nat)
    requires m <= n <= |lens|
    ensures Count(lens, m, l) <= Count(lens, n, l)
    ensures m < n && lens[m] == l ==> Count(lens, m, l) < Count(lens, n, l)
    decreases n
  {
    if m < n { CountMono(lens, m, n - 1, l); }
  }

  lemma {:induction false} CountZero(lens: Lengths, n: nat, l: nat)
    requires n <= |lens| && Count(lens, n, l) == 0
    ensures forall i :: 0 <= i < n ==> lens[i] != l
  {
    if n > 0 { CountZero(lens, n - 1, l); }
  }

  lemma {:induction false} CountRun(lens: Lengths, a: nat, b: nat, x: nat, l: nat)
    requires a <= b <= |lens| && forall i :: a <= i < b ==> lens[i] == x
    ensures Count(lens, b, l) == Count(lens, a, l) + (if l == x then b - a else 0)
    decreases b
  {
    if a < b { CountRun(lens, a, b - 1, x, l); }
  }

  lemma CountNone(lens: Lengths)
    ensures forall l: nat {:trigger Count(lens, 0, l)} :: Count(lens, 0, l) == 0
  {
  }

  lemma CountNext(lens: Lengths, n: nat)
    requires n < |lens|
    ensures forall l: nat {:trigger Count(lens, n + 1, l)} ::
              Count(lens, n + 1, l) == Count(lens, n, l) + (if lens[n] == l then 1 else 0)
  {
  }

  /** The symbol of length l that has r predecessors of the same length. */
  lemma {:induction false} Nth(lens: Lengths, n: nat, l: nat, r: nat) returns (s: nat)
    requires n <= |lens| && r < Count(lens, n, l)
    ensures s < n && lens[s] == l && Count(lens, s, l) == r
  {
    if lens[n - 1] == l && r == Count(lens, n - 1, l) {
      s := n - 1;
    } else {
      s := Nth(lens, n - 1, l, r);
    }
  }

  // ---------- intervals ----------

  lemma {:induction false} BelowFirst(lens: Lengths, L: nat)
    requires 1 <= L <= MAXBITS
    ensures Below(lens, L) == Shl(FirstCode(lens, L), MAXBITS - L)
  {
    if L == 1 {
      ShlOne(MAXBITS - L);
    } else {
      BelowFirst(lens, L - 1);
      var a, b := FirstCode(lens, L - 1), Total(lens, L - 1);
      ShlAdd(a, b, MAXBITS + 1 - L);
      ShlShl(a + b, 1, MAXBITS - L);
      assert Shl(a + b, 1) == 2 * Shl(a + b, 0);
    }
  }

  lemma {:induction false} BelowMono(lens: Lengths, a: nat, b: nat)
    requires a <= b <= MAXBITS + 1
    ensures Below(lens, a) <= Below(lens, b)
    decreases b
  {
    if a < b { BelowMono(lens, a, b - 1); }
  }

  lemma StartSplit(lens: Lengths, s: nat)
    requires Used(lens, s)
    ensures Start(lens, s) == Below(lens, lens[s]) + Shl(Count(lens, s, lens[s]), MAXBITS - lens[s])
  {
    BelowFirst(lens, lens[s]);
    ShlAdd(FirstCode(lens, lens[s]), Count(lens, s, lens[s]), MAXBITS - lens[s]);
  }

  /** The interval of a symbol lies between the shorter and the longer codes. */
  lemma IntervalBounds(lens: Lengths, s: nat)
    requires Used(lens, s)
    ensures Below(lens, lens[s]) <= Start(lens, s)
    ensures Start(lens, s) + Width(lens[s]) <= Below(lens, lens[s] + 1) <= Kraft(lens)
  {
    var l := lens[s];
    StartSplit(lens, s);
    CountMono(lens, s, |lens|, l);
    ShlMono(Count(lens, s, l), Total(lens, l), MAXBITS - l);
    BelowMono(lens, l + 1, MAXBITS + 1);
  }

  predicate Owns(lens: Lengths, s: nat, y: nat)
  {
    Used(lens, s) && Start(lens, s) <= y < Start(lens, s) + Width(lens[s])
  }

  /** No 15-bit string starts with the codes of two symbols. */
  lemma OwnerUnique(lens: Lengths, s: nat, t: nat, y: nat)
    requires Owns(lens, s, y) && Owns(lens, t, y)
    ensures s == t
  {
    if lens[s] < lens[t] || (lens[s] == lens[t] && s < t) {
      Apart(lens, s, t);
    } else if lens[t] < lens[s] || (lens[s] == lens[t] && t < s) {
      Apart(lens, t, s);
    }
  }

  lemma Apart(lens: Lengths, s: nat, t: nat)
    requires Used(lens, s) && Used(lens, t)
    requires lens[s] < lens[t] || (lens[s] == lens[t] && s < t)
    ensures Start(lens, s) + Width(lens[s]) <= Start(lens, t)
  {
    if lens[s] < lens[t] {
      IntervalBounds(lens, s);
      IntervalBounds(lens, t);
      BelowMono(lens, lens[s] + 1, lens[t]);
    } else {
      var l := lens[s];
      StartSplit(lens, s);
      StartSplit(lens, t);
      CountMono(lens, s, t, l);
      ShlMono(Count(lens, s, l), Count(lens, t, l), MAXBITS - l);
    }
  }

  /** Every string below the Kraft sum starts with the code of some symbol. */
  lemma OwnerExists(lens: Lengths, y: nat) returns (s: nat)
    requires y < Kraft(lens)
    ensures Owns(lens, s, y)
  {
    s := OwnerBelow(lens, y, MAXBITS + 1);
  }

  lemma {:induction false} OwnerBelow(lens: Lengths, y: nat, L: nat) returns (s: nat)
    requires L <= MAXBITS + 1 && y < Below(lens, L)
    ensures Owns(lens, s, y)
  {
    if y < Below(lens, L - 1) {
      s := OwnerBelow(lens, y, L - 1);
    } else {
      var l := L - 1;
      var d := y - Below(lens, l);
      LowShr(d, MAXBITS - l);
      var r := Shr(d, MAXBITS - l);
      if Total(lens, l) <= r { ShlMono(Total(lens, l), r, MAXBITS - l); }
      s := Nth(lens, |lens|, l, r);
      StartSplit(lens, s);
    }
  }

  // ---------- codes as bit strings ----------

  lemma OwnsIffTop(lens: Lengths, s: nat, y: nat)
    requires Used(lens, s)
    ensures Owns(lens, s, y) <==> Shr(y, MAXBITS - lens[s]) == Code(lens, s)
  {
    var k, c, q := MAXBITS - lens[s], Code(lens, s), Shr(y, MAXBITS - lens[s]);
    LowShr(y, k);
    if q < c {
      ShlMono(q, c, k);
    } else if c < q {
      ShlMono(c, q, k);
    }
  }

  /** x starts, least significant bit first, with the code of s exactly when
      its reversal lies in the interval of s. */
  lemma OwnsIffPrefix(lens: Lengths, s: nat, x: nat)
    requires Used(lens, s) && Code(lens, s) < Pow2(lens[s])
    ensures Owns(lens, s, Rev(x, MAXBITS)) <==> Low(x, lens[s]) == Rev(Code(lens, s), lens[s])
  {
    var l, c := lens[s], Code(lens, s);
    OwnsIffTop(lens, s, Rev(x, MAXBITS));
    RevTop(x, MAXBITS, l);
    RevInjective(x, c, l);
  }

  lemma RevInjective(x: nat, c: nat, l: nat)
    requires c < Pow2(l)
    ensures Rev(x, l) == c <==> Low(x, l) == Rev(c, l)
  {
    RevRev(x, l);
    RevRev(c, l);
    LowSmall(c, l);
    RevLow(x, l);
  }

  /** A length set that is not over-subscribed gives codes that fit their length. */
  lemma CodeFits(lens: Lengths, s: nat)
    requires Used(lens, s) && Kraft(lens) <= Pow2(MAXBITS)
    ensures Code(lens, s) < Pow2(lens[s])
  {
    var l, c := lens[s], Code(lens, s);
    IntervalBounds(lens, s);
    if Pow2(l) <= c {
      ShlOne(l);
      ShlShl(1, l, MAXBITS - l);
      ShlOne(MAXBITS);
      ShlMono(Pow2(l), c, MAXBITS - l);
    }
  }

  lemma PrefixValue(lens: Lengths, s: nat, bits: seq<bool>)
    requires Used(lens, s) && Kraft(lens) <= Pow2(MAXBITS)
    ensures CodeBits(lens, s) <= bits <==>
              lens[s] <= |bits| && Low(FromBits(bits), lens[s]) == Rev(Code(lens, s), lens[s])
  {
    CodeFits(lens, s);
    RevBound(Code(lens, s), lens[s]);
    if lens[s] <= |bits| {
      PrefixNumber(Rev(Code(lens, s), lens[s]), lens[s], bits);
    }
  }

  lemma PrefixNumber(r: nat, l: nat, bits: seq<bool>)
    requires r < Pow2(l) && l <= |bits|
    ensures ToBits(r, l) <= bits <==> Low(FromBits(bits), l) == r
  {
    FromPrefix(bits, l);
    ToFrom(bits[..l]);
    FromTo(r, l);
    LowSmall(r, l);
    assert ToBits(r, l) <= bits <==> ToBits(r, l) == bits[..l];
  }

  /** The code is prefix-free: a bit string starts with at most one code. */
  lemma PrefixFree(lens: Lengths, s: nat, t: nat, bits: seq<bool>)
    requires Used(lens, s) && Used(lens, t) && Kraft(lens) <= Pow2(MAXBITS)
    requires CodeBits(lens, s) <= bits && CodeBits(lens, t) <= bits
    ensures s == t
  {
    var x := FromBits(bits);
    PrefixValue(lens, s, bits);
    PrefixValue(lens, t, bits);
    CodeFits(lens, s);
    CodeFits(lens, t);
    OwnsIffPrefix(lens, s, x);
    OwnsIffPrefix(lens, t, x);
    OwnerUnique(lens, s, t, Rev(x, MAXBITS));
  }

  /** A complete code decodes every string of 15 or more bits. */
  lemma CompleteDecodes(lens: Lengths, bits: seq<bool>) returns (s: nat)
    requires Complete(lens) && |bits| >= MAXBITS
    ensures Used(lens, s) && CodeBits(lens, s) <= bits
  {
    var x := FromBits(bits);
    RevBound(x, MAXBITS);
    s := OwnerExists(lens, Rev(x, MAXBITS));
    CodeFits(lens, s);
    OwnsIffPrefix(lens, s, x);
    PrefixValue(lens, s, bits);
  }

  // ---------- decoding ----------

  datatype Decoded = Symbol(s: nat) | Invalid | NeedMore

  ghost predicate Starts(lens: Lengths, s: nat, bits: seq<bool>)
  {
    Used(lens, s) && CodeBits(lens, s) <= bits
  }

  /** What a decoder that knows only these bits can conclude.  In a set that is
      not complete every unused string is recognised from its first bit. */
  ghost function Decode(lens: Lengths, bits: seq<bool>): Decoded
  {
    if exists s :: Starts(lens, s, bits) then
      var s :| Starts(lens, s, bits); Symbol(s)
    else if !Complete(lens) && bits != [] then Invalid
    else NeedMore
  }

  lemma DecodeIs(lens: Lengths, s: nat, bits: seq<bool>)
    requires Starts(lens, s, bits) && Kraft(lens) <= Pow2(MAXBITS)
    ensures Decode(lens, bits) == Symbol(s)
  {
    var d := Decode(lens, bits);
    PrefixFree(lens, s, d.s, bits);
  }

  /** More input never changes a conclusion already reached. */
  lemma DecodeMonotone(lens: Lengths, bits: seq<bool>, more: seq<bool>)
    requires Kraft(lens) <= Pow2(MAXBITS)
    requires Decode(lens, bits).Symbol?
    ensures Decode(lens, bits + more) == Decode(lens, bits)
  {
    var s := Decode(lens, bits).s;
    assert Starts(lens, s, bits + more);
    DecodeIs(lens, s, bits + more);
  }
}
