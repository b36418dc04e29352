/** What the symbol lookup loops of inflate() may conclude from the bits they
    hold, and why they never hold more than they need. */
module Lookup {
  import opened Bits
  import opened HuffmanCode
  import opened CodeOrder
  import opened TableTheory
  import opened InflateTable
  import opened Tokens
  import opened InflateSpec
  import opened InflateProps

  // ---------- table entries and decoding ----------

  ghost predicate EndsAt(ty: CodeType, lens: Lengths, s: nat, x: nat, e: Entry)
    requires |lens| <= MaxSyms(ty)
  {
    s < |lens| && Hit(lens, s, x) && e == Full(ty, lens, s)
  }

  /** e is the entry, with the bits of both levels, for a hold of x. */
  ghost predicate Ends(ty: CodeType, lens: Lengths, x: nat, e: Entry)
    requires |lens| <= MaxSyms(ty)
  {
    (exists s: nat :: EndsAt(ty, lens, s, x, e)) || (Unmatched(lens, x) && e == InvalidEntry)
  }

  lemma LookupEnds(ty: CodeType, lens: Lengths, tab: seq<Entry>, root: nat, x: nat) returns (e: Entry)
    requires |lens| <= MaxSyms(ty) && Decodes(ty, lens, tab, root)
    ensures Ends(ty, lens, x, e) && Leads(tab, root, x, e)
  {
    hide Leads, Hit, Full;
    if s: nat :| Hit(lens, s, x) {
      HitUsed(lens, s, x);
      e := Full(ty, lens, s);
      assert EndsAt(ty, lens, s, x, e);
    } else {
      e := InvalidEntry;
    }
  }

  lemma HitUsed(lens: Lengths, s: nat, x: nat)
    requires Hit(lens, s, x)
    ensures s < |lens|
  {
  }

  /** x has n bits at hand: it starts with a code of at most n bits exactly when
      the code is a prefix of those bits. */
  lemma HitIsStart(lens: Lengths, s: nat, x: nat, n: nat)
    requires x < Pow2(n) && Kraft(lens) <= Pow2(MAXBITS)
    ensures Starts(lens, s, ToBits(x, n)) <==> Hit(lens, s, x) && lens[s] <= n
  {
    hide CodeBits, Code, Kraft, ToBits, Low, Pow2;
    if Used(lens, s) {
      PrefixValue(lens, s, ToBits(x, n));
      FromTo(x, n);
      LowSmall(x, n);
    }
  }

  /** In an incomplete set that is accepted, no code is longer than one bit. */
  lemma IncompleteShort(ty: CodeType, lens: Lengths, s: nat)
    requires Accepted(ty, lens) && !Complete(lens) && Used(lens, s)
    ensures lens[s] <= 1
  {
    LongestUsed(lens);
  }

  lemma CompleteHits(lens: Lengths, x: nat)
    requires Complete(lens)
    ensures !Unmatched(lens, x)
  {
    hide Code, Kraft, Rev, Low;
    RevBound(x, MAXBITS);
    var s := OwnerExists(lens, Rev(x, MAXBITS));
    CodeFits(lens, s);
    OwnsIffPrefix(lens, s, x);
    assert Hit(lens, s, x);
  }

  /** The number of bits of the entry says whether the symbol is all there. */
  lemma EndsDecode(ty: CodeType, lens: Lengths, x: nat, n: nat, e: Entry)
    requires |lens| <= MaxSyms(ty) && Accepted(ty, lens) && x < Pow2(n) && Ends(ty, lens, x, e)
    ensures var d := Decode(lens, ToBits(x, n));
            if e.bits > n then d == NeedMore
            else if d.Symbol? then d.s < |lens| && e == Full(ty, lens, d.s)
            else d == Invalid && e == InvalidEntry
  {
    hide Hit, Kraft, Pow2, ToBits, Starts, Complete, Accepted, Full, Decode, Unmatched;
    AcceptedKraft(ty, lens);
    if s: nat :| EndsAt(ty, lens, s, x, e) {
      EndsSymbol(ty, lens, s, x, n);
    } else {
      EndsNowhere(ty, lens, x, n);
    }
  }

  lemma EndsSymbol(ty: CodeType, lens: Lengths, s: nat, x: nat, n: nat)
    requires |lens| <= MaxSyms(ty) && Accepted(ty, lens) && Kraft(lens) <= Pow2(MAXBITS) && x < Pow2(n) && Hit(lens, s, x)
    ensures s < |lens| && Full(ty, lens, s).bits == lens[s]
    ensures Decode(lens, ToBits(x, n)) == if lens[s] > n then NeedMore else Symbol(s)
  {
    hide Kraft, Pow2, ToBits, Starts, Complete, Accepted, Low, Code;
    HitIsStart(lens, s, x, n);
    if lens[s] <= n {
      DecodeIs(lens, s, ToBits(x, n));
    } else {
      forall t: nat
        ensures !Starts(lens, t, ToBits(x, n))
      {
        HitIsStart(lens, t, x, n);
        if Hit(lens, t, x) { HitUnique(lens, s, t, x); }
      }
      if !Complete(lens) { IncompleteShort(ty, lens, s); }
    }
  }

  lemma EndsNowhere(ty: CodeType, lens: Lengths, x: nat, n: nat)
    requires |lens| <= MaxSyms(ty) && Accepted(ty, lens) && Kraft(lens) <= Pow2(MAXBITS) && x < Pow2(n)
    requires Unmatched(lens, x)
    ensures InvalidEntry.bits == 1
    ensures Decode(lens, ToBits(x, n)) == if 1 > n then NeedMore else Invalid
  {
    hide Kraft, Pow2, ToBits, Starts, Complete, Accepted, Hit;
    if Complete(lens) { CompleteHits(lens, x); }
    forall t: nat
      ensures !Starts(lens, t, ToBits(x, n))
    {
      HitIsStart(lens, t, x, n);
    }
  }

  /** In the table of the code length code there are no second-level tables. */
  lemma CodesFlat(lens: Lengths, tab: seq<Entry>, x: nat, bits: nat, e: Entry)
    requires InRange(lens) && |lens| <= 19 && 1 <= bits && forall i :: 0 <= i < |lens| ==> lens[i] <= bits
    requires Ends(CODES, lens, x, e) && Leads(tab, RootBits(lens, bits), x, e)
    ensures tab[Low(x, RootBits(lens, bits))] == e
  {
    hide Low, Shr, InRange, Decodes, Hit, Unmatched, RootBits;
    EndsShort(lens, x, bits, e);
  }

  lemma EndsShort(lens: Lengths, x: nat, bits: nat, e: Entry)
    requires |lens| <= 19 && 1 <= bits && forall i :: 0 <= i < |lens| ==> lens[i] <= bits
    requires Ends(CODES, lens, x, e)
    ensures e.bits <= RootBits(lens, bits)
  {
    hide Low, Shr;
    LongestUsed(lens);
    if UsedCount(lens) > 0 {
      CodesRoot(lens, bits);
      Extremes(lens, bits);
    }
  }
}
