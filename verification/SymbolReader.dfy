/** The loops of inflate() that look up the next symbol, pulling one byte at a
    time until the table entry says that all its bits are there. */
module SymbolReader {
  import opened Bits
  import opened HuffmanCode
  import opened TableTheory
  import opened InflateTable
  import opened InflateSpec
  import opened InflateProps
  import opened Lookup
  import opened Demand
  import opened InflateCases
  import opened InflateState

  lemma EndsBits(ty: CodeType, lens: Lengths, x: nat, e: Entry)
    requires |lens| <= MaxSyms(ty) && InRange(lens) && Ends(ty, lens, x, e)
    ensures 1 <= e.bits <= 15
  {
  }

  /** The first-level entry for the bits held, and the entry where it ends. */
  lemma FirstLevel(m: Machine, ty: CodeType, lens: Lengths, tab: seq<Entry>, root: nat, hold: nat, bits: nat)
    returns (e: Entry)
    requires |lens| <= MaxSyms(ty) && InRange(lens) && Accepted(ty, lens) && Decodes(ty, lens, tab, root)
    requires hold < Pow2(bits) && Asks(m, lens)
    ensures Ends(ty, lens, hold, e) && Leads(tab, root, hold, e) && Low(hold, root) < |tab|
    ensures tab[Low(hold, root)].bits <= e.bits <= 15
    ensures e.bits > bits ==> Step(m, ToBits(hold, bits)) == Stuck
  {
    hide Step, Decode, Accepted, InRange, Decodes, Ends, Low, Shr, ToBits, Pow2;
    e := LookupEnds(ty, lens, tab, root, hold);
    EndsBits(ty, lens, hold, e);
    EndsDecode(ty, lens, hold, bits, e);
  }

  /** for (;;) { here = code[BITS(root)]; if (here.bits <= bits) break; PULLBYTE(); } */
  method FirstEntry(ghost m: Machine, ghost ty: CodeType, ghost lens: Lengths, tab: seq<Entry>, root: nat,
                    input: seq<byte>, next: nat, hold: nat, bits: nat)
    returns (ok: bool, next': nat, hold': nat, bits': nat, here: Entry)
    requires |lens| <= MaxSyms(ty) && InRange(lens) && Accepted(ty, lens) && Decodes(ty, lens, tab, root)
    requires BitsOk(input, next, hold, bits) && Tight(m, ToBits(hold, bits)) && Asks(m, lens)
    ensures BitsOk(input, next', hold', bits') && Tight(m, ToBits(hold', bits'))
    ensures ToBits(hold', bits') + Rest(input, next') == ToBits(hold, bits) + Rest(input, next)
    ensures bits' + 8 * Unread(input, next') == bits + 8 * Unread(input, next)
    ensures ok ==> Low(hold', root) < |tab| && here == tab[Low(hold', root)] && here.bits <= bits'
    ensures !ok ==> next' == |input| && Step(m, ToBits(hold', bits')) == Stuck
  {
    hide Pow2, Low, ToBits, Step, Tight, Rest, Decodes, Accepted, InRange, Leads, Ends, Asks;
    next', hold', bits' := next, hold, bits;
    ghost var e := FirstLevel(m, ty, lens, tab, root, hold', bits');
    here := tab[Low(hold', root)];
    while here.bits > bits'
      invariant BitsOk(input, next', hold', bits') && Tight(m, ToBits(hold', bits'))
      invariant ToBits(hold', bits') + Rest(input, next') == ToBits(hold, bits) + Rest(input, next)
      invariant bits' + 8 * Unread(input, next') == bits + 8 * Unread(input, next)
      invariant Low(hold', root) < |tab| && here == tab[Low(hold', root)] && here.bits <= 15
      invariant here.bits > bits' ==> Step(m, ToBits(hold', bits')) == Stuck
      decreases |input| - next'
    {
      ghost var p := ToBits(hold', bits');
      ok, next', hold', bits' := PullByte(input, next', hold', bits');
      if !ok { return; }
      PullTight(m, p, ToBits(hold', bits'));
      e := FirstLevel(m, ty, lens, tab, root, hold', bits');
      here := tab[Low(hold', root)];
    }
    ok := true;
  }

  /** More bits do not change which first-level entry it is. */
  lemma SameRoot(hold: nat, bits: nat, hold': nat, root: nat)
    requires Low(hold', bits) == hold && root <= bits
    ensures Low(hold', root) == Low(hold, root)
  {
    LowLow(hold', bits, root);
  }

  /** BITS(last.bits + last.op) >> last.bits */
  lemma SecondIndex(hold: nat, a: nat, b: nat)
    ensures Shr(Low(hold, a + b), a) == Low(Shr(hold, a), b)
  {
    LowLow(hold, a + b, a);
  }

  /** The lookup loops for literal/length and distance codes: the operation and
      value of the entry found, and the bits of both levels. */
  method ReadEntry(ghost m: Machine, ty: CodeType, ghost lens: Lengths, tab: seq<Entry>, root: nat,
                   input: seq<byte>, next: nat, hold: nat, bits: nat)
    returns (ok: bool, next': nat, hold': nat, bits': nat, first: nat, here: Entry)
    requires |lens| <= MaxSyms(ty) && InRange(lens) && Accepted(ty, lens) && Decodes(ty, lens, tab, root) && ty != CODES
    requires BitsOk(input, next, hold, bits) && Tight(m, ToBits(hold, bits)) && Asks(m, lens)
    ensures BitsOk(input, next', hold', bits') && Tight(m, ToBits(hold', bits'))
    ensures ToBits(hold', bits') + Rest(input, next') == ToBits(hold, bits) + Rest(input, next)
    ensures bits' + 8 * Unread(input, next') == bits + 8 * Unread(input, next)
    ensures ok ==> first + here.bits <= bits' &&
                   Read(ty, lens, ToBits(hold', bits'), Entry(here.op, first + here.bits, here.val))
    ensures !ok ==> next' == |input| && Step(m, ToBits(hold', bits')) == Stuck
  {
    hide Pow2, Low, ToBits, Step, Tight, Rest, Decodes, Accepted, InRange, Leads, Ends, Asks, Shr, Read;
    first := 0;
    ok, next', hold', bits', here := FirstEntry(m, ty, lens, tab, root, input, next, hold, bits);
    if !ok { return; }
    ghost var e := FirstLevel(m, ty, lens, tab, root, hold', bits');
    LinkTest(ty, lens, tab, root, hold', e);
    if here.op / 16 == 0 && (here.op != 0 || ty == DISTS) {
      var last := here;
      first := last.bits;
      here := SecondLevel(tab, root, hold', e, last);
      while last.bits + here.bits > bits'
        invariant BitsOk(input, next', hold', bits') && Tight(m, ToBits(hold', bits')) && bits' >= last.bits
        invariant ToBits(hold', bits') + Rest(input, next') == ToBits(hold, bits) + Rest(input, next)
        invariant bits' + 8 * Unread(input, next') == bits + 8 * Unread(input, next)
        invariant Low(hold', root) < |tab| && last == tab[Low(hold', root)] && IsLink(last) && last.bits == root
        invariant Ends(ty, lens, hold', e) && e == Entry(here.op, last.bits + here.bits, here.val) && e.bits <= 15
        invariant e.bits > bits' ==> Step(m, ToBits(hold', bits')) == Stuck
        decreases |input| - next'
      {
        ghost var p := ToBits(hold', bits');
        ghost var h := hold';
        ghost var b := bits';
        ok, next', hold', bits' := PullByte(input, next', hold', bits');
        if !ok { return; }
        PullTight(m, p, ToBits(hold', bits'));
        SameRoot(h, b, hold', root);
        e := FirstLevel(m, ty, lens, tab, root, hold', bits');
        here := SecondLevel(tab, root, hold', e, last);
      }
    }
    ReadAll(ty, lens, hold', bits', e);
    ok := true;
  }

  lemma LinkTest(ty: CodeType, lens: Lengths, tab: seq<Entry>, root: nat, hold: nat, e: Entry)
    requires |lens| <= MaxSyms(ty) && Ends(ty, lens, hold, e) && Leads(tab, root, hold, e) && ty != CODES
    ensures Low(hold, root) < |tab|
    ensures var h := tab[Low(hold, root)];
            && (h.op / 16 == 0 && (h.op != 0 || ty == DISTS) <==> IsLink(h))
            && (IsLink(h) ==> h.bits == root)
            && (!IsLink(h) ==> h == e)
  {
    hide Low, Shr, Hit;
    if ty == DISTS { EndsDists(lens, hold, e); }
  }

  lemma EndsDists(lens: Lengths, hold: nat, e: Entry)
    requires |lens| <= 32 && Ends(DISTS, lens, hold, e)
    ensures e.op != 0
  {
    hide Hit;
  }

  method SecondLevel(tab: seq<Entry>, root: nat, hold: nat, ghost e: Entry, last: Entry) returns (here: Entry)
    requires Leads(tab, root, hold, e) && Low(hold, root) < |tab| && last == tab[Low(hold, root)] && IsLink(last)
    ensures last.bits == root && e == Entry(here.op, last.bits + here.bits, here.val)
  {
    hide Low, Shr;
    SecondIndex(hold, last.bits, last.op);
    here := tab[last.val + Shr(Low(hold, last.bits + last.op), last.bits)];
  }

  lemma ReadAll(ty: CodeType, lens: Lengths, hold: nat, bits: nat, e: Entry)
    requires |lens| <= MaxSyms(ty) && Accepted(ty, lens) && Ends(ty, lens, hold, e) && hold < Pow2(bits) && e.bits <= bits
    ensures Read(ty, lens, ToBits(hold, bits), e)
  {
    hide Accepted, Ends, Decode, ToBits, Pow2;
    EndsDecode(ty, lens, hold, bits, e);
  }
}
