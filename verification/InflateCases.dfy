/** What each case of inflate() reads from the bit accumulator, in terms of the
    steps of the abstract decoder. */
module InflateCases {
  import opened Bits
  import opened HuffmanCode
  import opened TableTheory
  import opened InflateTable
  import opened Tokens
  import opened InflateSpec
  import opened InflateProps
  import opened Lookup
  import opened Demand
  import opened BlockFormat

  // ---------- the accumulator ----------

  /** BITS(n) and DROPBITS(n) on an accumulator of k bits. */
  lemma DropHeld(hold: nat, k: nat, n: nat)
    requires hold < Pow2(k) && n <= k
    ensures Peek(ToBits(hold, k), n) == Low(hold, n)
    ensures ToBits(hold, k)[n..] == ToBits(Shr(hold, n), k - n)
    ensures Shr(hold, n) < Pow2(k - n)
  {
    ToPrefix(hold, k, n);
    FromTo(hold, n);
    ShrBound(hold, n, k - n);
  }

  /** PULLBYTE() puts a byte above the k bits that are there. */
  lemma PullHeld(hold: nat, k: nat, c: byte)
    requires hold < Pow2(k)
    ensures var x := hold + Shl(c, k);
            && x < Pow2(k + 8) && Low(x, k) == hold
            && ToBits(x, k + 8) == ToBits(hold, k) + ToBits(c, 8)
  {
    Pow2Values();
    SumFits(hold, k, c, 8);
    ToConcat(hold, k, c, 8);
    LowShrUnique(hold, c, k);
  }

  lemma PullRest(p: seq<bool>, input: seq<byte>, next: nat)
    requires next < |input|
    ensures p + BytesBits(input[next..]) == p + ToBits(input[next], 8) + BytesBits(input[next + 1..])
  {
    hide ToBits;
    assert input[next..][1..] == input[next + 1..];
  }

  // ---------- how much each state needs ----------

  lemma TypeNeeds(m: Machine, p: seq<bool>)
    requires m.mode == TYPE && !m.last
    ensures Needs(m, p, 3)
  {
  }

  lemma TableNeeds(m: Machine, p: seq<bool>)
    requires m.mode == TABLE
    ensures Needs(m, p, 14)
  {
  }

  lemma LenLensNeeds(m: Machine, p: seq<bool>)
    requires m.mode == LENLENS && m.have < m.ncode
    ensures Needs(m, p, 3)
  {
  }

  lemma ExtraNeeds(m: Machine, p: seq<bool>)
    requires m.mode == LENEXT || m.mode == DISTEXT
    ensures Needs(m, p, m.extra)
  {
  }

  /** With fewer bits than a symbol of the code needs there is no step. */
  ghost predicate Asks(m: Machine, lens: Lengths)
  {
    forall p {:trigger Step(m, p)} :: Decode(lens, p) == NeedMore ==> Step(m, p) == Stuck
  }

  lemma SymbolAsks(m: Machine)
    ensures m.mode == LEN ==> Asks(m, m.llens)
    ensures m.mode == DIST ==> Asks(m, m.dlens)
    ensures m.mode == CODELENS && |m.lens| < m.nlen + m.ndist ==> Asks(m, m.clens)
  {
    hide Decode;
  }

  // ---------- the steps ----------

  /** The state that a block of this kind begins with. */
  function BlockMode(kind: nat): Mode
  {
    if kind == 0 then STORED else if kind == 1 then LEN else if kind == 2 then TABLE else BAD
  }

  function Header(m: Machine, last: bool, kind: nat): Machine
  {
    var m' := m.(last := last, mode := BlockMode(kind));
    if kind == 1 then m'.(llens := FixedLengths(), dlens := FixedDists()) else m'
  }

  lemma TypeStep(m: Machine, hold: nat, k: nat)
    requires m.mode == TYPE && !m.last && hold < Pow2(k) && 3 <= k
    ensures Step(m, ToBits(hold, k)) == Go(Header(m, Low(hold, 1) == 1, Low(Shr(hold, 1), 2)), 3)
  {
    hide FixedLengths, FixedDists, Peek;
    var p := ToBits(hold, k);
    DropHeld(hold, k, 1);
    DropHeld(Shr(hold, 1), k - 1, 2);
    LowShr(Shr(hold, 1), 2);
    SmallPowers();
    assert p[0] == (hold % 2 == 1) && Low(hold, 1) == hold % 2;
  }

  lemma StoredCaseStep(m: Machine, hold: nat, k: nat)
    requires m.mode == STORED && hold < Pow2(k) && k == 32
    ensures var lo, hi := Low(hold, 16), Shr(hold, 16);
            && lo < 0x10000 && hi < 0x10000
            && Step(m, ToBits(hold, k)) ==
                 Go(if lo != 0xFFFF - hi then m.(mode := BAD) else m.(mode := COPY, length := lo), 32)
  {
    hide Peek, ToBits, Low, Shr, Pow2;
    DropHeld(hold, k, 16);
    DropHeld(Shr(hold, 16), k - 16, 16);
    LowShr(hold, 16);
    LowSmall(Shr(hold, 16), 16);
    Pow2Values();
  }

  lemma TableCaseStep(m: Machine, hold: nat, k: nat)
    requires m.mode == TABLE && hold < Pow2(k) && 14 <= k
    ensures var h1 := Shr(hold, 5);
            var h2 := Shr(h1, 5);
            var nlen, ndist, ncode := Low(hold, 5) + 257, Low(h1, 5) + 1, Low(h2, 4) + 4;
            Step(m, ToBits(hold, k)) ==
              Go(if nlen > 286 || ndist > 30 then m.(mode := BAD)
                 else m.(mode := LENLENS, nlen := nlen, ndist := ndist, ncode := ncode, have := 0, clens := Zeros(19)), 14)
  {
    hide Peek, ToBits, Low, Shr, Pow2, Zeros;
    var p, h1 := ToBits(hold, k), Shr(hold, 5);
    DropHeld(hold, k, 5);
    DropHeld(h1, k - 5, 5);
    DropHeld(Shr(h1, 5), k - 10, 4);
    assert p[10..] == p[5..][5..];
  }

  lemma LenLensCaseStep(m: Machine, hold: nat, k: nat)
    requires m.mode == LENLENS && m.have < m.ncode && |m.clens| == 19 && hold < Pow2(k) && 3 <= k
    ensures Step(m, ToBits(hold, k)) ==
              Go(m.(clens := m.clens[Order(m.have) := Low(hold, 3)], have := m.have + 1), 3)
  {
    hide Peek, ToBits, Low, Pow2, Order;
    DropHeld(hold, k, 3);
  }

  lemma ExtraStep(m: Machine, hold: nat, k: nat)
    requires (m.mode == LENEXT || m.mode == DISTEXT) && hold < Pow2(k) && m.extra <= k
    ensures Step(m, ToBits(hold, k)) ==
              Go(if m.mode == LENEXT then m.(mode := DIST, length := m.length + Low(hold, m.extra))
                 else m.(mode := MATCH, offset := m.offset + Low(hold, m.extra)), m.extra)
  {
    hide Peek, ToBits, Low, Pow2;
    DropHeld(hold, k, m.extra);
  }

  /** A symbol whose entry is e and whose bits are all at hand. */
  ghost predicate Read(ty: CodeType, lens: Lengths, p: seq<bool>, e: Entry)
    requires |lens| <= MaxSyms(ty)
  {
    var d := Decode(lens, p);
    e.bits <= |p| &&
    if d.Symbol? then d.s < |lens| && e == Full(ty, lens, d.s) else d == Invalid && e == InvalidEntry
  }

  lemma LenStep(m: Machine, p: seq<bool>, e: Entry)
    requires m.mode == LEN && |m.llens| <= 288 && Read(LENS, m.llens, p, e)
    ensures Step(m, p) == Go(if e == InvalidEntry then m.(mode := BAD) else AfterLen(m, e.op, e.val), e.bits)
    ensures e == InvalidEntry ==> AfterLen(m, e.op, e.val).mode == BAD
  {
    hide Decode;
    if Decode(m.llens, p).Symbol? { NotInvalid(LENS, m.llens, Decode(m.llens, p).s); }
  }

  lemma DistStepCase(m: Machine, p: seq<bool>, e: Entry)
    requires m.mode == DIST && |m.dlens| <= 32 && Read(DISTS, m.dlens, p, e)
    ensures Step(m, p) == Go(AfterDist(m, e.op, e.val), e.bits)
  {
    hide Decode;
  }

  lemma NotInvalid(ty: CodeType, lens: Lengths, s: nat)
    requires s < |lens| <= MaxSyms(ty) && ty == LENS
    ensures Full(ty, lens, s) != InvalidEntry
  {
  }
}
