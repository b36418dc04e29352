/** The concrete state of inflate() (deps/zlib/inflate.c) as a value, how it
    represents the abstract decoder, and what each case does to it. */
module InflateState {
  import opened Bits
  import opened HuffmanCode
  import opened CodeOrder
  import opened TableTheory
  import opened InflateTable
  import opened Tokens
  import opened InflateSpec
  import opened InflateProps
  import opened Lookup
  import opened Demand
  import opened Window
  import opened BlockFormat
  import opened InflateCases

  const ENOUGH: nat := ENOUGH_LENS + ENOUGH_DISTS
  const MAXLENS: nat := 320

  // ---------- the concrete state and the abstract machine ----------

  /** The code lengths read so far and the decoding tables are those that the
      abstract machine uses in its present state. */
  ghost predicate Loaded(m: Machine, have: nat, lens: seq<nat>, nlen: nat, ndist: nat, ncode: nat,
                         lencode: seq<Entry>, lenbits: nat, distcode: seq<Entry>, distbits: nat)
  {
    && |lens| == MAXLENS
    && (m.mode == LENLENS ==>
          nlen == m.nlen && ndist == m.ndist && ncode == m.ncode && have == m.have && Partial(m.clens, lens[..19], have))
    && (m.mode == CODELENS ==>
          && nlen == m.nlen && ndist == m.ndist && have == |m.lens| && have <= MAXLENS && lens[..have] == m.lens
          && |m.clens| <= 19 && Decodes(CODES, m.clens, lencode, lenbits) && lenbits == RootBits(m.clens, CODEBITS))
    && (InBlock(m.mode) ==>
          && |m.llens| <= 288 && Decodes(LENS, m.llens, lencode, lenbits)
          && |m.dlens| <= 32 && Decodes(DISTS, m.dlens, distcode, distbits))
  }

  /** Control fields; those that a state does not look at are left out. */
  datatype Regs = Regs(last: bool, length: nat, offset: nat, extra: nat)

  function Live(mode: Mode, last: bool, length: nat, offset: nat, extra: nat): Regs
  {
    Regs(last, if mode in {COPY, LENEXT, DIST, DISTEXT, MATCH, LIT} then length else 0,
         if mode in {DISTEXT, MATCH} then offset else 0, if mode in {LENEXT, DISTEXT} then extra else 0)
  }

  predicate InBlock(mode: Mode) { mode in {LEN, LENEXT, DIST, DISTEXT, MATCH, LIT} }

  /** Order in which states follow each other without using input or output. */
  function Stage(mode: Mode): nat
  {
    match mode
    case LENLENS => 9 case CODELENS => 8 case LENEXT => 7 case DIST => 6 case DISTEXT => 5 case MATCH => 4
    case LIT => 3 case COPY => 3 case TYPE => 2 case STORED => 2 case TABLE => 2 case LEN => 2
    case DONE => 0 case BAD => 0
  }

  // ---------- the bit accumulator ----------

  /** The bits of the input from next on. */
  ghost function Rest(input: seq<byte>, next: nat): (r: seq<bool>)
    ensures |r| % 8 == 0
  {
    if next <= |input| then BytesBits(input[next..]) else []
  }

  ghost function Unread(input: seq<byte>, next: nat): nat { if next <= |input| then |input| - next else 0 }

  /** The accumulator holds bits bits, and no register overflows. */
  ghost predicate BitsOk(input: seq<byte>, next: nat, hold: nat, bits: nat)
  {
    hold < Pow2(bits) && bits <= 32 && next <= |input|
  }

  /** PULLBYTE() */
  method PullByte(input: seq<byte>, next: nat, hold: nat, bits: nat)
    returns (ok: bool, next': nat, hold': nat, bits': nat)
    requires BitsOk(input, next, hold, bits) && bits <= 24
    ensures BitsOk(input, next', hold', bits')
    ensures ToBits(hold', bits') + Rest(input, next') == ToBits(hold, bits) + Rest(input, next)
    ensures ok == (next < |input|)
    ensures ok ==> next' == next + 1 && bits' == bits + 8 && Low(hold', bits) == hold
    ensures ok ==> ToBits(hold', bits')[..bits' - 8] == ToBits(hold, bits) <= ToBits(hold', bits')
    ensures !ok ==> next' == next && bits' == bits && hold' == hold
  {
    hide Pow2, Shl, Low, ToBits, BytesBits;
    if next == |input| { return false, next, hold, bits; }
    PullHeld(hold, bits, input[next]);
    PullRest(ToBits(hold, bits), input, next);
    return true, next + 1, hold + Shl(input[next], bits), bits + 8;
  }

  /** NEEDBITS(n) */
  method NeedBits(ghost m: Machine, n: nat, input: seq<byte>, next: nat, hold: nat, bits: nat)
    returns (ok: bool, next': nat, hold': nat, bits': nat)
    requires BitsOk(input, next, hold, bits) && Tight(m, ToBits(hold, bits)) && Needs(m, ToBits(hold, bits), n)
    requires n <= 25 || (n <= 32 && bits % 8 == 0)
    ensures BitsOk(input, next', hold', bits') && Tight(m, ToBits(hold', bits'))
    ensures ToBits(hold', bits') + Rest(input, next') == ToBits(hold, bits) + Rest(input, next)
    ensures bits' + 8 * Unread(input, next') == bits + 8 * Unread(input, next)
    ensures ok ==> bits' >= n
    ensures ToBits(hold, bits) <= ToBits(hold', bits')
    ensures !ok ==> next' == |input| && Step(m, ToBits(hold', bits')) == Stuck
  {
    hide Pow2, Low, ToBits, Step, Tight, Rest;
    next', hold', bits' := next, hold, bits;
    while bits' < n
      invariant BitsOk(input, next', hold', bits') && Tight(m, ToBits(hold', bits'))
      invariant ToBits(hold', bits') + Rest(input, next') == ToBits(hold, bits) + Rest(input, next)
      invariant bits' + 8 * Unread(input, next') == bits + 8 * Unread(input, next)
      invariant n <= 25 || bits' % 8 == 0
      invariant ToBits(hold, bits) <= ToBits(hold', bits') && (bits' - bits) % 8 == 0
      decreases n - bits'
    {
      ghost var p := ToBits(hold', bits');
      assert Step(m, p) == Stuck;
      ok, next', hold', bits' := PullByte(input, next', hold', bits');
      if !ok { return; }
      PullTight(m, p, ToBits(hold', bits'));
    }
    ok := true;
  }

  lemma BitsRange(input: seq<byte>, next: nat, hold: nat, bits: nat)
    requires BitsOk(input, next, hold, bits)
    ensures hold < Pow2(bits) && bits <= 32 && next <= |input|
  {
  }

  /** DROPBITS(n) */
  lemma DropOk(input: seq<byte>, next: nat, hold: nat, bits: nat, n: nat)
    requires BitsOk(input, next, hold, bits) && n <= bits
    ensures BitsOk(input, next, Shr(hold, n), bits - n)
    ensures ToBits(Shr(hold, n), bits - n) == ToBits(hold, bits)[n..]
  {
    hide Pow2, Shr, ToBits;
    DropHeld(hold, bits, n);
  }

  /** The fields of the decoder as a value, for specifications. */
  datatype State = State(
    mode: Mode, last: bool, hold: nat, bits: nat, length: nat, offset: nat, extra: nat,
    input: seq<byte>, next: nat, put: seq<byte>, left: nat, m: Machine, prior: seq<byte>, seen: seq<byte>)

  ghost function Pend(s: State): (p: seq<bool>)
    ensures |p| == s.bits
  {
    ToBits(s.hold, s.bits)
  }

  /** All the bits that are there: in the accumulator and in the input. */
  ghost function Ahead(s: State): seq<bool> { Pend(s) + Rest(s.input, s.next) }

  /** The number of those bits. */
  ghost function Avail(s: State): nat { s.bits + 8 * Unread(s.input, s.next) }

  /** The control fields are those of the machine; after an error nobody looks. */
  ghost predicate Control(s: State)
  {
    && Sound(s.m) && s.mode == s.m.mode && s.m.out == s.prior + s.put
    && (s.mode == BAD || s.prior == s.seen)
    && (s.mode == BAD || Live(s.mode, s.last, s.length, s.offset, s.extra) == Live(s.mode, s.m.last, s.m.length, s.m.offset, s.m.extra))
  }

  /** The concrete state represents the abstract machine. */
  ghost predicate Ok(s: State)
  {
    && BitsOk(s.input, s.next, s.hold, s.bits) && Held(s.m, Pend(s)) && (s.mode in {COPY, DONE} ==> s.bits == 0)
    && Control(s)
  }

  /** A finished decoder has taken no byte after the end of the stream. */
  lemma NoneLeftOver(s: State)
    requires Ok(s)
    ensures s.mode == DONE ==> s.bits == 0
  {
    hide BitsOk, Held, Control;
  }

  /** The abstract machine goes from one state to the other, within one call.
      After an error the accumulator is left as it happens to be. */
  ghost predicate Moves(s: State, s': State)
  {
    (exists p :: Reaches(s.m, Ahead(s), s'.m, p + Rest(s'.input, s'.next)) && (s'.mode == BAD || p == Pend(s'))) &&
    s'.prior == s.prior && s'.seen == s.seen && s'.input == s.input && |s'.put| + s'.left == |s.put| + s.left
  }

  /** Less input is left, or less output space, or the state is further on. */
  ghost predicate Sooner(s': State, s: State)
  {
    Avail(s') < Avail(s) ||
    (Avail(s') == Avail(s) && (s'.left < s.left || (s'.left == s.left && Stage(s'.mode) < Stage(s.mode))))
  }

  /** s' is reached from s and is nearer to the end of the call; bytes are only
      pulled as they are needed, so less than one is left over. */
  ghost predicate Goes(s: State, s': State) { Ok(s') && Moves(s, s') && Sooner(s', s) && (s'.mode == BAD || s'.bits < 8) }

  /** Neither input nor output space allows another step. */
  ghost predicate Blocked(s: State)
  {
    || (s.next == |s.input| && Step(s.m, Pend(s)) == Stuck)
    || (s.left == 0 && (s.mode == MATCH || s.mode == LIT || (s.mode == COPY && s.length > 0)))
  }

  /** s1 is s after bytes were pulled as long as they were needed. */
  ghost predicate Pulled(s: State, s1: State)
  {
    && s1 == s.(next := s1.next, hold := s1.hold, bits := s1.bits)
    && BitsOk(s1.input, s1.next, s1.hold, s1.bits) && Tight(s1.m, Pend(s1))
    && Ahead(s1) == Ahead(s) && Avail(s1) == Avail(s)
  }

  lemma PulledSame(s: State, s1: State)
    requires Pulled(s, s1)
    ensures s1 == s.(next := s1.next, hold := s1.hold, bits := s1.bits)
  {
  }

  lemma PulledNone(s: State)
    requires Ok(s)
    ensures Pulled(s, s)
  {
    hide Step, Sound, Rest, ToBits, Pow2, Tight;
    HeldTight(s.m, Pend(s));
  }

  /** Waiting for more input. */
  lemma Stay(s: State, s1: State)
    requires Ok(s) && Pulled(s, s1) && Step(s1.m, Pend(s1)) == Stuck && s1.next == |s1.input|
    requires s.mode !in {COPY, DONE}
    ensures Ok(s1) && Moves(s, s1) && Blocked(s1)
  {
    hide Step, Sound, Rest, ToBits, Pow2, Tight, Reaches, BitsOk;
    ReachesSelf(s.m, Ahead(s));
    assert Reaches(s.m, Ahead(s), s1.m, Pend(s1) + Rest(s1.input, s1.next));
  }

  /** Taking one step: s1 has the bits for it, and s2 is the state afterwards. */
  lemma Settle(s: State, s1: State, s2: State, used: nat)
    requires Ok(s) && Pulled(s, s1) && Step(s1.m, Pend(s1)) == Go(s2.m, used) && used <= s1.bits
    requires if s2.mode == BAD then BitsOk(s2.input, s2.next, s2.hold, s2.bits) && s2.bits <= s1.bits
             else s2.hold == Shr(s1.hold, used) && s2.bits == s1.bits - used
    requires s2.input == s1.input && s2.next == s1.next && s2.prior == s1.prior && s2.seen == s1.seen
    requires |s2.put| + s2.left == |s1.put| + s1.left && s2.left <= s1.left
    requires s2.mode == s2.m.mode && s2.m.out == s2.prior + s2.put
    requires s2.mode == BAD || Live(s2.mode, s2.last, s2.length, s2.offset, s2.extra) == Live(s2.mode, s2.m.last, s2.m.length, s2.m.offset, s2.m.extra)
    requires s2.mode in {COPY, DONE} ==> s2.bits == 0
    requires used > 0 || s2.left < s1.left || Stage(s2.mode) < Stage(s1.mode)
    ensures Goes(s, s2)
  {
    hide Step, Sound, Rest, ToBits, Pow2, Tight, Reaches, Shr, Stage;
    var p, rest := Pend(s1), Rest(s1.input, s1.next);
    TakeStep(s1.m, p, rest);
    DropHeld(s1.hold, s1.bits, used);
    Halts(s1.m, p);
    Halts(s2.m, Pend(s2));
    assert Reaches(s.m, Ahead(s), s2.m, p[used..] + rest);
  }

  /** Only a finished or failed decoder is at the last stage, and it is stuck. */
  lemma Halts(m: Machine, p: seq<bool>)
    ensures m.mode == BAD ==> Step(m, p) == Stuck && Stage(m.mode) == 0
    ensures Step(m, p).Go? ==> Stage(m.mode) > 0
  {
    hide StepType, StepStored, StepCopy, StepTable, StepLenLens, StepCodeLens, StepLen, StepDist, StepMatch, Peek;
  }

  lemma MovesSelf(s: State)
    ensures Moves(s, s)
  {
    hide Reaches, Rest, ToBits;
    ReachesSelf(s.m, Ahead(s));
    assert Reaches(s.m, Ahead(s), s.m, Pend(s) + Rest(s.input, s.next));
  }

  lemma MovesTrans(s: State, s1: State, s2: State)
    requires Moves(s, s1) && Moves(s1, s2) && s1.mode != BAD
    ensures Moves(s, s2)
  {
    hide Reaches, Rest, ToBits;
    var rest := Rest(s2.input, s2.next);
    var p :| Reaches(s1.m, Ahead(s1), s2.m, p + rest) && (s2.mode == BAD || p == Pend(s2));
    ReachesTrans(s.m, Ahead(s), s1.m, Ahead(s1), s2.m, p + rest);
  }

  /** Going on within the same block, or leaving it. */
  lemma Reloaded(m: Machine, m': Machine, have: nat, lens: seq<nat>, nlen: nat, ndist: nat, ncode: nat,
                 lencode: seq<Entry>, lenbits: nat, distcode: seq<Entry>, distbits: nat)
    requires Loaded(m, have, lens, nlen, ndist, ncode, lencode, lenbits, distcode, distbits)
    requires m'.mode != LENLENS && m'.mode != CODELENS
    requires InBlock(m'.mode) ==> InBlock(m.mode) && m'.llens == m.llens && m'.dlens == m.dlens
    ensures Loaded(m', have, lens, nlen, ndist, ncode, lencode, lenbits, distcode, distbits)
  {
    hide Decodes, Partial;
  }

  // ---------- case TYPE ----------

  lemma LastMoves(s: State)
    requires Ok(s) && s.mode == TYPE && s.last
    ensures var s' := s.(hold := Shr(s.hold, s.bits % 8), bits := s.bits - s.bits % 8, mode := DONE, m := s.m.(mode := DONE));
            Goes(s, s')
  {
    hide Step, Sound, Rest, ToBits, Pow2, Tight, Reaches, Shr, Pulled, Goes;
    var s' := s.(hold := Shr(s.hold, s.bits % 8), bits := s.bits - s.bits % 8, mode := DONE, m := s.m.(mode := DONE));
    PulledNone(s);
    LastStep(s.m, Pend(s));
    assert s.bits < 8;
    Settle(s, s, s', s.bits % 8);
  }

  lemma HeaderNeeds(s: State)
    requires Ok(s) && s.mode == TYPE && !s.last
    ensures Needs(s.m, Pend(s), 3)
  {
    hide Step;
    TypeNeeds(s.m, Pend(s));
  }

  function HeaderNext(s: State): State
  {
    var last, kind := Low(s.hold, 1) == 1, Low(Shr(s.hold, 1), 2);
    s.(hold := Shr(Shr(s.hold, 1), 2), bits := if s.bits < 3 then 0 else s.bits - 3, last := last,
       mode := BlockMode(kind), m := Header(s.m, last, kind))
  }

  lemma HeaderMoves(s: State, s1: State)
    requires Ok(s) && Pulled(s, s1) && s.mode == TYPE && !s.last && s1.bits >= 3
    ensures Goes(s, HeaderNext(s1))
  {
    hide Step, Sound, Rest, ToBits, Pow2, Tight, Reaches, Shr, Low, Goes, Header, BlockMode, Decodes,
         FixedLengths, FixedDists, Avail, Held;
    TypeStep(s1.m, s1.hold, s1.bits);
    ShrShr(s1.hold, 1, 2);
    HeaderIs(s.m, Low(s1.hold, 1) == 1, Low(Shr(s1.hold, 1), 2));
    DropOk(s1.input, s1.next, s1.hold, s1.bits, 3);
    Settle(s, s1, HeaderNext(s1), 3);
  }

  lemma HeaderIs(m: Machine, last: bool, kind: nat)
    ensures var m' := Header(m, last, kind);
            && m'.mode == BlockMode(kind) && m'.out == m.out
            && m'.last == last
            && (kind == 1 ==> m'.llens == FixedLengths() && m'.dlens == FixedDists())
    ensures InBlock(BlockMode(kind)) ==> kind == 1
    ensures BlockMode(kind) in {STORED, LEN, TABLE, BAD}
  {
    hide FixedLengths, FixedDists;
  }

  lemma LastStep(m: Machine, p: seq<bool>)
    requires m.mode == TYPE && m.last
    ensures Step(m, p) == Go(m.(mode := DONE), |p| % 8)
  {
  }

  // ---------- the fixed codes ----------

  lemma {:induction false} SpaceFlat(lens: Lengths, root: nat, k: nat)
    requires k < UsedCount(lens) && forall s :: 0 <= s < |lens| ==> lens[s] <= root
    ensures Space(lens, root, k) == Pow2(root)
  {
    hide UsedCount, Pow2;
    if k > 0 { SpaceFlat(lens, root, k - 1); }
  }

  lemma FitsFlat(ty: CodeType, lens: Lengths, bits: nat)
    requires InRange(lens) && Accepted(ty, lens) && 1 <= bits && forall s :: 0 <= s < |lens| ==> lens[s] <= bits
    requires !TooBig(ty, Pow2(bits))
    ensures Fits(ty, lens, bits)
  {
    hide Pow2, Accepted, Longest, RootBits, UsedCount;
    if UsedCount(lens) > 0 {
      LongestUsed(lens);
      CodesRoot(lens, bits);
      LensShort(lens);
      SpaceFlat(lens, RootBits(lens, bits), UsedCount(lens) - 1);
      Pow2Mono(RootBits(lens, bits), bits);
    }
  }

  lemma LensShort(lens: Lengths)
    requires InRange(lens)
    ensures forall s :: 0 <= s < |lens| ==> lens[s] <= Longest(lens)
  {
    LongestUsed(lens);
  }

  /** The tables of the fixed codes fit: all codes end in the root table. */
  lemma FixedFits()
    ensures Fits(LENS, FixedLengths(), 9) && Fits(DISTS, FixedDists(), 5)
  {
    hide Accepted, Fits;
    FixedAccepted();
    FixedSizes();
    SmallPowers();
    FitsFlat(LENS, FixedLengths(), 9);
    FitsFlat(DISTS, FixedDists(), 5);
  }

  lemma FixedRoots()
    ensures RootBits(FixedLengths(), 9) == 9 && RootBits(FixedDists(), 5) == 5
  {
    hide RootBits, Longest;
    FixedSizes();
    FixedLongest();
    RootLongest(FixedLengths(), 9);
    RootLongest(FixedDists(), 5);
  }

  lemma FixedLongest()
    ensures Longest(FixedLengths()) == 9 && Longest(FixedDists()) == 5
  {
    hide Total;
    LongestUsed(FixedLengths());
    LongestUsed(FixedDists());
    LongestIs(FixedLengths(), MAXBITS);
    LongestIs(FixedDists(), MAXBITS);
    FixedTotals(Longest(FixedLengths()));
    FixedTotals(Longest(FixedDists()));
    assert Used(FixedLengths(), 144) && Used(FixedDists(), 0);
  }

  lemma RootLongest(lens: Lengths, bits: nat)
    requires Longest(lens) == bits > 0
    ensures RootBits(lens, bits) == bits
  {
    LongestUsed(lens);
    Extremes(lens, bits);
  }

  /** fixedtables(): the tables of the fixed codes. */
  method FixedTables() returns (lencode: seq<Entry>, distcode: seq<Entry>)
    ensures Decodes(LENS, FixedLengths(), lencode, 9) && Decodes(DISTS, FixedDists(), distcode, 5)
  {
    hide FixedLengths, FixedDists, Decodes, Fits, Accepted, InRange, RootBits;
    FixedFits();
    FixedSizes();
    FitsAccepted(LENS, FixedLengths(), 9);
    FitsAccepted(DISTS, FixedDists(), 5);
    var fixed := new Entry[ENOUGH];
    var ret, used, root := InflateTable.InflateTable(LENS, FixedLengths(), fixed, 0, 9);
    ghost var tab := fixed[0..used];
    var ret', used', root' := InflateTable.InflateTable(DISTS, FixedDists(), fixed, used, 5);
    assert fixed[0..used] == tab;
    FixedRoots();
    return fixed[0..used], fixed[used..used + used'];
  }
}
