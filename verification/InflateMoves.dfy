/** What each case of inflate() does to the state, and that it is a step of the
    abstract decoder. */
module InflateMoves {
  import opened Bits
  import opened HuffmanCode
  import opened TableTheory
  import opened InflateTable
  import opened Tokens
  import opened InflateSpec
  import opened InflateProps
  import opened Demand
  import opened BlockFormat
  import opened InflateCases
  import opened InflateState

  /** One round of the loop: either there is nothing left to do in this call, or
      some progress was made. */
  ghost predicate Turn(s: State, s': State, leave: bool)
  {
    if leave then Ok(s') && Moves(s, s') && Blocked(s') else Goes(s, s')
  }

  lemma Waits(s: State, s1: State)
    requires Ok(s) && Pulled(s, s1) && Step(s1.m, Pend(s1)) == Stuck && s1.next == |s1.input| && s.mode !in {COPY, DONE}
    ensures Ok(s1) && Turn(s, s1, true)
  {
    hide Ok, Pulled, Moves, Blocked, Step;
    Stay(s, s1);
    StuckBlocked(s1);
  }

  lemma StuckBlocked(s: State)
    requires Step(s.m, Pend(s)) == Stuck && s.next == |s.input|
    ensures Blocked(s)
  {
  }

  lemma GoesTurn(s: State, s': State)
    requires Goes(s, s')
    ensures Ok(s') && Turn(s, s', false)
  {
  }

  lemma OkMode(s: State)
    requires Ok(s)
    ensures s.m.mode == s.mode
  {
  }

  /** A round that begins with dropping bits. */
  lemma TurnAfter(s: State, s0: State, s': State, leave: bool)
    requires Moves(s, s0) && Avail(s0) <= Avail(s) && s0.left == s.left && s0.mode == s.mode && s.mode != BAD
    requires Turn(s0, s', leave)
    ensures Ok(s') && Turn(s, s', leave)
  {
    hide Ok, Moves, Blocked, Stage;
    MovesTrans(s, s0, s');
  }

  // ---------- case STORED ----------

  lemma AlignMoves(s: State)
    requires Ok(s) && s.mode == STORED
    ensures var s0 := s.(hold := Shr(s.hold, s.bits % 8), bits := s.bits - s.bits % 8);
            Ok(s0) && Moves(s, s0) && Avail(s0) <= Avail(s)
  {
    hide Step, Sound, Rest, ToBits, Pow2, Tight, Reaches, Pulled, Goes, BitsOk, Held, Moves;
    var s0 := s.(hold := Shr(s.hold, s.bits % 8), bits := s.bits - s.bits % 8);
    if s.bits % 8 == 0 {
      MovesSelf(s);
    } else {
      PulledNone(s);
      SkipStep(s.m, Pend(s));
      BitsRange(s.input, s.next, s.hold, s.bits);
      Settle(s, s, s0, s.bits % 8);
      GoesOk(s, s0);
    }
  }

  lemma GoesOk(s: State, s': State)
    requires Goes(s, s')
    ensures Ok(s') && Moves(s, s')
  {
  }

  lemma SkipStep(m: Machine, p: seq<bool>)
    requires m.mode == STORED && |p| % 8 != 0
    ensures Step(m, p) == Go(m, |p| % 8)
  {
  }

  lemma StoredNeeds(m: Machine, p: seq<bool>)
    requires m.mode == STORED && |p| % 8 == 0
    ensures Needs(m, p, 32)
  {
  }

  /** The block length and its complement, and then the accumulator is empty. */
  function StoredNext(s: State): State
  {
    var lo := Low(s.hold, 16);
    if lo != 0xFFFF - Shr(s.hold, 16) then s.(mode := BAD, m := s.m.(mode := BAD))
    else s.(length := lo, hold := 0, bits := 0, mode := COPY, m := s.m.(mode := COPY, length := lo))
  }

  lemma StoredMoves(s: State, s1: State)
    requires Ok(s) && Pulled(s, s1) && s.mode == STORED && s1.bits >= 32
    ensures Goes(s, StoredNext(s1))
  {
    hide Step, Sound, Rest, ToBits, Pow2, Tight, Reaches, Low, Shr, Goes;
    StoredCaseStep(s1.m, s1.hold, s1.bits);
    LowSmall(s1.hold, 32);
    Settle(s, s1, StoredNext(s1), 32);
  }

  // ---------- case COPY ----------

  function CopyNext(s: State, n: nat): State
    requires s.next + n <= |s.input| && n <= s.left && n <= s.length && s.m.length == s.length
  {
    var data := s.input[s.next..s.next + n];
    s.(put := s.put + data, next := s.next + n, left := s.left - n, length := s.length - n, m := Copied(s.m, data))
  }

  lemma CopyRange(s: State)
    requires Ok(s) && s.mode == COPY
    ensures s.next <= |s.input| && s.m.length == s.length
  {
  }

  lemma CopyMoves(s: State, n: nat)
    requires Ok(s) && s.mode == COPY && s.next + n <= |s.input| && 0 < n <= s.left && n <= s.length && s.m.length == s.length
    ensures Goes(s, CopyNext(s, n))
  {
    hide Step, Sound, ToBits, Pow2, Reaches, BytesBits, Stage;
    var s', data := CopyNext(s, n), s.input[s.next..s.next + n];
    RunCopied(s.m, data, BytesBits(s.input[s.next + n..]));
    BytesBitsConcat(data, s.input[s.next + n..]);
    assert s.input[s.next..] == data + s.input[s.next + n..];
    assert s.prior + (s.put + data) == s.prior + s.put + data;
    assert Ahead(s) == BytesBits(data) + BytesBits(s.input[s.next + n..]);
    assert Ahead(s') == BytesBits(s.input[s.next + n..]);
  }

  lemma CopyEnds(s: State)
    requires Ok(s) && s.mode == COPY && s.length == 0
    ensures Goes(s, s.(mode := TYPE, m := s.m.(mode := TYPE)))
  {
    hide Step, Sound, Rest, ToBits, Pow2, Tight, Reaches, Pulled, Goes;
    PulledNone(s);
    CopyEndStep(s.m, Pend(s));
    Settle(s, s, s.(mode := TYPE, m := s.m.(mode := TYPE)), 0);
  }

  lemma CopyEndStep(m: Machine, p: seq<bool>)
    requires m.mode == COPY && m.length == 0
    ensures Step(m, p) == Go(m.(mode := TYPE), 0)
  {
  }

  lemma CopyBlocked(s: State)
    requires Ok(s) && s.mode == COPY && s.length > 0 && (s.next == |s.input| || s.left == 0)
    ensures Turn(s, s, true)
  {
    hide Sound, Moves;
    MovesSelf(s);
  }

  // ---------- case TABLE ----------

  function TableNext(s: State): State
  {
    var h1 := Shr(s.hold, 5);
    var h2 := Shr(h1, 5);
    var nlen, ndist, ncode := Low(s.hold, 5) + 257, Low(h1, 5) + 1, Low(h2, 4) + 4;
    var bits' := if s.bits < 14 then 0 else s.bits - 14;
    if nlen > 286 || ndist > 30 then s.(hold := Shr(h2, 4), bits := bits', mode := BAD, m := s.m.(mode := BAD))
    else s.(hold := Shr(h2, 4), bits := bits', mode := LENLENS,
            m := s.m.(mode := LENLENS, nlen := nlen, ndist := ndist, ncode := ncode, have := 0, clens := Zeros(19)))
  }

  lemma TableMoves(s: State, s1: State)
    requires Ok(s) && Pulled(s, s1) && s.mode == TABLE && s1.bits >= 14
    ensures Goes(s, TableNext(s1))
  {
    hide Step, Sound, Rest, ToBits, Pow2, Tight, Reaches, Low, Shr, Goes, Zeros;
    TableCaseStep(s1.m, s1.hold, s1.bits);
    ShrShr(s1.hold, 5, 5);
    ShrShr(s1.hold, 10, 4);
    DropOk(s1.input, s1.next, s1.hold, s1.bits, 14);
    Settle(s, s1, TableNext(s1), 14);
  }

  lemma TableLoaded(m: Machine, have: nat, lens: seq<nat>, nlen: nat, ndist: nat, ncode: nat,
                    lencode: seq<Entry>, lenbits: nat, distcode: seq<Entry>, distbits: nat)
    requires m.mode == LENLENS && |lens| == MAXLENS && have == m.have == 0 && m.clens == Zeros(19)
    requires nlen == m.nlen && ndist == m.ndist && ncode == m.ncode
    ensures Loaded(m, have, lens, nlen, ndist, ncode, lencode, lenbits, distcode, distbits)
  {
    StartPartial(lens[..19]);
  }

  // ---------- case LENLENS ----------

  function LenLenNext(s: State): State
    requires |s.m.clens| == 19
  {
    s.(hold := Shr(s.hold, 3), bits := if s.bits < 3 then 0 else s.bits - 3,
       m := s.m.(clens := s.m.clens[Order(s.m.have) := Low(s.hold, 3)], have := s.m.have + 1))
  }

  lemma LenLenMoves(s: State, s1: State)
    requires Ok(s) && Pulled(s, s1) && s.mode == LENLENS && s.m.have < s.m.ncode && s1.bits >= 3
    ensures |s1.m.clens| == 19 && Goes(s, LenLenNext(s1))
  {
    hide Step, Rest, ToBits, Pow2, Tight, Reaches, Low, Shr, Goes, Accepted, Kraft, Order;
    LenLensCaseStep(s1.m, s1.hold, s1.bits);
    DropOk(s1.input, s1.next, s1.hold, s1.bits, 3);
    Settle(s, s1, LenLenNext(s1), 3);
  }

  lemma LenLenLoaded(m: Machine, have: nat, lens: seq<nat>, nlen: nat, ndist: nat, ncode: nat,
                     lencode: seq<Entry>, lenbits: nat, distcode: seq<Entry>, distbits: nat, x: nat)
    requires Loaded(m, have, lens, nlen, ndist, ncode, lencode, lenbits, distcode, distbits)
    requires m.mode == LENLENS && |m.clens| == 19 && have < 19
    ensures Loaded(m.(clens := m.clens[Order(have) := x], have := m.have + 1), have + 1, lens[Order(have) := x],
                   nlen, ndist, ncode, lencode, lenbits, distcode, distbits)
  {
    hide Order, Rank;
    RankOrder(have);
    forall j | 0 <= j < 19
      ensures Order(Rank(j)) == j
    {
    }
  }

  function LenLensResult(m: Machine, ok: bool): Machine
  {
    if ok then m.(mode := CODELENS, lens := []) else m.(mode := BAD)
  }

  /** The code for the code lengths has been read; is it usable? */
  lemma LenLensEnd(s: State, ok: bool)
    requires Ok(s) && s.mode == LENLENS && s.m.have >= s.m.ncode && ok == Fits(CODES, s.m.clens, CODEBITS)
    ensures var m' := LenLensResult(s.m, ok); Goes(s, s.(mode := m'.mode, m := m'))
  {
    hide Step, Sound, Rest, ToBits, Pow2, Tight, Reaches, Pulled, Goes, Fits;
    var m' := LenLensResult(s.m, ok);
    PulledNone(s);
    LenLensEndStep(s.m, Pend(s));
    Settle(s, s, s.(mode := m'.mode, m := m'), 0);
  }

  lemma LenLensEndStep(m: Machine, p: seq<bool>)
    requires m.mode == LENLENS && m.have >= m.ncode
    ensures Step(m, p) == Go(if Fits(CODES, m.clens, CODEBITS) then m.(mode := CODELENS, lens := []) else m.(mode := BAD), 0)
  {
    hide Fits;
  }

  // ---------- case CODELENS ----------

  lemma LengthStep(m: Machine, p: seq<bool>, here: Entry)
    requires m.mode == CODELENS && |m.lens| < m.nlen + m.ndist && |m.clens| <= 19
    requires Read(CODES, m.clens, p, here) && here.val < 16
    ensures Step(m, p) == Go(m.(lens := m.lens + Repeat(here.val, 1)), here.bits)
  {
    hide Decode;
  }

  /** The state after one explicit code length. */
  function LengthNext(s: State, here: Entry): State
  {
    s.(hold := Shr(s.hold, here.bits), bits := if s.bits < here.bits then 0 else s.bits - here.bits,
       m := s.m.(lens := s.m.lens + Repeat(here.val, 1)))
  }

  lemma LengthMoves(s: State, s1: State, here: Entry)
    requires Ok(s) && Pulled(s, s1) && s.mode == CODELENS && |s.m.lens| < s.m.nlen + s.m.ndist && |s.m.clens| <= 19
    requires Read(CODES, s.m.clens, Pend(s1), here) && here.val < 16 && 1 <= here.bits
    ensures Goes(s, LengthNext(s1, here))
  {
    hide Step, Sound, Rest, ToBits, Pow2, Tight, Reaches, Shr, Goes, Decode, Full;
    LengthStep(s1.m, Pend(s1), here);
    DropOk(s1.input, s1.next, s1.hold, s1.bits, here.bits);
    Settle(s, s1, LengthNext(s1, here), here.bits);
  }

  /** Extra bits of a repeat code. */
  function RepeatBits(val: nat): nat { if val == 16 then 2 else if val == 17 then 3 else 7 }

  /** The machine after a repeat code with extra bits v. */
  function Repeated(m: Machine, val: nat, v: nat): Machine
  {
    if val == 16 then
      if m.lens == [] then m.(mode := BAD) else AddLengths(m, m.lens[|m.lens| - 1], 3 + v)
    else AddLengths(m, 0, if val == 17 then 3 + v else 11 + v)
  }

  lemma RepeatStep(m: Machine, p: seq<bool>, here: Entry)
    requires m.mode == CODELENS && |m.lens| < m.nlen + m.ndist && |m.clens| <= 19
    requires Read(CODES, m.clens, p, here) && here.val >= 16 && here.bits + RepeatBits(here.val) <= |p|
    ensures Step(m, p) == Go(Repeated(m, here.val, Peek(p[here.bits..], RepeatBits(here.val))), here.bits + RepeatBits(here.val))
  {
    hide Decode, AddLengths, Peek;
  }

  lemma RepeatNeeds(m: Machine, p: seq<bool>, here: Entry)
    requires Sound(m) && m.mode == CODELENS && |m.lens| < m.nlen + m.ndist && |m.clens| <= 19
    requires Read(CODES, m.clens, p, here) && here.val >= 16
    ensures Needs(m, p, here.bits + RepeatBits(here.val))
  {
    hide Sound, Decode, Step;
    forall q | p <= q && |q| < here.bits + RepeatBits(here.val)
      ensures Step(m, q) == Stuck
    {
      SoundCodes(m);
      DecodeStable(CODES, m.clens, p, q[|p|..]);
      assert p + q[|p|..] == q;
      RepeatStuck(m, q, here);
    }
  }

  lemma SoundCodes(m: Machine)
    requires Sound(m) && m.mode == CODELENS
    ensures Accepted(CODES, m.clens) && InRange(m.clens) && |m.clens| == 19
    ensures forall i :: 0 <= i < 19 ==> m.clens[i] <= CODEBITS
    ensures 257 <= m.nlen <= 286 && 1 <= m.ndist <= 30 && |m.lens| <= m.nlen + m.ndist && InRange(m.lens)
  {
    hide Accepted;
  }

  lemma RepeatStuck(m: Machine, q: seq<bool>, here: Entry)
    requires m.mode == CODELENS && |m.lens| < m.nlen + m.ndist && |m.clens| <= 19
    requires Decode(m.clens, q).Symbol? && Decode(m.clens, q).s < |m.clens| && here == Full(CODES, m.clens, Decode(m.clens, q).s)
    requires here.val >= 16 && |q| < here.bits + RepeatBits(here.val)
    ensures Step(m, q) == Stuck
  {
    hide Decode;
  }

  /** The control state after a repeat code with extra bits v; in case of an
      error some of the bits may still be in the accumulator. */
  ghost predicate RepeatNext(s: State, s': State, here: Entry, v: nat)
  {
    && s' == s.(mode := s'.mode, hold := s'.hold, bits := s'.bits, m := Repeated(s.m, here.val, v)) && s'.mode == s'.m.mode
    && here.bits + RepeatBits(here.val) <= s.bits
    && if s'.mode == BAD then BitsOk(s'.input, s'.next, s'.hold, s'.bits) && s'.bits <= s.bits
       else s'.hold == Shr(s.hold, here.bits + RepeatBits(here.val)) && s'.bits == s.bits - (here.bits + RepeatBits(here.val))
  }

  lemma RepeatMoves(s: State, s1: State, s': State, here: Entry, v: nat)
    requires Ok(s) && Pulled(s, s1) && s.mode == CODELENS && |s.m.lens| < s.m.nlen + s.m.ndist && |s.m.clens| <= 19
    requires Read(CODES, s.m.clens, Pend(s1), here) && here.val >= 16 && here.bits + RepeatBits(here.val) <= s1.bits
    requires v == Low(Shr(s1.hold, here.bits), RepeatBits(here.val)) && RepeatNext(s1, s', here, v)
    ensures Goes(s, s')
  {
    hide Step, Sound, Rest, ToBits, Pow2, Tight, Reaches, Shr, Low, Goes, Read, AddLengths, Peek;
    var n := RepeatBits(here.val);
    RepeatStep(s1.m, Pend(s1), here);
    BitsRange(s1.input, s1.next, s1.hold, s1.bits);
    DropHeld(s1.hold, s1.bits, here.bits);
    DropHeld(Shr(s1.hold, here.bits), s1.bits - here.bits, n);
    RepeatedRegs(s1.m, here.val, v);
    Settle(s, s1, s', here.bits + n);
  }

  lemma RepeatedRegs(m: Machine, val: nat, v: nat)
    ensures var m' := Repeated(m, val, v);
            m'.out == m.out && Regs(m'.last, m'.length, m'.offset, m'.extra) == Regs(m.last, m.length, m.offset, m.extra) &&
            (m'.mode == m.mode || m'.mode == BAD)
  {
  }

  /** All code lengths are there; are the codes usable? */
  lemma CodeLensEnd(s: State, ok: bool)
    requires Ok(s) && s.mode == CODELENS && |s.m.lens| >= s.m.nlen + s.m.ndist && ok == Usable(s.m.lens, s.m.nlen)
    ensures var m' := if ok then s.m.(mode := LEN, llens := s.m.lens[..s.m.nlen], dlens := s.m.lens[s.m.nlen..]) else s.m.(mode := BAD);
            Goes(s, s.(mode := m'.mode, m := m'))
  {
    hide Step, Sound, Rest, ToBits, Pow2, Tight, Reaches, Pulled, Goes, Usable;
    var m' := if ok then s.m.(mode := LEN, llens := s.m.lens[..s.m.nlen], dlens := s.m.lens[s.m.nlen..]) else s.m.(mode := BAD);
    PulledNone(s);
    CodeLensEndStep(s.m, Pend(s));
    Settle(s, s, s.(mode := m'.mode, m := m'), 0);
  }

  lemma CodeLensEndStep(m: Machine, p: seq<bool>)
    requires m.mode == CODELENS && |m.lens| >= m.nlen + m.ndist
    ensures Step(m, p) == Go(if Usable(m.lens, m.nlen) then m.(mode := LEN, llens := m.lens[..m.nlen], dlens := m.lens[m.nlen..])
                             else m.(mode := BAD), 0)
  {
    hide Usable;
  }

  // ---------- cases LEN and DIST ----------

  /** op & 32 and op & 64. */
  predicate EndOp(op: nat) { op / 32 % 2 == 1 }
  predicate BadOp(op: nat) { op / 64 % 2 == 1 }

  /** The machine after a literal/length entry. */
  function AfterEntry(m: Machine, e: Entry): Machine
  {
    if e == InvalidEntry then m.(mode := BAD) else AfterLen(m, e.op, e.val)
  }

  function LenMode(op: nat): Mode
  {
    if op == 0 then LIT else if EndOp(op) then TYPE else if BadOp(op) then BAD else LENEXT
  }

  function LenNext(s: State, first: nat, here: Entry): State
  {
    var e := Entry(here.op, first + here.bits, here.val);
    s.(hold := Shr(Shr(s.hold, first), here.bits), bits := if s.bits < e.bits then 0 else s.bits - e.bits,
       mode := LenMode(here.op), length := here.val,
       extra := if LenMode(here.op) == LENEXT then here.op % 16 else s.extra, m := AfterEntry(s.m, e))
  }

  lemma AfterEntryIs(m: Machine, e: Entry)
    ensures var m' := AfterEntry(m, e);
            && m'.mode == LenMode(e.op) && m'.out == m.out && m'.last == m.last && m'.llens == m.llens && m'.dlens == m.dlens
            && (m'.mode != BAD ==> Regs(m'.last, m'.length, m'.offset, m'.extra) ==
                                   Regs(m.last, e.val, m.offset, if m'.mode == LENEXT then e.op % 16 else m.extra))
            && m'.mode !in {LENLENS, CODELENS, COPY, DONE} && (InBlock(m'.mode) ==> m'.mode in {LIT, LENEXT})
  {
  }

  lemma LenMoves(s: State, s1: State, first: nat, here: Entry)
    requires Ok(s) && Pulled(s, s1) && s.mode == LEN && |s.m.llens| <= 288
    requires Read(LENS, s.m.llens, Pend(s1), Entry(here.op, first + here.bits, here.val)) && 1 <= first + here.bits
    ensures Goes(s, LenNext(s1, first, here))
  {
    hide Step, Sound, Rest, ToBits, Pow2, Tight, Reaches, Shr, Goes, Decode, Full, AfterEntry, LenMode, AfterLen, Held;
    var e := Entry(here.op, first + here.bits, here.val);
    EntryStep(s1.m, Pend(s1), e);
    AfterEntryIs(s1.m, e);
    ShrShr(s1.hold, first, here.bits);
    DropOk(s1.input, s1.next, s1.hold, s1.bits, e.bits);
    Settle(s, s1, LenNext(s1, first, here), e.bits);
  }

  lemma EntryStep(m: Machine, p: seq<bool>, e: Entry)
    requires m.mode == LEN && |m.llens| <= 288 && Read(LENS, m.llens, p, e)
    ensures Step(m, p) == Go(AfterEntry(m, e), e.bits) && e.bits <= |p|
  {
    hide Step, Decode, Full, AfterLen;
    LenStep(m, p, e);
  }

  function DistNext(s: State, first: nat, here: Entry): State
  {
    var e := Entry(here.op, first + here.bits, here.val);
    var s' := s.(hold := Shr(Shr(s.hold, first), here.bits), bits := if s.bits < e.bits then 0 else s.bits - e.bits,
                 m := AfterDist(s.m, e.op, e.val));
    if BadOp(here.op) then s'.(mode := BAD) else s'.(mode := DISTEXT, offset := here.val, extra := here.op % 16)
  }

  lemma DistMoves(s: State, s1: State, first: nat, here: Entry)
    requires Ok(s) && Pulled(s, s1) && s.mode == DIST && |s.m.dlens| <= 32
    requires Read(DISTS, s.m.dlens, Pend(s1), Entry(here.op, first + here.bits, here.val)) && 1 <= first + here.bits
    ensures Goes(s, DistNext(s1, first, here))
  {
    hide Step, Sound, Rest, ToBits, Pow2, Tight, Reaches, Shr, Goes, Decode, Full, Held;
    var e := Entry(here.op, first + here.bits, here.val);
    DistStepCase(s1.m, Pend(s1), e);
    ShrShr(s1.hold, first, here.bits);
    DropOk(s1.input, s1.next, s1.hold, s1.bits, e.bits);
    Settle(s, s1, DistNext(s1, first, here), e.bits);
  }

  // ---------- cases LENEXT and DISTEXT ----------

  function ExtraNext(s: State): State
  {
    var v := Low(s.hold, s.extra);
    var s' := s.(hold := Shr(s.hold, s.extra), bits := if s.bits < s.extra then 0 else s.bits - s.extra);
    if s.mode == LENEXT then s'.(mode := DIST, length := s.length + v, m := s.m.(mode := DIST, length := s.length + v))
    else s'.(mode := MATCH, offset := s.offset + v, m := s.m.(mode := MATCH, offset := s.offset + v))
  }

  lemma ExtraRange(s: State)
    requires Ok(s) && s.mode in {LENEXT, DISTEXT}
    ensures s.extra == s.m.extra <= 13 && Needs(s.m, Pend(s), s.extra)
  {
    hide Step;
    ExtraNeeds(s.m, Pend(s));
  }

  lemma ExtraMoves(s: State, s1: State)
    requires Ok(s) && Pulled(s, s1) && s.mode in {LENEXT, DISTEXT} && s1.bits >= s.extra
    ensures Goes(s, ExtraNext(s1))
  {
    hide Step, Sound, Rest, ToBits, Pow2, Tight, Reaches, Shr, Low, Goes, Held;
    BitsRange(s1.input, s1.next, s1.hold, s1.bits);
    ExtraStep(s1.m, s1.hold, s1.bits);
    DropOk(s1.input, s1.next, s1.hold, s1.bits, s1.extra);
    Settle(s, s1, ExtraNext(s1), s1.extra);
  }

  // ---------- case LIT ----------

  function LitNext(s: State): State
  {
    var c := (s.length % 256) as byte;
    s.(put := s.put + [c], left := if s.left == 0 then 0 else s.left - 1, mode := LEN, m := s.m.(mode := LEN, out := s.m.out + [c]))
  }

  lemma LitMoves(s: State)
    requires Ok(s) && s.mode == LIT && s.left > 0
    ensures Goes(s, LitNext(s))
  {
    hide Step, Sound, Rest, ToBits, Pow2, Tight, Reaches, Pulled, Goes, Held, Shr;
    PulledNone(s);
    LitStep(s.m, Pend(s));
    ShrNone(s.hold);
    assert s.prior + s.put + [(s.length % 256) as byte] == s.prior + (s.put + [(s.length % 256) as byte]);
    Settle(s, s, LitNext(s), 0);
  }

  lemma ShrNone(x: nat)
    ensures Shr(x, 0) == x
  {
  }

  lemma LitStep(m: Machine, p: seq<bool>)
    requires m.mode == LIT
    ensures Step(m, p) == Go(m.(mode := LEN, out := m.out + [(m.length % 256) as byte]), 0)
  {
  }

  lemma RoomBlocked(s: State)
    requires Ok(s) && s.mode in {MATCH, LIT} && s.left == 0
    ensures Turn(s, s, true)
  {
    hide Sound, Moves;
    MovesSelf(s);
  }

  // ---------- case MATCH ----------

  /** The machine after n bytes of a match. */
  function Matched(m: Machine, n: nat): Machine
    requires n <= m.length && 1 <= m.offset <= |m.out|
  {
    m.(length := m.length - n, out := CopyBack(m.out, m.offset, n), mode := if n == m.length then LEN else m.mode)
  }

  lemma {:induction false} RunMatched(m: Machine, n: nat, rest: seq<bool>)
    requires Sound(m) && m.mode == MATCH && n <= m.length && 1 <= n && m.offset <= |m.out|
    ensures m.offset >= 1 && Reaches(m, rest, Matched(m, n), rest) && Sound(Matched(m, n))
    decreases n
  {
    hide Reaches, Kraft, Accepted, Pow2, Step, CopyBack;
    CopyStep(m, rest);
    CopyBackStep(m.out, m.offset, n);
    var o := Step(m, rest);
    SoundStep(m, rest);
    ReachesStep(m, rest);
    if n > 1 {
      RunMatched(o.m, n - 1, rest);
      ReachesTrans(m, rest, o.m, rest, Matched(m, n), rest);
    }
  }

  lemma CopyBackStep(out: seq<byte>, d: nat, n: nat)
    requires 1 <= d <= |out| && 1 <= n
    ensures CopyBack(out, d, n) == CopyBack(out + [out[|out| - d]], d, n - 1)
    ensures CopyBack(out + [out[|out| - d]], d, 0) == out + [out[|out| - d]]
  {
  }

  function MatchNext(s: State, put: seq<byte>, n: nat): State
    requires n <= s.m.length && 1 <= s.m.offset <= |s.m.out| && n <= s.left && n <= s.length
  {
    s.(put := put, left := s.left - n, length := s.length - n, mode := if n == s.length then LEN else s.mode, m := Matched(s.m, n))
  }

  lemma MatchRange(s: State)
    requires Ok(s) && s.mode == MATCH
    ensures s.length == s.m.length >= 1 && s.offset == s.m.offset && 1 <= s.offset <= WSIZE && s.m.out == s.prior + s.put
    ensures s.seen == s.prior && |s.m.out| == |s.prior| + |s.put|
  {
  }

  lemma MatchMoves(s: State, put: seq<byte>, n: nat)
    requires Ok(s) && s.mode == MATCH && 1 <= n <= s.length && n <= s.left && 1 <= s.offset <= |s.prior + s.put|
    requires s.prior + put == CopyBack(s.prior + s.put, s.offset, n)
    ensures n <= s.m.length && 1 <= s.m.offset <= |s.m.out| && Goes(s, MatchNext(s, put, n))
  {
    hide Step, Rest, ToBits, Pow2, Reaches, CopyBack, Stage, Accepted, Kraft;
    MatchRange(s);
    RunMatched(s.m, n, Ahead(s));
    PutLength(s.prior, s.put, s.offset, n, put);
    HeldMatch(s.m, Pend(s));
  }

  /** While a match is copied fewer than eight bits are held. */
  lemma HeldMatch(m: Machine, p: seq<bool>)
    requires Sound(m) && m.mode == MATCH && Held(m, p)
    ensures |p| < 8
  {
  }

  lemma PutLength(prior: seq<byte>, put: seq<byte>, d: nat, n: nat, put': seq<byte>)
    requires 1 <= d <= |prior + put| && prior + put' == CopyBack(prior + put, d, n)
    ensures |put'| == |put| + n
  {
    hide CopyBack;
  }

  lemma TooFar(s: State)
    requires Ok(s) && s.mode == MATCH && s.offset > |s.prior| + |s.put|
    ensures Goes(s, s.(mode := BAD, m := s.m.(mode := BAD)))
  {
    hide Step, Sound, Rest, ToBits, Pow2, Tight, Reaches, Pulled, Goes, Shr;
    MatchRange(s);
    PulledNone(s);
    TooFarStep(s.m, Pend(s));
    ShrNone(s.hold);
    Settle(s, s, s.(mode := BAD, m := s.m.(mode := BAD)), 0);
  }

  lemma TooFarStep(m: Machine, p: seq<bool>)
    requires m.mode == MATCH && m.offset > |m.out| && m.length >= 1
    ensures Step(m, p) == Go(m.(mode := BAD), 0)
  {
  }
}
