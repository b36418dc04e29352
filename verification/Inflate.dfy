/** inflate() of deps/zlib/inflate.c for raw streams: a decoder that may stop
    for want of input or of output space at any byte and goes on in the next
    call. */
module Inflate {
  import opened Bits
  import opened HuffmanCode
  import opened CodeOrder
  import opened TableTheory
  import opened InflateTable
  import opened Tokens
  import opened InflateSpec
  import opened InflateProps
  import opened Lookup
  import opened Demand
  import opened Window
  import opened BlockFormat
  import opened InflateCases
  import opened InflateState
  import opened InflateFast
  import opened InflateMoves
  import opened InflateHistory
  import opened SymbolReader

  class InflateStream {
    // kept from call to call
    var mode: Mode
    var last: bool
    var hold: nat
    var bits: nat
    var length: nat
    var offset: nat
    var extra: nat
    var nlen: nat
    var ndist: nat
    var ncode: nat
    var have: nat
    var lens: seq<nat>
    const codes: array<Entry>
    var lencode: seq<Entry>
    var lenbits: nat
    var distcode: seq<Entry>
    var distbits: nat
    const lenfix: seq<Entry>
    const distfix: seq<Entry>
    const window: array<byte>
    var wsize: nat
    var wnext: nat
    var whave: nat
    // the buffers of the current call
    var input: seq<byte>
    var next: nat
    var put: seq<byte>
    var left: nat
    // the abstract machine, the output before this call, and what the window has seen of it
    ghost var m: Machine
    ghost var prior: seq<byte>
    ghost var seen: seq<byte>
    // all input consumed by earlier calls
    ghost var fed: seq<byte>

    ghost function St(): State
      reads this
    {
      State(mode, last, hold, bits, length, offset, extra, input, next, put, left, m, prior, seen)
    }

    ghost predicate Valid()
      reads this, window
    {
      Ok(St()) && Store() && Loads()
    }

    /** The code lengths and tables for the present state of the machine. */
    ghost predicate Loads()
      reads `m, `have, `lens, `nlen, `ndist, `ncode, `lencode, `lenbits, `distcode, `distbits
    {
      Loaded(m, have, lens, nlen, ndist, ncode, lencode, lenbits, distcode, distbits)
    }

    /** Buffers and tables that the control does not touch. */
    ghost predicate Store()
      reads `lens, `wsize, `wnext, `whave, `seen, window
    {
      && codes.Length == ENOUGH && |lens| == MAXLENS && InRange(lens)
      && Decodes(LENS, FixedLengths(), lenfix, 9) && Decodes(DISTS, FixedDists(), distfix, 5)
      && window.Length == WSIZE && Recalls(window[..], wsize, wnext, whave, seen)
    }

    // ---------- the cases ----------

    /** NEEDBITS(n) */
    method Need(n: nat) returns (ok: bool)
      requires Ok(St()) && Needs(m, Pend(St()), n) && (n <= 25 || (n <= 32 && bits % 8 == 0))
      modifies `hold, `bits, `next
      ensures Pulled(old(St()), St())
      ensures ok ==> bits >= n
      ensures !ok ==> next == |input| && Step(m, Pend(St())) == Stuck
    {
      hide Step, Rest, ToBits, Tight, BitsOk, Needs, Ok;
      PulledNone(St());
      ok := NeedMore(St(), n);
    }

    method NeedMore(ghost s: State, n: nat) returns (ok: bool)
      requires Pulled(s, St()) && Needs(m, Pend(St()), n) && (n <= 25 || (n <= 32 && bits % 8 == 0))
      modifies `hold, `bits, `next
      ensures Pulled(s, St()) && old(Pend(St())) <= Pend(St())
      ensures ok ==> bits >= n
      ensures !ok ==> next == |input| && Step(m, Pend(St())) == Stuck
    {
      hide Step, Rest, ToBits, Tight, BitsOk, Needs;
      ok, next, hold, bits := NeedBits(m, n, input, next, hold, bits);
    }

    /** The machine leaves a block or stays in it. */
    lemma Reload(m': Machine)
      requires Loads() && m'.mode != LENLENS && m'.mode != CODELENS
      requires InBlock(m'.mode) ==> InBlock(m.mode) && m'.llens == m.llens && m'.dlens == m.dlens
      ensures Loaded(m', have, lens, nlen, ndist, ncode, lencode, lenbits, distcode, distbits)
    {
      hide Loaded;
      Reloaded(m, m', have, lens, nlen, ndist, ncode, lencode, lenbits, distcode, distbits);
    }

    /** case TYPE: the block header, or the end after the last block. */
    method DoType() returns (leave: bool)
      requires Valid() && mode == TYPE
      modifies `mode, `last, `hold, `bits, `next, `lencode, `lenbits, `distcode, `distbits, `m
      ensures Valid() && Turn(old(St()), St(), leave)
    {
      hide Goes, Ok, Turn, Store, Loads, Pulled, Step, Pend, Low, Shr, Needs, Decodes, FixedLengths, FixedDists, HeaderNext;
      ghost var s := St();
      if last {
        DoLast();
        GoesTurn(s, St());
        return false;
      }
      HeaderNeeds(s);
      var ok := Need(3);
      PulledSame(s, St());
      if !ok {
        Waits(s, St());
        return true;
      }
      if Low(Shr(hold, 1), 2) == 1 {
        FixedTables();
      }
      HeaderMoves(s, St());
      GoesTurn(s, HeaderNext(St()));
      TakeHeader();
      return false;
    }

    method DoLast()
      requires Valid() && mode == TYPE && last
      modifies `mode, `hold, `bits, `m
      ensures Goes(old(St()), St()) && Loads()
    {
      hide Goes, Ok, Turn, Store, Pulled, Step, Pend, Low, Shr, Needs, Loaded;
      LastMoves(St());
      Reload(m.(mode := DONE));
      hold, bits, mode, m := Shr(hold, bits % 8), bits - bits % 8, DONE, m.(mode := DONE);
    }

    /** fixedtables() */
    method FixedTables()
      requires Store()
      modifies `lencode, `lenbits, `distcode, `distbits
      ensures Decodes(LENS, FixedLengths(), lencode, lenbits) && Decodes(DISTS, FixedDists(), distcode, distbits)
    {
      hide Decodes, FixedLengths, FixedDists, Recalls, InRange;
      lencode, lenbits, distcode, distbits := lenfix, 9, distfix, 5;
    }

    method TakeHeader()
      requires bits >= 3 && Store()
      requires Low(Shr(hold, 1), 2) == 1 ==>
                 Decodes(LENS, FixedLengths(), lencode, lenbits) && Decodes(DISTS, FixedDists(), distcode, distbits)
      modifies `mode, `last, `hold, `bits, `m
      ensures Loads() && St() == HeaderNext(old(St()))
    {
      hide Store, Loads, Low, Shr, Decodes, BlockMode, Header, FixedLengths, FixedDists;
      var last := Low(hold, 1) == 1;
      DropBits(1);
      var kind := Low(hold, 2);
      DropBits(2);
      SetHeader(last, kind);
    }

    method SetHeader(last: bool, kind: nat)
      requires Store()
      requires kind == 1 ==> Decodes(LENS, FixedLengths(), lencode, lenbits) && Decodes(DISTS, FixedDists(), distcode, distbits)
      modifies `mode, `last, `m
      ensures Loads() && this.last == last && mode == BlockMode(kind) && m == Header(old(m), last, kind)
    {
      hide Store, Loaded, Decodes, BlockMode, Header, FixedLengths, FixedDists;
      HeaderTables(last, kind);
      mode, this.last, m := BlockMode(kind), last, Header(m, last, kind);
    }

    lemma HeaderTables(last: bool, kind: nat)
      requires Store()
      requires kind == 1 ==> Decodes(LENS, FixedLengths(), lencode, lenbits) && Decodes(DISTS, FixedDists(), distcode, distbits)
      ensures Loaded(Header(m, last, kind), have, lens, nlen, ndist, ncode, lencode, lenbits, distcode, distbits)
    {
      hide Header, Decodes, FixedLengths, FixedDists, BlockMode, InRange, InBlock;
      HeaderIs(m, last, kind);
      FixedSizes();
    }

    /** case STORED: the length of a stored block. */
    method DoStored() returns (leave: bool)
      requires Valid() && mode == STORED
      modifies `mode, `hold, `bits, `next, `length, `m
      ensures Valid() && Turn(old(St()), St(), leave)
    {
      hide Ok, Turn, Store, Loads, Shr, Moves, Avail;
      ghost var s := St();
      AlignMoves(s);
      DropBits(bits % 8);
      ghost var s0 := St();
      leave := ReadStored();
      TurnAfter(s, s0, St(), leave);
    }

    method ReadStored() returns (leave: bool)
      requires Valid() && mode == STORED && bits % 8 == 0
      modifies `mode, `hold, `bits, `next, `length, `m
      ensures Valid() && Turn(old(St()), St(), leave)
    {
      hide Goes, Ok, Turn, Store, Loads, Pulled, Step, Pend, Low, Shr, Needs;
      ghost var s := St();
      OkMode(s);
      StoredNeeds(m, Pend(s));
      var ok := Need(32);
      PulledSame(s, St());
      if !ok {
        Waits(s, St());
        return true;
      }
      TakeStored(s);
      GoesTurn(s, St());
      return false;
    }

    method TakeStored(ghost s: State)
      requires Ok(s) && Pulled(s, St()) && s.mode == STORED && bits >= 32 && Loads() && Store()
      modifies `mode, `hold, `bits, `length, `m
      ensures Goes(s, St()) && Loads()
    {
      hide Goes, Ok, Turn, Store, Loads, Pulled, Step, Pend, Low, Shr, Needs, Loaded;
      PulledSame(s, St());
      StoredMoves(s, St());
      if Low(hold, 16) != 0xFFFF - Shr(hold, 16) {
        Fail();
      } else {
        TakeLength(Low(hold, 16));
      }
    }

    method TakeLength(len: nat)
      requires Loads()
      modifies `mode, `hold, `bits, `length, `m
      ensures Loads() && length == len && hold == 0 && bits == 0 && mode == COPY && m == old(m).(mode := COPY, length := len)
    {
      hide Loaded;
      Reload(m.(mode := COPY, length := len));
      length, hold, bits, mode, m := len, 0, 0, COPY, m.(mode := COPY, length := len);
    }

    /** Data error. */
    method Fail()
      requires Store()
      modifies `mode, `m
      ensures Loads() && mode == BAD && m == old(m).(mode := BAD)
    {
      hide Recalls, Decodes, InRange, FixedLengths, FixedDists;
      mode, m := BAD, m.(mode := BAD);
    }

    /** case COPY: as much of a stored block as there is input and room for. */
    method DoCopy() returns (leave: bool)
      requires Valid() && mode == COPY
      modifies `mode, `next, `put, `left, `length, `m
      ensures Valid() && Turn(old(St()), St(), leave)
    {
      hide Goes, Ok, Turn, Store, Loads;
      ghost var s := St();
      CopyRange(s);
      if length == 0 {
        CopyEnds(s);
        GoesTurn(s, s.(mode := TYPE, m := m.(mode := TYPE)));
        EndCopy();
        return false;
      }
      leave := DoCopySome();
    }

    method EndCopy()
      requires Loads()
      modifies `mode, `m
      ensures Loads() && mode == TYPE && m == old(m).(mode := TYPE)
    {
      hide Loaded;
      Reload(m.(mode := TYPE));
      mode, m := TYPE, m.(mode := TYPE);
    }

    method DoCopySome() returns (leave: bool)
      requires Valid() && mode == COPY && length > 0 && next <= |input| && m.length == length
      modifies `next, `put, `left, `length, `m
      ensures Valid() && Turn(old(St()), St(), leave)
    {
      hide Goes, Ok, Turn, Store, Loads, CopyNext;
      ghost var s := St();
      var copy := length;
      if copy > |input| - next { copy := |input| - next; }
      if copy > left { copy := left; }
      if copy == 0 {
        CopyBlocked(s);
        return true;
      }
      OkMode(s);
      CopyMoves(s, copy);
      GoesTurn(s, CopyNext(s, copy));
      TakeCopy(copy);
      return false;
    }

    method TakeCopy(copy: nat)
      requires Loads() && m.mode == COPY && next + copy <= |input| && copy <= left && copy <= length == m.length
      modifies `next, `put, `left, `length, `m
      ensures Loads() && St() == CopyNext(old(St()), copy)
    {
      hide Loads, Copied;
      ghost var data := input[next..next + copy];
      CopyOut(copy);
      SetCopied(copy, data);
    }

    /** zmemcpy(put, next, copy) */
    method CopyOut(copy: nat)
      requires next + copy <= |input| && copy <= left
      modifies `next, `put, `left
      ensures next == old(next) + copy && left == old(left) - copy && put == old(put) + input[old(next)..next]
    {
      put := put + input[next..next + copy];
      next, left := next + copy, left - copy;
    }

    method SetCopied(copy: nat, ghost data: seq<byte>)
      requires Loads() && m.mode == COPY && copy == |data| <= length == m.length
      modifies `length, `m
      ensures Loads() && length == old(length) - copy && m == Copied(old(m), data)
    {
      hide Loaded, Copied;
      CopiedMode(m, data);
      Reload(Copied(m, data));
      length, m := length - copy, Copied(m, data);
    }

    lemma CopiedMode(m: Machine, data: seq<byte>)
      requires |data| <= m.length
      ensures Copied(m, data).mode == m.mode
    {
    }

    /** case TABLE: the numbers of codes. */
    method DoTable() returns (leave: bool)
      requires Valid() && mode == TABLE
      modifies `mode, `hold, `bits, `next, `nlen, `ndist, `ncode, `have, `m
      ensures Valid() && Turn(old(St()), St(), leave)
    {
      hide Goes, Ok, Turn, Store, Loads, Pulled, Step, Pend, Low, Shr, Needs, TableNext;
      ghost var s := St();
      OkMode(s);
      TableNeeds(m, Pend(s));
      var ok := Need(14);
      PulledSame(s, St());
      if !ok {
        Waits(s, St());
        return true;
      }
      ghost var s1 := St();
      TableMoves(s, s1);
      GoesTurn(s, TableNext(s1));
      TakeSizes();
      return false;
    }

    method TakeSizes()
      requires bits >= 14 && Loads() && Store() && m.mode == TABLE
      modifies `mode, `hold, `bits, `nlen, `ndist, `ncode, `have, `m
      ensures Loads() && St() == TableNext(old(St()))
    {
      hide Store, Loads, Low, Shr;
      TakeCounts();
      JudgeCounts();
    }

    method JudgeCounts()
      requires Store()
      modifies `mode, `have, `m
      ensures Loads()
      ensures if nlen > 286 || ndist > 30 then mode == BAD && have == old(have) && m == old(m).(mode := BAD)
              else mode == LENLENS &&
                   m == old(m).(mode := LENLENS, nlen := nlen, ndist := ndist, ncode := ncode, have := 0, clens := Zeros(19))
    {
      hide Store, Loads, Zeros;
      if nlen > 286 || ndist > 30 {
        Fail();
      } else {
        TakeTable();
      }
    }

    method TakeCounts()
      requires bits >= 14 && Loads() && m.mode == TABLE
      modifies `hold, `bits, `nlen, `ndist, `ncode
      ensures Loads() && bits == old(bits) - 14
      ensures var h1 := Shr(old(hold), 5);
              var h2 := Shr(h1, 5);
              nlen == Low(old(hold), 5) + 257 && ndist == Low(h1, 5) + 1 && ncode == Low(h2, 4) + 4 && hold == Shr(h2, 4)
    {
      hide Low, Shr;
      nlen := Low(hold, 5) + 257;
      DropBits(5);
      ndist := Low(hold, 5) + 1;
      DropBits(5);
      ncode := Low(hold, 4) + 4;
      DropBits(4);
    }

    method TakeTable()
      requires Store()
      modifies `mode, `have, `m
      ensures Loads() && mode == LENLENS
      ensures m == old(m).(mode := LENLENS, nlen := nlen, ndist := ndist, ncode := ncode, have := 0, clens := Zeros(19))
    {
      hide Loaded, Zeros, Recalls, Decodes, InRange, FixedLengths, FixedDists;
      mode, have, m := LENLENS, 0, m.(mode := LENLENS, nlen := nlen, ndist := ndist, ncode := ncode, have := 0, clens := Zeros(19));
      TableLoaded(m, have, lens, nlen, ndist, ncode, lencode, lenbits, distcode, distbits);
    }

    /** case LENLENS: one length of the code length code, or the end of them. */
    method DoLenLens() returns (leave: bool)
      requires Valid() && mode == LENLENS
      modifies `mode, `hold, `bits, `next, `lens, `have, `lencode, `lenbits, `m, codes
      ensures Valid() && Turn(old(St()), St(), leave)
    {
      hide Goes, Ok, Turn, Store, Loads, Pulled, Step, Pend, Low, Shr, Needs, LenLenNext, Zeros;
      ghost var s := St();
      LenLensRange(s);
      if have >= ncode {
        LenLensDone();
        GoesTurn(s, St());
        return false;
      }
      LenLensNeeds(m, Pend(s));
      var ok := Need(3);
      PulledSame(s, St());
      if !ok {
        Waits(s, St());
        return true;
      }
      LenLenMoves(s, St());
      GoesTurn(s, LenLenNext(St()));
      TakeLenLen();
      return false;
    }

    lemma LenLensRange(s: State)
      requires Ok(s) && Loads() && s.mode == LENLENS && s.m == m
      ensures m.mode == LENLENS && have == m.have <= ncode == m.ncode <= 19 && |m.clens| == 19
      ensures nlen == m.nlen && ndist == m.ndist && Partial(m.clens, lens[..19], have)
      ensures InRange(m.clens) && forall i :: 0 <= i < 19 ==> m.clens[i] <= CODEBITS
    {
      hide Accepted;
    }

    method TakeLenLen()
      requires bits >= 3 && Loads() && Store() && m.mode == LENLENS && have == m.have < 19 && |m.clens| == 19
      modifies `hold, `bits, `lens, `have, `m
      ensures Loads() && Store() && St() == LenLenNext(old(St()))
    {
      hide Low, Shr, Order, Loads, Store;
      SetLenLen(Low(hold, 3));
      hold, bits := Shr(hold, 3), bits - 3;
    }

    method SetLenLen(x: nat)
      requires Loads() && Store() && m.mode == LENLENS && have == m.have < 19 && |m.clens| == 19 && x == Low(hold, 3)
      modifies `lens, `have, `m
      ensures Loads() && Store() && m == old(m).(clens := old(m).clens[Order(old(have)) := x], have := old(m).have + 1)
    {
      hide Low, Decodes, FixedLengths, FixedDists, Order, Loaded, Recalls;
      LowThree(hold);
      LenLenLoaded(m, have, lens, nlen, ndist, ncode, lencode, lenbits, distcode, distbits, x);
      lens, have, m := lens[Order(have) := x], have + 1, m.(clens := m.clens[Order(have) := x], have := m.have + 1);
    }

    /** The remaining lengths are zero; build the table of the code length code. */
    method LenLensDone()
      requires Valid() && mode == LENLENS && have >= ncode
      modifies `mode, `lens, `have, `lencode, `lenbits, `m, codes
      ensures Goes(old(St()), St()) && Store() && Loads()
    {
      hide Goes, Ok, Store, Loads, Step, Pend, Fits, Decodes, Partial, RootBits, InRange, LenLensResult;
      ghost var s := St();
      LenLensRange(s);
      ZeroRest();
      var ret := BuildCodeTable();
      LenLensEnd(s, ret == 0);
      EndLenLens(ret == 0);
    }

    method EndLenLens(ok: bool)
      requires Store() && nlen == m.nlen && ndist == m.ndist && |m.clens| == 19
      requires ok ==> Decodes(CODES, m.clens, lencode, lenbits) && lenbits == RootBits(m.clens, CODEBITS)
      modifies `mode, `have, `m
      ensures Loads() && m == LenLensResult(old(m), ok) && mode == m.mode
    {
      hide Decodes, RootBits, Loads, InRange, Recalls, FixedLengths, FixedDists;
      if ok {
        StartCodes();
      } else {
        Fail();
      }
    }

    method BuildCodeTable() returns (ret: int)
      requires Store() && |lens| == MAXLENS && InRange(lens[..19]) && forall i :: 0 <= i < 19 ==> lens[i] <= CODEBITS
      modifies `lencode, `lenbits, codes
      ensures Store() && (ret == 0 <==> Fits(CODES, lens[..19], CODEBITS))
      ensures ret == 0 ==> Decodes(CODES, lens[..19], lencode, lenbits) && lenbits == RootBits(lens[..19], CODEBITS)
    {
      hide Decodes, Fits, Accepted, InRange, RootBits, FixedLengths, FixedDists, Recalls;
      SmallPowers();
      var used, root;
      ret, used, root := InflateTable.InflateTable(CODES, lens[..19], codes, 0, CODEBITS);
      FitsAccepted(CODES, lens[..19], CODEBITS);
      if ret == 0 {
        lencode, lenbits := codes[0..used], root;
      }
    }

    method StartCodes()
      requires |lens| == MAXLENS && nlen == m.nlen && ndist == m.ndist && |m.clens| == 19
      requires Decodes(CODES, m.clens, lencode, lenbits) && lenbits == RootBits(m.clens, CODEBITS)
      modifies `mode, `have, `m
      ensures Loads() && mode == CODELENS && m == old(m).(mode := CODELENS, lens := [])
    {
      hide Decodes, RootBits;
      have, mode, m := 0, CODELENS, m.(mode := CODELENS, lens := []);
    }

    method ZeroRest()
      requires Store() && Loads() && m.mode == LENLENS && have <= 19
      modifies `lens, `have
      ensures Store() && |lens| == MAXLENS && lens[..19] == m.clens
    {
      hide Order, Rank, Decodes, FixedLengths, FixedDists, Recalls;
      while have < 19
        invariant Store() && have <= 19 && Partial(m.clens, lens[..19], have)
      {
        RankOrder(have);
        lens := lens[Order(have) := 0];
        have := have + 1;
      }
    }

    /** case CODELENS: one code length symbol, or the end of them. */
    method DoCodeLens() returns (leave: bool)
      requires Valid() && mode == CODELENS
      modifies `mode, `hold, `bits, `next, `lens, `have, `lencode, `lenbits, `distcode, `distbits, `m, codes
      ensures Valid() && Turn(old(St()), St(), leave)
    {
      hide Goes, Ok, Turn, Store, Loads, Pulled, Step, Pend, Low, Shr, Needs, Read;
      ghost var s := St();
      CodeLensRange(s);
      if have >= nlen + ndist {
        CodeLensDone();
        GoesTurn(s, St());
        return false;
      }
      var ok, here := FirstCode();
      PulledSame(s, St());
      if !ok {
        Waits(s, St());
        return true;
      }
      if here.val < 16 {
        LengthMoves(s, St(), here);
        TakeCodeLen(here);
      } else {
        ok := DoRepeat(s, here);
        if !ok { return true; }
      }
      GoesTurn(s, St());
      return false;
    }

    /** In the middle of reading code lengths. */
    ghost predicate Reading()
      reads `mode, `m, `have, `lens, `nlen, `ndist
    {
      && m.mode == CODELENS && mode == CODELENS && |lens| == MAXLENS
      && have == |m.lens| <= nlen + ndist == m.nlen + m.ndist <= 316 && lens[..have] == m.lens && InRange(m.lens)
    }

    lemma CodeLensRange(s: State)
      requires Ok(s) && Loads() && s.mode == CODELENS && s.m == m
      ensures mode == CODELENS ==> Reading()
      ensures m.mode == CODELENS && have == |m.lens| <= nlen + ndist <= 316 && |lens| == MAXLENS && lens[..have] == m.lens
      ensures nlen == m.nlen && ndist == m.ndist && 257 <= nlen <= 286 && 1 <= ndist <= 30 && |m.clens| == 19
      ensures InRange(m.lens)
    {
      hide Accepted, Decodes, RootBits;
    }

    /** The symbol of the code length code; there is no second level. */
    method FirstCode() returns (ok: bool, here: Entry)
      requires Ok(St()) && Loads() && mode == CODELENS && have < nlen + ndist
      modifies `hold, `bits, `next
      ensures Pulled(old(St()), St())
      ensures |m.clens| <= 19 && (ok ==> Read(CODES, m.clens, Pend(St()), here) && 1 <= here.bits <= 15 && here.val < 19 && here.bits <= bits)
      ensures !ok ==> next == |input| && Step(m, Pend(St())) == Stuck
    {
      hide Step, Rest, ToBits, Tight, BitsOk, Decodes, Accepted, InRange, RootBits, Read, Asks, Low;
      CodeLensRange(St());
      SoundCodes(m);
      SymbolAsks(m);
      PulledNone(St());
      ok, next, hold, bits, here := FirstEntry(m, CODES, m.clens, lencode, lenbits, input, next, hold, bits);
      if ok {
        BitsRange(input, next, hold, bits);
        FirstCodeIs(m, lencode, lenbits, hold, bits, here);
      }
    }

    method TakeCodeLen(here: Entry)
      requires bits >= here.bits && Loads() && Store() && m.mode == CODELENS && here.val < 16 && |m.lens| < 316
      modifies `hold, `bits, `lens, `have, `m
      ensures Loads() && Store() && St() == LengthNext(old(St()), here)
    {
      hide Low, Shr, Loads, Store, Repeat;
      hold, bits := Shr(hold, here.bits), bits - here.bits;
      SetLengths(here.val, 1);
    }

    /** Append copies of a code length. */
    method SetLengths(len: nat, copy: nat)
      requires Loads() && Store() && m.mode == CODELENS && len <= MAXBITS && |m.lens| + copy <= 316
      modifies `lens, `have, `m
      ensures Loads() && Store() && m == old(m).(lens := old(m).lens + Repeat(len, copy))
    {
      hide Decodes, FixedLengths, FixedDists, RootBits, Recalls, Loads, Store;
      AppendNone(m, len);
      ghost var m0 := m;
      for i := 0 to copy
        invariant Loads() && Store() && m == m0.(lens := m0.lens + Repeat(len, i))
      {
        SetLength(len);
        AppendOne(m0, len, i);
      }
    }

    method SetLength(len: nat)
      requires Loads() && Store() && m.mode == CODELENS && len <= MAXBITS && |m.lens| < 316
      modifies `lens, `have, `m
      ensures Loads() && Store() && m == old(m).(lens := old(m).lens + [len])
    {
      hide Decodes, FixedLengths, FixedDists, RootBits, Recalls;
      assert lens[have := len][..have + 1] == lens[..have] + [len];
      lens, have, m := lens[have := len], have + 1, m.(lens := m.lens + [len]);
    }

    /** A repeat code: 16, 17 or 18. */
    method DoRepeat(ghost s: State, here: Entry) returns (ok: bool)
      requires Ok(s) && Pulled(s, St()) && Loads() && Store() && mode == CODELENS && have < nlen + ndist
      requires s.mode == CODELENS && |m.clens| == 19
      requires Read(CODES, m.clens, Pend(St()), here) && 16 <= here.val < 19 && 1 <= here.bits <= 15
      modifies `mode, `hold, `bits, `next, `lens, `have, `m
      ensures Store() && Loads()
      ensures if ok then Goes(s, St()) else Ok(St()) && Turn(s, St(), true)
    {
      hide Goes, Ok, Turn, Store, Loads, Pulled, Step, Pend, Low, Shr, Needs, Read, RepeatBits;
      PulledSame(s, St());
      CodeLensRange(s);
      OkSound(s);
      RepeatNeeds(m, Pend(St()), here);
      RepeatSmall(here.val);
      ghost var p := Pend(St());
      ok := NeedMore(s, here.bits + RepeatBits(here.val));
      PulledSame(s, St());
      if !ok {
        Waits(s, St());
      } else {
        ReadStable(m, p, Pend(St()), here);
        TakeRepeat(s, here);
      }
    }

    method TakeRepeat(ghost s: State, here: Entry)
      requires Ok(s) && Pulled(s, St()) && Loads() && Store() && mode == CODELENS && have < nlen + ndist
      requires s.mode == CODELENS && |m.clens| == 19
      requires Read(CODES, m.clens, Pend(St()), here) && 16 <= here.val < 19 && 1 <= here.bits <= 15
      requires here.bits + RepeatBits(here.val) <= bits
      modifies `mode, `hold, `bits, `next, `lens, `have, `m
      ensures Store() && Loads() && Goes(s, St())
    {
      hide Goes, Ok, Store, Loads, Pulled, Step, Pend, Low, Shr, Read, Repeat, Repeated, RepeatBits, Reading;
      PulledSame(s, St());
      CodeLensRange(s);
      ghost var s1 := St();
      ghost var v := Low(Shr(hold, here.bits), RepeatBits(here.val));
      PulledBits(s, s1, here.bits, RepeatBits(here.val));
      DropFirst(here);
      RepeatMoves(s, s1, St(), here, v);
    }

    method DropFirst(here: Entry)
      requires Loads() && Store() && Reading() && 16 <= here.val < 19
      requires here.bits + RepeatBits(here.val) <= bits
      modifies `mode, `hold, `bits, `lens, `have, `m
      ensures Store() && Loads() && m == Repeated(old(m), here.val, Low(Shr(old(hold), here.bits), RepeatBits(here.val)))
      ensures mode == m.mode
      ensures var h, n := Shr(old(hold), here.bits), RepeatBits(here.val);
              (hold == h && bits == old(bits) - here.bits && mode == BAD) ||
              (hold == Shr(h, n) && bits == old(bits) - here.bits - n)
    {
      hide Store, Loads, Low, Shr, Repeat, Repeated, RepeatBits, Reading;
      hold, bits := Shr(hold, here.bits), bits - here.bits;
      CopyLengths(here.val);
    }

    /** Store the copies that a repeat code asks for, if there is room. */
    method CopyLengths(val: nat)
      requires Loads() && Store() && Reading() && 16 <= val < 19
      requires RepeatBits(val) <= bits
      modifies `mode, `hold, `bits, `lens, `have, `m
      ensures Store() && Loads() && m == Repeated(old(m), val, Low(old(hold), RepeatBits(val))) && mode == m.mode
      ensures (hold == old(hold) && bits == old(bits) && mode == BAD) ||
              (hold == Shr(old(hold), RepeatBits(val)) && bits == old(bits) - RepeatBits(val))
    {
      hide Store, Loads, Low, Shr, Repeat, RepeatBits;
      if val == 16 && have == 0 {
        Fail();
      } else {
        var len, copy := TakeCount(val);
        if have + copy > nlen + ndist {
          Fail();
        } else {
          SetLengths(len, copy);
        }
      }
    }

    /** The length to repeat and how often. */
    method TakeCount(val: nat) returns (len: nat, copy: nat)
      requires Loads() && |lens| == MAXLENS && have <= 316 && (val == 16 ==> have > 0) && 16 <= val < 19 && bits >= RepeatBits(val)
      modifies `hold, `bits
      ensures hold == Shr(old(hold), RepeatBits(val)) && bits == old(bits) - RepeatBits(val)
      ensures len == if val == 16 then lens[have - 1] else 0
      ensures copy == (if val == 18 then 11 else 3) + Low(old(hold), RepeatBits(val))
    {
      hide Low, Shr, Loads;
      if val == 16 {
        len, copy := lens[have - 1], 3 + Low(hold, 2);
        hold, bits := Shr(hold, 2), bits - 2;
      } else if val == 17 {
        len, copy := 0, 3 + Low(hold, 3);
        hold, bits := Shr(hold, 3), bits - 3;
      } else {
        len, copy := 0, 11 + Low(hold, 7);
        hold, bits := Shr(hold, 7), bits - 7;
      }
    }

    /** All code lengths are there; build the tables of both codes. */
    method CodeLensDone()
      requires Valid() && mode == CODELENS && have >= nlen + ndist
      modifies `mode, `lencode, `lenbits, `distcode, `distbits, `m, codes
      ensures Goes(old(St()), St()) && Store() && Loads()
    {
      hide Goes, Ok, Store, Loads, Step, Pend, Usable;
      ghost var s := St();
      CodeLensRange(s);
      var ok := BuildTables();
      CodeLensEnd(s, ok);
      if !ok {
        Fail();
      } else {
        StartBlock();
      }
    }

    method BuildTables() returns (ok: bool)
      requires Store() && |lens| == MAXLENS && have == nlen + ndist && 257 <= nlen <= 286 && 1 <= ndist <= 30
      modifies `lencode, `lenbits, `distcode, `distbits, codes
      ensures Store() && ok == Usable(lens[..have], nlen)
      ensures ok ==> Decodes(LENS, lens[..nlen], lencode, lenbits) && Decodes(DISTS, lens[nlen..have], distcode, distbits)
    {
      hide Decodes, Fits, Accepted, InRange, RootBits, FixedLengths, FixedDists, Recalls;
      UsableParts(lens, nlen, have);
      if lens[256] == 0 { return false; }
      var ret, used, root := InflateTable.InflateTable(LENS, lens[..nlen], codes, 0, LENBITS);
      FitsAccepted(LENS, lens[..nlen], LENBITS);
      FitsAccepted(DISTS, lens[nlen..have], DISTBITS);
      if ret != 0 { return false; }
      lencode, lenbits := codes[0..used], root;
      var ret', used', root' := InflateTable.InflateTable(DISTS, lens[nlen..have], codes, used, DISTBITS);
      if ret' != 0 { return false; }
      assert lencode == codes[0..used];
      distcode, distbits := codes[used..used + used'], root';
      return true;
    }

    method StartBlock()
      requires Store() && |lens| == MAXLENS && have == |m.lens| <= MAXLENS && lens[..have] == m.lens && nlen == m.nlen
      requires have == nlen + ndist && nlen <= 288 && ndist <= 32
      requires Decodes(LENS, lens[..nlen], lencode, lenbits) && Decodes(DISTS, lens[nlen..have], distcode, distbits)
      modifies `mode, `m
      ensures Loads() && mode == LEN && m == old(m).(mode := LEN, llens := old(m).lens[..nlen], dlens := old(m).lens[nlen..])
    {
      hide Decodes, RootBits, Store;
      assert m.lens[..nlen] == lens[..nlen] && m.lens[nlen..] == lens[nlen..have];
      mode, m := LEN, m.(mode := LEN, llens := m.lens[..nlen], dlens := m.lens[nlen..]);
    }

    lemma BlockRange()
      requires Ok(St()) && Loads() && InBlock(mode)
      ensures |m.llens| <= 288 && InRange(m.llens) && Accepted(LENS, m.llens) && Decodes(LENS, m.llens, lencode, lenbits)
      ensures |m.dlens| <= 32 && InRange(m.dlens) && Accepted(DISTS, m.dlens) && Decodes(DISTS, m.dlens, distcode, distbits)
      ensures m.mode == mode
    {
      hide Accepted, Decodes, InRange, Kraft, Pow2;
    }

    /** Look up a literal/length or distance code. */
    method ReadSymbol(ty: CodeType, ghost clens: Lengths, tab: seq<Entry>, root: nat)
      returns (ok: bool, first: nat, here: Entry)
      requires Ok(St()) && Asks(m, clens) && ty != CODES
      requires |clens| <= MaxSyms(ty) && InRange(clens) && Accepted(ty, clens) && Decodes(ty, clens, tab, root)
      modifies `hold, `bits, `next
      ensures Pulled(old(St()), St())
      ensures ok ==> Read(ty, clens, Pend(St()), Entry(here.op, first + here.bits, here.val)) && 1 <= first + here.bits <= bits
      ensures !ok ==> next == |input| && Step(m, Pend(St())) == Stuck
    {
      hide Step, Rest, ToBits, Tight, BitsOk, Decodes, Accepted, InRange, Read, Asks;
      PulledNone(St());
      ok, next, hold, bits, first, here := ReadEntry(m, ty, clens, tab, root, input, next, hold, bits);
      if ok { ReadSome(ty, clens, Pend(St()), Entry(here.op, first + here.bits, here.val)); }
    }

    /** case LEN: a literal/length code, or as many as possible at full speed. */
    method DoLen() returns (leave: bool, ghost held: seq<nat>)
      requires Valid() && mode == LEN
      modifies `mode, `hold, `bits, `next, `put, `left, `length, `extra, `m
      ensures Valid() && Turn(old(St()), St(), leave) && held == HeldAtEntry(old(St()))
    {
      hide Goes, Ok, Turn, Store, Loads;
      ghost var s := St();
      NextRange(s);
      if |input| - next >= 6 && left >= 258 {
        held := [bits];
        DoFast();
        GoesTurn(s, St());
        return false, held;
      }
      held := [];
      leave := DoOneLen();
    }

    lemma NextRange(s: State)
      requires Ok(s)
      ensures s.next <= |s.input|
    {
    }

    /** LOAD(), inflate_fast(), RESTORE() */
    method DoFast()
      requires Valid() && mode == LEN && next + 6 <= |input| && left >= 258
      modifies `mode, `hold, `bits, `next, `put, `left, `m
      ensures Goes(old(St()), St()) && Loads()
    {
      hide Goes, Ok, Loads, Loaded, Here, Sound, ToBits, Reaches, Recalls, Decodes, InRange, FixedLengths, FixedDists, Tabled, BitsOk, Held;
      ghost var s := St();
      FastReady(s);
      BlockTabled();
      var mode', r;
      ghost var m';
      mode', r, m' := FastLoop(input, Registers(next, hold, bits, put, left), window, wsize, wnext, whave,
                               lencode, lenbits, distcode, distbits, prior, m);
      FastGoes(s, mode', r, m');
      Reload(m');
      SetMode(mode', m');
      Restore(r);
    }

    /** RESTORE() */
    method Restore(r: Registers)
      modifies `hold, `bits, `next, `put, `left
      ensures Registers(next, hold, bits, put, left) == r
    {
      hold, bits, next, put, left := r.hold, r.bits, r.next, r.put, r.left;
    }

    method SetMode(mode: Mode, ghost m': Machine)
      requires Loaded(m', have, lens, nlen, ndist, ncode, lencode, lenbits, distcode, distbits)
      modifies `mode, `m
      ensures this.mode == mode && m == m' && Loads()
    {
      hide Loaded;
      this.mode, m := mode, m';
    }

    lemma BlockTabled()
      requires Ok(St()) && Loads() && mode == LEN
      ensures Tabled(m, lencode, lenbits, distcode, distbits)
    {
      hide Decodes, Sound;
    }

    method DoOneLen() returns (leave: bool)
      requires Valid() && mode == LEN
      modifies `mode, `hold, `bits, `next, `length, `extra, `m
      ensures Valid() && Turn(old(St()), St(), leave)
    {
      hide Goes, Ok, Turn, Store, Loads, Pulled, Step, Pend, Low, Shr, Read, Asks, Decodes, Accepted, InRange, LenNext;
      ghost var s := St();
      BlockRange();
      SymbolAsks(m);
      var ok, first, here := ReadSymbol(LENS, m.llens, lencode, lenbits);
      PulledSame(s, St());
      if !ok {
        Waits(s, St());
        return true;
      }
      LenMoves(s, St(), first, here);
      GoesTurn(s, LenNext(St(), first, here));
      TakeLen(first, here);
      return false;
    }

    method TakeLen(first: nat, here: Entry)
      requires Loads() && m.mode == LEN && first + here.bits <= bits
      modifies `mode, `hold, `bits, `length, `extra, `m
      ensures Loads() && St() == LenNext(old(St()), first, here)
    {
      hide Loads, Shr, AfterEntry, LenMode;
      DropBits(first);
      DropBits(here.bits);
      SetLen(here, Entry(here.op, first + here.bits, here.val));
    }

    /** DROPBITS(n) */
    method DropBits(n: nat)
      requires n <= bits
      modifies `hold, `bits
      ensures hold == Shr(old(hold), n) && bits == old(bits) - n
    {
      hold, bits := Shr(hold, n), bits - n;
    }

    method SetLen(here: Entry, ghost e: Entry)
      requires Loads() && m.mode == LEN && e.op == here.op && e.val == here.val
      modifies `mode, `length, `extra, `m
      ensures Loads() && mode == LenMode(here.op) && length == here.val && m == AfterEntry(old(m), e)
      ensures extra == if mode == LENEXT then here.op % 16 else old(extra)
    {
      hide Loaded, AfterEntry, LenMode;
      AfterEntryIs(m, e);
      Reload(AfterEntry(m, e));
      length, mode, m := here.val, LenMode(here.op), AfterEntry(m, e);
      if mode == LENEXT {
        extra := here.op % 16;
      }
    }

    /** case DIST: a distance code. */
    method DoDist() returns (leave: bool)
      requires Valid() && mode == DIST
      modifies `mode, `hold, `bits, `next, `offset, `extra, `m
      ensures Valid() && Turn(old(St()), St(), leave)
    {
      hide Goes, Ok, Turn, Store, Loads, Pulled, Step, Pend, Low, Shr, Read, Asks, Decodes, Accepted, InRange, DistNext;
      ghost var s := St();
      BlockRange();
      SymbolAsks(m);
      var ok, first, here := ReadSymbol(DISTS, m.dlens, distcode, distbits);
      PulledSame(s, St());
      if !ok {
        Waits(s, St());
        return true;
      }
      DistMoves(s, St(), first, here);
      GoesTurn(s, DistNext(St(), first, here));
      TakeDist(first, here);
      return false;
    }

    method TakeDist(first: nat, here: Entry)
      requires Loads() && m.mode == DIST && first + here.bits <= bits
      modifies `mode, `hold, `bits, `offset, `extra, `m
      ensures Loads() && St() == DistNext(old(St()), first, here)
    {
      hide Loads, Shr, AfterDist;
      DropBits(first);
      DropBits(here.bits);
      SetDist(here);
    }

    method SetDist(here: Entry)
      requires Loads() && m.mode == DIST
      modifies `mode, `offset, `extra, `m
      ensures Loads() && m == AfterDist(old(m), here.op, here.val)
      ensures if BadOp(here.op) then mode == BAD && offset == old(offset) && extra == old(extra)
              else mode == DISTEXT && offset == here.val && extra == here.op % 16
    {
      hide Loaded;
      Reload(AfterDist(m, here.op, here.val));
      m := AfterDist(m, here.op, here.val);
      if BadOp(here.op) {
        mode := BAD;
      } else {
        offset, extra, mode := here.val, here.op % 16, DISTEXT;
      }
    }

    /** cases LENEXT and DISTEXT: extra bits of a length or a distance. */
    method DoExtra() returns (leave: bool)
      requires Valid() && mode in {LENEXT, DISTEXT}
      modifies `mode, `hold, `bits, `next, `length, `offset, `m
      ensures Valid() && Turn(old(St()), St(), leave)
    {
      hide Goes, Ok, Turn, Store, Loads, Pulled, Step, Pend, Low, Shr, Needs, ExtraNext;
      ghost var s := St();
      ExtraRange(s);
      OkMode(s);
      var ok := Need(extra);
      PulledSame(s, St());
      if !ok {
        Waits(s, St());
        return true;
      }
      ExtraMoves(s, St());
      GoesTurn(s, ExtraNext(St()));
      if mode == LENEXT {
        TakeLenExtra();
      } else {
        TakeDistExtra();
      }
      return false;
    }

    method TakeLenExtra()
      requires Loads() && m.mode == mode == LENEXT && extra <= bits
      modifies `mode, `hold, `bits, `length, `m
      ensures Loads() && St() == ExtraNext(old(St()))
    {
      hide Loads, Low, Shr;
      SetMatchLength(length + Low(hold, extra));
      DropBits(extra);
    }

    method SetMatchLength(len: nat)
      requires Loads() && m.mode == LENEXT
      modifies `mode, `length, `m
      ensures Loads() && mode == DIST && length == len && m == old(m).(mode := DIST, length := len)
    {
      hide Loaded;
      Reload(m.(mode := DIST, length := len));
      length, mode, m := len, DIST, m.(mode := DIST, length := len);
    }

    method TakeDistExtra()
      requires Loads() && m.mode == mode == DISTEXT && extra <= bits
      modifies `mode, `hold, `bits, `offset, `m
      ensures Loads() && St() == ExtraNext(old(St()))
    {
      hide Loads, Low, Shr;
      SetOffset(offset + Low(hold, extra));
      DropBits(extra);
    }

    method SetOffset(dist: nat)
      requires Loads() && m.mode == DISTEXT
      modifies `mode, `offset, `m
      ensures Loads() && mode == MATCH && offset == dist && m == old(m).(mode := MATCH, offset := dist)
    {
      hide Loaded;
      Reload(m.(mode := MATCH, offset := dist));
      offset, mode, m := dist, MATCH, m.(mode := MATCH, offset := dist);
    }

    /** case LIT: one literal byte. */
    method DoLit() returns (leave: bool)
      requires Valid() && mode == LIT
      modifies `mode, `put, `left, `m
      ensures Valid() && Turn(old(St()), St(), leave)
    {
      hide Goes, Ok, Turn, Store, Loads, LitNext;
      ghost var s := St();
      OkMode(s);
      if left == 0 {
        RoomBlocked(s);
        return true;
      }
      LitMoves(s);
      GoesTurn(s, LitNext(s));
      TakeLit();
      return false;
    }

    method TakeLit()
      requires Loads() && m.mode == LIT && left > 0
      modifies `mode, `put, `left, `m
      ensures Loads() && St() == LitNext(old(St()))
    {
      hide Loads;
      SetLit((length % 256) as byte);
      put, left := put + [(length % 256) as byte], left - 1;
    }

    method SetLit(ghost c: byte)
      requires Loads() && m.mode == LIT
      modifies `mode, `m
      ensures Loads() && mode == LEN && m == old(m).(mode := LEN, out := old(m).out + [c])
    {
      hide Loaded;
      Reload(m.(mode := LEN, out := m.out + [c]));
      mode, m := LEN, m.(mode := LEN, out := m.out + [c]);
    }

    /** case MATCH: as much of a match as lies in one piece and there is room for. */
    method DoMatch() returns (leave: bool)
      requires Valid() && mode == MATCH
      modifies `mode, `put, `left, `length, `m
      ensures Valid() && Turn(old(St()), St(), leave)
    {
      hide Goes, Ok, Turn, Store, Loads, MatchNext, CopyBack, Piece;
      ghost var s := St();
      MatchRange(s);
      OkMode(s);
      if left == 0 {
        RoomBlocked(s);
        return true;
      }
      var tooFar, fromWindow, from, copy := Source();
      if tooFar {
        TooFar(s);
        Fail();
        GoesTurn(s, St());
        return false;
      }
      if copy > left {
        if fromWindow { PieceShort(window[..], from, copy, prior, |prior| + |put| - offset, left); }
        copy := left;
      }
      var put' := CopyMatch(window, fromWindow, from, copy, put, prior, offset);
      MatchMoves(s, put', copy);
      GoesTurn(s, MatchNext(s, put', copy));
      TakeMatch(put', copy);
      return false;
    }

    /** Where the next bytes of the match are, and how many of them. */
    method Source() returns (tooFar: bool, fromWindow: bool, from: nat, copy: nat)
      requires Store() && seen == prior && 1 <= offset <= WSIZE && 1 <= length
      ensures tooFar <==> offset > |prior| + |put|
      ensures !tooFar ==> 1 <= copy <= length
      ensures !tooFar ==>
                if fromWindow then copy <= offset - |put| && Piece(window[..], from, copy, prior, |prior| + |put| - offset)
                else from + offset == |put|
    {
      hide Recalls, Piece, InRange, Decodes, FixedLengths, FixedDists;
      copy := |put|;
      if offset > copy {
        copy := offset - copy;
        BeyondWindow(window[..], wsize, wnext, whave, prior, put, offset);
        if copy > whave { return true, true, 0, 0; }
        if copy > wnext {
          copy := copy - wnext;
          WindowRange();
          from := wsize - copy;
        } else {
          from := wnext - copy;
        }
        if copy > length { copy := length; }
        InOnePiece(window[..], wsize, wnext, whave, prior, put, offset, from, copy);
        return false, true, from, copy;
      }
      return false, false, copy - offset, length;
    }

    lemma WindowRange()
      requires Store() && whave > 0
      ensures wsize == WSIZE && whave <= wsize
    {
      hide InRange, Decodes, FixedLengths, FixedDists;
    }

    method TakeMatch(put': seq<byte>, copy: nat)
      requires Loads() && m.mode == mode == MATCH && copy <= left && copy <= length == m.length && 1 <= m.offset <= |m.out|
      modifies `mode, `put, `left, `length, `m
      ensures Loads() && St() == MatchNext(old(St()), put', copy)
    {
      hide Loads, CopyBack;
      put, left := put', left - copy;
      SetMatched(copy);
    }

    method SetMatched(copy: nat)
      requires Loads() && m.mode == mode == MATCH && copy <= length == m.length && 1 <= m.offset <= |m.out|
      modifies `mode, `length, `m
      ensures Loads() && length == old(length) - copy && m == Matched(old(m), copy)
      ensures mode == if length == 0 then LEN else MATCH
    {
      hide Loaded, CopyBack;
      Reload(Matched(m, copy));
      length, m := length - copy, Matched(m, copy);
      if length == 0 {
        mode := LEN;
      }
    }

    // ---------- between calls ----------

    /** updatewindow(): keep the last output for the next call. */
    method UpdateWindow()
      requires Store()
      modifies `wsize, `wnext, `whave, `seen, window
      ensures Store() && seen == old(seen) + put && wsize > 0
    {
      hide InRange, Decodes, FixedLengths, FixedDists, Recalls;
      FirstUse(window[..], wsize, wnext, whave, seen);
      if wsize == 0 {
        wsize, wnext, whave := WSIZE, 0, 0;
      }
      RecallsRange(window[..], wsize, wnext, whave, seen);
      var copy := |put|;
      if copy >= wsize {
        CopyWhole();
      } else {
        CopyCircular();
      }
    }

    method CopyWhole()
      requires Store() && |put| >= wsize == WSIZE
      modifies `wnext, `whave, `seen, window
      ensures Store() && seen == old(seen) + put
    {
      hide InRange, Decodes, FixedLengths, FixedDists, Recalls;
      MemCopy(window, 0, put[|put| - wsize..]);
      RecallsLast(window[..], seen, put);
      wnext, whave, seen := 0, wsize, seen + put;
    }

    method CopyCircular()
      requires Store() && |put| < wsize == WSIZE
      modifies `wnext, `whave, `seen, window
      ensures Store() && seen == old(seen) + put
    {
      hide InRange, Decodes, FixedLengths, FixedDists, Recalls;
      RecallsRange(window[..], wsize, wnext, whave, seen);
      ghost var w := window[..];
      var copy := |put|;
      var dist := wsize - wnext;
      if dist > copy { dist := copy; }
      MemCopy(window, wnext, put[..dist]);
      copy := copy - dist;
      if copy > 0 {
        MemCopy(window, 0, put[dist..]);
      }
      RecallsWritten(w, window[..], wnext, whave, seen, put);
      seen := seen + put;
      if copy > 0 {
        wnext, whave := copy, wsize;
      } else {
        wnext := wnext + dist;
        if wnext == wsize { wnext := 0; }
        if whave < wsize { whave := whave + dist; }
      }
    }

    // ---------- the whole of inflate() ----------

    /** One pass through the switch statement. */
    method Round() returns (leave: bool, ghost held: seq<nat>)
      requires Valid() && mode != DONE && mode != BAD
      modifies this, codes
      ensures Valid() && Turn(old(St()), St(), leave) && fed == old(fed) && held == HeldAtEntry(old(St()))
    {
      hide Ok, Turn, Store, Loads;
      held := [];
      match mode
      case TYPE => leave := DoType();
      case STORED => leave := DoStored();
      case COPY => leave := DoCopy();
      case TABLE => leave := DoTable();
      case LENLENS => leave := DoLenLens();
      case CODELENS => leave := DoCodeLens();
      case LEN => leave, held := DoLen();
      case LENEXT => leave := DoExtra();
      case DIST => leave := DoDist();
      case DISTEXT => leave := DoExtra();
      case MATCH => leave := DoMatch();
      case LIT => leave := DoLit();
    }

    /** for (;;) switch (state->mode) { ... } */
    method Loop() returns (ghost held: seq<nat>)
      requires Valid()
      modifies this, codes
      ensures Valid() && Moves(old(St()), St()) && Entries(old(St()), held)
      ensures mode == DONE || mode == BAD || Blocked(St())
      ensures fed == old(fed) && (old(mode) == BAD ==> St() == old(St()))
    {
      hide Ok, Turn, Store, Loads, Moves, Blocked, Avail, Entries, HeldAtEntry, Light;
      ghost var s := St();
      NoEntries(s);
      MovesSelf(s);
      held := [];
      ghost var begun := false;
      var leave := mode == DONE || mode == BAD;
      while !leave
        invariant Valid() && Moves(s, St())
        invariant if begun then Entries(s, held) && (leave || Light(St())) else held == [] && St() == s && (leave ==> mode != LEN)
        invariant fed == old(fed) && (old(mode) == BAD ==> leave && St() == s)
        invariant !leave ==> mode != DONE && mode != BAD
        invariant leave ==> mode == DONE || mode == BAD || Blocked(St())
        decreases !leave, Avail(St()), left, Stage(mode)
      {
        ghost var s1 := St();
        ghost var h;
        leave, h := Round();
        TurnEnds(s, s1, St(), leave);
        MoreEntries(s, s1, held, h, begun);
        held, begun := held + h, true;
        if mode == DONE || mode == BAD { leave := true; }
      }
    }

    /** Between calls: everything consumed so far, and only that, has led here. */
    ghost predicate Idle()
      reads this, window
    {
      Valid() && input == [] && next == 0 && put == [] && Fed(fed, m, Pend(St()))
    }

    lemma History()
      requires Idle()
      ensures Fed(fed, m, Pend(St())) && m.mode == mode && |Pend(St())| == bits
    {
      hide Store, Loads, Fed;
    }

    constructor ()
      ensures Idle() && fed == [] && m == InflateSpec.Start() && fresh(codes) && fresh(window)
    {
      var lc, dc := InflateState.FixedTables();
      mode, last, hold, bits, length, offset, extra := TYPE, false, 0, 0, 0, 0, 0;
      nlen, ndist, ncode, have := 0, 0, 0, 0;
      lens := Zeros(MAXLENS);
      codes := new Entry[ENOUGH];
      lencode, lenbits, distcode, distbits := [], 0, [], 0;
      lenfix, distfix := lc, dc;
      window := new byte[WSIZE];
      wsize, wnext, whave := 0, 0, 0;
      input, next, put, left := [], 0, [], 0;
      m, prior, seen, fed := InflateSpec.Start(), [], [], [];
      new;
      FedStart();
      StartOk(St());
    }

    /** inflate(): decode as much of inp as possible into avail bytes of output. */
    method Inflate(inp: seq<byte>, avail: nat) returns (ret: Return, out: seq<byte>, used: nat, ghost held: seq<nat>)
      requires Idle()
      modifies this, codes, window
      ensures Idle() && used <= |inp| && |out| <= avail
      ensures fed == old(fed) + inp[..used] && m.out == old(m.out) + out && (mode == DONE ==> bits == 0)
      ensures mode == DONE || mode == BAD || (used == |inp| && Step(m, Pend(St())) == Stuck) ||
              (|out| == avail && mode in {COPY, MATCH, LIT})
      ensures ret == if mode == DONE then Z_STREAM_END else if mode == BAD then Z_DATA_ERROR
                     else if used == 0 && out == [] then Z_BUF_ERROR else Z_OK
      ensures forall i :: 0 < i < |held| ==> held[i] < 8
      ensures old(mode) == LEN && |inp| >= 6 && avail >= 258 ==> held != [] && held[0] == old(bits)
      ensures (exists i :: 0 <= i < |held| && held[i] >= 8) <==>
              old(mode) == LEN && old(bits) >= 8 && |inp| >= 6 && avail >= 258
    {
      hide Ok, Store, Loads, Moves, Fed, Step, Entries;
      Enter(inp, avail);
      held := Call();
      EntriesIff(old(St()).(input := inp, left := avail), held);
      out, used := put, next;
      NoneLeftOver(St().(seen := prior));
      TakeBack();
      ret := if mode == DONE then Z_STREAM_END else if mode == BAD then Z_DATA_ERROR
             else if used == 0 && out == [] then Z_BUF_ERROR else Z_OK;
    }

    /** The caller's buffers. */
    method Enter(inp: seq<byte>, avail: nat)
      requires Idle()
      modifies `input, `next, `put, `left
      ensures Valid() && input == inp && next == 0 && put == [] && left == avail && Fed(fed, m, Pend(St()))
      ensures prior == m.out
    {
      hide Store, Loads, Fed, Step, Sound, ToBits;
      input, next, put, left := inp, 0, [], avail;
    }

    /** Between taking the caller's buffers and giving them back. */
    method Call() returns (ghost held: seq<nat>)
      requires Valid() && next == 0 && put == [] && Fed(fed, m, Pend(St()))
      modifies this, codes, window
      ensures Store() && Loads() && Ok(St().(seen := prior)) && (mode != BAD ==> seen == prior + put)
      ensures fed == old(fed) && input == old(input) && prior == old(prior) && |put| + left == old(left)
      ensures next <= |input| && Fed(fed + input[..next], m, Pend(St())) && m.out == prior + put
      ensures mode == DONE || mode == BAD || (next == |input| && Step(m, Pend(St())) == Stuck) ||
              (|put| == old(left) && mode in {COPY, MATCH, LIT})
      ensures Entries(old(St()), held)
    {
      hide Ok, Store, Loads, Moves, Fed, Step, Blocked, Entries;
      ghost var s := St();
      held := Loop();
      CallEnds(fed, s, St());
      Leave();
    }

    /** inf_leave: update the window if it is in use or if there is output to remember. */
    method Leave()
      requires Valid()
      modifies `wsize, `wnext, `whave, `seen, window
      ensures Store() && (mode != BAD ==> seen == prior + put)
    {
      hide Store, Loads, Step, Sound, Held, BitsOk;
      SeenNothing();
      if wsize != 0 || (put != [] && mode != BAD) {
        UpdateWindow();
      }
    }

    lemma SeenNothing()
      requires Store()
      ensures wsize == 0 ==> seen == []
    {
      hide InRange, Decodes, FixedLengths, FixedDists;
    }

    /** The buffers go back to the caller. */
    method TakeBack()
      requires Store() && Loads() && Ok(St().(seen := prior)) && (mode != BAD ==> seen == prior + put)
      requires next <= |input| && Fed(fed + input[..next], m, Pend(St()))
      modifies `prior, `fed, `input, `next, `put
      ensures Idle() && fed == old(fed) + old(input[..next])
    {
      hide Store, Loads, Loaded, Fed, ToBits, Recalls, Ok;
      ReturnedOk(St());
      fed, prior := fed + input[..next], prior + put;
      Release();
    }

    method Release()
      modifies `input, `next, `put
      ensures input == [] && next == 0 && put == []
    {
      input, next, put := [], 0, [];
    }
  }

  /** Enough input and room to decode at full speed. */
  predicate Fast(s: State) { s.mode == LEN && s.next + 6 <= |s.input| && s.left >= 258 }

  /** How many bits a round that calls inflate_fast() hands over. */
  ghost function HeldAtEntry(s: State): seq<nat> { if Fast(s) then [s.bits] else [] }

  /** No whole byte is left in the accumulator. */
  predicate Light(s: State) { s.mode == BAD || s.bits < 8 }

  /** Of the calls of inflate_fast() since s only one made at once, in the state
      s itself, can have been handed a whole byte or more. */
  ghost predicate Entries(s: State, held: seq<nat>)
  {
    && (Fast(s) ==> held != [] && held[0] == s.bits)
    && forall i :: 0 <= i < |held| && (i > 0 || !Fast(s)) ==> held[i] < 8
  }

  lemma NoEntries(s: State)
    ensures s.mode != LEN ==> Entries(s, [])
  {
  }

  lemma MoreEntries(s: State, s1: State, held: seq<nat>, h: seq<nat>, begun: bool)
    requires h == HeldAtEntry(s1) && if begun then Entries(s, held) && Light(s1) else held == [] && s1 == s
    ensures Entries(s, held + h)
  {
  }

  lemma EntriesIff(s: State, held: seq<nat>)
    requires Entries(s, held)
    ensures forall i :: 0 < i < |held| ==> held[i] < 8
    ensures Fast(s) ==> held != [] && held[0] == s.bits
    ensures (exists i :: 0 <= i < |held| && held[i] >= 8) <==> Fast(s) && s.bits >= 8
  {
  }

  /** After a round. */
  lemma TurnEnds(s: State, s1: State, s2: State, leave: bool)
    requires Moves(s, s1) && Turn(s1, s2, leave) && s1.mode != BAD
    ensures Moves(s, s2) && (leave || Light(s2))
    ensures if leave then Blocked(s2)
            else Avail(s2) < Avail(s1) ||
                 (Avail(s2) == Avail(s1) && (s2.left < s1.left || (s2.left == s1.left && Stage(s2.mode) < Stage(s1.mode))))
  {
    hide Moves, Ok, Stage, Avail;
    MovesTrans(s, s1, s2);
  }

  lemma LowThree(x: nat)
    ensures Low(x, 3) < 8
  {
    LowShr(x, 3);
    SmallPowers();
  }

  lemma UsableParts(lens: seq<nat>, nlen: nat, have: nat)
    requires InRange(lens) && 257 <= nlen <= have <= |lens|
    ensures InRange(lens[..nlen]) && InRange(lens[nlen..have])
    ensures Usable(lens[..have], nlen) <==>
              lens[256] != 0 && Fits(LENS, lens[..nlen], LENBITS) && Fits(DISTS, lens[nlen..have], DISTBITS)
  {
    hide Fits;
    assert lens[..have][..nlen] == lens[..nlen] && lens[..have][nlen..] == lens[nlen..have];
  }

  lemma AppendNone(m: Machine, len: nat)
    ensures m == m.(lens := m.lens + Repeat(len, 0))
  {
    assert m.lens + Repeat(len, 0) == m.lens;
  }

  lemma AppendOne(m: Machine, len: nat, i: nat)
    ensures m.lens + Repeat(len, i) + [len] == m.lens + Repeat(len, i + 1)
  {
  }

  /** What the entry of the first level says when all its bits are there. */
  lemma FirstCodeIs(m: Machine, tab: seq<Entry>, root: nat, hold: nat, bits: nat, here: Entry)
    requires |m.clens| == 19 && InRange(m.clens) && Accepted(CODES, m.clens) && Asks(m, m.clens)
    requires forall i :: 0 <= i < 19 ==> m.clens[i] <= CODEBITS
    requires Decodes(CODES, m.clens, tab, root) && root == RootBits(m.clens, CODEBITS) && hold < Pow2(bits)
    requires Low(hold, root) < |tab| && here == tab[Low(hold, root)] && here.bits <= bits
    ensures Read(CODES, m.clens, ToBits(hold, bits), here) && 1 <= here.bits <= 15 && here.val < 19
  {
    hide Decodes, Accepted, InRange, RootBits, Asks, Low, Leads, Ends, Read, ToBits, Pow2;
    var e := FirstLevel(m, CODES, m.clens, tab, root, hold, bits);
    CodesFlat(m.clens, tab, hold, CODEBITS, e);
    EndsBits(CODES, m.clens, hold, e);
    EndsVal(m.clens, hold, e);
    ReadAll(CODES, m.clens, hold, bits, e);
  }

  lemma EndsVal(lens: Lengths, x: nat, e: Entry)
    requires |lens| == 19 && Ends(CODES, lens, x, e)
    ensures e.val < 19
  {
    hide Hit;
  }

  lemma OkSound(s: State)
    requires Ok(s)
    ensures Sound(s.m)
  {
  }

  lemma RepeatSmall(val: nat)
    ensures 2 <= RepeatBits(val) <= 7
  {
  }

  /** A symbol stays the same when more bits are there. */
  lemma ReadStable(m: Machine, p: seq<bool>, q: seq<bool>, here: Entry)
    requires Sound(m) && m.mode == CODELENS && |m.clens| <= 19 && p <= q && Read(CODES, m.clens, p, here)
    ensures Read(CODES, m.clens, q, here)
  {
    hide Sound, Decode, Full;
    SoundCodes(m);
    assert q == p + q[|p|..];
    DecodeStable(CODES, m.clens, p, q[|p|..]);
  }

  lemma PulledBits(s: State, s1: State, a: nat, b: nat)
    requires Pulled(s, s1) && a + b <= s1.bits
    ensures BitsOk(s1.input, s1.next, Shr(s1.hold, a), s1.bits - a)
    ensures BitsOk(s1.input, s1.next, Shr(Shr(s1.hold, a), b), s1.bits - a - b)
    ensures Shr(Shr(s1.hold, a), b) == Shr(s1.hold, a + b)
  {
    hide Shr, Tight, Rest, ToBits;
    ShrShr(s1.hold, a, b);
    DropOk(s1.input, s1.next, s1.hold, s1.bits, a);
    DropOk(s1.input, s1.next, s1.hold, s1.bits, a + b);
  }

  lemma ReadSome(ty: CodeType, lens: Lengths, p: seq<bool>, e: Entry)
    requires |lens| <= MaxSyms(ty) && Read(ty, lens, p, e)
    ensures 1 <= e.bits
  {
    hide Decode;
    if Decode(lens, p).Symbol? { SymbolLength(lens, p); }
  }

  datatype Return = Z_OK | Z_STREAM_END | Z_DATA_ERROR | Z_BUF_ERROR

  lemma StartOk(s: State)
    requires s.mode == TYPE && !s.last && s.hold == 0 && s.bits == 0 && s.length == 0 && s.offset == 0 && s.extra == 0
    requires s.input == [] && s.next == 0 && s.put == [] && s.m == InflateSpec.Start() && s.prior == [] && s.seen == []
    ensures Ok(s)
  {
    StartSound();
  }

  /** What a call has done when the loop is left. */
  lemma CallEnds(fed: seq<byte>, s: State, s': State)
    requires Ok(s) && Ok(s') && Moves(s, s') && Fed(fed, s.m, Pend(s)) && s.next == 0 && s.put == []
    requires s.mode == BAD ==> s' == s
    ensures s'.next <= |s'.input| && Fed(fed + s'.input[..s'.next], s'.m, Pend(s'))
    ensures s'.input == s.input && s'.prior == s.prior && |s'.put| + s'.left == s.left && s'.m.out == s'.prior + s'.put
    ensures s'.mode == s'.m.mode
    ensures Blocked(s') ==> (s'.next == |s.input| && Step(s'.m, Pend(s')) == Stuck) ||
                            (|s'.put| == s.left && s'.mode in {COPY, MATCH, LIT})
    ensures s'.mode != BAD ==> s'.seen == s'.prior
    ensures Ok(s'.(seen := s'.prior))
  {
    hide Fed, Step, Sound, ToBits, Reaches, Pow2;
    if s.mode == BAD {
      assert fed + s.input[..0] == fed;
    } else {
      FedMoves(fed, s, s');
    }
  }

  /** The output so far is what later calls look back on. */
  lemma ReturnedOk(s: State)
    requires Ok(s.(seen := s.prior)) && (s.mode != BAD ==> s.seen == s.prior + s.put)
    ensures Ok(s.(prior := s.prior + s.put, input := [], next := 0, put := []))
  {
    hide Sound, ToBits, Held, Pow2;
  }

  lemma FastReady(s: State)
    requires Ok(s) && s.mode == LEN
    ensures BitsOk(s.input, s.next, s.hold, s.bits) && Sound(s.m) && s.m.out == s.prior + s.put && s.seen == s.prior
    ensures Held(s.m, ToBits(s.hold, s.bits)) && s.m.mode == LEN
  {
    hide Sound, ToBits;
  }

  lemma FastGoes(s: State, mode: Mode, r: Registers, m': Machine)
    requires Ok(s) && s.mode == LEN && mode == m'.mode && mode in {LEN, TYPE, BAD} && r.bits < 8 && Sound(m')
    requires BitsOk(s.input, r.next, r.hold, r.bits) && m'.out == s.prior + r.put && m'.last == s.m.last
    requires |r.put| + r.left == |s.put| + s.left
    requires var r0 := Registers(s.next, s.hold, s.bits, s.put, s.left);
             Reaches(s.m, Here(s.input, r0), m', Here(s.input, r)) && |Here(s.input, r)| < |Here(s.input, r0)|
    ensures Goes(s, s.(mode := mode, hold := r.hold, bits := r.bits, next := r.next, put := r.put, left := r.left, m := m'))
  {
    hide Sound, ToBits, Reaches, Pow2, Stage;
    HereLength(s.input, r);
    HereLength(s.input, Registers(s.next, s.hold, s.bits, s.put, s.left));
  }
}
