/** The abstract decoder is deterministic, keeps its invariant, and its steps do
    not depend on input that arrives later. */
module InflateProps {
  import opened Bits
  import opened HuffmanCode
  import opened CodeOrder
  import opened TableTheory
  import opened InflateTable
  import opened Tokens
  import opened InflateSpec

  // ---------- the fixed codes ----------

  lemma FixedTotals(l: nat)
    ensures Total(FixedLengths(), l) == (if l == 7 then 24 else if l == 8 then 152 else if l == 9 then 112 else 0)
    ensures Total(FixedDists(), l) == (if l == 5 then 32 else 0)
  {
    hide Count;
    var f, d := FixedLengths(), FixedDists();
    CountNone(f);
    CountNone(d);
    CountRun(f, 0, 144, 8, l);
    CountRun(f, 144, 256, 9, l);
    CountRun(f, 256, 280, 7, l);
    CountRun(f, 280, 288, 8, l);
    CountRun(d, 0, 32, 5, l);
  }

  /** Room taken below length L when only the lengths up to 9 occur. */
  lemma FixedComplete()
    ensures Complete(FixedLengths()) && Complete(FixedDists())
  {
    hide Total, FixedLengths, FixedDists;
    var f, d := FixedLengths(), FixedDists();
    forall l: nat
      ensures Total(f, l) == (if l == 7 then 24 else if l == 8 then 152 else if l == 9 then 112 else 0)
      ensures Total(d, l) == (if l == 5 then 32 else 0)
    {
      FixedTotals(l);
    }
    BelowFlat(f, 1, 7);
    BelowFlat(f, 10, 16);
    BelowFlat(d, 1, 5);
    BelowFlat(d, 6, 16);
    assert Shl(24, 8) == 6144 && Shl(152, 7) == 19456 && Shl(112, 6) == 7168 && Shl(32, 10) == 32768;
    assert Below(f, 8) == 6144;
    assert Below(f, 9) == 6144 + 19456;
    assert Below(f, 10) == 32768;
    assert Below(d, 6) == 32768;
    Pow2Values();
  }

  lemma AcceptedKraft(ty: CodeType, lens: Lengths)
    requires Accepted(ty, lens)
    ensures Kraft(lens) <= Pow2(MAXBITS)
  {
    if Longest(lens) == 0 {
      LongestIs(lens, MAXBITS);
      OffsZero(lens, MAXBITS + 1);
    }
  }

  // ---------- the invariant ----------

  lemma PeekBound(b: seq<bool>, n: nat)
    requires n <= |b|
    ensures Peek(b, n) < Pow2(n)
  {
    FromBitsBound(b[..n]);
  }

  lemma Powers()
    ensures Pow2(0) == 1 && Pow2(2) == 4 && Pow2(3) == 8 && Pow2(4) == 16 && Pow2(5) == 32 && Pow2(7) == 128
    ensures Pow2(13) == 8192
  {
    SmallPowers();
  }

  lemma LenSymbol(s: nat)
    requires 257 <= s < 286
    ensures 16 <= Op(LENS, s) <= 21 && MIN_MATCH <= Val(LENS, s)
    ensures Val(LENS, s) + Pow2(Op(LENS, s) % 16) <= MAX_MATCH + 1
  {
    hide Pow2, ExtraLBits;
    FirstRows();
    SmallPowers();
    if s < 285 {
      LengthStep(s - 257);
      LengthBounds(s - 257);
    }
  }

  lemma LengthBounds(c: nat)
    requires c < 28
    ensures ExtraLBits(c) <= 5 && MIN_MATCH <= LBase(c) && (c < 27 ==> LBase(c + 1) <= MAX_MATCH)
  {
  }

  lemma LenSymbolBad(s: nat)
    requires 286 <= s < 288
    ensures Op(LENS, s) / 32 % 2 == 0 && Op(LENS, s) / 64 % 2 == 1
  {
  }

  lemma DistSymbol(s: nat)
    requires s < 32
    ensures s >= 30 ==> Op(DISTS, s) == 64
    ensures s < 30 ==> 16 <= Op(DISTS, s) <= 29 && 1 <= Val(DISTS, s) &&
                       Val(DISTS, s) + Pow2(Op(DISTS, s) % 16) <= WSIZE + 1
  {
    hide Pow2, ExtraDBits, DBase;
    if s < 30 {
      DistStep(s);
      DistBounds(s + 1);
      assert DExt(s) % 16 == ExtraDBits(s);
    }
  }

  lemma DistBounds(s: nat)
    requires s <= 30
    ensures s < 30 ==> 1 <= DBase(s) <= WSIZE
    ensures s > 0 ==> ExtraDBits(s - 1) <= 13 && 16 <= DExt(s - 1) <= 29 && 1 <= DBase(s - 1)
  {
  }

  lemma AfterLenSound(m: Machine, s: nat)
    requires Sound(m) && m.mode == LEN && s < 288
    ensures Sound(AfterLen(m, Op(LENS, s), Val(LENS, s)))
  {
    hide Accepted, Kraft, Pow2, LBase, LExt;
    if 257 <= s < 286 {
      LenSymbol(s);
    } else if s >= 286 {
      LenSymbolBad(s);
    }
  }

  lemma AfterDistSound(m: Machine, s: nat)
    requires Sound(m) && m.mode == DIST && s < 32
    ensures Sound(AfterDist(m, Op(DISTS, s), Val(DISTS, s)))
  {
    hide Accepted, Kraft, Pow2, DBase, DExt;
    DistSymbol(s);
  }

  lemma CodeLensSound(m: Machine, b: seq<bool>)
    requires Sound(m) && m.mode == CODELENS && Step(m, b).Go?
    ensures Sound(Step(m, b).m) && Step(m, b).used <= |b|
  {
    hide Kraft, Accepted, Pow2, Complete, Count, Longest, Code, CodeBits, Peek, Fits, FirstCode, Rev, ToBits;
    if |m.lens| >= m.nlen + m.ndist {
      if Usable(m.lens, m.nlen) {
        UsableSound(m);
      }
    } else {
      if Decode(m.clens, b).Symbol? { SymbolLength(m.clens, b); }
    }
  }

  lemma UsableSound(m: Machine)
    requires Sound(m) && m.mode == CODELENS && |m.lens| == m.nlen + m.ndist && Usable(m.lens, m.nlen)
    ensures Sound(m.(mode := LEN, llens := m.lens[..m.nlen], dlens := m.lens[m.nlen..]))
  {
    hide Kraft, Accepted, Pow2;
    AcceptedKraft(LENS, m.lens[..m.nlen]);
    AcceptedKraft(DISTS, m.lens[m.nlen..]);
  }

  lemma SymbolLength(lens: Lengths, b: seq<bool>)
    requires Decode(lens, b).Symbol?
    ensures var s := Decode(lens, b).s; Used(lens, s) && lens[s] <= |b| && CodeBits(lens, s) <= b
  {
    hide CodeBits;
  }

  /** Every step keeps the invariant and uses only bits that are there. */
  lemma SoundStep(m: Machine, b: seq<bool>)
    requires Sound(m) && Step(m, b).Go?
    ensures Sound(Step(m, b).m) && Step(m, b).used <= |b|
  {
    match m.mode
    case TYPE => TypeSound(m, b);
    case STORED => StoredSound(m, b);
    case TABLE => TableSound(m, b);
    case LENLENS => LenLensSound(m, b);
    case CODELENS => CodeLensSound(m, b);
    case LEN => LenSound(m, b);
    case DIST => DistSound(m, b);
    case LENEXT => ExtSound(m, b);
    case DISTEXT => ExtSound(m, b);
    case COPY => CopySound(m, b);
    case MATCH => CopySound(m, b);
    case LIT => CopySound(m, b);
    case DONE =>
    case BAD =>
  }

  lemma TypeSound(m: Machine, b: seq<bool>)
    requires Sound(m) && m.mode == TYPE && Step(m, b).Go?
    ensures Sound(Step(m, b).m) && Step(m, b).used <= |b|
  {
    hide Accepted, Kraft, Pow2, Peek, FixedLengths, FixedDists;
    FixedAccepted();
    FixedSizes();
  }

  lemma FixedAccepted()
    ensures Accepted(LENS, FixedLengths()) && Kraft(FixedLengths()) <= Pow2(MAXBITS)
    ensures Accepted(DISTS, FixedDists()) && Kraft(FixedDists()) <= Pow2(MAXBITS)
  {
    FixedComplete();
    AcceptedKraft(LENS, FixedLengths());
    AcceptedKraft(DISTS, FixedDists());
  }

  lemma FixedSizes()
    ensures |FixedLengths()| == 288 && InRange(FixedLengths()) && |FixedDists()| == 32 && InRange(FixedDists())
  {
  }

  lemma StoredSound(m: Machine, b: seq<bool>)
    requires Sound(m) && m.mode == STORED && Step(m, b).Go?
    ensures Sound(Step(m, b).m) && Step(m, b).used <= |b|
  {
    hide Accepted, Kraft, Pow2, Peek;
    Pow2Values();
    if |b| >= 32 { PeekBound(b, 16); }
  }

  lemma TableSound(m: Machine, b: seq<bool>)
    requires Sound(m) && m.mode == TABLE && Step(m, b).Go?
    ensures Sound(Step(m, b).m) && Step(m, b).used <= |b|
  {
    hide Accepted, Kraft, Pow2, Peek;
    Powers();
    PeekBound(b, 5);
    PeekBound(b[5..], 5);
    PeekBound(b[10..], 4);
  }

  lemma LenLensSound(m: Machine, b: seq<bool>)
    requires Sound(m) && m.mode == LENLENS && Step(m, b).Go?
    ensures Sound(Step(m, b).m) && Step(m, b).used <= |b|
  {
    hide Accepted, Kraft, Pow2, Peek, Order, Fits;
    Powers();
    if m.have < m.ncode {
      PeekBound(b, 3);
    } else {
      FitsAccepted(CODES, m.clens, CODEBITS);
    }
  }

  lemma FitsAccepted(ty: CodeType, lens: Lengths, bits: nat)
    ensures Fits(ty, lens, bits) ==> Accepted(ty, lens)
  {
  }

  lemma LenSound(m: Machine, b: seq<bool>)
    requires Sound(m) && m.mode == LEN && Step(m, b).Go?
    ensures Sound(Step(m, b).m) && Step(m, b).used <= |b|
  {
    hide Accepted, Kraft, Pow2, AfterLen, CodeBits;
    if Decode(m.llens, b).Symbol? {
      SymbolLength(m.llens, b);
      AfterLenSound(m, Decode(m.llens, b).s);
    }
  }

  lemma DistSound(m: Machine, b: seq<bool>)
    requires Sound(m) && m.mode == DIST && Step(m, b).Go?
    ensures Sound(Step(m, b).m) && Step(m, b).used <= |b|
  {
    hide Accepted, Kraft, Pow2, AfterDist, CodeBits;
    if Decode(m.dlens, b).Symbol? {
      SymbolLength(m.dlens, b);
      AfterDistSound(m, Decode(m.dlens, b).s);
    }
  }

  lemma ExtSound(m: Machine, b: seq<bool>)
    requires Sound(m) && m.mode in {LENEXT, DISTEXT} && Step(m, b).Go?
    ensures Sound(Step(m, b).m) && Step(m, b).used <= |b|
  {
    hide Accepted, Kraft, Pow2, Peek;
    PeekBound(b, m.extra);
  }

  lemma CopySound(m: Machine, b: seq<bool>)
    requires Sound(m) && m.mode in {COPY, MATCH, LIT} && Step(m, b).Go?
    ensures Sound(Step(m, b).m) && Step(m, b).used <= |b|
  {
    hide Accepted, Kraft, Pow2, Peek;
  }

  // ---------- independence of later input ----------

  lemma PeekMore(b: seq<bool>, more: seq<bool>, i: nat, n: nat)
    requires i + n <= |b|
    ensures Peek((b + more)[i..], n) == Peek(b[i..], n)
  {
    assert (b + more)[i..][..n] == b[i..][..n];
  }

  lemma PeekMore0(b: seq<bool>, more: seq<bool>, n: nat)
    requires n <= |b|
    ensures Peek(b + more, n) == Peek(b, n)
  {
    assert (b + more)[..n] == b[..n];
  }

  /** A conclusion of the symbol decoder stands whatever follows. */
  lemma DecodeStable(ty: CodeType, lens: Lengths, b: seq<bool>, more: seq<bool>)
    requires Accepted(ty, lens) && !Decode(lens, b).NeedMore?
    ensures Decode(lens, b + more) == Decode(lens, b)
  {
    AcceptedKraft(ty, lens);
    if Decode(lens, b).Symbol? {
      DecodeMonotone(lens, b, more);
    } else if exists s :: Starts(lens, s, b + more) {
      var s :| Starts(lens, s, b + more);
      LongestUsed(lens);
      assert CodeBits(lens, s) <= b;
      assert Starts(lens, s, b);
    }
  }

  lemma CodeLensMore(m: Machine, b: seq<bool>, more: seq<bool>)
    requires Sound(m) && m.mode == CODELENS && Step(m, b).Go?
    ensures Step(m, b + more) == Step(m, b)
  {
    hide Decode, Accepted, Kraft, Pow2, AddLengths, Peek, Usable;
    if |m.lens| < m.nlen + m.ndist {
      DecodeStable(CODES, m.clens, b, more);
      var d := Decode(m.clens, b);
      if d.Symbol? && d.s >= 16 {
        SymbolLength(m.clens, b);
        var n := if d.s == 16 then 2 else if d.s == 17 then 3 else 7;
        PeekMore(b, more, m.clens[d.s], n);
      }
    }
  }

  lemma StoredMore(m: Machine, b: seq<bool>, more: seq<bool>)
    requires m.mode == STORED && Step(m, b).Go? && |more| % 8 == 0
    ensures Step(m, b + more) == Step(m, b)
  {
    hide Peek;
    assert Skip(b + more) == Skip(b);
    if Skip(b) == 0 {
      PeekMore0(b, more, 16);
      PeekMore(b, more, 16, 16);
    }
  }

  lemma TableMore(m: Machine, b: seq<bool>, more: seq<bool>)
    requires m.mode == TABLE && Step(m, b).Go?
    ensures Step(m, b + more) == Step(m, b)
  {
    hide Peek;
    PeekMore0(b, more, 5);
    PeekMore(b, more, 5, 5);
    PeekMore(b, more, 10, 4);
  }

  lemma TypeMore(m: Machine, b: seq<bool>, more: seq<bool>)
    requires m.mode == TYPE && Step(m, b).Go? && |more| % 8 == 0
    ensures Step(m, b + more) == Step(m, b)
  {
    hide Peek, FixedLengths, FixedDists;
    if !m.last {
      PeekMore(b, more, 1, 2);
    } else {
      assert Skip(b + more) == Skip(b);
    }
  }

  /** A step that is possible stays the same when whole bytes are added. */
  lemma StepMore(m: Machine, b: seq<bool>, more: seq<bool>)
    requires Sound(m) && Step(m, b).Go? && |more| % 8 == 0
    ensures Step(m, b + more) == Step(m, b)
  {
    hide Decode, Accepted, Kraft, Pow2, Peek, AfterLen, AfterDist, Usable, StepTable, StepStored, StepType, StepCodeLens;
    match m.mode
    case TYPE => TypeMore(m, b, more);
    case STORED => StoredMore(m, b, more);
    case TABLE => TableMore(m, b, more);
    case LENLENS => if m.have < m.ncode { PeekMore0(b, more, 3); }
    case CODELENS => CodeLensMore(m, b, more);
    case LEN => DecodeStable(LENS, m.llens, b, more);
    case DIST => DecodeStable(DISTS, m.dlens, b, more);
    case LENEXT => PeekMore0(b, more, m.extra);
    case DISTEXT => PeekMore0(b, more, m.extra);
    case COPY => if m.length > 0 { PeekMore0(b, more, 8); }
    case MATCH =>
    case LIT =>
    case DONE =>
    case BAD =>
  }

  lemma {:induction false} RunsMore(m: Machine, b: seq<bool>, m': Machine, b': seq<bool>, n: nat, more: seq<bool>)
    requires Sound(m) && Runs(m, b, m', b', n) && |more| % 8 == 0
    ensures Sound(m') && Runs(m, b + more, m', b' + more, n)
    decreases n
  {
    hide Step, Sound;
    if n > 0 {
      var o := Step(m, b);
      SoundStep(m, b);
      StepMore(m, b, more);
      assert (b + more)[o.used..] == b[o.used..] + more;
      RunsMore(o.m, b[o.used..], m', b', n - 1, more);
    }
  }

  lemma {:induction false} RunsDeterministic(m: Machine, b: seq<bool>, m1: Machine, b1: seq<bool>, n1: nat,
                                             m2: Machine, b2: seq<bool>, n2: nat)
    requires Runs(m, b, m1, b1, n1) && Runs(m, b, m2, b2, n2) && n1 <= n2
    ensures Runs(m1, b1, m2, b2, n2 - n1)
    decreases n1
  {
    hide Step;
    if n1 > 0 {
      var o := Step(m, b);
      RunsDeterministic(o.m, b[o.used..], m1, b1, n1 - 1, m2, b2, n2 - 1);
    }
  }

  lemma {:induction false} OutGrows(m: Machine, b: seq<bool>, m': Machine, b': seq<bool>, n: nat)
    requires Runs(m, b, m', b', n)
    ensures m.out <= m'.out
    decreases n
  {
    hide Step;
    if n > 0 {
      StepGrows(m, b);
      OutGrows(Step(m, b).m, b[Step(m, b).used..], m', b', n - 1);
    }
  }

  lemma StepGrows(m: Machine, b: seq<bool>)
    requires Step(m, b).Go?
    ensures m.out <= Step(m, b).m.out
  {
    hide Decode, Fits, Usable, Peek;
  }

  /** Finished or failed: nothing can change any more. */
  predicate Halted(m: Machine) { m.mode == DONE || m.mode == BAD }

  /** Two runs over the same stream, one of which has seen more of it: the output
      of the run with less input or fewer steps is a prefix of the other's, and
      when both have halted they agree on everything. */
  lemma RunsAgree(m: Machine, b: seq<bool>, more: seq<bool>, m1: Machine, b1: seq<bool>, m2: Machine, b2: seq<bool>)
    requires Sound(m) && |more| % 8 == 0
    requires Reaches(m, b, m1, b1) && Reaches(m, b + more, m2, b2)
    ensures m1.out <= m2.out || m2.out <= m1.out
    ensures Halted(m1) ==> m2.out <= m1.out
    ensures Halted(m2) ==> m1.out <= m2.out
    ensures Halted(m1) && Halted(m2) ==> m1 == m2 && b2 == b1 + more
  {
    hide Sound, Runs, Step;
    var n1: nat :| Runs(m, b, m1, b1, n1);
    var n2: nat :| Runs(m, b + more, m2, b2, n2);
    RunsAgreeAt(m, b, more, m1, b1, n1, m2, b2, n2);
  }

  lemma HaltedStays(m: Machine, b: seq<bool>, m': Machine, b': seq<bool>, n: nat)
    requires Halted(m) && Runs(m, b, m', b', n)
    ensures m' == m && b' == b
  {
    assert Step(m, b) == Stuck;
  }

  lemma RunsAgreeAt(m: Machine, b: seq<bool>, more: seq<bool>, m1: Machine, b1: seq<bool>, n1: nat,
                    m2: Machine, b2: seq<bool>, n2: nat)
    requires Sound(m) && |more| % 8 == 0
    requires Runs(m, b, m1, b1, n1) && Runs(m, b + more, m2, b2, n2)
    ensures n1 <= n2 ==> m1.out <= m2.out && (Halted(m1) ==> m2 == m1 && b2 == b1 + more)
    ensures n2 < n1 ==> m2.out <= m1.out && (Halted(m2) ==> m2 == m1 && b2 == b1 + more)
  {
    hide Sound, Runs, Step;
    RunsMore(m, b, m1, b1, n1, more);
    if n1 <= n2 {
      RunsDeterministic(m, b + more, m1, b1 + more, n1, m2, b2, n2);
      OutGrows(m1, b1 + more, m2, b2, n2 - n1);
      if Halted(m1) { HaltedStays(m1, b1 + more, m2, b2, n2 - n1); }
    } else {
      RunsDeterministic(m, b + more, m2, b2, n2, m1, b1 + more, n1);
      OutGrows(m2, b2, m1, b1 + more, n1 - n2);
      if Halted(m2) { HaltedStays(m2, b2, m1, b1 + more, n1 - n2); }
    }
  }
}
