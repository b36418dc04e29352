/** inflate_fast() of deps/zlib/inffast.c entered with a whole byte or more in
    the accumulator: in a call that resumes within a symbol, where the call
    before it ran out of input. */
module FastEntry {
  import opened Bits
  import opened HuffmanCode
  import opened InflateSpec
  import opened InflateProps
  import opened Tokens
  import opened Demand
  import opened BlockFormat
  import opened InflateState
  import opened InflateHistory
  import opened Inflate

  /** The header of a last block with the fixed codes, five literals of nine
      bits, and eight bits of a sixth. */
  function CutShort(): (r: seq<byte>)
    ensures |r| == 7
  {
    [251, 255, 255, 255, 255, 255, 255]
  }

  function Trues(n: nat): (r: seq<bool>)
    ensures |r| == n && forall i :: 0 <= i < n ==> r[i]
  {
    seq(n, i => true)
  }

  lemma {:induction false} Ones(n: nat)
    ensures ToBits(Pow2(n) - 1, n) == Trues(n) && Rev(Pow2(n) - 1, n) == Pow2(n) - 1
  {
    if n > 0 {
      Ones(n - 1);
      ShlOne(n - 1);
      assert (Pow2(n) - 1) / 2 == Pow2(n - 1) - 1 && (Pow2(n) - 1) % 2 == 1;
    }
  }

  lemma FirstByte()
    ensures ToBits(251, 8) == HeaderBits(STATIC_TREES, true) + Trues(5)
  {
    hide Shr;
    Ones(5);
    Pow2Values();
    ToSplit(251, 3, 5);
    assert Shr(251, 3) == 31 by { EighthOf251(); }
  }

  lemma EighthOf251()
    ensures Shr(251, 3) == 31
  {
  }

  lemma CutShortBits()
    ensures BytesBits(CutShort()) == HeaderBits(STATIC_TREES, true) + Trues(53)
  {
    hide ToBits, HeaderBits;
    var ones: seq<byte> := [255, 255, 255, 255, 255, 255];
    assert CutShort() == [251] + ones && CutShort()[1..] == ones;
    OnesBits(ones);
    FirstByte();
    assert Trues(5) + Trues(48) == Trues(53);
    assert BytesBits(CutShort()) == ToBits(251, 8) + BytesBits(ones);
  }

  lemma {:induction false} OnesBits(s: seq<byte>)
    requires forall i :: 0 <= i < |s| ==> s[i] == 255
    ensures BytesBits(s) == Trues(8 * |s|)
  {
    hide ToBits;
    if s != [] {
      OnesBits(s[1..]);
      Ones(8);
      Pow2Values();
    }
  }

  /** The last literal of the fixed code is sent as nine ones. */
  lemma LastLiteral()
    ensures Used(FixedLengths(), 255) && CodeBits(FixedLengths(), 255) == Trues(9)
  {
    hide FixedLengths, Total, Count;
    var f := FixedLengths();
    Nines();
    forall l: nat
      ensures Total(f, l) == if l == 7 then 24 else if l == 8 then 152 else if l == 9 then 112 else 0
    {
      FixedTotals(l);
    }
    assert FirstCode(f, 7) == 0;
    assert FirstCode(f, 8) == 48;
    assert FirstCode(f, 9) == 400;
    Ones(9);
    Pow2Values();
  }

  lemma Nines()
    ensures FixedLengths()[255] == 9 && Count(FixedLengths(), 255, 9) == 111
  {
    hide Count;
    CountNone(FixedLengths());
    CountRun(FixedLengths(), 0, 144, 8, 9);
    CountRun(FixedLengths(), 144, 255, 9, 9);
  }

  /** Eight ones are not yet a symbol. */
  lemma EightOnes()
    ensures Decode(FixedLengths(), Trues(8)) == NeedMore
  {
    hide FixedLengths, CodeBits;
    var f := FixedLengths();
    FixedComplete();
    LastLiteral();
    forall s | Starts(f, s, Trues(8))
      ensures false
    {
      assert Trues(9) == Trues(8) + [true];
      PrefixFree(f, s, 255, Trues(9));
    }
  }

  lemma {:induction false} RunOnes(m: Machine, n: nat, rest: seq<bool>) returns (m': Machine)
    requires Sound(m) && m.mode == LEN && m.llens == FixedLengths()
    ensures Reaches(m, Trues(9 * n) + rest, m', rest)
    ensures Sound(m') && m'.mode == LEN && m'.llens == FixedLengths() && |m'.out| == |m.out| + n
    decreases n
  {
    hide Reaches, Sound, FixedLengths, CodeBits;
    if n == 0 {
      m' := m;
      assert Trues(0) + rest == rest;
      ReachesSelf(m, rest);
    } else {
      var more := Trues(9 * (n - 1)) + rest;
      LastLiteral();
      var m1 := RunLiteral(m, 255, more);
      m' := RunOnes(m1, n - 1, rest);
      assert Trues(9 * n) + rest == Trues(9) + more;
      ReachesTrans(m, Trues(9 * n) + rest, m1, more, m', rest);
    }
  }

  /** Where a decoder is that has made all it can of these bytes. */
  lemma CutShortRun() returns (m: Machine)
    ensures Reaches(InflateSpec.Start(), BytesBits(CutShort()), m, Trues(8))
    ensures m.mode == LEN && |m.out| == 5 && Step(m, Trues(8)) == Stuck
  {
    hide Reaches, Sound, FixedLengths, HeaderBits, BytesBits, Decode;
    var m0 := InflateSpec.Start();
    var b := HeaderBits(STATIC_TREES, true) + Trues(53);
    CutShortBits();
    StartSound();
    HeaderStep(m0, STATIC_TREES, true, Trues(53));
    SoundStep(m0, b);
    ReachesStep(m0, b);
    var m1 := Step(m0, b).m;
    assert Trues(45) + Trues(8) == Trues(53);
    m := RunOnes(m1, 5, Trues(8));
    ReachesTrans(m0, b, m1, Trues(53), m, Trues(8));
    EightOnes();
  }

  /** A run over less of the input comes before the point where a run is stuck. */
  lemma BeforeStuck(fed: seq<byte>, more: seq<byte>, m1: Machine, p1: seq<bool>, m2: Machine, b2: seq<bool>)
    requires Fed(fed, m1, p1) && Reaches(InflateSpec.Start(), BytesBits(fed + more), m2, b2) && Step(m2, b2) == Stuck
    ensures m1.out <= m2.out && (Halted(m1) ==> m1 == m2)
  {
    hide Step, BytesBits, Runs;
    var b1 :| Reaches(InflateSpec.Start(), BytesBits(fed), m1, b1) && (m1.mode == BAD || b1 == p1);
    StartSound();
    BytesBitsConcat(fed, more);
    var b, x := BytesBits(fed), BytesBits(more);
    var n1: nat :| Runs(InflateSpec.Start(), b, m1, b1, n1);
    var n2: nat :| Runs(InflateSpec.Start(), b + x, m2, b2, n2);
    RunsAgreeAt(InflateSpec.Start(), b, x, m1, b1, n1, m2, b2, n2);
    if n2 < n1 {
      RunsMore(InflateSpec.Start(), b, m1, b1, n1, x);
      RunsDeterministic(InflateSpec.Start(), b + x, m2, b2, n2, m1, b1 + x, n1);
      StuckStays(m2, b2, m1, b1 + x, n1 - n2);
    }
  }

  lemma StuckStays(m: Machine, b: seq<bool>, m': Machine, b': seq<bool>, n: nat)
    requires Step(m, b) == Stuck && Runs(m, b, m', b', n)
    ensures m' == m
  {
    hide Step;
  }

  /** What one call with these bytes and room for more than five leaves behind. */
  lemma CutShortEnds(used: nat, m: Machine, p: seq<bool>)
    requires used <= 7 && Fed(CutShort()[..used], m, p)
    requires Halted(m) || (used == 7 && Step(m, p) == Stuck) || |m.out| > 5
    ensures m.mode == LEN && p == Trues(8)
  {
    hide Step, BytesBits, Reaches;
    var m2 := CutShortRun();
    var fed, more := CutShort()[..used], CutShort()[used..];
    assert fed + more == CutShort();
    BeforeStuck(fed, more, m, p, m2, Trues(8));
    if used == 7 && Step(m, p) == Stuck {
      assert fed == CutShort();
      assert Fed(fed, m2, Trues(8));
      SameInput(fed, m, p, m2, Trues(8));
    }
  }

  /** A decoder that a call has left with eight bits held before a symbol: if the
      next one has the input and the room for it, it enters inflate_fast() with
      all of them. */
  method WholeByteHeld() returns (d: InflateStream)
    ensures fresh(d) && d.Idle() && d.fed == CutShort() && d.mode == LEN && d.bits == 8
  {
    hide InflateStream.Idle, InflateStream.St, Step, Pend, Fed;
    d := new InflateStream();
    var ret, out, used, held := d.Inflate(CutShort(), 6);
    d.History();
    assert d.fed == CutShort()[..used];
    CutShortEnds(used, d.m, Pend(d.St()));
  }
}
