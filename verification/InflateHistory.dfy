/** What a decoder has become after all the input it was ever given: the whole
    history of calls is one run of the abstract decoder. */
module InflateHistory {
  import opened Bits
  import opened InflateSpec
  import opened InflateProps
  import opened Demand
  import opened InflateState

  /** The bytes fed, and nothing else, lead from the start to m with p at hand. */
  ghost predicate Fed(fed: seq<byte>, m: Machine, p: seq<bool>)
  {
    exists b :: Reaches(Start(), BytesBits(fed), m, b) && (m.mode == BAD || b == p)
  }

  lemma StartSound()
    ensures Sound(Start())
  {
  }

  lemma FedStart()
    ensures Fed([], Start(), [])
  {
    hide Reaches;
    ReachesSelf(Start(), []);
    assert Reaches(Start(), BytesBits([]), Start(), []);
  }

  /** A run over some bytes goes on when more follow. */
  lemma ReachesMore(m: Machine, b: seq<bool>, m': Machine, b': seq<bool>, more: seq<bool>)
    requires Sound(m) && Reaches(m, b, m', b') && |more| % 8 == 0
    ensures Reaches(m, b + more, m', b' + more)
  {
    hide Sound, Runs;
    var n: nat :| Runs(m, b, m', b', n);
    RunsMore(m, b, m', b', n, more);
  }

  /** A run that leaves some bytes alone does not need them. */
  lemma ReachesLess(m: Machine, b: seq<bool>, m': Machine, b': seq<bool>, more: seq<bool>)
    requires Sound(m) && Reaches(m, b + more, m', b' + more) && |more| % 8 == 0
    ensures Reaches(m, b, m', b')
  {
    hide Sound, Runs;
    var n: nat :| Runs(m, b + more, m', b' + more, n);
    RunsLess(m, b, m', b', n, more);
  }

  /** One call: s is the state after the input has been handed over, s' the state
      at the end, which has consumed n bytes of it. */
  lemma FedMoves(fed: seq<byte>, s: State, s': State)
    requires Fed(fed, s.m, Pend(s)) && s.next == 0 && s.mode == s.m.mode && s.mode != BAD
    requires Moves(s, s') && s'.next <= |s.input| && s'.mode == s'.m.mode
    ensures Fed(fed + s.input[..s'.next], s'.m, Pend(s'))
  {
    hide Reaches, BytesBits, ToBits;
    var n, inp := s'.next, s.input;
    var more, rest := BytesBits(inp), BytesBits(inp[n..]);
    StartSound();
    assert inp[0..] == inp && inp[..n] + inp[n..] == inp;
    ReachesMore(Start(), BytesBits(fed), s.m, Pend(s), more);
    var p :| Reaches(s.m, Ahead(s), s'.m, p + Rest(s'.input, s'.next)) && (s'.mode == BAD || p == Pend(s'));
    ReachesTrans(Start(), BytesBits(fed) + more, s.m, Pend(s) + more, s'.m, p + rest);
    BytesBitsConcat(fed, inp);
    BytesBitsConcat(fed + inp[..n], inp[n..]);
    assert fed + inp == fed + inp[..n] + inp[n..];
    ReachesLess(Start(), BytesBits(fed + inp[..n]), s'.m, p, rest);
  }

  /** Two decoders that have consumed the same input and can do nothing more
      with it are in the same state, with the same output, however input and
      output space were divided among their calls. */
  lemma SameInput(fed: seq<byte>, m1: Machine, p1: seq<bool>, m2: Machine, p2: seq<bool>)
    requires Fed(fed, m1, p1) && Fed(fed, m2, p2)
    requires Step(m1, p1) == Stuck && Step(m2, p2) == Stuck
    ensures m1 == m2 && (m1.mode != BAD ==> p1 == p2)
  {
    hide Reaches, Step, BytesBits;
    var b1 :| Reaches(Start(), BytesBits(fed), m1, b1) && (m1.mode == BAD || b1 == p1);
    var b2 :| Reaches(Start(), BytesBits(fed), m2, b2) && (m2.mode == BAD || b2 == p2);
    BadIsStuck(m1, b1);
    BadIsStuck(m2, b2);
    StuckUnique(Start(), BytesBits(fed), m1, b1, m2, b2);
  }

  /** A decoder that has finished or failed stays so whatever follows. */
  lemma FedMore(fed: seq<byte>, more: seq<byte>, m: Machine, p: seq<bool>) returns (p': seq<bool>)
    requires Fed(fed, m, p) && Halted(m)
    ensures Fed(fed + more, m, p') && Step(m, p') == Stuck
  {
    hide Reaches, Step, BytesBits;
    var b :| Reaches(Start(), BytesBits(fed), m, b) && (m.mode == BAD || b == p);
    p' := b + BytesBits(more);
    StartSound();
    BytesBitsConcat(fed, more);
    ReachesMore(Start(), BytesBits(fed), m, b, BytesBits(more));
    Halts(m, p');
  }

  lemma BadIsStuck(m: Machine, b: seq<bool>)
    ensures m.mode == BAD ==> Step(m, b) == Stuck
  {
    Halts(m, b);
  }

  lemma StuckUnique(m: Machine, b: seq<bool>, m1: Machine, b1: seq<bool>, m2: Machine, b2: seq<bool>)
    requires Reaches(m, b, m1, b1) && Reaches(m, b, m2, b2)
    requires Step(m1, b1) == Stuck && Step(m2, b2) == Stuck
    ensures m1 == m2 && b1 == b2
  {
    hide Step;
    var n1: nat :| Runs(m, b, m1, b1, n1);
    var n2: nat :| Runs(m, b, m2, b2, n2);
    if n1 <= n2 {
      RunsDeterministic(m, b, m1, b1, n1, m2, b2, n2);
    } else {
      RunsDeterministic(m, b, m2, b2, n2, m1, b1, n1);
    }
  }

  /** A decoder that has been given more is never behind, and one that has
      finished or failed is final. */
  lemma PrefixInput(fed: seq<byte>, more: seq<byte>, m1: Machine, p1: seq<bool>, m2: Machine, p2: seq<bool>)
    requires Fed(fed, m1, p1) && Fed(fed + more, m2, p2)
    ensures m1.out <= m2.out || m2.out <= m1.out
    ensures Halted(m1) ==> m2.out <= m1.out
    ensures Halted(m2) ==> m1.out <= m2.out
    ensures Halted(m1) && Halted(m2) ==> m1 == m2
  {
    hide Reaches, Step, BytesBits;
    var b1 :| Reaches(Start(), BytesBits(fed), m1, b1) && (m1.mode == BAD || b1 == p1);
    var b2 :| Reaches(Start(), BytesBits(fed + more), m2, b2) && (m2.mode == BAD || b2 == p2);
    StartSound();
    BytesBitsConcat(fed, more);
    RunsAgree(Start(), BytesBits(fed), BytesBits(more), m1, b1, m2, b2);
  }
}
