/** How many bits a step needs: the bits it uses suffice to take it, so that a
    reader who stops pulling bytes as soon as a step is possible keeps fewer
    than eight bits. */
module Demand {
  import opened Bits
  import opened HuffmanCode
  import opened TableTheory
  import opened InflateTable
  import opened Tokens
  import opened InflateSpec
  import opened InflateProps

  lemma StartsMore(lens: Lengths, s: nat, b: seq<bool>, k: nat)
    requires k <= |b|
    ensures Starts(lens, s, b[..k]) ==> Starts(lens, s, b)
  {
    hide CodeBits;
  }

  lemma DecodeEnough(ty: CodeType, lens: Lengths, b: seq<bool>, k: nat)
    requires Accepted(ty, lens) && k <= |b|
    requires match Decode(lens, b) case Symbol(s) => Used(lens, s) && lens[s] <= k case Invalid => 1 <= k case NeedMore => false
    ensures Decode(lens, b[..k]) == Decode(lens, b)
  {
    hide CodeBits, Kraft, Complete, Accepted, Used;
    AcceptedKraft(ty, lens);
    match Decode(lens, b)
    case Symbol(s) =>
      assert Starts(lens, s, b[..k]);
      DecodeIs(lens, s, b[..k]);
    case Invalid =>
      forall s: nat
        ensures !Starts(lens, s, b[..k])
      {
        StartsMore(lens, s, b, k);
      }
    case NeedMore =>
  }

  lemma CodeLensEnough(m: Machine, b: seq<bool>, k: nat)
    requires Sound(m) && m.mode == CODELENS && Step(m, b).Go? && Step(m, b).used <= k <= |b|
    ensures Step(m, b[..k]).Go?
  {
    hide Decode, Accepted, Kraft, Pow2, AddLengths, Peek, Usable;
    if |m.lens| < m.nlen + m.ndist {
      if Decode(m.clens, b).Symbol? { SymbolLength(m.clens, b); }
      DecodeEnough(CODES, m.clens, b, k);
    }
  }

  /** A step is possible with just the bits it uses, and so with any number of
      bits from there on that leaves the byte boundaries where they are. */
  lemma Enough(m: Machine, b: seq<bool>, k: nat)
    requires Sound(m) && Step(m, b).Go? && Step(m, b).used <= k <= |b| && (|b| - k) % 8 == 0
    ensures Step(m, b[..k]) == Step(m, b)
  {
    hide Sound, Step;
    EnoughGo(m, b, k);
    assert b == b[..k] + b[k..];
    StepMore(m, b[..k], b[k..]);
  }

  lemma EnoughGo(m: Machine, b: seq<bool>, k: nat)
    requires Sound(m) && Step(m, b).Go? && Step(m, b).used <= k <= |b| && (|b| - k) % 8 == 0
    ensures Step(m, b[..k]).Go?
  {
    hide Decode, Accepted, Kraft, Pow2, Peek, AfterLen, AfterDist, Usable, StepCodeLens, FixedLengths, FixedDists;
    match m.mode
    case LEN =>
      if Decode(m.llens, b).Symbol? { SymbolLength(m.llens, b); }
      DecodeEnough(LENS, m.llens, b, k);
    case DIST =>
      if Decode(m.dlens, b).Symbol? { SymbolLength(m.dlens, b); }
      DecodeEnough(DISTS, m.dlens, b, k);
    case CODELENS => CodeLensEnough(m, b, k);
    case STORED => StoredEnough(m, b, k);
    case _ =>
  }

  lemma StoredEnough(m: Machine, b: seq<bool>, k: nat)
    requires m.mode == STORED && Step(m, b).Go? && Step(m, b).used <= k <= |b| && (|b| - k) % 8 == 0
    ensures Step(m, b[..k]).Go?
  {
    hide Peek;
    assert Skip(b) == Skip(b[..k]);
  }

  /** A run that leaves the last bytes alone does not depend on them. */
  lemma {:induction false} RunsLess(m: Machine, b: seq<bool>, m': Machine, b': seq<bool>, n: nat, more: seq<bool>)
    requires Sound(m) && Runs(m, b + more, m', b' + more, n) && |more| % 8 == 0
    ensures Runs(m, b, m', b', n)
    decreases n
  {
    hide Step, Sound;
    if n == 0 {
      assert (b + more)[..|b|] == (b' + more)[..|b'|];
    } else {
      var c := b + more;
      var o := Step(m, c);
      SoundStep(m, c);
      RunsShrink(o.m, c[o.used..], m', b' + more, n - 1);
      assert c[..|b|] == b;
      Enough(m, c, |b|);
      assert c[o.used..] == b[o.used..] + more;
      RunsLess(o.m, b[o.used..], m', b', n - 1, more);
    }
  }

  lemma {:induction false} RunsShrink(m: Machine, b: seq<bool>, m': Machine, b': seq<bool>, n: nat)
    requires Runs(m, b, m', b', n)
    ensures |b'| <= |b|
    decreases n
  {
    hide Step;
    if n > 0 { RunsShrink(Step(m, b).m, b[Step(m, b).used..], m', b', n - 1); }
  }

  // ---------- reading just enough ----------

  /** Fewer than eight bits are held, or a step is not yet possible with them. */
  ghost predicate Held(m: Machine, p: seq<bool>) { |p| < 8 || Step(m, p) == Stuck }

  /** The last byte was pulled because there was not enough without it. */
  ghost predicate Tight(m: Machine, p: seq<bool>) { |p| < 8 || Step(m, p[..|p| - 8]) == Stuck }

  /** While bytes are added to the bits p, no step is possible with fewer than n bits. */
  ghost predicate Needs(m: Machine, p: seq<bool>, n: nat)
  {
    forall q {:trigger Step(m, q)} :: p <= q && |q| < n && (|q| - |p|) % 8 == 0 ==> Step(m, q) == Stuck
  }

  lemma HeldTight(m: Machine, p: seq<bool>)
    requires Sound(m) && Held(m, p)
    ensures Tight(m, p)
  {
    hide Step, Sound;
    if |p| >= 8 && Step(m, p[..|p| - 8]).Go? {
      assert p == p[..|p| - 8] + p[|p| - 8..];
      StepMore(m, p[..|p| - 8], p[|p| - 8..]);
    }
  }

  lemma PullTight(m: Machine, p: seq<bool>, q: seq<bool>)
    requires Step(m, p) == Stuck && |q| >= 8 && q[..|q| - 8] == p
    ensures Tight(m, q)
  {
  }

  /** A step from tightly held bits p, seen with all the rest of the input. */
  lemma TakeStep(m: Machine, p: seq<bool>, rest: seq<bool>)
    requires Sound(m) && Tight(m, p) && Step(m, p).Go? && |rest| % 8 == 0
    ensures var o := Step(m, p);
            && Sound(o.m) && o.used <= |p| && |p| - o.used < 8
            && Reaches(m, p + rest, o.m, p[o.used..] + rest)
  {
    hide Step, Sound, Reaches;
    var o := Step(m, p);
    SoundStep(m, p);
    StepMore(m, p, rest);
    ReachesStep(m, p + rest);
    assert (p + rest)[o.used..] == p[o.used..] + rest;
    if |p| - o.used >= 8 { Enough(m, p, |p| - 8); }
  }
}
