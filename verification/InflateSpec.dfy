/** The block decoder of inflate() as a machine over the stream of remaining
    bits and the unbounded output, without buffers: one step is one complete
    pass through a case of the state machine in deps/zlib/inflate.c, for raw
    streams and a 32K window. */
module InflateSpec {
  import opened Bits
  import opened HuffmanCode
  import opened CodeOrder
  import opened TableTheory
  import opened InflateTable
  import opened Tokens

  datatype Mode = TYPE | STORED | COPY | TABLE | LENLENS | CODELENS | LEN | LENEXT | DIST | DISTEXT
                | MATCH | LIT | DONE | BAD

  datatype Machine = Machine(
    mode: Mode,
    last: bool,
    out: seq<byte>,      // everything decoded so far
    length: nat,         // literal, match length, or bytes left in a stored block
    offset: nat,         // match distance
    extra: nat,          // extra bits needed
    nlen: nat, ndist: nat, ncode: nat,
    have: nat,           // code length code lengths read so far
    clens: Lengths,      // lengths of the code length code
    lens: seq<nat>,      // code lengths read so far
    llens: Lengths, dlens: Lengths)  // the codes in use

  /** The order in which the lengths of the code length code are sent. */
  function Order(i: nat): (r: nat)
    ensures r < 19
  {
    match i
    case 0 => 16 case 1 => 17 case 2 => 18 case 3 => 0 case 4 => 8 case 5 => 7 case 6 => 9 case 7 => 6
    case 8 => 10 case 9 => 5 case 10 => 11 case 11 => 4 case 12 => 12 case 13 => 3 case 14 => 13
    case 15 => 2 case 16 => 14 case 17 => 1 case _ => 15
  }

  function Zeros(n: nat): (z: seq<nat>)
    ensures |z| == n && forall i :: 0 <= i < n ==> z[i] == 0
  {
    seq(n, i => 0)
  }

  function Repeat(x: nat, n: nat): (z: seq<nat>)
    ensures |z| == n && forall i :: 0 <= i < n ==> z[i] == x
  {
    seq(n, i => x)
  }

  /** The lengths of the fixed literal/length code. */
  function FixedLengths(): (r: Lengths)
    ensures |r| == 288 && InRange(r)
  {
    Repeat(8, 144) + Repeat(9, 112) + Repeat(7, 24) + Repeat(8, 8)
  }

  function FixedDists(): (r: Lengths)
    ensures |r| == 32 && InRange(r)
  {
    Repeat(5, 32)
  }

  const LENBITS: nat := 9
  const DISTBITS: nat := 6
  const CODEBITS: nat := 7

  datatype Outcome = Stuck | Go(m: Machine, used: nat)

  /** The low n bits ahead. */
  function Peek(b: seq<bool>, n: nat): nat
    requires n <= |b|
  {
    FromBits(b[..n])
  }

  /** Bits to skip to reach a byte boundary of the stream. */
  function Skip(b: seq<bool>): nat { |b| % 8 }

  function Start(): Machine
  {
    Machine(TYPE, false, [], 0, 0, 0, 0, 0, 0, 0, Zeros(19), [], [], [])
  }

  /** States from which the lengths in use are known to be decodable. */
  predicate Sound(m: Machine)
  {
    && |m.clens| == 19 && InRange(m.clens) && InRange(m.lens) && m.have <= 19
    && (m.mode == LENLENS || m.mode == CODELENS ==>
          forall i :: 0 <= i < 19 ==> m.clens[i] <= CODEBITS)
    && (m.mode == LENLENS ==> 4 <= m.ncode <= 19 && 257 <= m.nlen <= 286 && 1 <= m.ndist <= 30 && m.have <= m.ncode)
    && (m.mode == CODELENS ==> Accepted(CODES, m.clens) && 257 <= m.nlen <= 286 && 1 <= m.ndist <= 30 &&
                               |m.lens| <= m.nlen + m.ndist)
    && (m.mode in {LEN, LENEXT, DIST, DISTEXT, MATCH, LIT} ==>
          && |m.llens| <= 288 && InRange(m.llens) && Accepted(LENS, m.llens) && Kraft(m.llens) <= Pow2(MAXBITS)
          && |m.dlens| <= 32 && InRange(m.dlens) && Accepted(DISTS, m.dlens) && Kraft(m.dlens) <= Pow2(MAXBITS))
    && (m.mode == LENEXT ==> MIN_MATCH <= m.length && m.extra <= 5 && m.length + Pow2(m.extra) <= MAX_MATCH + 1)
    && (m.mode in {DIST, DISTEXT} ==> MIN_MATCH <= m.length <= MAX_MATCH)
    && (m.mode == MATCH ==> 1 <= m.length <= MAX_MATCH)
    && (m.mode == DISTEXT ==> m.extra <= 13 && 1 <= m.offset && m.offset + Pow2(m.extra) <= WSIZE + 1)
    && (m.mode == MATCH ==> 1 <= m.offset <= WSIZE)
    && (m.mode == LIT ==> m.length < 256)
    && (m.mode == COPY ==> m.length < 0x10000)
  }

  ghost function Step(m: Machine, b: seq<bool>): Outcome
  {
    match m.mode
    case TYPE => StepType(m, b)
    case STORED => StepStored(m, b)
    case COPY => StepCopy(m, b)
    case TABLE => StepTable(m, b)
    case LENLENS => StepLenLens(m, b)
    case CODELENS => StepCodeLens(m, b)
    case LEN => StepLen(m, b)
    case LENEXT =>
      if |b| < m.extra then Stuck
      else Go(m.(mode := DIST, length := m.length + Peek(b, m.extra)), m.extra)
    case DIST => StepDist(m, b)
    case DISTEXT =>
      if |b| < m.extra then Stuck
      else Go(m.(mode := MATCH, offset := m.offset + Peek(b, m.extra)), m.extra)
    case MATCH => StepMatch(m)
    case LIT => Go(m.(mode := LEN, out := m.out + [(m.length % 256) as byte]), 0)
    case DONE => Stuck
    case BAD => Stuck
  }

  function StepType(m: Machine, b: seq<bool>): Outcome
  {
    if m.last then Go(m.(mode := DONE), Skip(b))
    else if |b| < 3 then Stuck
    else
      var m' := m.(last := b[0]);
      match Peek(b[1..], 2)
      case 0 => Go(m'.(mode := STORED), 3)
      case 1 => Go(m'.(mode := LEN, llens := FixedLengths(), dlens := FixedDists()), 3)
      case 2 => Go(m'.(mode := TABLE), 3)
      case _ => Go(m'.(mode := BAD), 3)
  }

  /** Going to a byte boundary is a step of its own, since inflate() may run out
      of input right after it. */
  function StepStored(m: Machine, b: seq<bool>): Outcome
  {
    if Skip(b) != 0 then Go(m, Skip(b))
    else if |b| < 32 then Stuck
    else
      var lo, hi := Peek(b, 16), Peek(b[16..], 16);
      if lo != 0xFFFF - hi then Go(m.(mode := BAD), 32)
      else Go(m.(mode := COPY, length := lo), 32)
  }

  function StepCopy(m: Machine, b: seq<bool>): Outcome
  {
    if m.length == 0 then Go(m.(mode := TYPE), 0)
    else if |b| < 8 then Stuck
    else Go(m.(length := m.length - 1, out := m.out + [(Peek(b, 8) % 256) as byte]), 8)
  }

  function StepTable(m: Machine, b: seq<bool>): Outcome
  {
    if |b| < 14 then Stuck
    else
      var nlen, ndist, ncode := Peek(b, 5) + 257, Peek(b[5..], 5) + 1, Peek(b[10..], 4) + 4;
      if nlen > 286 || ndist > 30 then Go(m.(mode := BAD), 14)
      else Go(m.(mode := LENLENS, nlen := nlen, ndist := ndist, ncode := ncode, have := 0, clens := Zeros(19)), 14)
  }

  ghost function StepLenLens(m: Machine, b: seq<bool>): Outcome
  {
    if m.have < m.ncode then
      if |b| < 3 || |m.clens| != 19 then Stuck
      else Go(m.(clens := m.clens[Order(m.have) := Peek(b, 3)], have := m.have + 1), 3)
    else if Fits(CODES, m.clens, CODEBITS) then Go(m.(mode := CODELENS, lens := []), 0)
    else Go(m.(mode := BAD), 0)
  }

  /** Append n copies of x unless that is too many. */
  function AddLengths(m: Machine, x: nat, n: nat): Machine
  {
    if |m.lens| + n > m.nlen + m.ndist then m.(mode := BAD) else m.(lens := m.lens + Repeat(x, n))
  }

  /** The pair of code length sets is usable. */
  ghost predicate Usable(lens: seq<nat>, nlen: nat)
    requires nlen <= |lens|
  {
    nlen > 256 && lens[256] != 0 && Fits(LENS, lens[..nlen], LENBITS) && Fits(DISTS, lens[nlen..], DISTBITS)
  }

  ghost function StepCodeLens(m: Machine, b: seq<bool>): Outcome
  {
    if |m.lens| >= m.nlen + m.ndist then
      if Usable(m.lens, m.nlen) then Go(m.(mode := LEN, llens := m.lens[..m.nlen], dlens := m.lens[m.nlen..]), 0)
      else Go(m.(mode := BAD), 0)
    else
      match Decode(m.clens, b)
      case NeedMore => Stuck
      case Invalid => Go(AddLengths(m, 0, 1), 1)
      case Symbol(s) =>
        var l := m.clens[s];
        if s < 16 then Go(AddLengths(m, s, 1), l)
        else
          var n := if s == 16 then 2 else if s == 17 then 3 else 7;
          if |b| < l + n then Stuck
          else
            var v := Peek(b[l..], n);
            if s == 16 then
              if m.lens == [] then Go(m.(mode := BAD), l + n)
              else Go(AddLengths(m, m.lens[|m.lens| - 1], 3 + v), l + n)
            else if s == 17 then Go(AddLengths(m, 0, 3 + v), l + n)
            else Go(AddLengths(m, 0, 11 + v), l + n)
  }

  ghost function StepLen(m: Machine, b: seq<bool>): Outcome
  {
    match Decode(m.llens, b)
    case NeedMore => Stuck
    case Invalid => Go(m.(mode := BAD), 1)
    case Symbol(s) =>
      if s >= 288 then Stuck
      else
        var m' := AfterLen(m, Op(LENS, s), Val(LENS, s));
        Go(m', m.llens[s])
  }

  function AfterLen(m: Machine, op: nat, val: nat): Machine
  {
    var m' := m.(length := val);
    if op == 0 then m'.(mode := LIT)
    else if op / 32 % 2 == 1 then m'.(mode := TYPE)
    else if op / 64 % 2 == 1 then m'.(mode := BAD)
    else m'.(mode := LENEXT, extra := op % 16)
  }

  ghost function StepDist(m: Machine, b: seq<bool>): Outcome
  {
    match Decode(m.dlens, b)
    case NeedMore => Stuck
    case Invalid => Go(m.(mode := BAD), 1)
    case Symbol(s) =>
      if s >= 32 then Stuck
      else Go(AfterDist(m, Op(DISTS, s), Val(DISTS, s)), m.dlens[s])
  }

  function AfterDist(m: Machine, op: nat, val: nat): Machine
  {
    if op / 64 % 2 == 1 then m.(mode := BAD)
    else m.(mode := DISTEXT, offset := val, extra := op % 16)
  }

  function StepMatch(m: Machine): Outcome
  {
    if m.length == 0 || m.offset == 0 then Stuck
    else if m.offset > |m.out| then Go(m.(mode := BAD), 0)
    else
      var m' := m.(length := m.length - 1, out := m.out + [m.out[|m.out| - m.offset]]);
      Go(if m'.length == 0 then m'.(mode := LEN) else m', 0)
  }

  // ---------- runs ----------

  /** n steps lead from state m with bits b ahead to m' with b' ahead. */
  ghost predicate Runs(m: Machine, b: seq<bool>, m': Machine, b': seq<bool>, n: nat)
    decreases n
  {
    if n == 0 then m == m' && b == b'
    else
      var o := Step(m, b);
      o.Go? && o.used <= |b| && Runs(o.m, b[o.used..], m', b', n - 1)
  }

  ghost predicate Reaches(m: Machine, b: seq<bool>, m': Machine, b': seq<bool>)
  {
    exists n: nat :: Runs(m, b, m', b', n)
  }

  lemma {:induction false} RunsConcat(m: Machine, b: seq<bool>, m1: Machine, b1: seq<bool>, n1: nat,
                                      m2: Machine, b2: seq<bool>, n2: nat)
    requires Runs(m, b, m1, b1, n1) && Runs(m1, b1, m2, b2, n2)
    ensures Runs(m, b, m2, b2, n1 + n2)
    decreases n1
  {
    hide Step;
    if n1 > 0 {
      var o := Step(m, b);
      RunsConcat(o.m, b[o.used..], m1, b1, n1 - 1, m2, b2, n2);
    }
  }

  lemma ReachesTrans(m: Machine, b: seq<bool>, m1: Machine, b1: seq<bool>, m2: Machine, b2: seq<bool>)
    requires Reaches(m, b, m1, b1) && Reaches(m1, b1, m2, b2)
    ensures Reaches(m, b, m2, b2)
  {
    hide Runs, Step;
    var n1: nat :| Runs(m, b, m1, b1, n1);
    var n2: nat :| Runs(m1, b1, m2, b2, n2);
    RunsConcat(m, b, m1, b1, n1, m2, b2, n2);
  }

  lemma ReachesSelf(m: Machine, b: seq<bool>)
    ensures Reaches(m, b, m, b)
  {
    assert Runs(m, b, m, b, 0);
  }

  lemma ReachesStep(m: Machine, b: seq<bool>)
    requires Step(m, b).Go? && Step(m, b).used <= |b|
    ensures Reaches(m, b, Step(m, b).m, b[Step(m, b).used..])
  {
    hide Step;
    assert Runs(m, b, Step(m, b).m, b[Step(m, b).used..], 1);
  }
}
