/** tr_static_init() of deps/zlib/trees.c: the tables that give every length and
    distance its code, and the static trees. */
module StaticTables {
  import opened Bits
  import opened HuffmanCode
  import opened TableTheory
  import opened Tokens
  import opened InflateSpec
  import opened InflateProps
  import opened GenCodes
  import opened BlockSender

  const DIST_CODE_LEN: nat := 512

  datatype Static = Static(
    lengthCode: seq<nat>, distCode: seq<nat>, baseLength: seq<nat>, baseDist: seq<nat>,
    lcodes: seq<nat>, dcodes: seq<nat>)

  /** The d_code() macro. */
  function DCode(distCode: seq<nat>, dist: nat): nat
    requires |distCode| == DIST_CODE_LEN && dist < WSIZE
  {
    if dist < 256 then distCode[dist] else distCode[256 + dist / 128]
  }

  /** The tables agree with the definitions of the codes and bases. */
  ghost predicate StaticOk(t: Static)
  {
    && |t.lengthCode| == 256 && (forall lc :: 0 <= lc < 256 ==> t.lengthCode[lc] == LengthCode(lc))
    && |t.distCode| == DIST_CODE_LEN && (forall d :: 0 <= d < WSIZE ==> DCode(t.distCode, d) == DistCode(d))
    && |t.baseLength| == LENGTH_CODES && (forall c :: 0 <= c < LENGTH_CODES - 1 ==> t.baseLength[c] == BaseLength(c))
    && |t.baseDist| == D_CODES && (forall c :: 0 <= c < D_CODES ==> t.baseDist[c] == BaseDist(c))
    && |t.lcodes| == 288 && CodesOf(t.lcodes, FixedLengths())
    && |t.dcodes| == D_CODES && CodesOf(t.dcodes, FixedDists())
  }

  // ---------- which code a value has ----------

  lemma {:induction false} LengthFromIsCode(lc: nat, code: nat, c: nat)
    requires code <= c <= LENGTH_CODES - 2 && BaseLength(c) <= lc && (c < LENGTH_CODES - 2 ==> lc < BaseLength(c + 1))
    ensures LengthFrom(lc, code) == c
    decreases c - code
  {
    hide Pow2, ExtraLBits, BaseLength;
    if code < c {
      BaseLengthMono(code + 1, c);
      LengthFromIsCode(lc, code + 1, c);
    }
  }

  lemma {:induction false} BaseLengthMono(a: nat, b: nat)
    requires a <= b <= LENGTH_CODES - 1
    ensures BaseLength(a) <= BaseLength(b)
    decreases b
  {
    hide Pow2, ExtraLBits;
    if a < b { BaseLengthMono(a, b - 1); }
  }

  lemma {:induction false} DistFromIsCode(d: nat, code: nat, c: nat)
    requires code <= c <= D_CODES - 1 && BaseDist(c) <= d && (c < D_CODES - 1 ==> d < BaseDist(c + 1))
    ensures DistFrom(d, code) == c
    decreases c - code
  {
    hide Pow2, ExtraDBits, BaseDist;
    if code < c {
      BaseDistMono(code + 1, c);
      DistFromIsCode(d, code + 1, c);
    }
  }

  lemma {:induction false} BaseDistMono(a: nat, b: nat)
    requires a <= b <= D_CODES
    ensures BaseDist(a) <= BaseDist(b)
    decreases b
  {
    hide Pow2, ExtraDBits;
    if a < b { BaseDistMono(a, b - 1); }
  }

  lemma NextBase(code: nat)
    requires code < LENGTH_CODES - 1
    ensures BaseLength(code + 1) == BaseLength(code) + Shl(1, ExtraLBits(code))
  {
    hide ExtraLBits;
    ShlOne(ExtraLBits(code));
  }

  lemma NextDist(code: nat)
    requires code < D_CODES
    ensures BaseDist(code + 1) == BaseDist(code) + Shl(1, ExtraDBits(code))
  {
    hide ExtraDBits;
    ShlOne(ExtraDBits(code));
  }

  /** All 256 lengths are covered. */
  lemma LengthEnds()
    ensures BaseLength(0) == 0 && BaseLength(LENGTH_CODES - 1) == 256
  {
    hide BaseLength, LBase;
    FirstRows();
    LengthRow(28);
  }

  /** Sixteen codes cover the first 256 distances, the others the rest. */
  lemma DistEnds()
    ensures BaseDist(0) == 0 && BaseDist(16) == 256 && BaseDist(D_CODES) == WSIZE
  {
    hide BaseDist;
    FirstRows();
    DistRow(16);
    DistRow(30);
    SixteenthBase();
  }

  lemma SixteenthBase()
    ensures DBase(16) == 257
  {
  }

  /** The lengths below n have their codes. */
  ghost predicate LengthsDone(table: seq<nat>, n: nat)
  {
    n <= |table| && forall lc :: 0 <= lc < n ==> table[lc] == LengthFrom(lc, 0)
  }

  /** Map normalized lengths to length codes. */
  method InitLengths(lengthCode: array<nat>, baseLength: array<nat>)
    requires lengthCode.Length == 256 && baseLength.Length == LENGTH_CODES && lengthCode != baseLength
    modifies lengthCode, baseLength
    ensures forall lc :: 0 <= lc < 256 ==> lengthCode[lc] == LengthCode(lc)
    ensures forall c :: 0 <= c < LENGTH_CODES - 1 ==> baseLength[c] == BaseLength(c)
  {
    hide BaseLength, LengthFrom, ExtraLBits, Shl, Pow2;
    LengthEnds();
    var length, code := 0, 0;
    while code < LENGTH_CODES - 1
      invariant code <= LENGTH_CODES - 1 && length == BaseLength(code) <= 256
      invariant LengthsDone(lengthCode[..], length)
      invariant forall c :: 0 <= c < code ==> baseLength[c] == BaseLength(c)
    {
      baseLength[code] := length;
      NextBase(code);
      BaseLengthMono(code + 1, LENGTH_CODES - 1);
      for n := 0 to Shl(1, ExtraLBits(code))
        invariant length == BaseLength(code) + n && LengthsDone(lengthCode[..], length)
        invariant forall c :: 0 <= c <= code ==> baseLength[c] == BaseLength(c)
      {
        LengthFromIsCode(length, 0, code);
        lengthCode[length] := code;
        length := length + 1;
      }
      code := code + 1;
    }
    lengthCode[length - 1] := code;
  }

  /** The table covers all distances below end. */
  ghost predicate DistsDone(table: seq<nat>, end: nat)
  {
    |table| == DIST_CODE_LEN && end <= WSIZE && forall d :: 0 <= d < end ==> DCode(table, d) == DistFrom(d, 0)
  }

  lemma DistEntry(table: seq<nat>, d: nat, c: nat)
    requires DistsDone(table, d) && d < 256 && c < D_CODES && DistFrom(d, 0) == c
    ensures DistsDone(table[d := c], d + 1)
  {
  }

  /** An entry for 128 distances. */
  lemma DistEntries(table: seq<nat>, i: nat, c: nat)
    requires 2 <= i < 256 && DistsDone(table, 128 * i) && forall d :: 128 * i <= d < 128 * i + 128 ==> DistFrom(d, 0) == c
    ensures DistsDone(table[256 + i := c], 128 * i + 128)
  {
    hide DistFrom;
    var t := table[256 + i := c];
    forall d | 0 <= d < 128 * i + 128
      ensures DCode(t, d) == DistFrom(d, 0)
    {
      assert d / 128 <= i;
    }
  }

  /** Codes from 16 on cover whole entries. */
  lemma {:induction false} WholeEntries(c: nat)
    requires 16 <= c <= D_CODES
    ensures BaseDist(c) % 128 == 0 && BaseDist(c) >= 256
    ensures c < D_CODES ==> ExtraDBits(c) >= 7 && Shl(1, ExtraDBits(c)) == 128 * Shl(1, ExtraDBits(c) - 7)
    decreases c
  {
    hide Pow2, BaseDist, Shl, ExtraDBits;
    DistEnds();
    LargeExtra(c);
    if c > 16 {
      WholeEntries(c - 1);
      NextDist(c - 1);
    }
  }

  lemma LargeExtra(c: nat)
    requires 16 <= c
    ensures ExtraDBits(c) >= 7 && Shl(1, ExtraDBits(c)) == 128 * Shl(1, ExtraDBits(c) - 7)
  {
    hide Pow2;
    ShlShl(1, ExtraDBits(c) - 7, 7);
    assert ExtraDBits(c) >= 7;
    TimesPow(Shl(1, ExtraDBits(c) - 7));
  }

  lemma TimesPow(x: nat)
    ensures Shl(x, 7) == 128 * x
  {
    assert Shl(x, 1) == 2 * x;
    assert Shl(x, 2) == 4 * x;
    assert Shl(x, 3) == 8 * x;
    assert Shl(x, 4) == 16 * x;
    assert Shl(x, 5) == 32 * x;
    assert Shl(x, 6) == 64 * x;
  }

  /** Map distances to distance codes. */
  method InitDists(distCode: array<nat>, baseDist: array<nat>)
    requires distCode.Length == DIST_CODE_LEN && baseDist.Length == D_CODES && distCode != baseDist
    modifies distCode, baseDist
    ensures forall d :: 0 <= d < WSIZE ==> DCode(distCode[..], d) == DistCode(d)
    ensures forall c :: 0 <= c < D_CODES ==> baseDist[c] == BaseDist(c)
  {
    hide BaseDist, DistFrom, ExtraDBits, Shl, Pow2, DistsDone;
    DistEnds();
    NoDists(distCode[..]);
    var dist: nat, code: nat := 0, 0;
    while code < 16
      invariant code <= 16 && dist == BaseDist(code) <= 256 && DistsDone(distCode[..], dist)
      invariant forall c :: 0 <= c < code ==> baseDist[c] == BaseDist(c)
    {
      baseDist[code] := dist;
      NextDist(code);
      BaseDistMono(code + 1, 16);
      for n := 0 to Shl(1, ExtraDBits(code))
        invariant dist == BaseDist(code) + n && DistsDone(distCode[..], dist)
        invariant forall c :: 0 <= c <= code ==> baseDist[c] == BaseDist(c)
      {
        DistFromIsCode(dist, 0, code);
        ghost var t := distCode[..];
        DistEntry(t, dist, code);
        distCode[dist] := code;
        assert distCode[..] == t[dist := code];
        dist := dist + 1;
      }
      code := code + 1;
    }
    dist := dist / 128;
    while code < D_CODES
      invariant 16 <= code <= D_CODES && 128 * dist == BaseDist(code) && DistsDone(distCode[..], 128 * dist)
      invariant forall c :: 0 <= c < code ==> baseDist[c] == BaseDist(c)
    {
      baseDist[code] := dist * 128;
      NextDist(code);
      WholeEntries(code);
      BaseDistMono(code + 1, D_CODES);
      ghost var first := dist;
      for n := 0 to Shl(1, ExtraDBits(code) - 7)
        invariant dist == first + n && DistsDone(distCode[..], 128 * dist)
        invariant forall c :: 0 <= c <= code ==> baseDist[c] == BaseDist(c)
      {
        forall d | 128 * dist <= d < 128 * dist + 128
          ensures DistFrom(d, 0) == code
        {
          DistFromIsCode(d, 0, code);
        }
        ghost var t := distCode[..];
        DistEntries(t, dist, code);
        distCode[256 + dist] := code;
        assert distCode[..] == t[256 + dist := code];
        dist := dist + 1;
      }
      code := code + 1;
    }
    AllDists(distCode[..]);
  }

  lemma NoDists(table: seq<nat>)
    requires |table| == DIST_CODE_LEN
    ensures DistsDone(table, 0)
  {
  }

  lemma AllDists(table: seq<nat>)
    requires DistsDone(table, WSIZE)
    ensures |table| == DIST_CODE_LEN && forall d :: 0 <= d < WSIZE ==> DCode(table, d) == DistCode(d)
  {
    hide DistFrom;
  }

  // ---------- the static trees ----------

  /** The lengths of the static literal tree and how many symbols have each. */
  method InitStaticLengths(blCount: array<nat>) returns (lens: seq<nat>)
    requires blCount.Length == MAXBITS + 1
    modifies blCount
    ensures lens == FixedLengths()
    ensures blCount[0] == 0 && forall l :: 1 <= l <= MAXBITS ==> blCount[l] == Total(lens, l)
  {
    hide FixedLengths, Total;
    for bits := 0 to MAXBITS + 1
      invariant forall b :: 0 <= b < bits ==> blCount[b] == 0
    {
      blCount[bits] := 0;
    }
    lens := [];
    lens := FillLength(lens, 144, 8, blCount);
    lens := FillLength(lens, 256, 9, blCount);
    lens := FillLength(lens, 280, 7, blCount);
    lens := FillLength(lens, 288, 8, blCount);
    FixedParts(lens);
    forall l | 1 <= l <= MAXBITS
      ensures blCount[l] == Total(lens, l)
    {
      FixedTotals(l);
    }
  }

  /** while (n < end) static_ltree[n++].Len = l, bl_count[l]++; */
  method FillLength(lens0: seq<nat>, end: nat, l: nat, blCount: array<nat>) returns (lens: seq<nat>)
    requires |lens0| <= end && l < blCount.Length
    modifies blCount
    ensures lens == lens0 + Repeat(l, end - |lens0|)
    ensures blCount[..] == old(blCount[..])[l := old(blCount[l]) + end - |lens0|]
  {
    lens := lens0;
    ghost var b := blCount[..];
    while |lens| < end
      invariant |lens0| <= |lens| <= end && lens == lens0 + Repeat(l, |lens| - |lens0|)
      invariant blCount[..] == b[l := b[l] + |lens| - |lens0|]
    {
      lens := lens + [l];
      blCount[l] := blCount[l] + 1;
    }
  }

  lemma FixedParts(lens: seq<nat>)
    requires lens == [] + Repeat(8, 144) + Repeat(9, 112) + Repeat(7, 24) + Repeat(8, 8)
    ensures lens == FixedLengths()
  {
    assert [] + Repeat(8, 144) == Repeat(8, 144);
  }

  lemma {:induction false} FirstOfDists(L: nat)
    requires L <= 5
    ensures FirstCode(FixedDists(), L) == 0
  {
    hide Total, FixedDists;
    if L > 1 {
      FirstOfDists(L - 1);
      FixedTotals(L - 1);
    }
  }

  lemma DistHuff(n: nat)
    requires n < 32
    ensures Used(FixedDists(), n) && Huff(FixedDists(), n) == Rev(n, 5)
  {
    hide Count, Rev;
    FirstOfDists(5);
    CountNone(FixedDists());
    HuffmanCode.CountRun(FixedDists(), 0, n, 5, 5);
  }

  method TrStaticInit() returns (t: Static)
    ensures StaticOk(t)
  {
    hide FixedLengths, FixedDists, Kraft, LengthCode, DistCode, BaseLength, BaseDist, DCode, Used, Huff;
    var lengthCode, baseLength := LengthTables();
    var distCode, baseDist := DistTables();
    var lcodes := LiteralCodes();
    var dcodes := DistanceCodes();
    t := Static(lengthCode, distCode, baseLength, baseDist, lcodes, dcodes);
  }

  method LengthTables() returns (codes: seq<nat>, bases: seq<nat>)
    ensures |codes| == 256 && forall lc :: 0 <= lc < 256 ==> codes[lc] == LengthCode(lc)
    ensures |bases| == LENGTH_CODES && forall c :: 0 <= c < LENGTH_CODES - 1 ==> bases[c] == BaseLength(c)
  {
    hide LengthCode, BaseLength;
    var lengthCode, baseLength := new nat[256], new nat[LENGTH_CODES];
    InitLengths(lengthCode, baseLength);
    return lengthCode[..], baseLength[..];
  }

  method DistTables() returns (codes: seq<nat>, bases: seq<nat>)
    ensures |codes| == DIST_CODE_LEN && forall d :: 0 <= d < WSIZE ==> DCode(codes, d) == DistCode(d)
    ensures |bases| == D_CODES && forall c :: 0 <= c < D_CODES ==> bases[c] == BaseDist(c)
  {
    hide DistCode, BaseDist, DCode;
    var distCode, baseDist := new nat[DIST_CODE_LEN], new nat[D_CODES];
    InitDists(distCode, baseDist);
    return distCode[..], baseDist[..];
  }

  method LiteralCodes() returns (lcodes: seq<nat>)
    ensures |lcodes| == 288 && CodesOf(lcodes, FixedLengths())
  {
    hide FixedLengths, FixedDists, Kraft, Coded, InRange, CodesOf;
    FixedAccepted();
    FixedSizes();
    var blCount := new nat[MAXBITS + 1];
    var lens := InitStaticLengths(blCount);
    lcodes := CodesFromLengths(lens, blCount);
  }

  method CodesFromLengths(lens: Lengths, blCount: array<nat>) returns (codes: seq<nat>)
    requires InRange(lens) && Kraft(lens) <= Pow2(MAXBITS) && blCount.Length == MAXBITS + 1 && blCount[0] == 0
    requires forall l :: 1 <= l <= MAXBITS ==> blCount[l] == Total(lens, l)
    ensures |codes| == |lens| && CodesOf(codes, lens)
  {
    hide Kraft, Coded, InRange, CodesOf, Total, Pow2;
    var fc := new nat[|lens|];
    ghost var was := fc[..];
    GenCodes.GenCodes(fc, lens, blCount);
    codes := fc[..];
    CodedCodes(lens, codes, was);
  }

  method DistanceCodes() returns (dcodes: seq<nat>)
    ensures |dcodes| == D_CODES && CodesOf(dcodes, FixedDists())
  {
    hide FixedLengths, FixedDists, Kraft, Rev, Code, Huff, Used;
    FixedAccepted();
    dcodes := [];
    for n := 0 to D_CODES
      invariant |dcodes| == n && forall c :: 0 <= c < n ==> dcodes[c] == Rev(c, 5)
    {
      var r := BiReverse(n, 5);
      dcodes := dcodes + [r];
    }
    forall c | 0 <= c < D_CODES
      ensures Used(FixedDists(), c) && dcodes[c] == Huff(FixedDists(), c)
    {
      DistHuff(c);
    }
  }

  lemma CodedCodes(lens: Lengths, fc: seq<nat>, was: seq<nat>)
    requires InRange(lens) && Coded(lens, fc, was, |lens|) && Kraft(lens) <= Pow2(MAXBITS)
    ensures CodesOf(fc, lens)
  {
  }
}
