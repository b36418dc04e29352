/** LZ77 tokens, and the length and distance symbols that deflate (trees.c) and
    inflate (inftrees.c) use for them. */
module Tokens {
  import opened Bits
  import opened TableTheory

  const MIN_MATCH: nat := 3
  const MAX_MATCH: nat := 258
  const WSIZE: nat := 32768

  datatype Token = Literal(c: byte) | Match(length: nat, dist: nat)

  /** Repeat n times the byte at distance dist from the end. */
  function CopyBack(out: seq<byte>, dist: nat, n: nat): (r: seq<byte>)
    requires 1 <= dist <= |out|
    ensures |r| == |out| + n && out <= r
    decreases n
  {
    if n == 0 then out else CopyBack(out + [out[|out| - dist]], dist, n - 1)
  }

  /** The output after one token. */
  function Expand(out: seq<byte>, t: Token): (r: seq<byte>)
    requires t.Match? ==> 1 <= t.dist <= |out|
    ensures out <= r
  {
    match t
    case Literal(c) => out + [c]
    case Match(length, dist) => CopyBack(out, dist, length)
  }

  /** A token that the format can express after out bytes of output. */
  predicate ValidToken(t: Token, out: nat)
  {
    t.Match? ==> MIN_MATCH <= t.length <= MAX_MATCH && 1 <= t.dist <= WSIZE && t.dist <= out
  }

  function Size(t: Token): nat { match t case Literal(_) => 1 case Match(n, _) => n }

  predicate ValidTokens(ts: seq<Token>, out: nat)
  {
    ts == [] || (ValidToken(ts[0], out) && ValidTokens(ts[1..], out + Size(ts[0])))
  }

  function ExpandAll(out: seq<byte>, ts: seq<Token>): (r: seq<byte>)
    requires ValidTokens(ts, |out|)
    ensures out <= r
    decreases |ts|
  {
    if ts == [] then out else ExpandAll(Expand(out, ts[0]), ts[1..])
  }

  lemma {:induction false} ValidConcat(a: seq<Token>, t: Token, out: seq<byte>)
    requires ValidTokens(a, |out|) && ValidToken(t, |ExpandAll(out, a)|)
    ensures ValidTokens(a + [t], |out|)
    ensures ExpandAll(out, a + [t]) == Expand(ExpandAll(out, a), t)
    decreases |a|
  {
    hide CopyBack;
    if a == [] {
      assert a + [t] == [t] && [t][1..] == [];
    } else {
      assert (a + [t])[1..] == a[1..] + [t];
      ValidConcat(a[1..], t, Expand(out, a[0]));
    }
  }

  // ---------- symbols ----------

  const LENGTH_CODES: nat := 29
  const D_CODES: nat := 30

  function ExtraLBits(c: nat): nat
  {
    match c case 0 => 0 case 1 => 0 case 2 => 0 case 3 => 0 case 4 => 0 case 5 => 0 case 6 => 0 case 7 => 0 case 8
    => 1 case 9 => 1 case 10 => 1 case 11 => 1 case 12 => 2 case 13 => 2 case 14 => 2 case 15 => 2 case 16 => 3
    case 17 => 3 case 18 => 3 case 19 => 3 case 20 => 4 case 21 => 4 case 22 => 4 case 23 => 4 case 24 => 5 case
    25 => 5 case 26 => 5 case 27 => 5 case _ => 0
  }

  function ExtraDBits(c: nat): nat
  {
    match c case 0 => 0 case 1 => 0 case 2 => 0 case 3 => 0 case 4 => 1 case 5 => 1 case 6 => 2 case 7 => 2 case 8
    => 3 case 9 => 3 case 10 => 4 case 11 => 4 case 12 => 5 case 13 => 5 case 14 => 6 case 15 => 6 case 16 => 7
    case 17 => 7 case 18 => 8 case 19 => 8 case 20 => 9 case 21 => 9 case 22 => 10 case 23 => 10 case 24 => 11
    case 25 => 11 case 26 => 12 case 27 => 12 case 28 => 13 case _ => 13
  }

  /** First normalized length (0 is a match of 3) of a length code. */
  function BaseLength(code: nat): nat
    requires code <= LENGTH_CODES - 1
  {
    if code == 0 then 0 else BaseLength(code - 1) + Pow2(ExtraLBits(code - 1))
  }

  /** First normalized distance (0 is a distance of 1) of a distance code. */
  function BaseDist(code: nat): nat
    requires code <= D_CODES
  {
    if code == 0 then 0 else BaseDist(code - 1) + Pow2(ExtraDBits(code - 1))
  }

  /** The last code from code on whose base does not exceed lc. */
  function LengthFrom(lc: nat, code: nat): (c: nat)
    requires code <= LENGTH_CODES - 2
    ensures c <= LENGTH_CODES - 2
    decreases lc, LENGTH_CODES - code
  {
    if code < LENGTH_CODES - 2 && BaseLength(code + 1) <= lc then LengthFrom(lc, code + 1) else code
  }

  /** The length code of a normalized length; the longest match has a code of its own. */
  function LengthCode(lc: nat): nat
  {
    if lc == 255 then LENGTH_CODES - 1 else LengthFrom(lc, 0)
  }

  function DistFrom(d: nat, code: nat): (c: nat)
    requires code <= D_CODES - 1
    ensures c <= D_CODES - 1
    decreases d, D_CODES - code
  {
    if code < D_CODES - 1 && BaseDist(code + 1) <= d then DistFrom(d, code + 1) else code
  }

  function DistCode(d: nat): nat { DistFrom(d, 0) }

  /** Extra-bit counts are at most 13, so their powers are small numbers. */
  lemma SmallPowers()
    ensures Pow2(0) == 1 && Pow2(1) == 2 && Pow2(2) == 4 && Pow2(3) == 8 && Pow2(4) == 16 && Pow2(5) == 32
    ensures Pow2(6) == 64 && Pow2(7) == 128 && Pow2(8) == 256 && Pow2(9) == 512 && Pow2(10) == 1024
    ensures Pow2(11) == 2048 && Pow2(12) == 4096 && Pow2(13) == 8192
  {
    assert Pow2(4) == 16;
    assert Pow2(8) == 256;
    assert Pow2(12) == 4096;
  }

  lemma {:induction false} LengthFromIs(lc: nat, code: nat)
    requires code <= LENGTH_CODES - 2 && BaseLength(code) <= lc < BaseLength(LENGTH_CODES - 1)
    ensures var c := LengthFrom(lc, code); BaseLength(c) <= lc < BaseLength(c) + Pow2(ExtraLBits(c))
    decreases LENGTH_CODES - code
  {
    hide Pow2, ExtraLBits;
    if code < LENGTH_CODES - 2 && BaseLength(code + 1) <= lc { LengthFromIs(lc, code + 1); }
  }

  lemma {:induction false} DistFromIs(d: nat, code: nat)
    requires code <= D_CODES - 1 && BaseDist(code) <= d < BaseDist(D_CODES)
    ensures var c := DistFrom(d, code); BaseDist(c) <= d < BaseDist(c) + Pow2(ExtraDBits(c))
    decreases D_CODES - code
  {
    hide Pow2, ExtraDBits;
    if code < D_CODES - 1 && BaseDist(code + 1) <= d { DistFromIs(d, code + 1); }
  }

  lemma LengthStep(c: nat)
    requires c < LENGTH_CODES - 1
    ensures LExt(c) == 16 + ExtraLBits(c)
    ensures LBase(c) + Pow2(ExtraLBits(c)) == (if c == LENGTH_CODES - 2 then 256 + MIN_MATCH else LBase(c + 1))
  {
    SmallPowers();
  }

  lemma DistStep(c: nat)
    requires c < D_CODES
    ensures DExt(c) == 16 + ExtraDBits(c)
    ensures DBase(c) + Pow2(ExtraDBits(c)) == (if c == D_CODES - 1 then WSIZE + 1 else DBase(c + 1))
  {
    SmallPowers();
  }

  /** The bases the compressor computes are the constants of the decompressor. */
  lemma {:induction false} LengthRow(c: nat)
    requires c <= LENGTH_CODES - 1
    ensures BaseLength(c) + MIN_MATCH == (if c == LENGTH_CODES - 1 then 256 + MIN_MATCH else LBase(c))
  {
    hide Pow2, LBase, LExt, ExtraLBits;
    if c > 0 {
      LengthRow(c - 1);
      LengthStep(c - 1);
    } else {
      FirstRows();
    }
  }

  lemma {:induction false} DistRow(c: nat)
    requires c <= D_CODES
    ensures BaseDist(c) + 1 == (if c == D_CODES then WSIZE + 1 else DBase(c))
  {
    hide Pow2, DBase, DExt, ExtraDBits;
    if c > 0 {
      DistRow(c - 1);
      DistStep(c - 1);
    } else {
      FirstRows();
    }
  }

  lemma FirstRows()
    ensures BaseLength(0) == 0 && BaseDist(0) == 0
    ensures LBase(0) == MIN_MATCH && DBase(0) == 1
    ensures LBase(28) == MAX_MATCH && LExt(28) == 16 && ExtraLBits(28) == 0
  {
  }

  /** Code, extra bits and base of a length agree on both sides. */
  lemma LengthCoding(lc: nat)
    requires lc <= MAX_MATCH - MIN_MATCH
    ensures var c := LengthCode(lc);
            && c < LENGTH_CODES && LExt(c) == 16 + ExtraLBits(c) && LBase(c) <= lc + MIN_MATCH
            && (lc + MIN_MATCH) - LBase(c) < Pow2(ExtraLBits(c))
            && (ExtraLBits(c) != 0 ==> c < LENGTH_CODES - 1 && BaseLength(c) + MIN_MATCH == LBase(c))
  {
    hide Pow2, BaseLength, LengthFrom, LBase, LExt, ExtraLBits;
    FirstRows();
    LengthRow(28);
    if lc != 255 {
      LengthFromIs(lc, 0);
      LengthRow(LengthCode(lc));
      LengthStep(LengthCode(lc));
    }
  }

  lemma DistCoding(d: nat)
    requires d < WSIZE
    ensures var c := DistCode(d);
            && c < D_CODES && DExt(c) == 16 + ExtraDBits(c) && DBase(c) <= d + 1
            && (d + 1) - DBase(c) < Pow2(ExtraDBits(c)) && BaseDist(c) + 1 == DBase(c)
  {
    hide Pow2, BaseDist, DistFrom, DBase, DExt, ExtraDBits;
    FirstRows();
    DistRow(30);
    DistFromIs(d, 0);
    DistRow(DistCode(d));
    DistStep(DistCode(d));
  }
}
