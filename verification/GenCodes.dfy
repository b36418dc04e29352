/** Code assignment by the compressor (deps/zlib/trees.c), on the tree arrays
    that it shares with tree construction: fc holds a frequency or a code, dl a
    parent or a code length. */
module GenCodes {
  import opened Bits
  import opened HuffmanCode
  import opened TableTheory

  /** Reverse the low len bits of code. */
  method BiReverse(code: nat, len: nat) returns (r: nat)
    requires 1 <= len
    ensures r == Rev(code, len)
  {
    var res, c, l := 0, code, len;
    while l > 0
      invariant l <= len && c == Shr(code, len - l) && res == 2 * Rev(code, len - l)
    {
      RevSnoc(code, len - l + 1);
      ShrShr(code, len - l, 1);
      assert Shr(c, 1) == Shr(c / 2, 0);
      OrBit(res, c % 2);
      res := Or(res, c % 2);
      c := c / 2;
      res := 2 * res;
      l := l - 1;
    }
    r := res / 2;
  }

  lemma OrBit(x: nat, b: nat)
    requires x % 2 == 0 && b < 2
    ensures Or(x, b) == x + b
  {
    OrZero(x / 2);
    OrZero(x);
  }

  lemma FirstCodeFits(lens: Lengths, L: nat)
    requires 1 <= L <= MAXBITS && Kraft(lens) <= Pow2(MAXBITS)
    ensures FirstCode(lens, L) <= Pow2(L) <= 0x8000
  {
    Pow2Values();
    Pow2Mono(L, MAXBITS);
    BelowFirst(lens, L);
    BelowMono(lens, L, MAXBITS + 1);
    ShlOne(MAXBITS);
    ShlOne(L);
    ShlShl(1, L, MAXBITS - L);
    if Pow2(L) < FirstCode(lens, L) { ShlMono(Pow2(L), FirstCode(lens, L), MAXBITS - L); }
  }

  /** The first code of every length; the 16-bit arithmetic never wraps. */
  method FirstCodes(ghost lens: Lengths, blCount: array<nat>) returns (nextCode: seq<nat>)
    requires Kraft(lens) <= Pow2(MAXBITS)
    requires blCount.Length == MAXBITS + 1 && blCount[0] == 0
    requires forall l :: 1 <= l <= MAXBITS ==> blCount[l] == Total(lens, l)
    ensures |nextCode| == MAXBITS + 1
    ensures forall l :: 1 <= l <= MAXBITS ==> nextCode[l] == FirstCode(lens, l)
  {
    hide FirstCode, Low, Total, Kraft, Pow2;
    nextCode := [0];
    var code := 0;
    var bits := 1;
    while bits <= MAXBITS
      invariant 1 <= bits <= MAXBITS + 1 && |nextCode| == bits
      invariant if bits == 1 then code == 0 else code == FirstCode(lens, bits - 1)
      invariant forall l :: 1 <= l < bits ==> nextCode[l] == FirstCode(lens, l)
    {
      var b := blCount[bits - 1];
      NextFirst(lens, bits, code, b);
      code := Low(2 * (code + b), 16);
      nextCode := nextCode + [code];
      bits := bits + 1;
    }
  }

  /** The first n entries that have a length hold their reversed codes; the
      others are as they were. */
  ghost predicate Coded(lens: Lengths, fc: seq<nat>, was: seq<nat>, n: nat)
    requires InRange(lens)
  {
    |fc| == |was| &&
    forall i :: 0 <= i < |fc| ==>
      fc[i] == (if i < n && i < |lens| && lens[i] != 0 then Huff(lens, i) else was[i])
  }

  /** Assign codes to the symbols 0..max_code, whose lengths are lens. */
  method GenCodes(fc: array<nat>, lens: Lengths, blCount: array<nat>)
    requires |lens| <= fc.Length && InRange(lens) && Kraft(lens) <= Pow2(MAXBITS)
    requires blCount.Length == MAXBITS + 1 && blCount[0] == 0 
    requires forall l :: 1 <= l <= MAXBITS ==> blCount[l] == Total(lens, l)
    modifies fc
    ensures Coded(lens, fc[..], old(fc[..]), |lens|)
  {
    hide *;
    ghost var was := fc[..];
    var nextCode := FirstCodes(lens, blCount);
    CodedInit(lens, was, nextCode);
    for n := 0 to |lens|
      invariant Coded(lens, fc[..], was, n) && Upcoming(lens, nextCode, n)
    {
      var len := lens[n];
      ghost var f := fc[..];
      CodedStep(lens, f, was, nextCode, n);
      if len != 0 {
        var c := nextCode[len];
        var r := BiReverse(c, len);
        fc[n] := r;
        assert fc[..] == f[n := r];
        nextCode := nextCode[len := c + 1];
      }
    }
  }

  /** The next code of every length after n symbols. */
  ghost predicate Upcoming(lens: Lengths, nc: seq<nat>, n: nat)
    requires n <= |lens|
  {
    |nc| == MAXBITS + 1 && forall l :: 1 <= l <= MAXBITS ==> nc[l] == FirstCode(lens, l) + Count(lens, n, l)
  }

  lemma CodedInit(lens: Lengths, was: seq<nat>, nc: seq<nat>)
    requires InRange(lens) && |nc| == MAXBITS + 1
    requires forall l :: 1 <= l <= MAXBITS ==> nc[l] == FirstCode(lens, l)
    ensures Coded(lens, was, was, 0) && Upcoming(lens, nc, 0)
  {
  }

  lemma CodedStep(lens: Lengths, fc: seq<nat>, was: seq<nat>, nc: seq<nat>, n: nat)
    requires InRange(lens) && n < |lens| <= |fc| && Coded(lens, fc, was, n) && Upcoming(lens, nc, n)
    ensures var l := lens[n];
            && l <= MAXBITS < |nc| && (l == 0 ==> Coded(lens, fc, was, n + 1) && Upcoming(lens, nc, n + 1))
            && (l != 0 ==> Coded(lens, fc[n := Rev(nc[l], l)], was, n + 1) &&
                           Upcoming(lens, nc[l := nc[l] + 1], n + 1))
  {
    hide FirstCode, Count, Rev;
    CountNext(lens, n);
    assert lens[n] != 0 ==> Used(lens, n) && nc[lens[n]] == Code(lens, n);
  }

  lemma NextFirst(lens: Lengths, L: nat, code: nat, b: nat)
    requires 1 <= L <= MAXBITS && Kraft(lens) <= Pow2(MAXBITS)
    requires if L == 1 then code == 0 && b == 0 else code == FirstCode(lens, L - 1) && b == Total(lens, L - 1)
    ensures Low(2 * (code + b), 16) == FirstCode(lens, L)
  {
    FirstCodeFits(lens, L);
    FirstCodeStep(lens, L);
    LowSmallShort(2 * (code + b));
  }

  lemma FirstCodeStep(lens: Lengths, L: nat)
    requires 1 <= L
    ensures L == 1 ==> FirstCode(lens, L) == 0
    ensures L > 1 ==> FirstCode(lens, L) == 2 * (FirstCode(lens, L - 1) + Total(lens, L - 1))
  {
  }

  lemma LowSmallShort(x: nat)
    ensures x <= 0x8000 ==> Low(x, 16) == x
  {
    Pow2Values();
    if x <= 0x8000 { LowSmall(x, 16); }
  }

  // ---------- what has been stored is a prefix code ----------

  /** The bits that send_code() sends for symbol s. */
  function StoredBits(lens: Lengths, fc: seq<nat>, s: nat): seq<bool>
    requires s < |lens| <= |fc|
  {
    ToBits(fc[s], lens[s])
  }

  lemma StoredIsCode(lens: Lengths, fc: seq<nat>, was: seq<nat>, s: nat)
    requires InRange(lens) && |lens| <= |fc| && Coded(lens, fc, was, |lens|) && Used(lens, s)
    ensures StoredBits(lens, fc, s) == CodeBits(lens, s)
  {
    hide Code, Rev, ToBits;
  }

  /** No stored code is the beginning of another: a bit string starts with at most one. */
  lemma StoredPrefixFree(lens: Lengths, fc: seq<nat>, was: seq<nat>, s: nat, t: nat, bits: seq<bool>)
    requires InRange(lens) && Kraft(lens) <= Pow2(MAXBITS) && |lens| <= |fc| && Coded(lens, fc, was, |lens|)
    requires Used(lens, s) && Used(lens, t) && StoredBits(lens, fc, s) <= bits && StoredBits(lens, fc, t) <= bits
    ensures s == t
  {
    hide Coded, StoredBits, CodeBits, Kraft, Pow2;
    StoredIsCode(lens, fc, was, s);
    StoredIsCode(lens, fc, was, t);
    PrefixFree(lens, s, t, bits);
  }

  /** If the code is complete, every string of 15 bits or more starts with one. */
  lemma StoredDecodes(lens: Lengths, fc: seq<nat>, was: seq<nat>, bits: seq<bool>) returns (s: nat)
    requires InRange(lens) && Complete(lens) && |lens| <= |fc| && Coded(lens, fc, was, |lens|) && |bits| >= MAXBITS
    ensures Used(lens, s) && StoredBits(lens, fc, s) <= bits
  {
    hide Coded, StoredBits, CodeBits, Kraft, Pow2;
    s := CompleteDecodes(lens, bits);
    StoredIsCode(lens, fc, was, s);
  }
}
