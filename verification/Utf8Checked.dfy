/** The checked API of deps/utf8cpp/utf8/checked.h: encoding, decoding in both
    directions, repair of invalid text, and conversion to UTF-16 and UTF-32. */
module Utf8Checked {
  import opened Bits
  import opened Utf8

  type u16 = x: nat | x < 0x10000

  /** The exceptions. */
  datatype Exception = InvalidCodePoint(cp: nat) | InvalidUtf8(u8: byte) | InvalidUtf16(unit: u16) | NotEnoughRoom
  datatype Result<T> = Ok(value: T) | Throws(e: Exception)

  lemma OrHigh(a: nat, h: nat, k: nat)
    requires a < Pow2(k)
    ensures Or(a, Shl(h, k)) == a + h * Pow2(k)
  {
    OrDisjoint(a, h, k);
    ShlTimes(h, k);
  }

  /** The marks of first and trail bytes are set in bits that are free. */
  lemma Marks(a: nat)
    ensures a < 32 ==> Or(a, 0xc0) == 0xc0 + a
    ensures a < 16 ==> Or(a, 0xe0) == 0xe0 + a
    ensures a < 8 ==> Or(a, 0xf0) == 0xf0 + a
    ensures a < 64 ==> Or(a, 0x80) == 0x80 + a
  {
    hide Or, Shl;
    assert Pow2(3) == 8 && Pow2(4) == 16 && Pow2(5) == 32 && Pow2(6) == 64;
    ShlTimes(6, 5);
    ShlTimes(14, 4);
    ShlTimes(30, 3);
    ShlTimes(2, 6);
    if a < 32 { OrHigh(a, 6, 5); }
    if a < 16 { OrHigh(a, 14, 4); }
    if a < 8 { OrHigh(a, 30, 3); }
    if a < 64 { OrHigh(a, 2, 6); }
  }

  /** append(): write a code point after what is there. */
  method Append(cp: nat, result0: seq<byte>) returns (result: seq<byte>, r: Result<()>)
    ensures IsCodePointValid(cp) ==> r == Ok(()) && result == result0 + Encode(cp)
    ensures !IsCodePointValid(cp) ==> r == Throws(InvalidCodePoint(cp)) && result == result0
  {
    hide Or;
    result := result0;
    if !IsCodePointValid(cp) { return result, Throws(InvalidCodePoint(cp)); }
    Marks(cp % 64);
    Marks(cp / 64 % 64);
    Marks(cp / 4096 % 64);
    if cp < 0x80 {
      result := result + [cp];
    } else if cp < 0x800 {
      Marks(cp / 64);
      result := result + [Or(cp / 64, 0xc0)];
      result := result + [Or(cp % 64, 0x80)];
    } else if cp < 0x10000 {
      Marks(cp / 4096);
      result := result + [Or(cp / 4096, 0xe0)];
      result := result + [Or(cp / 64 % 64, 0x80)];
      result := result + [Or(cp % 64, 0x80)];
    } else {
      Marks(cp / 262144);
      result := result + [Or(cp / 262144, 0xf0)];
      result := result + [Or(cp / 4096 % 64, 0x80)];
      result := result + [Or(cp / 64 % 64, 0x80)];
      result := result + [Or(cp % 64, 0x80)];
    }
    r := Ok(());
  }

  // ---------- next and prior ----------

  /** What is thrown for an invalid beginning. The code point of an
      invalid_code_point is not known to the caller: it is 0. */
  function Thrown(s: seq<byte>): Exception
    requires Verdict(s) != UTF8_OK
  {
    if Verdict(s) == NOT_ENOUGH_ROOM then NotEnoughRoom
    else if Verdict(s) == INVALID_CODE_POINT then InvalidCodePoint(0)
    else InvalidUtf8(s[0])
  }

  /** The text decodes up to a place where the exception is thrown. */
  ghost predicate FailsAfter(buf: seq<byte>, cps: seq<nat>, e: Exception)
  {
    AllValid(cps) && EncodeAll(cps) <= buf &&
    var rest := buf[|EncodeAll(cps)|..];
    Verdict(rest) != UTF8_OK && e == Thrown(rest)
  }

  /** next(): the exception tells what is wrong; the position then stays. */
  method Next(buf: seq<byte>, it0: nat) returns (r: Result<nat>, it: nat)
    requires it0 <= |buf|
    ensures r.Ok? <==> Verdict(buf[it0..]) == UTF8_OK
    ensures r.Ok? ==> it0 < it <= |buf| && IsCodePointValid(r.value) && buf[it0..it] == Encode(r.value)
    ensures r.Throws? ==> it == it0 && r.e == Thrown(buf[it0..])
    ensures Verdict(buf[it0..]) == NOT_ENOUGH_ROOM ==> r == Throws(NotEnoughRoom)
    ensures Verdict(buf[it0..]) == INVALID_CODE_POINT ==> r == Throws(InvalidCodePoint(0))
    ensures Verdict(buf[it0..]) in {INVALID_LEAD, INCOMPLETE_SEQUENCE, OVERLONG_SEQUENCE} ==> r == Throws(InvalidUtf8(buf[it0]))
  {
    hide Encode, Trails, Value;
    var err, cp;
    err, it, cp := ValidateNext(buf, it0, 0);
    match err {
      case UTF8_OK => r := Ok(cp);
      case NOT_ENOUGH_ROOM => r := Throws(NotEnoughRoom);
      case INVALID_CODE_POINT => r := Throws(InvalidCodePoint(cp));
      case _ => r := Throws(InvalidUtf8(buf[it]));
    }
  }

  /** prior(): go back to the nearest byte that is not a trail byte and decode
      there, within the bytes passed. */
  method Prior(buf: seq<byte>, start: nat, it0: nat) returns (r: Result<nat>, it: nat)
    requires start <= it0 <= |buf|
    ensures start <= it <= it0
    ensures it0 == start ==> r == Throws(NotEnoughRoom)
    ensures it0 > start ==> it < it0 && forall k :: it < k < it0 ==> IsTrail(buf[k])
    ensures it0 > start && IsTrail(buf[it]) ==> it == start && r == Throws(InvalidUtf8(buf[start]))
    ensures it0 > start && !IsTrail(buf[it]) ==> (r.Ok? <==> Verdict(buf[it..it0]) == UTF8_OK)
    ensures r.Ok? ==> IsCodePointValid(r.value) && Encode(r.value) <= buf[it..it0]
    ensures it0 > start && !IsTrail(buf[it]) && r.Throws? ==> r.e == Thrown(buf[it..it0])
  {
    hide Encode, Trails, Value, Verdict, Thrown;
    it := it0;
    if it == start { return Throws(NotEnoughRoom), it; }
    var end := it;
    it := it - 1;
    while IsTrail(buf[it])
      invariant start <= it < it0 && forall k :: it < k < it0 ==> IsTrail(buf[k])
      decreases it
    {
      if it == start { return Throws(InvalidUtf8(buf[it])), it; }
      it := it - 1;
    }
    var ignored;
    r, ignored := Next(buf[..end], it);
    assert buf[..end][it..] == buf[it..it0];
    if r.Ok? {
      assert buf[..end][it..ignored] == buf[it..it0][..ignored - it];
    }
  }

  /** prior() undoes next(). */
  method NextThenPrior(buf: seq<byte>, start: nat, it0: nat) returns (cp: Result<nat>, back: nat)
    requires start <= it0 <= |buf| && Verdict(buf[it0..]) == UTF8_OK
    ensures back == it0 && cp.Ok? && IsCodePointValid(cp.value) && Encode(cp.value) <= buf[it0..]
  {
    hide Encode, Trails, Value, Verdict;
    var r, it := Next(buf, it0);
    cp, back := Prior(buf, start, it);
    Undone(buf, it0, it, r.value, back);
    if back == it0 {
      assert buf[it0..it] == Encode(r.value) + [];
      DecodesEncoded(r.value, []);
      assert cp.Ok?;
      assert buf[it0..it] <= buf[it0..];
    }
  }

  lemma Undone(buf: seq<byte>, it0: nat, it: nat, cp: nat, back: nat)
    requires it0 < it <= |buf| && IsCodePointValid(cp) && buf[it0..it] == Encode(cp)
    requires back < it && (forall k :: back < k < it ==> IsTrail(buf[k])) && (IsTrail(buf[back]) ==> back <= it0)
    ensures back == it0 && !IsTrail(buf[it0])
  {
    hide Encode;
    EncodedBytes(cp);
    assert forall k :: it0 <= k < it ==> buf[it0..it][k - it0] == buf[k];
    assert !IsTrail(buf[it0]) && forall k :: it0 < k < it ==> IsTrail(buf[k]);
  }

  // ---------- repair ----------

  /** s without trail bytes at its beginning. */
  function SkipTrails(s: seq<byte>): (r: seq<byte>)
    ensures |r| <= |s|
  {
    if s != [] && IsTrail(s[0]) then SkipTrails(s[1..]) else s
  }

  /** Valid code points are kept; each invalid sequence becomes one mark. */
  function Repaired(s: seq<byte>, mark: seq<byte>): seq<byte>
    decreases |s|
  {
    if s == [] then []
    else
      match Verdict(s)
      case UTF8_OK => (DecodedIsEncoding(s); s[..SequenceLength(s[0])] + Repaired(s[SequenceLength(s[0])..], mark))
      case NOT_ENOUGH_ROOM => mark
      case INVALID_LEAD => mark + Repaired(s[1..], mark)
      case _ => mark + Repaired(SkipTrails(s[1..]), mark)
  }

  lemma StartRepair(buf: seq<byte>, mark: seq<byte>)
    ensures [] + Repaired(buf[0..], mark) == Repaired(buf, mark) && AllValid([]) && EncodeAll([]) == buf[..0]
  {
    assert buf[0..] == buf;
  }

  lemma RepairCode(s: seq<byte>, cp: nat, mark: seq<byte>)
    requires IsCodePointValid(cp) && Encode(cp) <= s
    ensures Repaired(s, mark) == Encode(cp) + Repaired(s[|Encode(cp)|..], mark)
  {
    hide Encode, Trails, Value, Verdict;
    var n := |Encode(cp)|;
    assert s == Encode(cp) + s[n..];
    DecodesEncoded(cp, s[n..]);
  }

  lemma RepairMark(s: seq<byte>, mark: seq<byte>)
    requires s != []
    ensures var v := Verdict(s);
            && (v == NOT_ENOUGH_ROOM ==> Repaired(s, mark) == mark + [])
            && (v == INVALID_LEAD ==> Repaired(s, mark) == mark + Repaired(s[1..], mark))
            && (v !in {UTF8_OK, NOT_ENOUGH_ROOM, INVALID_LEAD} ==>
                  Repaired(s, mark) == mark + Repaired(SkipTrails(s[1..]), mark))
    ensures Repaired([], mark) == []
  {
    hide Encode, Trails, Value, Verdict;
  }

  lemma CleanStep(buf: seq<byte>, cps: seq<nat>, i: nat, j: nat, cp: nat)
    requires i <= j <= |buf| && AllValid(cps) && EncodeAll(cps) == buf[..i] && IsCodePointValid(cp) && buf[i..j] == Encode(cp)
    ensures AllValid(cps + [cp]) && EncodeAll(cps + [cp]) == buf[..j]
  {
    hide Encode;
    EncodeOne(cp);
    EncodeConcat(cps, [cp]);
    assert buf[..j] == buf[..i] + buf[i..j];
  }

  /** while (start != end && is_trail(*start)) ++start */
  method PassTrails(buf: seq<byte>, start0: nat) returns (start: nat)
    requires start0 <= |buf|
    ensures start0 <= start <= |buf| && buf[start..] == SkipTrails(buf[start0..])
  {
    start := start0;
    while start != |buf| && IsTrail(buf[start])
      invariant start0 <= start <= |buf| && SkipTrails(buf[start..]) == SkipTrails(buf[start0..])
      decreases |buf| - start
    {
      assert buf[start..][1..] == buf[start + 1..];
      start := start + 1;
    }
  }

  /** The bytes of a valid sequence are copied. */
  method CopyCode(buf: seq<byte>, from: nat, to: nat, out0: seq<byte>) returns (out: seq<byte>)
    requires from <= to <= |buf|
    ensures out == out0 + buf[from..to]
  {
    out := out0;
    for it := from to to
      invariant out == out0 + buf[from..it]
    {
      out := out + [buf[it]];
    }
  }

  /** replace_invalid() */
  method ReplaceInvalid(buf: seq<byte>, replacement: nat) returns (out: seq<byte>, r: Result<()>)
    ensures IsCodePointValid(replacement) ==> r.Ok? && out == Repaired(buf, Encode(replacement))
    ensures r.Throws? ==> r.e == InvalidCodePoint(replacement)
    ensures r.Throws? <==> !IsCodePointValid(replacement) && !ValidText(buf)
  {
    hide Encode, Trails, Value, Verdict, Repaired, ValidText, SkipTrails, EncodeAll;
    out, r := [], Ok(());
    var start := 0;
    ghost var mark := if IsCodePointValid(replacement) then Encode(replacement) else [];
    ghost var cps: seq<nat>, clean := [], true;
    StartRepair(buf, mark);
    while start != |buf|
      invariant start <= |buf| && r.Ok? && out + Repaired(buf[start..], mark) == Repaired(buf, mark)
      invariant clean ==> AllValid(cps) && EncodeAll(cps) == buf[..start]
      invariant !clean ==> IsCodePointValid(replacement)
      decreases |buf| - start
    {
      ghost var out0 := out;
      var sequenceStart := start;
      var err, cp;
      err, start, cp := ValidateNext(buf, start, 0);
      if err == UTF8_OK {
        CodeAhead(buf, sequenceStart, start, cp, mark, out);
        out := CopyCode(buf, sequenceStart, start, out);
        if clean {
          CleanStep(buf, cps, sequenceStart, start, cp);
          cps := cps + [cp];
        }
      } else {
        if clean { NotText(buf, start, cps); }
        clean := false;
        var thrown;
        out, thrown := Append(replacement, out);
        if thrown.Throws? { return out, thrown; }
        start := PassInvalid(buf, start, err, mark);
        assert out0 + (mark + Repaired(buf[start..], mark)) == out + Repaired(buf[start..], mark);
      }
    }
    if clean { AllClean(buf, cps); }
    RepairMark([0], mark);
    assert buf[start..] == [];
  }

  /** Go on after an invalid sequence. */
  method PassInvalid(buf: seq<byte>, start0: nat, err: Error, ghost mark: seq<byte>) returns (start: nat)
    requires start0 < |buf| && err == Verdict(buf[start0..]) != UTF8_OK
    ensures start0 < start <= |buf| && Repaired(buf[start0..], mark) == mark + Repaired(buf[start..], mark)
  {
    hide Verdict, Repaired, SkipTrails;
    RepairMark(buf[start0..], mark);
    if err == NOT_ENOUGH_ROOM {
      assert buf[|buf|..] == [];
      return |buf|;
    }
    start := start0 + 1;
    assert buf[start..] == buf[start0..][1..];
    if err != INVALID_LEAD {
      start := PassTrails(buf, start);
    }
  }

  lemma CodeAhead(buf: seq<byte>, i: nat, j: nat, cp: nat, mark: seq<byte>, out: seq<byte>)
    requires i <= j <= |buf| && IsCodePointValid(cp) && buf[i..j] == Encode(cp)
    ensures out + Repaired(buf[i..], mark) == out + buf[i..j] + Repaired(buf[j..], mark)
  {
    hide Encode, Repaired;
    assert buf[i..] == buf[i..j] + buf[j..];
    RepairCode(buf[i..], cp, mark);
    assert buf[i..][j - i..] == buf[j..];
  }

  lemma AllClean(buf: seq<byte>, cps: seq<nat>)
    requires AllValid(cps) && EncodeAll(cps) == buf[..|buf|]
    ensures ValidText(buf)
  {
    assert buf[..|buf|] == buf;
  }

  lemma TextConcat(a: seq<byte>, b: seq<byte>)
    requires ValidText(a) && ValidText(b)
    ensures ValidText(a + b)
  {
    hide Encode;
    var x :| AllValid(x) && EncodeAll(x) == a;
    var y :| AllValid(y) && EncodeAll(y) == b;
    EncodeConcat(x, y);
  }

  lemma TextOne(cp: nat)
    requires IsCodePointValid(cp)
    ensures ValidText(Encode(cp)) && ValidText([])
  {
    hide Encode;
    EncodeOne(cp);
    assert AllValid([]) && EncodeAll([]) == [];
  }

  /** Repair always gives valid text. */
  lemma {:induction false} RepairedIsText(s: seq<byte>, replacement: nat)
    requires IsCodePointValid(replacement)
    ensures ValidText(Repaired(s, Encode(replacement)))
    decreases |s|
  {
    hide Encode, Trails, Value, Verdict, ValidText, SkipTrails;
    var mark := Encode(replacement);
    TextOne(replacement);
    if s != [] {
      RepairMark(s, mark);
      if Verdict(s) == UTF8_OK {
        DecodedIsEncoding(s);
        var n := SequenceLength(s[0]);
        TextOne(Value(s, n));
        RepairedIsText(s[n..], replacement);
        TextConcat(s[..n], Repaired(s[n..], mark));
      } else if Verdict(s) == NOT_ENOUGH_ROOM {
        assert mark + [] == mark;
      } else if Verdict(s) == INVALID_LEAD {
        RepairedIsText(s[1..], replacement);
        TextConcat(mark, Repaired(s[1..], mark));
      } else {
        RepairedIsText(SkipTrails(s[1..]), replacement);
        TextConcat(mark, Repaired(SkipTrails(s[1..]), mark));
      }
    }
  }

  /** Repair changes nothing in valid text. */
  lemma RepairedText(s: seq<byte>, mark: seq<byte>)
    requires ValidText(s)
    ensures Repaired(s, mark) == s
  {
    hide Encode, Repaired;
    var cps :| AllValid(cps) && EncodeAll(cps) == s;
    RepairedCodes(cps, mark);
  }

  lemma {:induction false} RepairedCodes(cps: seq<nat>, mark: seq<byte>)
    requires AllValid(cps)
    ensures Repaired(EncodeAll(cps), mark) == EncodeAll(cps)
    decreases |cps|
  {
    hide Encode, Verdict;
    if cps != [] {
      FirstCode(cps);
      var s := EncodeAll(cps);
      RepairCode(s, cps[0], mark);
      assert s[|Encode(cps[0])|..] == EncodeAll(cps[1..]);
      RepairedCodes(cps[1..], mark);
    }
  }

  /** A text with each kind of error, and its repair. */
  lemma KnownRepair()
    ensures Repaired([0x41, 0x80, 0xC3, 0x41, 0xE0, 0x80, 0x80, 0xED, 0xA0, 0x80, 0x42, 0xE2, 0x82], [0x3F]) ==
            [0x41, 0x3F, 0x3F, 0x41, 0x3F, 0x3F, 0x42, 0x3F]
  {
    hide Repaired, Verdict, SkipTrails, Encode;
    var mark: seq<byte>, s4: seq<byte> := [0x3F], [0xE0, 0x80, 0x80, 0xED, 0xA0, 0x80, 0x42, 0xE2, 0x82];
    TooLong();
    FrontRepaired(s4, mark);
    assert [0x41, 0x80, 0xC3, 0x41] + s4 == [0x41, 0x80, 0xC3, 0x41, 0xE0, 0x80, 0x80, 0xED, 0xA0, 0x80, 0x42, 0xE2, 0x82];
  }

  /** A byte alone, and a sequence that breaks off. */
  lemma FrontRepaired(s: seq<byte>, mark: seq<byte>)
    ensures Repaired([0x41, 0x80, 0xC3, 0x41] + s, mark) == [0x41] + mark + mark + [0x41] + Repaired(s, mark)
  {
    hide Repaired, Verdict, SkipTrails, Encode;
    Ascii(0x41, s, mark);
    KnownErrors(s);
    var s3 := [0x41] + s;
    var s2 := [0xC3] + s3;
    assert s2 == [0xC3, 0x41] + s && s2[1..] == s3;
    NoneSkipped(s3);
    RepairMark(s2, mark);
    StrayByte(s2, mark);
    Ascii(0x41, [0x80] + s2, mark);
    assert [0x41] + ([0x80] + s2) == [0x41, 0x80, 0xC3, 0x41] + s;
  }

  lemma StrayByte(s: seq<byte>, mark: seq<byte>)
    ensures Repaired([0x80] + s, mark) == mark + Repaired(s, mark)
  {
    hide Repaired, Verdict, SkipTrails, Encode;
    KnownErrors(s);
    assert ([0x80] + s)[1..] == s;
    RepairMark([0x80] + s, mark);
  }

  lemma TooLong()
    ensures Repaired([0xE0, 0x80, 0x80, 0xED, 0xA0, 0x80, 0x42, 0xE2, 0x82], [0x3F]) == [0x3F, 0x3F, 0x42, 0x3F]
  {
    hide Repaired, Verdict, SkipTrails, Encode;
    var mark: seq<byte>, s5: seq<byte> := [0x3F], [0xED, 0xA0, 0x80, 0x42, 0xE2, 0x82];
    Surrogate();
    KnownErrors(s5);
    TwoTrails(0xE0, 0x80, 0x80, s5);
    RepairMark([0xE0, 0x80, 0x80] + s5, mark);
    assert [0xE0, 0x80, 0x80] + s5 == [0xE0, 0x80, 0x80, 0xED, 0xA0, 0x80, 0x42, 0xE2, 0x82];
  }

  lemma Surrogate()
    ensures Repaired([0xED, 0xA0, 0x80, 0x42, 0xE2, 0x82], [0x3F]) == [0x3F, 0x42, 0x3F]
  {
    hide Repaired, Verdict, SkipTrails, Encode;
    var mark: seq<byte>, s7: seq<byte> := [0x3F], [0xE2, 0x82];
    var s6 := [0x42] + s7;
    KnownErrors([]);
    RepairMark(s7, mark);
    Ascii(0x42, s7, mark);
    KnownErrors(s6);
    TwoTrails(0xED, 0xA0, 0x80, s6);
    RepairMark([0xED, 0xA0, 0x80] + s6, mark);
    assert [0xED, 0xA0, 0x80] + s6 == [0xED, 0xA0, 0x80, 0x42, 0xE2, 0x82];
  }

  lemma Ascii(c: byte, s: seq<byte>, mark: seq<byte>)
    requires c < 0x80
    ensures Repaired([c] + s, mark) == [c] + Repaired(s, mark)
  {
    hide Repaired;
    assert Encode(c) == [c] && ([c] + s)[1..] == s;
    RepairCode([c] + s, c, mark);
  }

  lemma NoneSkipped(s: seq<byte>)
    ensures s == [] || !IsTrail(s[0]) ==> SkipTrails(s) == s
  {
  }

  lemma TwoTrails(a: byte, b: byte, c: byte, s: seq<byte>)
    requires IsTrail(b) && IsTrail(c) && (s == [] || !IsTrail(s[0]))
    ensures SkipTrails(([a, b, c] + s)[1..]) == s
  {
    assert ([a, b, c] + s)[1..] == [b, c] + s;
    assert ([b, c] + s)[1..] == [c] + s && ([c] + s)[1..] == s;
    NoneSkipped(s);
    assert SkipTrails([c] + s) == s;
    assert SkipTrails([b, c] + s) == SkipTrails([c] + s);
  }

  // ---------- UTF-32 ----------

  /** utf32to8() */
  method Utf32to8(cps: seq<nat>) returns (r: Result<seq<byte>>)
    ensures AllValid(cps) ==> r == Ok(EncodeAll(cps))
    ensures !AllValid(cps) ==> r.Throws? && r.e.InvalidCodePoint? && r.e.cp in cps && !IsCodePointValid(r.e.cp)
  {
    hide Encode;
    var out := [];
    for i := 0 to |cps|
      invariant AllValid(cps[..i]) && out == EncodeAll(cps[..i])
    {
      var thrown;
      out, thrown := Append(cps[i], out);
      if thrown.Throws? { return Throws(thrown.e); }
      assert cps[..i + 1][..i] == cps[..i];
    }
    assert cps[..|cps|] == cps;
    r := Ok(out);
  }

  /** utf8to32() */
  method Utf8to32(buf: seq<byte>) returns (r: Result<seq<nat>>, ghost done: seq<nat>)
    ensures r.Ok? <==> ValidText(buf)
    ensures r.Ok? ==> AllValid(r.value) && EncodeAll(r.value) == buf
    ensures r.Throws? ==> FailsAfter(buf, done, r.e)
  {
    hide Encode, Verdict, EncodeAll, Thrown;
    var start, cps := 0, [];
    done := [];
    StartRepair(buf, []);
    while start < |buf|
      invariant start <= |buf| && AllValid(cps) && EncodeAll(cps) == buf[..start]
    {
      var cp, it := Next(buf, start);
      if cp.Throws? {
        NotText(buf, start, cps);
        return Throws(cp.e), cps;
      }
      CleanStep(buf, cps, start, it, cp.value);
      start, cps := it, cps + [cp.value];
    }
    assert buf[..start] == buf;
    r := Ok(cps);
  }

  // ---------- UTF-16 ----------

  predicate IsLeadSurrogate(u: nat) { LEAD_SURROGATE_MIN <= u <= LEAD_SURROGATE_MAX }

  predicate IsTrailSurrogate(u: nat) { TRAIL_SURROGATE_MIN <= u <= TRAIL_SURROGATE_MAX }

  const LEAD_OFFSET: nat := 0xd7c0
  const SURROGATE_OFFSET: nat := 0xfca02400

  /** One unit, or a pair of surrogates. */
  function Encode16(cp: nat): (s: seq<u16>)
    requires IsCodePointValid(cp)
    ensures 1 <= |s| <= 2
  {
    if cp < 0x10000 then [cp]
    else [0xd800 + (cp - 0x10000) / 1024, 0xdc00 + (cp - 0x10000) % 1024]
  }

  function EncodeAll16(cps: seq<nat>): seq<u16>
    requires AllValid(cps)
    decreases |cps|
  {
    if cps == [] then [] else EncodeAll16(cps[..|cps| - 1]) + Encode16(cps[|cps| - 1])
  }

  ghost predicate ValidText16(w: seq<u16>) { exists cps :: AllValid(cps) && EncodeAll16(cps) == w }

  /** The text decodes up to a surrogate that is not in a pair; the unit reported
      is the one after a leading surrogate, if there is one. */
  ghost predicate FailsAfter16(w: seq<u16>, cps: seq<nat>, e: Exception)
  {
    AllValid(cps) && EncodeAll16(cps) <= w &&
    var rest := w[|EncodeAll16(cps)|..];
    rest != [] && Units(rest) == 0 && e == InvalidUtf16(if IsLeadSurrogate(rest[0]) && |rest| > 1 then rest[1] else rest[0])
  }

  /** How many units make up the first code point, or 0. */
  function Units(w: seq<u16>): (n: nat)
    ensures n <= |w|
  {
    if w == [] then 0
    else if IsLeadSurrogate(w[0]) then (if |w| > 1 && IsTrailSurrogate(w[1]) then 2 else 0)
    else if IsTrailSurrogate(w[0]) then 0
    else 1
  }

  lemma UnitsOfCode(cp: nat, rest: seq<u16>)
    requires IsCodePointValid(cp)
    ensures Units(Encode16(cp) + rest) == |Encode16(cp)|
  {
  }

  lemma Code16Injective(a: nat, b: nat)
    requires IsCodePointValid(a) && IsCodePointValid(b) && Encode16(a) == Encode16(b)
    ensures a == b
  {
  }

  /** Section 2.2 of RFC 2781: a pair is the form of exactly the code point whose
      20 bits it holds. */
  lemma PairOf(cp: nat, lead: u16, trail: u16)
    requires IsCodePointValid(cp)
    ensures Encode16(cp) == [lead, trail] <==>
            0xD800 <= lead <= 0xDBFF && 0xDC00 <= trail <= 0xDFFF &&
            cp == 0x1_0000 + (lead - 0xD800) * 0x400 + (trail - 0xDC00)
  {
    if 0xD800 <= lead <= 0xDBFF && 0xDC00 <= trail <= 0xDFFF {
      Twenty(lead - 0xD800, trail - 0xDC00);
    }
    if cp >= 0x1_0000 {
      assert cp - 0x1_0000 == (cp - 0x1_0000) / 1024 * 1024 + (cp - 0x1_0000) % 1024;
    }
  }

  lemma Twenty(h: nat, l: nat)
    requires l < 1024
    ensures (h * 1024 + l) / 1024 == h && (h * 1024 + l) % 1024 == l
  {
  }

  /** Known answers: the end of the codes of one unit, and U+10437. */
  lemma KnownUnits()
    ensures Encode16(0xFFFF) == [0xFFFF] && Encode16(0x1_0000) == [0xD800, 0xDC00]
    ensures Encode16(0x1_0437) == [0xD801, 0xDC37] && Encode16(0x10_FFFF) == [0xDBFF, 0xDFFF]
  {
  }

  lemma {:induction false} Encode16Concat(a: seq<nat>, b: seq<nat>)
    requires AllValid(a) && AllValid(b)
    ensures AllValid(a + b) && EncodeAll16(a + b) == EncodeAll16(a) + EncodeAll16(b)
    decreases |b|
  {
    hide Encode16, EncodeAll16;
    if b == [] {
      assert a + b == a;
      Start16([]);
    } else {
      var c, x := b[..|b| - 1], b[|b| - 1];
      assert a + b == (a + c) + [x] && b == c + [x];
      Encode16Concat(a, c);
      Push16(a + c, x);
      Push16(c, x);
      assert EncodeAll16(a) + EncodeAll16(c) + Encode16(x) == EncodeAll16(a) + (EncodeAll16(c) + Encode16(x));
    }
  }

  lemma Push16(cps: seq<nat>, cp: nat)
    requires AllValid(cps) && IsCodePointValid(cp)
    ensures AllValid(cps + [cp]) && EncodeAll16(cps + [cp]) == EncodeAll16(cps) + Encode16(cp)
  {
    hide Encode16;
    assert (cps + [cp])[..|cps|] == cps;
  }

  lemma FirstCode16(cps: seq<nat>)
    requires AllValid(cps) && cps != []
    ensures AllValid(cps[1..]) && EncodeAll16(cps) == Encode16(cps[0]) + EncodeAll16(cps[1..])
  {
    hide Encode16;
    assert [cps[0]][..0] == [];
    Encode16Concat([cps[0]], cps[1..]);
    assert [cps[0]] + cps[1..] == cps;
  }

  lemma {:induction false} Encode16Injective(a: seq<nat>, b: seq<nat>)
    requires AllValid(a) && AllValid(b) && EncodeAll16(a) == EncodeAll16(b)
    ensures a == b
    decreases |a|
  {
    hide Encode16, Units;
    if a != [] { FirstCode16(a); }
    if b != [] { FirstCode16(b); }
    if a != [] && b != [] {
      UnitsOfCode(a[0], EncodeAll16(a[1..]));
      UnitsOfCode(b[0], EncodeAll16(b[1..]));
      var n := |Encode16(a[0])|;
      assert EncodeAll16(a)[..n] == Encode16(a[0]) && EncodeAll16(b)[..n] == Encode16(b[0]);
      assert EncodeAll16(a)[n..] == EncodeAll16(a[1..]) && EncodeAll16(b)[n..] == EncodeAll16(b[1..]);
      Code16Injective(a[0], b[0]);
      Encode16Injective(a[1..], b[1..]);
      assert a == [a[0]] + a[1..] && b == [b[0]] + b[1..];
    }
  }

  /** Valid text has a code point after any valid beginning. */
  lemma {:induction false} TextSplits16(all: seq<nat>, cps: seq<nat>, w: seq<u16>, r: nat)
    requires AllValid(all) && AllValid(cps) && EncodeAll16(all) == w && r < |w| && EncodeAll16(cps) == w[..r]
    ensures Units(w[r..]) > 0
    decreases |cps|
  {
    hide Encode16, Units;
    FirstCode16(all);
    var c, rest := all[0], EncodeAll16(all[1..]);
    UnitsOfCode(c, rest);
    if cps == [] {
      assert w[r..] == w;
    } else {
      FirstCode16(cps);
      UnitsOfCode(cps[0], EncodeAll16(cps[1..]) + w[r..]);
      assert w == w[..r] + w[r..] == Encode16(cps[0]) + (EncodeAll16(cps[1..]) + w[r..]);
      var n := |Encode16(c)|;
      assert w[n..] == rest && w[n..] == EncodeAll16(cps[1..]) + w[r..];
      assert rest[..r - n] == EncodeAll16(cps[1..]) && rest[r - n..] == w[r..];
      TextSplits16(all[1..], cps[1..], rest, r - n);
    }
  }

  lemma NotText16(w: seq<u16>, r: nat, cps: seq<nat>)
    requires r < |w| && AllValid(cps) && EncodeAll16(cps) == w[..r] && Units(w[r..]) == 0
    ensures !ValidText16(w)
  {
    hide Encode16, Units;
    forall all | AllValid(all)
      ensures EncodeAll16(all) != w
    {
      if EncodeAll16(all) == w { TextSplits16(all, cps, w, r); }
    }
  }

  lemma CleanStep16(w: seq<u16>, cps: seq<nat>, i: nat, j: nat, cp: nat)
    requires i <= j <= |w| && AllValid(cps) && EncodeAll16(cps) == w[..i] && IsCodePointValid(cp) && w[i..j] == Encode16(cp)
    ensures AllValid(cps + [cp]) && EncodeAll16(cps + [cp]) == w[..j]
  {
    hide Encode16, EncodeAll16;
    Push16(cps, cp);
    assert w[..j] == w[..i] + w[i..j];
  }

  /** The 32-bit sum wraps around to the code point of a pair. */
  lemma PairValue(lead: u16, trail: u16)
    requires IsLeadSurrogate(lead) && IsTrailSurrogate(trail)
    ensures var cp := (lead * 1024 + trail + SURROGATE_OFFSET) % 0x1_0000_0000;
            IsCodePointValid(cp) && Encode16(cp) == [lead, trail]
  {
    var l, t := lead - 0xd800, trail - 0xdc00;
    assert lead * 1024 + trail + SURROGATE_OFFSET == 0x1_0000_0000 + 0x10000 + l * 1024 + t;
    assert (l * 1024 + t) / 1024 == l && (l * 1024 + t) % 1024 == t;
  }

  /** utf16to8() */
  method Utf16to8(w: seq<u16>) returns (r: Result<seq<byte>>, ghost cps: seq<nat>)
    ensures r.Ok? <==> ValidText16(w)
    ensures r.Ok? ==> AllValid(cps) && EncodeAll16(cps) == w && r.value == EncodeAll(cps)
    ensures r.Throws? ==> FailsAfter16(w, cps, r.e)
  {
    hide Encode, Encode16, EncodeAll, EncodeAll16;
    var start, out := 0, [];
    cps := [];
    Start16(w);
    while start != |w|
      invariant start <= |w| && AllValid(cps) && EncodeAll16(cps) == w[..start] && out == EncodeAll(cps)
      decreases |w| - start
    {
      ghost var from := start;
      var cp: nat := w[start];
      start := start + 1;
      if IsLeadSurrogate(cp) {
        if start != |w| {
          var trailSurrogate := w[start];
          start := start + 1;
          if IsTrailSurrogate(trailSurrogate) {
            PairValue(cp, trailSurrogate);
            cp := (cp * 1024 + trailSurrogate + SURROGATE_OFFSET) % 0x1_0000_0000;
          } else {
            NotText16(w, from, cps);
            return Throws(InvalidUtf16(trailSurrogate)), cps;
          }
        } else {
          NotText16(w, from, cps);
          return Throws(InvalidUtf16(cp)), cps;
        }
      } else if IsTrailSurrogate(cp) {
        NotText16(w, from, cps);
        return Throws(InvalidUtf16(cp)), cps;
      } else {
        OneUnit(cp);
      }
      var thrown;
      out, thrown := Append(cp, out);
      CleanStep16(w, cps, from, start, cp);
      PushCode(cps, cp);
      cps := cps + [cp];
    }
    assert w[..start] == w;
    r := Ok(out);
  }

  lemma Start16(w: seq<u16>)
    ensures AllValid([]) && EncodeAll16([]) == w[..0] && EncodeAll([]) == []
  {
  }

  lemma OneUnit(u: u16)
    requires !IsLeadSurrogate(u) && !IsTrailSurrogate(u)
    ensures IsCodePointValid(u) && Encode16(u) == [u]
  {
  }

  lemma PushCode(cps: seq<nat>, cp: nat)
    requires AllValid(cps) && IsCodePointValid(cp)
    ensures AllValid(cps + [cp]) && EncodeAll(cps + [cp]) == EncodeAll(cps) + Encode(cp)
    ensures EncodeAll16(cps + [cp]) == EncodeAll16(cps) + Encode16(cp)
  {
    hide Encode, Encode16, EncodeAll16;
    EncodeOne(cp);
    EncodeConcat(cps, [cp]);
    Push16(cps, cp);
  }

  lemma PairUnits(cp: nat)
    requires 0xffff < cp <= CODE_POINT_MAX
    ensures Encode16(cp) == [(cp / 1024 + LEAD_OFFSET) % 0x10000, (cp % 1024 + TRAIL_SURROGATE_MIN) % 0x10000]
  {
    assert cp / 1024 == (cp - 0x10000) / 1024 + 64 && cp % 1024 == (cp - 0x10000) % 1024;
  }

  /** utf8to16() */
  method Utf8to16(buf: seq<byte>) returns (r: Result<seq<u16>>, ghost cps: seq<nat>)
    ensures r.Ok? <==> ValidText(buf)
    ensures r.Ok? ==> AllValid(cps) && EncodeAll(cps) == buf && r.value == EncodeAll16(cps)
    ensures r.Throws? ==> FailsAfter(buf, cps, r.e)
  {
    hide Encode, Encode16, EncodeAll, EncodeAll16, Verdict, Thrown;
    var start, out := 0, [];
    cps := [];
    StartRepair(buf, []);
    Start16([]);
    while start < |buf|
      invariant start <= |buf| && AllValid(cps) && EncodeAll(cps) == buf[..start] && out == EncodeAll16(cps)
    {
      var next, it := Next(buf, start);
      if next.Throws? {
        NotText(buf, start, cps);
        return Throws(next.e), cps;
      }
      var cp := next.value;
      CleanStep(buf, cps, start, it, cp);
      PushCode(cps, cp);
      if cp > 0xffff {
        PairUnits(cp);
        out := out + [(cp / 1024 + LEAD_OFFSET) % 0x10000];
        out := out + [(cp % 1024 + TRAIL_SURROGATE_MIN) % 0x10000];
      } else {
        OneUnit(cp);
        out := out + [cp];
      }
      start, cps := it, cps + [cp];
    }
    assert buf[..start] == buf;
    r := Ok(out);
  }

  /** Valid UTF-8 survives the way to UTF-16 and back. */
  method Through16(buf: seq<byte>) returns (back: Result<seq<byte>>)
    requires ValidText(buf)
    ensures back == Ok(buf)
  {
    hide Encode, Encode16, EncodeAll, EncodeAll16;
    var w;
    ghost var a, b;
    w, a := Utf8to16(buf);
    assert ValidText16(w.value);
    back, b := Utf16to8(w.value);
    Encode16Injective(a, b);
  }

  /** Valid UTF-16 survives the way to UTF-8 and back. */
  method Through8(w: seq<u16>) returns (back: Result<seq<u16>>)
    requires ValidText16(w)
    ensures back == Ok(w)
  {
    hide Encode, Encode16, EncodeAll, EncodeAll16;
    var s;
    ghost var a, b;
    s, a := Utf16to8(w);
    assert ValidText(s.value);
    back, b := Utf8to16(s.value);
    EncodeInjective(a, b);
  }
}
