/** UTF-8 decoding of deps/utf8cpp/utf8/core.h, against the encoding of sections
    3 and 4 of RFC 3629. */
module Utf8 {
  import opened Bits

  datatype Error = UTF8_OK | NOT_ENOUGH_ROOM | INVALID_LEAD | INCOMPLETE_SEQUENCE | OVERLONG_SEQUENCE | INVALID_CODE_POINT

  const LEAD_SURROGATE_MIN: nat := 0xd800
  const LEAD_SURROGATE_MAX: nat := 0xdbff
  const TRAIL_SURROGATE_MIN: nat := 0xdc00
  const TRAIL_SURROGATE_MAX: nat := 0xdfff
  const CODE_POINT_MAX: nat := 0x0010_ffff

  predicate IsTrail(oc: byte) { oc / 64 == 0x2 }

  predicate IsSurrogate(cp: nat) { LEAD_SURROGATE_MIN <= cp <= TRAIL_SURROGATE_MAX }

  predicate IsCodePointValid(cp: nat) { cp <= CODE_POINT_MAX && !IsSurrogate(cp) }

  // ---------- the encoding ----------

  /** The shortest form of a code point. */
  function Encode(cp: nat): (s: seq<byte>)
    requires IsCodePointValid(cp)
    ensures 1 <= |s| <= 4
  {
    if cp < 0x80 then [cp]
    else if cp < 0x800 then [0xc0 + cp / 64, 0x80 + cp % 64]
    else if cp < 0x10000 then [0xe0 + cp / 4096, 0x80 + cp / 64 % 64, 0x80 + cp % 64]
    else [0xf0 + cp / 262144, 0x80 + cp / 4096 % 64, 0x80 + cp / 64 % 64, 0x80 + cp % 64]
  }

  predicate AllValid(cps: seq<nat>) { forall i :: 0 <= i < |cps| ==> IsCodePointValid(cps[i]) }

  function EncodeAll(cps: seq<nat>): seq<byte>
    requires AllValid(cps)
    decreases |cps|
  {
    if cps == [] then [] else EncodeAll(cps[..|cps| - 1]) + Encode(cps[|cps| - 1])
  }

  /** Text is a sequence of encoded code points. */
  ghost predicate ValidText(s: seq<byte>) { exists cps :: AllValid(cps) && EncodeAll(cps) == s }

  // ---------- what the decoder finds ----------

  /** sequence_length(): the length that the first byte announces, or 0. */
  function SequenceLength(lead: byte): (n: nat)
    ensures n <= 4
  {
    if lead < 0x80 then 1
    else if lead / 32 == 0x6 then 2
    else if lead / 16 == 0xe then 3
    else if lead / 8 == 0x1e then 4
    else 0
  }

  /** How many of the bytes after the first, up to length n, are trail bytes. */
  function Trails(s: seq<byte>, n: nat): (k: nat)
    requires s != []
    ensures k < |s| && (n > 0 ==> k < n)
    ensures forall i :: 1 <= i <= k ==> IsTrail(s[i])
    ensures k + 1 < n && k + 1 < |s| ==> !IsTrail(s[k + 1])
  {
    if n <= 1 then 0
    else
      var k := Trails(s, n - 1);
      if k == n - 2 && n - 1 < |s| && IsTrail(s[n - 1]) then n - 1 else k
  }

  /** The bits of a trail byte, and those of a first byte. */
  function Tail(b: byte): nat { b % 64 }

  function Head(b: byte, m: nat): nat
    requires m > 0
  {
    b % m
  }

  /** The value of n bytes of a sequence. */
  function Value(s: seq<byte>, n: nat): nat
    requires 1 <= n <= |s|
  {
    if n == 1 then s[0]
    else if n == 2 then Head(s[0], 32) * 64 + Tail(s[1])
    else if n == 3 then Head(s[0], 16) * 4096 + Tail(s[1]) * 64 + Tail(s[2])
    else if n == 4 then Head(s[0], 8) * 262144 + Tail(s[1]) * 4096 + Tail(s[2]) * 64 + Tail(s[3])
    else 0
  }

  /** The outcome of decoding at the beginning of s. */
  function Verdict(s: seq<byte>): Error
  {
    if s == [] then NOT_ENOUGH_ROOM
    else
      var n := SequenceLength(s[0]);
      if n == 0 then INVALID_LEAD
      else if Trails(s, n) < n - 1 then
        if Trails(s, n) + 1 == |s| then NOT_ENOUGH_ROOM else INCOMPLETE_SEQUENCE
      else if !IsCodePointValid(Value(s, n)) then INVALID_CODE_POINT
      else if |Encode(Value(s, n))| != n then OVERLONG_SEQUENCE
      else UTF8_OK
  }

  lemma TrailsFull(s: seq<byte>, n: nat)
    requires 1 <= n <= |s| && forall i :: 1 <= i < n ==> IsTrail(s[i])
    ensures Trails(s, n) == n - 1
  {
  }

  /** A code point is decoded from its encoding, whatever follows. */
  lemma DecodesEncoded(cp: nat, rest: seq<byte>)
    requires IsCodePointValid(cp)
    ensures var s := Encode(cp) + rest;
            Verdict(s) == UTF8_OK && SequenceLength(s[0]) == |Encode(cp)| && Value(s, |Encode(cp)|) == cp
  {
    hide Trails;
    var s := Encode(cp) + rest;
    EncodedBytes(cp);
    TrailsFull(s, |Encode(cp)|);
  }

  lemma EncodedBytes(cp: nat)
    requires IsCodePointValid(cp)
    ensures var s := Encode(cp);
            && SequenceLength(s[0]) == |s| && Value(s, |s|) == cp && !IsTrail(s[0])
            && forall i :: 1 <= i < |s| ==> IsTrail(s[i])
  {
    if cp >= 0x80 {
      if cp < 0x800 {
        EncodedTwo(cp);
      } else if cp < 0x10000 {
        EncodedThree(cp);
      } else {
        EncodedFour(cp);
      }
    }
  }

  lemma EncodedTwo(cp: nat)
    requires 0x80 <= cp < 0x800
    ensures var s: seq<byte> := [0xc0 + cp / 64, 0x80 + cp % 64];
            SequenceLength(s[0]) == 2 && Value(s, 2) == cp && !IsTrail(s[0]) && IsTrail(s[1])
  {
  }

  lemma EncodedThree(cp: nat)
    requires 0x800 <= cp < 0x10000
    ensures var s: seq<byte> := [0xe0 + cp / 4096, 0x80 + cp / 64 % 64, 0x80 + cp % 64];
            SequenceLength(s[0]) == 3 && Value(s, 3) == cp && !IsTrail(s[0]) && IsTrail(s[1]) && IsTrail(s[2])
  {
    SplitThree(cp);
  }

  lemma EncodedFour(cp: nat)
    requires 0x10000 <= cp <= CODE_POINT_MAX
    ensures var s: seq<byte> := [0xf0 + cp / 262144, 0x80 + cp / 4096 % 64, 0x80 + cp / 64 % 64, 0x80 + cp % 64];
            && SequenceLength(s[0]) == 4 && Value(s, 4) == cp
            && !IsTrail(s[0]) && IsTrail(s[1]) && IsTrail(s[2]) && IsTrail(s[3])
  {
    SplitFour(cp);
  }

  lemma SplitThree(cp: nat)
    requires cp < 0x10000
    ensures cp == cp / 4096 * 4096 + cp / 64 % 64 * 64 + cp % 64 && cp / 4096 < 16
  {
    assert cp / 64 / 64 == cp / 4096;
  }

  lemma SplitFour(cp: nat)
    requires cp < 0x200000
    ensures cp == cp / 262144 * 262144 + cp / 4096 % 64 * 4096 + cp / 64 % 64 * 64 + cp % 64 && cp / 262144 < 8
  {
    assert cp / 64 / 64 == cp / 4096 && cp / 4096 / 64 == cp / 262144;
  }

  /** What decodes is the encoding of its value. */
  lemma DecodedIsEncoding(s: seq<byte>)
    requires Verdict(s) == UTF8_OK
    ensures var n := SequenceLength(s[0]);
            1 <= n <= |s| && IsCodePointValid(Value(s, n)) && Encode(Value(s, n)) == s[..n]
  {
    hide Trails;
    var n := SequenceLength(s[0]);
    var v := Value(s, n);
    assert forall i :: 1 <= i < n ==> IsTrail(s[i]);
    if n == 2 {
      TwoBytes(s);
    } else if n == 3 {
      ThreeBytes(s);
    } else if n == 4 {
      FourBytes(s);
    }
    assert |Encode(v)| == n;
  }

  lemma TwoBytes(s: seq<byte>)
    requires |s| >= 2 && SequenceLength(s[0]) == 2 && IsTrail(s[1])
    ensures var v := Value(s, 2); 0xc0 + v / 64 == s[0] && 0x80 + v % 64 == s[1]
  {
    Digits(Head(s[0], 32), Tail(s[1]));
  }

  lemma Digits(h: nat, l: nat)
    requires l < 64
    ensures (h * 64 + l) / 64 == h && (h * 64 + l) % 64 == l
  {
  }

  lemma ThreeBytes(s: seq<byte>)
    requires |s| >= 3 && SequenceLength(s[0]) == 3 && IsTrail(s[1]) && IsTrail(s[2])
    ensures var v := Value(s, 3); 0xe0 + v / 4096 == s[0] && 0x80 + v / 64 % 64 == s[1] && 0x80 + v % 64 == s[2]
  {
    var a, b, c := Head(s[0], 16), Tail(s[1]), Tail(s[2]);
    Digits(a, b);
    Digits(a * 64 + b, c);
    assert Value(s, 3) == (a * 64 + b) * 64 + c;
    assert Value(s, 3) / 64 / 64 == Value(s, 3) / 4096;
  }

  lemma FourBytes(s: seq<byte>)
    requires |s| >= 4 && SequenceLength(s[0]) == 4 && IsTrail(s[1]) && IsTrail(s[2]) && IsTrail(s[3])
    ensures var v := Value(s, 4);
            0xf0 + v / 262144 == s[0] && 0x80 + v / 4096 % 64 == s[1] && 0x80 + v / 64 % 64 == s[2] && 0x80 + v % 64 == s[3]
  {
    var a, b, c, d := Head(s[0], 8), Tail(s[1]), Tail(s[2]), Tail(s[3]);
    Digits(a, b);
    Digits(a * 64 + b, c);
    Digits((a * 64 + b) * 64 + c, d);
    var v := Value(s, 4);
    assert v == ((a * 64 + b) * 64 + c) * 64 + d;
    assert v / 64 / 64 == v / 4096 && v / 4096 / 64 == v / 262144;
  }

  /** Decoding succeeds exactly on what begins with the encoding of a valid code
      point, and gives that code point. */
  lemma DecodesExactly(s: seq<byte>, cp: nat)
    requires IsCodePointValid(cp)
    ensures Encode(cp) <= s <==> Verdict(s) == UTF8_OK && |Encode(cp)| == SequenceLength(s[0]) && Value(s, |Encode(cp)|) == cp
  {
    hide Encode, Trails, Value, Verdict, SequenceLength;
    if Encode(cp) <= s {
      assert s == Encode(cp) + s[|Encode(cp)|..];
      DecodesEncoded(cp, s[|Encode(cp)|..]);
    }
    if Verdict(s) == UTF8_OK {
      DecodedIsEncoding(s);
    }
  }

  // ---------- the shortest form, and the grammar ----------

  /** A sequence of the announced length stands for the code point; it need not be
      the shortest. */
  predicate StandsFor(s: seq<byte>, cp: nat)
  {
    s != [] && |s| == SequenceLength(s[0]) && (forall i :: 1 <= i < |s| ==> IsTrail(s[i])) && Value(s, |s|) == cp
  }

  /** The encoding is a shortest sequence for its code point. */
  lemma Shortest(cp: nat, s: seq<byte>)
    requires IsCodePointValid(cp) && StandsFor(s, cp)
    ensures StandsFor(Encode(cp), cp) && |Encode(cp)| <= |s|
  {
    EncodedBytes(cp);
  }

  /** The ranges of section 3 of RFC 3629. */
  lemma Lengths(cp: nat)
    requires IsCodePointValid(cp)
    ensures |Encode(cp)| <= 1 <==> cp <= 0x7F
    ensures |Encode(cp)| <= 2 <==> cp <= 0x7FF
    ensures |Encode(cp)| <= 3 <==> cp <= 0xFFFF
    ensures cp <= 0xD7FF || 0xE000 <= cp <= 0x10_FFFF
  {
  }

  /** UTF8-tail of the grammar */
  predicate InTail(b: byte) { 0x80 <= b <= 0xBF }

  /** UTF8-2, UTF8-3 and UTF8-4 of the grammar of section 4 of RFC 3629 */
  predicate Utf8Two(s: seq<byte>)
  {
    |s| >= 2 && 0xC2 <= s[0] <= 0xDF && InTail(s[1])
  }

  predicate Utf8Three(s: seq<byte>)
  {
    |s| >= 3 && InTail(s[2]) &&
    (|| (s[0] == 0xE0 && 0xA0 <= s[1] <= 0xBF) || (0xE1 <= s[0] <= 0xEC && InTail(s[1]))
     || (s[0] == 0xED && 0x80 <= s[1] <= 0x9F) || (0xEE <= s[0] <= 0xEF && InTail(s[1])))
  }

  predicate Utf8Four(s: seq<byte>)
  {
    |s| >= 4 && InTail(s[2]) && InTail(s[3]) &&
    (|| (s[0] == 0xF0 && 0x90 <= s[1] <= 0xBF) || (0xF1 <= s[0] <= 0xF3 && InTail(s[1]))
     || (s[0] == 0xF4 && 0x80 <= s[1] <= 0x8F))
  }

  /** s begins with a UTF8-char of the grammar. */
  predicate Utf8Char(s: seq<byte>)
  {
    (s != [] && s[0] <= 0x7F) || Utf8Two(s) || Utf8Three(s) || Utf8Four(s)
  }

  /** The decoder takes exactly the characters of the grammar. */
  lemma Grammar(s: seq<byte>)
    ensures Verdict(s) == UTF8_OK <==> Utf8Char(s)
  {
    hide Value;
    if s != [] {
      match SequenceLength(s[0]) {
        case 0 =>
        case 1 => OneChar(s);
        case 2 => TwoChar(s);
        case 3 => ThreeChar(s);
        case _ => FourChar(s);
      }
    }
  }

  lemma OneChar(s: seq<byte>)
    requires s != [] && SequenceLength(s[0]) == 1
    ensures Verdict(s) == UTF8_OK && s[0] <= 0x7F
  {
  }

  lemma TailRange(b: byte)
    ensures IsTrail(b) <==> InTail(b)
    ensures InTail(b) ==> Tail(b) == b - 0x80
  {
  }

  lemma TwoChar(s: seq<byte>)
    requires s != [] && SequenceLength(s[0]) == 2
    ensures Verdict(s) == UTF8_OK <==> Utf8Two(s)
  {
    if |s| >= 2 {
      TailRange(s[1]);
      assert Trails(s, 1) == 0;
    }
  }

  lemma ThreeChar(s: seq<byte>)
    requires s != [] && SequenceLength(s[0]) == 3
    ensures Verdict(s) == UTF8_OK <==> Utf8Three(s)
  {
    if |s| >= 3 {
      TailRange(s[1]);
      TailRange(s[2]);
      assert Trails(s, 1) == 0;
    }
  }

  lemma FourChar(s: seq<byte>)
    requires s != [] && SequenceLength(s[0]) == 4
    ensures Verdict(s) == UTF8_OK <==> Utf8Four(s)
  {
    if |s| >= 4 {
      TailRange(s[1]);
      TailRange(s[2]);
      TailRange(s[3]);
      assert Trails(s, 1) == 0;
    }
  }

  /** Known answers: U+0024, U+0410, U+20AC and U+10348. */
  lemma KnownCodes()
    ensures Encode(0x24) == [0x24] && Encode(0x410) == [0xD0, 0x90]
    ensures Encode(0x20AC) == [0xE2, 0x82, 0xAC] && Encode(0x1_0348) == [0xF0, 0x90, 0x8D, 0x88]
  {
  }

  /** One sequence for each error: no lead byte, text that ends too early, a trail
      byte that is missing, a form that is too long, a surrogate, and a number that
      is too large. */
  lemma KnownErrors(rest: seq<byte>)
    ensures Verdict([0x80] + rest) == INVALID_LEAD && Verdict([0xFF] + rest) == INVALID_LEAD
    ensures Verdict([]) == NOT_ENOUGH_ROOM && Verdict([0xE2, 0x82]) == NOT_ENOUGH_ROOM
    ensures Verdict([0xC3, 0x41] + rest) == INCOMPLETE_SEQUENCE
    ensures Verdict([0xE0, 0x80, 0x80] + rest) == OVERLONG_SEQUENCE
    ensures Verdict([0xED, 0xA0, 0x80] + rest) == INVALID_CODE_POINT
    ensures Verdict([0xF4, 0x90, 0x80, 0x80] + rest) == INVALID_CODE_POINT
  {
    NoTrail([0xE2, 0x82]);
    NoTrail([0xC3, 0x41] + rest);
    NoTrail([0xE0, 0x80, 0x80] + rest);
    NoTrail([0xED, 0xA0, 0x80] + rest);
    NoTrail([0xF4, 0x90, 0x80, 0x80] + rest);
  }

  lemma NoTrail(s: seq<byte>)
    requires s != []
    ensures Trails(s, 1) == 0
    ensures Trails(s, 2) == if |s| > 1 && IsTrail(s[1]) then 1 else 0
    ensures Trails(s, 3) == if Trails(s, 2) == 1 && |s| > 2 && IsTrail(s[2]) then 2 else Trails(s, 2)
    ensures Trails(s, 4) == if Trails(s, 3) == 2 && |s| > 3 && IsTrail(s[3]) then 3 else Trails(s, 3)
  {
    assert Trails(s, 1) == 0;
    assert Trails(s, 2) == if |s| > 1 && IsTrail(s[1]) then 1 else 0;
  }

  // ---------- decoding ----------

  /** increase_safely() */
  method IncreaseSafely(buf: seq<byte>, it0: nat) returns (err: Error, it: nat)
    requires it0 < |buf|
    ensures it == it0 + 1
    ensures err == if it == |buf| then NOT_ENOUGH_ROOM else if IsTrail(buf[it]) then UTF8_OK else INCOMPLETE_SEQUENCE
  {
    it := it0 + 1;
    if it == |buf| { return NOT_ENOUGH_ROOM, it; }
    if !IsTrail(buf[it]) { return INCOMPLETE_SEQUENCE, it; }
    err := UTF8_OK;
  }

  /** What get_sequence_n finds: all bytes, or what is wrong with the first missing one. */
  predicate Got(s: seq<byte>, n: nat, err: Error, cp: nat, at: nat)
    requires s != []
  {
    if Trails(s, n) < n - 1 then err == if Trails(s, n) + 1 == |s| then NOT_ENOUGH_ROOM else INCOMPLETE_SEQUENCE
    else 1 <= n <= |s| && err == UTF8_OK && cp == Value(s, n) && at == n - 1
  }

  method GetSequence1(buf: seq<byte>, it0: nat) returns (err: Error, it: nat, cp: nat)
    requires it0 < |buf|
    ensures it0 <= it <= |buf| && Got(buf[it0..], 1, err, cp, it - it0)
  {
    it := it0;
    cp := buf[it];
    err := UTF8_OK;
  }

  method GetSequence2(buf: seq<byte>, it0: nat) returns (err: Error, it: nat, cp: nat)
    requires it0 < |buf|
    ensures it0 <= it <= |buf| && Got(buf[it0..], 2, err, cp, it - it0)
  {
    ghost var s := buf[it0..];
    it := it0;
    cp := buf[it];
    assert Trails(s, 1) == 0;
    err, it := IncreaseSafely(buf, it);
    if err != UTF8_OK { return; }
    MaskTwo(cp);
    cp := (cp * 64) % 0x800 + buf[it] % 64;
  }

  lemma MaskTwo(x: nat)
    ensures (x * 64) % 0x800 == x % 32 * 64
  {
    var q, r := x / 32, x % 32;
    assert x * 64 == 0x800 * q + r * 64;
    assert (0x800 * q + r * 64) % 0x800 == r * 64;
  }

  method GetSequence3(buf: seq<byte>, it0: nat) returns (err: Error, it: nat, cp: nat)
    requires it0 < |buf|
    ensures it0 <= it <= |buf| && Got(buf[it0..], 3, err, cp, it - it0)
  {
    ghost var s := buf[it0..];
    it := it0;
    cp := buf[it];
    assert Trails(s, 1) == 0;
    err, it := IncreaseSafely(buf, it);
    if err != UTF8_OK { return; }
    MaskThree(cp, buf[it]);
    cp := (cp * 4096) % 0x10000 + (buf[it] as nat * 64) % 0x1000;
    assert Trails(s, 2) == 1;
    err, it := IncreaseSafely(buf, it);
    if err != UTF8_OK { return; }
    cp := cp + buf[it] % 64;
  }

  lemma MaskThree(x: nat, y: nat)
    ensures (x * 4096) % 0x10000 == x % 16 * 4096 && (y * 64) % 0x1000 == y % 64 * 64
  {
    var q, r := x / 16, x % 16;
    assert x * 4096 == 0x10000 * q + r * 4096;
    assert (0x10000 * q + r * 4096) % 0x10000 == r * 4096;
    var t, u := y / 64, y % 64;
    assert y * 64 == 0x1000 * t + u * 64;
    assert (0x1000 * t + u * 64) % 0x1000 == u * 64;
  }

  method GetSequence4(buf: seq<byte>, it0: nat) returns (err: Error, it: nat, cp: nat)
    requires it0 < |buf|
    ensures it0 <= it <= |buf| && Got(buf[it0..], 4, err, cp, it - it0)
  {
    ghost var s := buf[it0..];
    it := it0;
    cp := buf[it];
    assert Trails(s, 1) == 0;
    err, it := IncreaseSafely(buf, it);
    if err != UTF8_OK { return; }
    MaskFour(cp, buf[it]);
    cp := (cp * 262144) % 0x20_0000 + (buf[it] as nat * 4096) % 0x4_0000;
    assert Trails(s, 2) == 1;
    err, it := IncreaseSafely(buf, it);
    if err != UTF8_OK { return; }
    MaskThree(0, buf[it]);
    cp := cp + (buf[it] as nat * 64) % 0x1000;
    assert Trails(s, 3) == 2;
    err, it := IncreaseSafely(buf, it);
    if err != UTF8_OK { return; }
    cp := cp + buf[it] % 64;
  }

  lemma MaskFour(x: nat, y: nat)
    ensures (x * 262144) % 0x20_0000 == x % 8 * 262144 && (y * 4096) % 0x4_0000 == y % 64 * 4096
  {
    assert x * 262144 == 0x20_0000 * (x / 8) + x % 8 * 262144;
    assert y * 4096 == 0x4_0000 * (y / 64) + y % 64 * 4096;
  }

  /** is_overlong_sequence(): the length is not that of the shortest form. */
  predicate IsOverlong(cp: nat, length: nat)
  {
    if cp < 0x80 then length != 1 else if cp < 0x800 then length != 2 else if cp < 0x10000 then length != 3 else false
  }

  lemma OverlongIs(cp: nat, length: nat)
    requires IsCodePointValid(cp) && 1 <= length <= 4 && (cp >= 0x10000 ==> length == 4)
    ensures IsOverlong(cp, length) <==> |Encode(cp)| != length
  {
  }

  /** validate_next(): on failure the position and the code point stay as they were. */
  method ValidateNext(buf: seq<byte>, it0: nat, codePoint0: nat) returns (err: Error, it: nat, codePoint: nat)
    requires it0 <= |buf|
    ensures err == Verdict(buf[it0..])
    ensures err != UTF8_OK ==> it == it0 && codePoint == codePoint0
    ensures err == UTF8_OK ==> it0 < it <= |buf| && IsCodePointValid(codePoint) && buf[it0..it] == Encode(codePoint)
  {
    hide Encode, Trails, Value;
    it, codePoint := it0, codePoint0;
    if it == |buf| { return NOT_ENOUGH_ROOM, it, codePoint; }
    ghost var s := buf[it0..];
    var cp := 0;
    var length := SequenceLength(buf[it]);
    match length {
      case 0 => return INVALID_LEAD, it, codePoint;
      case 1 => err, it, cp := GetSequence1(buf, it);
      case 2 => err, it, cp := GetSequence2(buf, it);
      case 3 => err, it, cp := GetSequence3(buf, it);
      case _ => err, it, cp := GetSequence4(buf, it);
    }
    if err == UTF8_OK {
      ValueBound(s, length);
      if IsCodePointValid(cp) {
        OverlongIs(cp, length);
        if !IsOverlong(cp, length) {
          DecodedIsEncoding(s);
          codePoint := cp;
          it := it + 1;
          assert buf[it0..it] == s[..length];
          return UTF8_OK, it, codePoint;
        } else {
          err := OVERLONG_SEQUENCE;
        }
      } else {
        err := INVALID_CODE_POINT;
      }
    }
    it := it0;
  }

  lemma ValueBound(s: seq<byte>, n: nat)
    requires 1 <= n <= |s| && n <= 4 && n == SequenceLength(s[0])
    ensures Value(s, n) >= 0x10000 ==> n == 4
  {
  }

  // ---------- valid text ----------

  lemma EncodePush(cps: seq<nat>, cp: nat)
    requires AllValid(cps) && IsCodePointValid(cp)
    ensures AllValid(cps + [cp]) && EncodeAll(cps + [cp]) == EncodeAll(cps) + Encode(cp)
  {
    hide Encode, IsCodePointValid;
    assert (cps + [cp])[..|cps|] == cps;
  }

  lemma EncodeNone()
    ensures AllValid([]) && EncodeAll([]) == []
  {
  }

  lemma {:induction false} EncodeConcat(a: seq<nat>, b: seq<nat>)
    requires AllValid(a) && AllValid(b)
    ensures AllValid(a + b) && EncodeAll(a + b) == EncodeAll(a) + EncodeAll(b)
    decreases |b|
  {
    hide Encode, EncodeAll, IsCodePointValid;
    if b == [] {
      EncodeNone();
      assert a + b == a;
    } else {
      var c, x := b[..|b| - 1], b[|b| - 1];
      assert a + b == (a + c) + [x] && b == c + [x];
      EncodeConcat(a, c);
      EncodePush(a + c, x);
      EncodePush(c, x);
      assert EncodeAll(a) + EncodeAll(c) + Encode(x) == EncodeAll(a) + (EncodeAll(c) + Encode(x));
    }
  }

  lemma EncodeOne(cp: nat)
    requires IsCodePointValid(cp)
    ensures AllValid([cp]) && EncodeAll([cp]) == Encode(cp)
  {
    hide Encode;
    assert [cp][..0] == [];
  }

  /** Text that begins with a code point goes on as text. */
  lemma FirstCode(cps: seq<nat>)
    requires AllValid(cps) && cps != []
    ensures AllValid(cps[1..]) && EncodeAll(cps) == Encode(cps[0]) + EncodeAll(cps[1..])
  {
    hide Encode;
    EncodeOne(cps[0]);
    EncodeConcat([cps[0]], cps[1..]);
    assert [cps[0]] + cps[1..] == cps;
  }

  /** Different code points never encode to the same text. */
  lemma {:induction false} EncodeInjective(a: seq<nat>, b: seq<nat>)
    requires AllValid(a) && AllValid(b) && EncodeAll(a) == EncodeAll(b)
    ensures a == b
    decreases |a|
  {
    hide Encode, Verdict, Value;
    if a != [] { FirstCode(a); }
    if b != [] { FirstCode(b); }
    if a != [] && b != [] {
      DecodesEncoded(a[0], EncodeAll(a[1..]));
      DecodesEncoded(b[0], EncodeAll(b[1..]));
      assert EncodeAll(a)[|Encode(a[0])|..] == EncodeAll(a[1..]);
      assert EncodeAll(b)[|Encode(b[0])|..] == EncodeAll(b[1..]);
      EncodeInjective(a[1..], b[1..]);
      assert a == [a[0]] + a[1..] && b == [b[0]] + b[1..];
    }
  }

  /** find_invalid(): the end of the longest valid text at the beginning. */
  method FindInvalid(buf: seq<byte>) returns (r: nat, ghost cps: seq<nat>)
    ensures r <= |buf| && AllValid(cps) && EncodeAll(cps) == buf[..r]
    ensures r == |buf| || Verdict(buf[r..]) != UTF8_OK
  {
    hide Encode, Verdict;
    r, cps := 0, [];
    while r != |buf|
      invariant r <= |buf| && AllValid(cps) && EncodeAll(cps) == buf[..r]
      decreases |buf| - r
    {
      var err, it, cp := ValidateNext(buf, r, 0);
      if err != UTF8_OK { return; }
      EncodeOne(cp);
      EncodeConcat(cps, [cp]);
      assert buf[..it] == buf[..r] + buf[r..it];
      cps := cps + [cp];
      r := it;
    }
  }

  /** is_valid() */
  method IsValid(buf: seq<byte>) returns (ok: bool)
    ensures ok <==> ValidText(buf)
  {
    hide Encode, Verdict, EncodeAll;
    var r;
    ghost var cps;
    r, cps := FindInvalid(buf);
    ok := r == |buf|;
    if ok {
      assert buf[..r] == buf;
    } else {
      NotText(buf, r, cps);
    }
  }

  /** Where decoding fails after valid text, the whole is not valid text. */
  lemma {:induction false} NotText(buf: seq<byte>, r: nat, cps: seq<nat>)
    requires r <= |buf| && AllValid(cps) && EncodeAll(cps) == buf[..r] && r < |buf| && Verdict(buf[r..]) != UTF8_OK
    ensures !ValidText(buf)
    decreases |cps|
  {
    hide Encode, Verdict, Value;
    forall all | AllValid(all)
      ensures EncodeAll(all) != buf
    {
      if EncodeAll(all) == buf {
        TextSplits(all, cps, buf, r);
      }
    }
  }

  lemma {:induction false} TextSplits(all: seq<nat>, cps: seq<nat>, buf: seq<byte>, r: nat)
    requires AllValid(all) && AllValid(cps) && EncodeAll(all) == buf && r < |buf| && EncodeAll(cps) == buf[..r]
    ensures Verdict(buf[r..]) == UTF8_OK
    decreases |cps|
  {
    hide Encode, Verdict, Value;
    FirstCode(all);
    var c, rest := all[0], EncodeAll(all[1..]);
    DecodesEncoded(c, rest);
    if cps == [] {
      assert buf[r..] == buf;
    } else {
      FirstCode(cps);
      DecodesEncoded(cps[0], EncodeAll(cps[1..]) + buf[r..]);
      assert buf == buf[..r] + buf[r..] == Encode(cps[0]) + (EncodeAll(cps[1..]) + buf[r..]);
      var n := |Encode(c)|;
      assert buf[n..] == rest && buf[n..] == EncodeAll(cps[1..]) + buf[r..];
      assert rest[..r - n] == EncodeAll(cps[1..]) && rest[r - n..] == buf[r..];
      TextSplits(all[1..], cps[1..], rest, r - n);
    }
  }
}
