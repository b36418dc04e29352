/** CRC-32 of deps/zlib/crc32.c: tables, word-at-a-time loops for both byte
    orders, and combination of checksums by matrices over GF(2), all against the
    bit-at-a-time definition of section 8 of RFC 1952. */
module Crc32 {
  import opened Bits
  import opened XorMath

  type word = x: nat | x < 0x1_0000_0000

  const POLY: word := 0xEDB88320
  const ONES: word := 0xFFFF_FFFF

  lemma WordSize()
    ensures Pow2(32) == 0x1_0000_0000 && Pow2(8) == 256
  {
    Pow2Values();
    assert Pow2(20) == 0x10_0000;
    assert Pow2(24) == 0x100_0000;
    assert Pow2(28) == 0x1000_0000;
  }

  lemma WordXor(a: word, b: word)
    ensures Xor(a, b) < 0x1_0000_0000
  {
    WordSize();
    XorBound(a, b, 32);
  }

  lemma OctetXor(a: nat, b: nat)
    requires a < 256 && b < 256
    ensures Xor(a, b) < 256
  {
    WordSize();
    XorBound(a, b, 8);
  }

  /** ^ on words */
  function Add(a: word, b: word): word
  {
    WordXor(a, b);
    Xor(a, b)
  }

  /** ~ on words */
  function Not(a: word): word { ONES - a }

  // ---------- the definition ----------

  /** Shift one zero bit into the register. */
  function Zero(c: word): word
  {
    if c % 2 == 1 then Add(POLY, c / 2) else c / 2
  }

  function Zeros(c: word, n: nat): word
  {
    if n == 0 then c else Zero(Zeros(c, n - 1))
  }

  /** Shift the n low bits of x into the register, lowest first. */
  function FeedBits(c: word, x: word, n: nat): word
    decreases n
  {
    if n == 0 then c else FeedBits(Zero(Add(c, x % 2)), x / 2, n - 1)
  }

  /** The register after some bytes, bit by bit. */
  function Register(c: word, data: seq<byte>): word
    decreases |data|
  {
    if data == [] then c else FeedBits(Register(c, data[..|data| - 1]), data[|data| - 1], 8)
  }

  /** The checksum of what has checksum crc, followed by data. */
  function Crc(crc: word, data: seq<byte>): word { Not(Register(Not(crc), data)) }

  // ---------- linearity ----------

  lemma ZeroLinear(a: word, b: word)
    ensures Zero(Add(a, b)) == Add(Zero(a), Zero(b))
  {
    hide Xor;
    XorStep(a, b);
    XorMoves(POLY, a / 2, b / 2);
    XorMoves(a / 2, POLY, b / 2);
  }

  lemma {:induction false} ZerosLinear(a: word, b: word, n: nat)
    ensures Zeros(Add(a, b), n) == Add(Zeros(a, n), Zeros(b, n))
  {
    hide Zero, Add;
    if n > 0 {
      ZerosLinear(a, b, n - 1);
      ZeroLinear(Zeros(a, n - 1), Zeros(b, n - 1));
    }
  }

  lemma {:induction false} ZerosMore(c: word, m: nat, n: nat)
    ensures Zeros(Zeros(c, m), n) == Zeros(c, m + n)
  {
    hide Zero;
    if n > 0 { ZerosMore(c, m, n - 1); }
  }

  lemma ZerosFirst(c: word, n: nat)
    requires n > 0
    ensures Zeros(c, n) == Zeros(Zero(c), n - 1)
  {
    hide Zero;
    ZerosMore(c, 1, n - 1);
    assert Zeros(c, 1) == Zero(Zeros(c, 0));
  }

  lemma {:induction false} ZerosOfZero(n: nat)
    ensures Zeros(0, n) == 0
  {
    if n > 0 { ZerosOfZero(n - 1); }
  }

  lemma FeedStep(c: word, x: word)
    ensures Zero(Add(c, x)) == Add(Zero(Add(c, x % 2)), x / 2)
  {
    hide Xor;
    XorStep(c, x);
    XorStep(c, x % 2);
    XorZero(c / 2);
    XorMoves(POLY, c / 2, x / 2);
  }

  /** Feeding n bits one at a time, or all at once before n zero bits. */
  lemma {:induction false} FeedAll(c: word, x: word, n: nat)
    requires x < Pow2(n)
    ensures FeedBits(c, x, n) == Zeros(Add(c, x), n)
    decreases n
  {
    hide Zero, Xor;
    if n > 0 {
      FeedAll(Zero(Add(c, x % 2)), x / 2, n - 1);
      FeedStep(c, x);
      ZerosFirst(Add(c, x), n);
    } else {
      XorZero(c);
    }
  }

  /** The register after one more byte. */
  lemma RegisterPush(c: word, data: seq<byte>, b: byte)
    ensures Register(c, data + [b]) == Zeros(Add(Register(c, data), b), 8)
  {
    hide Zeros, FeedBits, Add;
    WordSize();
    FeedAll(Register(c, data), b, 8);
    assert (data + [b])[..|data|] == data;
  }

  /** A register whose n low bits are zero is only shifted. */
  lemma {:induction false} ShiftZeros(h: nat, n: nat)
    requires Shl(h, n) < 0x1_0000_0000
    ensures h < 0x1_0000_0000 && Zeros(Shl(h, n), n) == h
    decreases n
  {
    hide Zeros, Add;
    if n > 0 {
      ShlHalf(h, n);
      ShiftZeros(h, n - 1);
      ZerosFirst(Shl(h, n), n);
    } else {
      NoZeros(h);
    }
  }

  lemma NoZeros(c: word)
    ensures Zeros(c, 0) == c
  {
  }

  /** The low byte goes through the register, the rest is shifted. */
  lemma ByteSplit(c: word, n: nat)
    requires n >= 8
    ensures Zeros(c, n) == Add(Zeros(c % 256, n), Zeros(c / 256, n - 8))
  {
    hide Zeros, Add, Xor, Shl, Pow2;
    WordSize();
    ShlByte(c / 256);
    XorDisjoint(c % 256, c / 256, 8);
    AddIs(c % 256, Shl(c / 256, 8));
    ZerosLinear(c % 256, Shl(c / 256, 8), n);
    ShiftZeros(c / 256, 8);
    ZerosMore(Shl(c / 256, 8), 8, n - 8);
  }

  lemma AddIs(a: word, b: word)
    ensures Add(a, b) == Xor(a, b)
  {
  }

  lemma ShlByte(h: nat)
    ensures Shl(h, 8) == 256 * h && Shl(h, 16) == 0x1_0000 * h && Shl(h, 24) == 0x100_0000 * h
  {
    Pow2Values();
    assert Pow2(20) == 0x10_0000;
    assert Pow2(24) == 0x100_0000;
    ShlTimes(h, 8);
    ShlTimes(h, 16);
    ShlTimes(h, 24);
  }

  // ---------- tables ----------

  /** Table k holds the register for each byte followed by k zero bytes; tables 4
      to 7 hold the same with the bytes in reverse order. */
  function Value(k: nat, n: word): word
  {
    if k < 4 then Zeros(n, 8 * (k + 1)) else Swap(Zeros(n, 8 * (k - 3)))
  }

  ghost predicate TablesOk(t: array2<word>)
    reads t
  {
    t.Length0 == 8 && t.Length1 == 256 && forall k, n :: 0 <= k < 8 && 0 <= n < 256 ==> t[k, n] == Value(k, n)
  }

  /** Four bytes of memory as a word, low byte first. */
  function Little(b0: byte, b1: byte, b2: byte, b3: byte): word
  {
    b0 + 256 * (b1 + 256 * (b2 + 256 * b3))
  }

  /** ZSWAP32: (c >> 24) is the new low byte, and so on. */
  function Swap(c: word): word
  {
    Little(c / 0x100_0000, c / 0x1_0000 % 256, c / 0x100 % 256, c % 256)
  }

  /** The exponents of the polynomial, but for 32. */
  function Terms(): (p: seq<nat>)
    ensures |p| == 14 && forall i :: 0 <= i < 14 ==> p[i] < 32 && (i > 0 ==> p[i - 1] < p[i])
  {
    [0, 1, 2, 4, 5, 7, 8, 10, 11, 12, 16, 22, 23, 26]
  }

  /** The register keeps the coefficient of x^e in bit 31 - e. */
  function Pattern(n: nat): nat
    requires n <= 14
  {
    if n == 0 then 0 else Pattern(n - 1) + Pow2(31 - Terms()[n - 1])
  }

  lemma PatternStep(n: nat)
    requires n <= 14
    ensures Pattern(n) == if n == 0 then 0 else Pattern(n - 1) + Pow2(31 - Terms()[n - 1])
  {
  }

  /** The terms so far are all above bit k. */
  lemma {:induction false} PatternHigh(n: nat, k: nat) returns (h: nat)
    requires n <= 14 && (n > 0 ==> k <= 31 - Terms()[n - 1])
    ensures Pattern(n) == Shl(h, k)
    decreases n
  {
    hide Terms, Shl, Pow2, Pattern;
    PatternStep(n);
    if n == 0 {
      h := 0;
      ShlOne(k);
    } else {
      var b := 31 - Terms()[n - 1];
      var g := PatternHigh(n - 1, k);
      h := g + Shl(1, b - k);
      ShlOne(b);
      ShlShl(1, b - k, k);
      ShlAdd(g, Shl(1, b - k), k);
    }
  }

  lemma PatternNext(n: nat)
    requires n < 14
    ensures Or(Pattern(n), Shl(1, 31 - Terms()[n])) == Pattern(n + 1)
  {
    hide Or, Shl, Terms, Pattern;
    PatternStep(n + 1);
    var b := 31 - Terms()[n];
    var h := PatternHigh(n, b + 1);
    ShlOne(b);
    OrDisjoint(Shl(1, b), h, b + 1);
    OrSwap(Pattern(n), Shl(1, b));
  }

  lemma {:induction false} OrSwap(a: nat, b: nat)
    ensures Or(a, b) == Or(b, a)
    decreases a + b
  {
    if a > 0 || b > 0 { OrSwap(a / 2, b / 2); }
  }

  lemma PatternIs()
    ensures Pattern(14) == POLY
  {
    assert Pow2(5) == 0x20 && Pow2(8) == 0x100 && Pow2(9) == 0x200;
    assert Pow2(15) == 0x8000 && Pow2(19) == 0x8_0000 && Pow2(20) == 0x10_0000 && Pow2(21) == 0x20_0000;
    assert Pow2(23) == 0x80_0000 && Pow2(24) == 0x100_0000 && Pow2(26) == 0x400_0000 && Pow2(27) == 0x800_0000;
    assert Pow2(29) == 0x2000_0000 && Pow2(30) == 0x4000_0000 && Pow2(31) == 0x8000_0000;
    assert Pattern(4) == 0xE800_0000;
    assert Pattern(8) == 0xEDA0_0000;
    assert Pattern(11) == 0xEDB8_8000;
  }

  /** poly |= 1 << (31 - p[n]) for all terms */
  method MakePoly() returns (poly: word)
    ensures poly == POLY
  {
    hide Or, Shl, Terms, Pattern;
    PatternIs();
    var sum: nat := 0;
    PatternStep(0);
    for n := 0 to 14
      invariant sum == Pattern(n)
    {
      PatternNext(n);
      sum := Or(sum, Shl(1, 31 - Terms()[n]));
    }
    poly := sum;
  }

  /** make_crc_table() */
  method MakeCrcTable() returns (t: array2<word>)
    ensures fresh(t) && TablesOk(t)
  {
    hide Zeros, Add, Swap;
    var poly := MakePoly();
    t := new word[8, 256];
    for n := 0 to 256
      invariant forall m :: 0 <= m < n ==> t[0, m] == Zeros(m, 8)
    {
      var c: word := n;
      NoZeros(n);
      for k := 0 to 8
        invariant c == Zeros(n, k)
        invariant forall m :: 0 <= m < n ==> t[0, m] == Zeros(m, 8)
      {
        OneZero(n, k);
        c := if c % 2 == 1 then Add(poly, c / 2) else c / 2;
      }
      t[0, n] := c;
    }
    for n := 0 to 256
      invariant forall m :: 0 <= m < 256 ==> t[0, m] == Zeros(m, 8)
      invariant forall j, m :: 0 <= j < 8 && 0 <= m < n ==> t[j, m] == Value(j, m)
    {
      var c := t[0, n];
      t[4, n] := Swap(c);
      for k := 1 to 4
        invariant c == Zeros(n, 8 * k)
        invariant forall m :: 0 <= m < 256 ==> t[0, m] == Zeros(m, 8)
        invariant forall j, m :: 0 <= j < 8 && 0 <= m < n ==> t[j, m] == Value(j, m)
        invariant forall j :: 0 <= j < k || 4 <= j < k + 4 ==> t[j, n] == Value(j, n)
      {
        OneByteMore(n, k);
        c := Add(t[0, c % 256], c / 256);
        t[k, n] := c;
        t[k + 4, n] := Swap(c);
      }
    }
  }

  lemma OneZero(n: word, k: nat)
    ensures var c := Zeros(n, k); Zeros(n, k + 1) == if c % 2 == 1 then Add(POLY, c / 2) else c / 2
  {
  }

  lemma OneByteMore(n: word, k: nat)
    ensures var c := Zeros(n, 8 * k); Zeros(n, 8 * (k + 1)) == Add(Zeros(c % 256, 8), c / 256)
  {
    hide Zeros, Add;
    var c := Zeros(n, 8 * k);
    ZerosMore(n, 8 * k, 8);
    ByteSplit(c, 8);
    NoZeros(c / 256);
  }

  // ---------- a byte at a time ----------

  /** DO1: crc = crc_table[0][(crc ^ b) & 0xff] ^ (crc >> 8) */
  lemma OneByte(c: word, b: byte)
    ensures Add(c, b) % 256 == Xor(c % 256, b) < 256
    ensures Zeros(Add(c, b), 8) == Add(Zeros(Add(c, b) % 256, 8), c / 256)
  {
    hide Zeros, Xor, Shl, Pow2;
    WordSize();
    ShlByte(c / 256);
    ShlByte(0);
    XorLanes(c % 256, c / 256, b, 0, 8);
    OctetXor(c % 256, b);
    XorZero(c / 256);
    ShlByte(Xor(c / 256, 0));
    ByteSplit(Add(c, b), 8);
    NoZeros(c / 256);
  }

  /** The table look-up for one byte, shared by both loops of crc32(). */
  method DoOne(t: array2<word>, c: word, b: byte, ghost c0: word, ghost buf: seq<byte>, ghost i: nat) returns (r: word)
    requires TablesOk(t) && i < |buf| && buf[i] == b && c == Register(c0, buf[..i])
    ensures r == Register(c0, buf[..i + 1])
  {
    hide Zeros, Add, Register, Swap;
    OneByte(c, b);
    RegisterPush(c0, buf[..i], b);
    assert buf[..i + 1] == buf[..i] + [b];
    r := Add(t[0, Add(c, b) % 256], c / 256);
  }

  /** crc32() without word access. */
  method Crc32ByByte(t: array2<word>, crc: word, buf: seq<byte>) returns (r: word)
    requires TablesOk(t)
    ensures r == Crc(crc, buf)
  {
    hide Register, TablesOk;
    var c, i := Not(crc), 0;
    NoBytes(c, buf);
    while |buf| - i >= 8
      decreases |buf| - i
      invariant i <= |buf| && c == Register(Not(crc), buf[..i])
    {
      var i0 := i;
      for k := 0 to 8
        invariant i == i0 + k && i0 + 8 <= |buf| && c == Register(Not(crc), buf[..i])
      {
        c := DoOne(t, c, buf[i], Not(crc), buf, i);
        i := i + 1;
      }
    }
    while i < |buf|
      invariant i <= |buf| && c == Register(Not(crc), buf[..i])
    {
      c := DoOne(t, c, buf[i], Not(crc), buf, i);
      i := i + 1;
    }
    assert buf[..|buf|] == buf;
    r := Not(c);
  }

  lemma NoBytes(c: word, buf: seq<byte>)
    ensures Register(c, buf[..0]) == c
  {
  }

  // ---------- a word at a time ----------

  /** Four bytes of memory as a word, high byte first. */
  function Big(b0: byte, b1: byte, b2: byte, b3: byte): word { Little(b3, b2, b1, b0) }

  /** A byte can be added n bits early, in higher bits. */
  lemma Earlier(c: word, x: word, y: nat, n: nat)
    requires x < Pow2(n) && x + Shl(y, n) < 0x1_0000_0000
    ensures y < 0x1_0000_0000 && Add(Zeros(Add(c, x), n), y) == Zeros(Add(c, x + Shl(y, n)), n)
  {
    hide Zeros, Xor, Shl, Pow2;
    ShiftZeros(y, n);
    XorDisjoint(x, y, n);
    XorMoves(c, x, Shl(y, n));
    ZerosLinear(Add(c, x), Shl(y, n), n);
  }

  /** Four bytes are one word. */
  lemma FourBytes(c: word, b0: byte, b1: byte, b2: byte, b3: byte)
    ensures var c1 := Zeros(Add(c, b0), 8);
            var c2 := Zeros(Add(c1, b1), 8);
            var c3 := Zeros(Add(c2, b2), 8);
            Zeros(Add(c3, b3), 8) == Zeros(Add(c, Little(b0, b1, b2, b3)), 32)
  {
    hide Zeros, Add, Shl, Pow2;
    WordSize();
    Pow2Values();
    Pow24();
    ShlByte(b1);
    ShlByte(b2);
    ShlByte(b3);
    var x1 := b0 + 0x100 * b1;
    var x2 := x1 + 0x1_0000 * b2;
    Earlier(c, b0, b1, 8);
    ZerosMore(Add(c, x1), 8, 8);
    Earlier(c, x1, b2, 16);
    ZerosMore(Add(c, x2), 16, 8);
    Earlier(c, x2, b3, 24);
    ZerosMore(Add(c, Little(b0, b1, b2, b3)), 24, 8);
  }

  lemma Pow24()
    ensures Pow2(24) == 0x100_0000
  {
    Pow2Values();
    assert Pow2(20) == 0x10_0000;
  }

  /** A word goes through four tables at once. */
  lemma FourTables(c: word)
    ensures Zeros(c, 32) == Add(Add(Add(Zeros(c % 256, 32), Zeros(c / 0x100 % 256, 24)), Zeros(c / 0x1_0000 % 256, 16)),
                                Zeros(c / 0x100_0000, 8))
  {
    hide Zeros, Xor;
    ByteSplit(c, 32);
    ByteSplit(c / 256, 24);
    ByteSplit(c / 256 / 256, 16);
    assert c / 256 / 256 == c / 0x1_0000 && c / 256 / 256 / 256 == c / 0x100_0000;
    AddFour(Zeros(c % 256, 32), Zeros(c / 0x100 % 256, 24), Zeros(c / 0x1_0000 % 256, 16), Zeros(c / 0x100_0000, 8));
  }

  lemma AddFour(a: word, b: word, c: word, d: word)
    ensures Add(a, Add(b, Add(c, d))) == Add(Add(Add(a, b), c), d)
  {
    hide Xor;
    XorAssoc(a, b, c);
    XorAssoc(Xor(a, b), c, d);
    XorAssoc(a, b, Xor(c, d));
  }

  lemma RegisterFour(c0: word, buf: seq<byte>, i: nat)
    requires i + 4 <= |buf|
    ensures Register(c0, buf[..i + 4]) ==
            Zeros(Add(Register(c0, buf[..i]), Little(buf[i], buf[i + 1], buf[i + 2], buf[i + 3])), 32)
  {
    hide Register, Zeros, Add, Little;
    assert buf[..i + 1] == buf[..i] + [buf[i]];
    assert buf[..i + 2] == buf[..i + 1] + [buf[i + 1]];
    assert buf[..i + 3] == buf[..i + 2] + [buf[i + 2]];
    assert buf[..i + 4] == buf[..i + 3] + [buf[i + 3]];
    RegisterPush(c0, buf[..i], buf[i]);
    RegisterPush(c0, buf[..i + 1], buf[i + 1]);
    RegisterPush(c0, buf[..i + 2], buf[i + 2]);
    RegisterPush(c0, buf[..i + 3], buf[i + 3]);
    FourBytes(Register(c0, buf[..i]), buf[i], buf[i + 1], buf[i + 2], buf[i + 3]);
  }

  /** DOLIT4 */
  method DoLittle4(t: array2<word>, c0: word, w: word) returns (c: word)
    requires TablesOk(t)
    ensures c == Zeros(Add(c0, w), 32)
  {
    hide Zeros, Add, Swap;
    c := Add(c0, w);
    FourTables(c);
    c := Add(Add(Add(t[3, c % 256], t[2, c / 0x100 % 256]), t[1, c / 0x1_0000 % 256]), t[0, c / 0x100_0000]);
  }

  /** crc32_little(): bytes up to an aligned address, words, and the rest. */
  method Crc32Little(t: array2<word>, crc: word, buf: seq<byte>, address: nat) returns (r: word)
    requires TablesOk(t)
    ensures r == Crc(crc, buf)
  {
    hide Register, TablesOk, Zeros, Add;
    var c, i := Not(crc), 0;
    NoBytes(c, buf);
    while i < |buf| && (address + i) % 4 != 0
      invariant i <= |buf| && c == Register(Not(crc), buf[..i])
    {
      c := DoOne(t, c, buf[i], Not(crc), buf, i);
      i := i + 1;
    }
    while |buf| - i >= 32
      decreases |buf| - i
      invariant i <= |buf| && c == Register(Not(crc), buf[..i])
    {
      var i0 := i;
      for k := 0 to 8
        invariant i == i0 + 4 * k && i0 + 32 <= |buf| && c == Register(Not(crc), buf[..i])
      {
        RegisterFour(Not(crc), buf, i);
        c := DoLittle4(t, c, Little(buf[i], buf[i + 1], buf[i + 2], buf[i + 3]));
        i := i + 4;
      }
    }
    while |buf| - i >= 4
      invariant i <= |buf| && c == Register(Not(crc), buf[..i])
    {
      RegisterFour(Not(crc), buf, i);
      c := DoLittle4(t, c, Little(buf[i], buf[i + 1], buf[i + 2], buf[i + 3]));
      i := i + 4;
    }
    while i < |buf|
      invariant i <= |buf| && c == Register(Not(crc), buf[..i])
    {
      c := DoOne(t, c, buf[i], Not(crc), buf, i);
      i := i + 1;
    }
    assert buf[..|buf|] == buf;
    r := Not(c);
  }

  // ---------- the other byte order ----------

  /** A word is its bytes. */
  lemma Whole(c: word)
    ensures c / 0x100_0000 < 256 && Little(c % 256, c / 0x100 % 256, c / 0x1_0000 % 256, c / 0x100_0000) == c
  {
    assert c / 0x100 / 0x100 == c / 0x1_0000 && c / 0x1_0000 / 0x100 == c / 0x100_0000;
  }

  lemma Parts(b0: byte, b1: byte, b2: byte, b3: byte)
    ensures var c := Little(b0, b1, b2, b3);
            c % 256 == b0 && c / 0x100 % 256 == b1 && c / 0x1_0000 % 256 == b2 && c / 0x100_0000 == b3
  {
    var c := Little(b0, b1, b2, b3);
    var h1, h2 := b1 + 256 * (b2 + 256 * b3), b2 + 256 * b3;
    assert c / 0x100 == h1 && h1 / 0x100 == h2 && h2 / 0x100 == b3;
    assert c / 0x1_0000 == c / 0x100 / 0x100 && c / 0x100_0000 == c / 0x100 / 0x100 / 0x100;
  }

  lemma SwapOf(b0: byte, b1: byte, b2: byte, b3: byte)
    ensures Swap(Little(b0, b1, b2, b3)) == Little(b3, b2, b1, b0)
  {
    hide Little;
    Parts(b0, b1, b2, b3);
  }

  lemma SwapTwice(c: word)
    ensures Swap(Swap(c)) == c && Swap(Not(c)) == Not(Swap(c))
    ensures Swap(c) % 256 == c / 0x100_0000 && Swap(c) / 0x100 % 256 == c / 0x1_0000 % 256
    ensures Swap(c) / 0x1_0000 % 256 == c / 0x100 % 256 && Swap(c) / 0x100_0000 == c % 256
  {
    hide Little, Swap, Not;
    var b0, b1, b2, b3 := c % 256, c / 0x100 % 256, c / 0x1_0000 % 256, c / 0x100_0000;
    Whole(c);
    SwapOf(b0, b1, b2, b3);
    SwapOf(b3, b2, b1, b0);
    Parts(b3, b2, b1, b0);
    SwapOf(255 - b0, 255 - b1, 255 - b2, 255 - b3);
    NotBytes(b0, b1, b2, b3);
    NotBytes(b3, b2, b1, b0);
  }

  lemma NotBytes(b0: byte, b1: byte, b2: byte, b3: byte)
    ensures Not(Little(b0, b1, b2, b3)) == Little(255 - b0, 255 - b1, 255 - b2, 255 - b3)
  {
  }

  /** Shifting right is shifting left in the other order. */
  lemma SwapShift(c: word)
    ensures Swap(c / 256) == Swap(c) * 256 % 0x1_0000_0000
  {
    hide Swap, Little;
    var b0, b1, b2, b3 := c % 256, c / 0x100 % 256, c / 0x1_0000 % 256, c / 0x100_0000;
    Whole(c);
    SwapOf(b0, b1, b2, b3);
    SwapOf(b1, b2, b3, 0);
    Shifted(b0, b1, b2, b3);
    Shifted(0, b3, b2, b1);
    LeftShift(b3, b2, b1, b0);
  }

  lemma Shifted(b0: byte, b1: byte, b2: byte, b3: byte)
    ensures Little(b0, b1, b2, b3) / 256 == Little(b1, b2, b3, 0)
  {
  }

  lemma LeftShift(b0: byte, b1: byte, b2: byte, b3: byte)
    ensures Little(b0, b1, b2, b3) * 256 % 0x1_0000_0000 == Little(0, b0, b1, b2)
  {
    var x := Little(0, b0, b1, b2);
    assert Little(b0, b1, b2, b3) * 256 == x + 0x1_0000_0000 * b3;
  }

  lemma SwapLinear(a: word, b: word)
    ensures Swap(Add(a, b)) == Add(Swap(a), Swap(b))
  {
    hide Xor, Swap, Little, Add;
    var a0, a1, a2, a3 := a % 256, a / 0x100 % 256, a / 0x1_0000 % 256, a / 0x100_0000;
    var b0, b1, b2, b3 := b % 256, b / 0x100 % 256, b / 0x1_0000 % 256, b / 0x100_0000;
    Whole(a);
    Whole(b);
    LittleLanes(a0, a1, a2, a3, b0, b1, b2, b3);
    LittleLanes(a3, a2, a1, a0, b3, b2, b1, b0);
    SwapOf(a0, a1, a2, a3);
    SwapOf(b0, b1, b2, b3);
    SwapOf(Xor(a0, b0), Xor(a1, b1), Xor(a2, b2), Xor(a3, b3));
  }

  /** Words are added byte by byte. */
  lemma LittleLanes(a0: byte, a1: byte, a2: byte, a3: byte, b0: byte, b1: byte, b2: byte, b3: byte)
    ensures Xor(a0, b0) < 256 && Xor(a1, b1) < 256 && Xor(a2, b2) < 256 && Xor(a3, b3) < 256
    ensures Add(Little(a0, a1, a2, a3), Little(b0, b1, b2, b3)) ==
            Little(Xor(a0, b0), Xor(a1, b1), Xor(a2, b2), Xor(a3, b3))
  {
    hide Xor, Little, Add;
    OctetXor(a0, b0);
    OctetXor(a1, b1);
    OctetXor(a2, b2);
    OctetXor(a3, b3);
    FourLanes(a0, a1, a2, a3, b0, b1, b2, b3, Xor(a0, b0), Xor(a1, b1), Xor(a2, b2), Xor(a3, b3));
    AddIs(Little(a0, a1, a2, a3), Little(b0, b1, b2, b3));
  }

  lemma FourLanes(a0: byte, a1: byte, a2: byte, a3: byte, b0: byte, b1: byte, b2: byte, b3: byte,
                  x0: byte, x1: byte, x2: byte, x3: byte)
    requires Xor(a0, b0) == x0 && Xor(a1, b1) == x1 && Xor(a2, b2) == x2 && Xor(a3, b3) == x3
    ensures Xor(Little(a0, a1, a2, a3), Little(b0, b1, b2, b3)) == Little(x0, x1, x2, x3)
  {
    hide Xor;
    OneLane(a2, a3, b2, b3, x3);
    OneLane(a1, a2 + 256 * a3, b1, b2 + 256 * b3, x2 + 256 * x3);
    OneLane(a0, a1 + 256 * (a2 + 256 * a3), b0, b1 + 256 * (b2 + 256 * b3), x1 + 256 * (x2 + 256 * x3));
  }

  lemma OneLane(l: byte, h: nat, l': byte, h': nat, x: nat)
    requires Xor(h, h') == x
    ensures Xor(l + 256 * h, l' + 256 * h') == Xor(l, l') + 256 * x
  {
    hide Xor, Shl, Pow2;
    WordSize();
    XorLanes(l, h, l', h', 8);
    ShlByte(h);
    ShlByte(h');
    ShlByte(x);
  }

  /** c = crc_table[4][(c >> 24) ^ b] ^ (c << 8) */
  method DoOneBig(t: array2<word>, c: word, b: byte, ghost c0: word, ghost buf: seq<byte>, ghost i: nat) returns (r: word)
    requires TablesOk(t) && i < |buf| && buf[i] == b && c == Swap(Register(c0, buf[..i]))
    ensures r == Swap(Register(c0, buf[..i + 1]))
  {
    hide Zeros, Add, Register, Swap, Xor;
    ghost var g := Register(c0, buf[..i]);
    OneByte(g, b);
    SwapTwice(g);
    SwapShift(g);
    SwapLinear(Zeros(Xor(g % 256, b), 8), g / 256);
    RegisterPush(c0, buf[..i], b);
    assert buf[..i + 1] == buf[..i] + [b];
    OctetXor(c / 0x100_0000, b);
    r := Add(t[4, Xor(c / 0x100_0000, b)], c * 256 % 0x1_0000_0000);
  }

  /** DOBIG4 */
  method DoBig4(t: array2<word>, c0: word, w: word, ghost g: word, ghost l: word) returns (c: word)
    requires TablesOk(t) && c0 == Swap(g) && w == Swap(l)
    ensures c == Swap(Zeros(Add(g, l), 32))
  {
    hide Zeros, Add, Swap;
    c := Add(c0, w);
    ghost var x := Add(g, l);
    SwapLinear(g, l);
    SwapTwice(x);
    FourTables(x);
    SwapFour(Zeros(x % 256, 32), Zeros(x / 0x100 % 256, 24), Zeros(x / 0x1_0000 % 256, 16), Zeros(x / 0x100_0000, 8));
    c := Add(Add(Add(t[4, c % 256], t[5, c / 0x100 % 256]), t[6, c / 0x1_0000 % 256]), t[7, c / 0x100_0000]);
  }

  lemma SwapFour(a: word, b: word, c: word, d: word)
    ensures Swap(Add(Add(Add(a, b), c), d)) == Add(Add(Add(Swap(d), Swap(c)), Swap(b)), Swap(a))
  {
    hide Xor, Swap;
    SwapLinear(Add(Add(a, b), c), d);
    SwapLinear(Add(a, b), c);
    SwapLinear(a, b);
    var p, q, r, s := Swap(a), Swap(b), Swap(c), Swap(d);
    XorComm(p, q);
    XorAssoc(q, p, r);
    XorComm(Xor(p, q), r);
    XorComm(Xor(Xor(p, q), r), s);
    AddFour(s, r, q, p);
  }

  /** crc32_big() */
  method Crc32Big(t: array2<word>, crc: word, buf: seq<byte>, address: nat) returns (r: word)
    requires TablesOk(t)
    ensures r == Crc(crc, buf)
  {
    hide Register, TablesOk, Zeros, Add, Swap, Not, Little;
    SwapTwice(crc);
    var c, i := Not(Swap(crc)), 0;
    NoBytes(Not(crc), buf);
    while i < |buf| && (address + i) % 4 != 0
      invariant i <= |buf| && c == Swap(Register(Not(crc), buf[..i]))
    {
      c := DoOneBig(t, c, buf[i], Not(crc), buf, i);
      i := i + 1;
    }
    while |buf| - i >= 32
      decreases |buf| - i
      invariant i <= |buf| && c == Swap(Register(Not(crc), buf[..i]))
    {
      var i0 := i;
      for k := 0 to 8
        invariant i == i0 + 4 * k && i0 + 32 <= |buf| && c == Swap(Register(Not(crc), buf[..i]))
      {
        c := DoBigAt(t, c, buf, i, Not(crc));
        i := i + 4;
      }
    }
    while |buf| - i >= 4
      invariant i <= |buf| && c == Swap(Register(Not(crc), buf[..i]))
    {
      c := DoBigAt(t, c, buf, i, Not(crc));
      i := i + 4;
    }
    while i < |buf|
      invariant i <= |buf| && c == Swap(Register(Not(crc), buf[..i]))
    {
      c := DoOneBig(t, c, buf[i], Not(crc), buf, i);
      i := i + 1;
    }
    assert buf[..|buf|] == buf;
    SwapTwice(Register(Not(crc), buf));
    c := Not(c);
    r := Swap(c);
    SwapTwice(Not(Register(Not(crc), buf)));
  }

  /** crc32(), in the byte order of the machine or without word access. */
  method Crc32(t: array2<word>, crc: word, buf: Buf, address: nat, byFour: bool, littleEndian: bool) returns (r: word)
    requires TablesOk(t)
    ensures r == if buf.Null? then 0 else Crc(crc, buf.data)
  {
    hide TablesOk, Crc;
    if buf.Null? { return 0; }
    if byFour && littleEndian {
      r := Crc32Little(t, crc, buf.data, address);
    } else if byFour {
      r := Crc32Big(t, crc, buf.data, address);
    } else {
      r := Crc32ByByte(t, crc, buf.data);
    }
  }

  method DoBigAt(t: array2<word>, c0: word, buf: seq<byte>, i: nat, ghost start: word) returns (c: word)
    requires TablesOk(t) && i + 4 <= |buf| && c0 == Swap(Register(start, buf[..i]))
    ensures c == Swap(Register(start, buf[..i + 4]))
  {
    hide Register, Zeros, Add, Swap, Little;
    RegisterFour(start, buf, i);
    SwapOf(buf[i], buf[i + 1], buf[i + 2], buf[i + 3]);
    c := DoBig4(t, c0, Big(buf[i], buf[i + 1], buf[i + 2], buf[i + 3]), Register(start, buf[..i]),
                Little(buf[i], buf[i + 1], buf[i + 2], buf[i + 3]));
  }

  // ---------- matrices over GF(2) ----------

  const GF2_DIM: nat := 32

  /** Column i of the matrix is what n zero bits make of bit i. */
  ghost predicate Operator(mat: seq<word>, n: nat)
  {
    |mat| == GF2_DIM && forall i :: 0 <= i < GF2_DIM ==> Bit1(i) < 0x1_0000_0000 && mat[i] == Zeros(Bit1(i), n)
  }

  /** 1 << i */
  function Bit1(i: nat): nat { Shl(1, i) }

  /** gf2_matrix_times(): such a matrix applies n zero bits to any word. */
  method MatrixTimes(mat: array<word>, vec0: word, ghost n: nat) returns (sum: word)
    requires mat.Length == GF2_DIM && Operator(mat[..], n)
    ensures sum == Zeros(vec0, n)
  {
    hide Zeros, Add, Operator, Shl;
    sum := 0;
    var vec, i := vec0, 0;
    StartVector(vec0, n);
    while vec != 0
      invariant i <= GF2_DIM && Shl(vec, i) < 0x1_0000_0000 && vec < 0x1_0000_0000
      invariant Add(sum, Zeros(Shl(vec, i), n)) == Zeros(vec0, n)
    {
      ColumnStep(mat[..], vec, i, n, sum);
      if vec % 2 == 1 { sum := Add(sum, mat[i]); }
      vec := vec / 2;
      i := i + 1;
    }
    EndVector(i, n, sum);
  }

  lemma StartVector(v: word, n: nat)
    ensures Shl(v, 0) == v && Add(0, Zeros(v, n)) == Zeros(v, n)
  {
    XorZero(Zeros(v, n));
  }

  lemma EndVector(i: nat, n: nat, sum: word)
    ensures Shl(0, i) == 0 && Add(sum, Zeros(0, n)) == sum
  {
    hide Zeros;
    ShlOne(i);
    ZerosOfZero(n);
    XorZero(sum);
  }

  lemma ColumnStep(mat: seq<word>, vec: word, i: nat, n: nat, sum: word)
    requires Operator(mat, n) && vec != 0 && i <= GF2_DIM && Shl(vec, i) < 0x1_0000_0000
    ensures i < GF2_DIM && Shl(vec / 2, i + 1) < 0x1_0000_0000
    ensures Add(sum, Zeros(Shl(vec, i), n)) ==
            Add(if vec % 2 == 1 then Add(sum, mat[i]) else sum, Zeros(Shl(vec / 2, i + 1), n))
  {
    hide Zeros, Xor, Shl, Pow2;
    ColumnFits(vec, i);
    ShlHalfUp(vec, i);
    if vec % 2 == 1 {
      XorDisjoint(Shl(1, i), vec / 2, i + 1);
      AddIs(Shl(1, i), Shl(vec / 2, i + 1));
      ZerosLinear(Shl(1, i), Shl(vec / 2, i + 1), n);
      XorAssoc(sum, mat[i], Zeros(Shl(vec / 2, i + 1), n));
    }
  }

  lemma ColumnFits(vec: word, i: nat)
    requires vec != 0 && Shl(vec, i) < 0x1_0000_0000
    ensures i < GF2_DIM
  {
    hide Shl, Pow2;
    ShlMono(1, vec, i);
    ShlOne(i);
    WordSize();
    if i >= GF2_DIM { Pow2Mono(GF2_DIM, i); }
  }

  /** The lowest bit and the rest, moved up. */
  lemma ShlHalfUp(vec: nat, i: nat)
    ensures Shl(vec, i) == Shl(vec % 2, i) + Shl(vec / 2, i + 1) && Shl(0, i) == 0 && Shl(1, i) < Pow2(i + 1)
  {
    hide Shl;
    ShlOne(i);
    ShlAdd(vec % 2, 2 * (vec / 2), i);
    ShlShl(vec / 2, 1, i);
    TwiceUp(vec / 2);
  }

  lemma TwiceUp(x: nat)
    ensures Shl(x, 1) == 2 * x
  {
    assert Shl(x, 1) == 2 * Shl(x, 0);
  }

  /** gf2_matrix_square(): twice as many zero bits. */
  method MatrixSquare(square: array<word>, mat: array<word>, ghost n: nat)
    requires mat.Length == GF2_DIM && Operator(mat[..], n) && square.Length == GF2_DIM && square != mat
    modifies square
    ensures Operator(square[..], 2 * n)
  {
    hide Zeros, Shl;
    ghost var m := mat[..];
    for k := 0 to GF2_DIM
      invariant mat[..] == m
      invariant forall i :: 0 <= i < k ==> square[i] == Zeros(Bit1(i), 2 * n)
    {
      var column := MatrixTimes(mat, mat[k], n);
      assert m[k] == mat[k];
      ZerosMore(Bit1(k), n, n);
      square[k] := column;
    }
    assert forall i :: 0 <= i < GF2_DIM ==> Bit1(i) < 0x1_0000_0000 && m[i] == Zeros(Bit1(i), n);
  }

  /** The operator for one zero bit. */
  method OneZeroBit(odd: array<word>)
    requires odd.Length == GF2_DIM
    modifies odd
    ensures Operator(odd[..], 1)
  {
    hide Shl, Xor;
    odd[0] := 0xEDB88320;
    var row: nat := 1;
    FirstColumn();
    for n := 1 to GF2_DIM
      invariant row == Bit1(n - 1)
      invariant forall i :: 0 <= i < n ==> Bit1(i) < 0x1_0000_0000 && odd[i] == Zeros(Bit1(i), 1)
    {
      NextColumn(n);
      odd[n] := row;
      row := 2 * row;
    }
  }

  lemma FirstColumn()
    ensures Bit1(0) == 1 && Zeros(1, 1) == 0xEDB88320
  {
    XorZero(POLY);
    assert Zeros(1, 1) == Zero(Zeros(1, 0));
  }

  lemma NextColumn(n: nat)
    requires 1 <= n < GF2_DIM
    ensures Bit1(n) == 2 * Bit1(n - 1) && Bit1(n) < 0x1_0000_0000 && Zeros(Bit1(n), 1) == Bit1(n - 1)
  {
    hide Xor, Pow2;
    WordSize();
    ShlOne(n);
    Pow2Mono(n, 31);
    Pow2Mono(31, 32);
    assert Zeros(Bit1(n), 1) == Zero(Zeros(Bit1(n), 0));
  }

  /** Appending data to what has been checksummed only shifts the old register
      and adds the new one. */
  lemma {:induction false} RegisterAffine(c: word, d: word, data: seq<byte>)
    ensures Register(Add(c, d), data) == Add(Register(c, data), Zeros(d, 8 * |data|))
    decreases |data|
  {
    hide Zeros, Add, Register;
    if data == [] {
      NoZeros(d);
      EmptyRegister(c);
      EmptyRegister(Add(c, d));
    } else {
      var rest, b := data[..|data| - 1], data[|data| - 1];
      assert data == rest + [b];
      RegisterAffine(c, d, rest);
      RegisterPush(Add(c, d), rest, b);
      RegisterPush(c, rest, b);
      var x, y := Register(c, rest), Zeros(d, 8 * |rest|);
      AddSwap(x, y, b);
      ZerosLinear(Add(x, b), y, 8);
      ZerosMore(d, 8 * |rest|, 8);
    }
  }

  lemma EmptyRegister(c: word)
    ensures Register(c, []) == c
  {
  }

  lemma AddSwap(x: word, y: word, b: word)
    ensures Add(Add(x, y), b) == Add(Add(x, b), y)
  {
    hide Xor;
    XorAssoc(x, y, b);
    XorComm(y, b);
    XorAssoc(x, b, y);
  }

  lemma {:induction false} RegisterConcat(c: word, a: seq<byte>, b: seq<byte>)
    ensures Register(c, a + b) == Register(Register(c, a), b)
    decreases |b|
  {
    hide FeedBits;
    if b == [] {
      assert a + b == a;
    } else {
      assert (a + b)[..|a + b| - 1] == a + b[..|b| - 1];
      RegisterConcat(c, a, b[..|b| - 1]);
    }
  }

  lemma NotIsAdd(a: word)
    ensures Not(a) == Add(a, ONES)
  {
    hide Xor;
    WordSize();
    NotXor(a, 32);
  }

  lemma {:induction false} NotXor(a: nat, n: nat)
    requires a < Pow2(n)
    ensures Xor(a, Pow2(n) - 1) == Pow2(n) - 1 - a
    decreases n
  {
    hide Xor;
    if n > 0 {
      NotXor(a / 2, n - 1);
      assert (Pow2(n) - 1) / 2 == Pow2(n - 1) - 1 && (Pow2(n) - 1) % 2 == 1;
      XorStep(a, Pow2(n) - 1);
    } else {
      XorNone();
    }
  }

  lemma XorNone()
    ensures Xor(0, 0) == 0
  {
  }

  /** The checksum of a concatenation, from the checksums of its parts. */
  lemma CrcConcat(a: seq<byte>, b: seq<byte>)
    ensures Crc(0, a + b) == Add(Zeros(Crc(0, a), 8 * |b|), Crc(0, b))
  {
    hide Zeros, Xor, Not, Register;
    var ra, rb := Register(ONES, a), Register(ONES, b);
    assert Not(0) == ONES by { NotZero(); }
    RegisterConcat(ONES, a, b);
    NotIsAdd(ra);
    XorComm(ra, ONES);
    XorMoves(ra, ONES, ONES);
    var d := Add(ra, ONES);
    assert Add(ONES, d) == ra;
    RegisterAffine(ONES, d, b);
    var z := Zeros(d, 8 * |b|);
    NotIsAdd(Register(ra, b));
    NotIsAdd(rb);
    XorAssoc(rb, z, ONES);
    XorComm(z, ONES);
    XorAssoc(rb, ONES, z);
    XorComm(Add(rb, ONES), z);
  }

  lemma NotZero()
    ensures Not(0) == ONES
  {
  }

  /** crc32_combine_(): crc1 after len2 zero bytes, with crc2 added. */
  method Combine(crc1_0: word, crc2: word, len2_0: int) returns (r: word)
    ensures len2_0 <= 0 ==> r == crc1_0
    ensures len2_0 > 0 ==> r == Add(Zeros(crc1_0, 8 * len2_0), crc2)
  {
    hide Zeros, Add, Operator;
    if len2_0 <= 0 { return crc1_0; }
    var even, odd := new word[GF2_DIM], new word[GF2_DIM];
    OneZeroBit(odd);
    MatrixSquare(even, odd, 1);
    MatrixSquare(odd, even, 2);
    var crc1, len2, n := crc1_0, len2_0, 4;
    while true
      invariant even.Length == odd.Length == GF2_DIM && even != odd
      invariant len2 > 0 && n >= 0 && Operator(odd[..], n) && Zeros(crc1, 2 * n * len2) == Zeros(crc1_0, 8 * len2_0)
      decreases len2
    {
      MatrixSquare(even, odd, n);
      crc1 := ZerosFor(even, crc1, len2, 2 * n);
      len2 := len2 / 2;
      if len2 == 0 { break; }
      MatrixSquare(odd, even, 2 * n);
      crc1 := ZerosFor(odd, crc1, len2, 4 * n);
      len2 := len2 / 2;
      n := 4 * n;
      if len2 == 0 { break; }
    }
    r := Add(crc1, crc2);
  }

  /** One bit of the length: apply the operator if it is set. */
  method ZerosFor(mat: array<word>, crc: word, len: nat, ghost n: nat) returns (r: word)
    requires mat.Length == GF2_DIM && Operator(mat[..], n)
    ensures Zeros(r, 2 * n * (len / 2)) == Zeros(crc, n * len)
    ensures len / 2 == 0 ==> r == Zeros(crc, n * len)
  {
    hide Zeros, Operator;
    r := crc;
    Halve(n, len);
    NoZeros(crc);
    if len % 2 == 1 {
      r := MatrixTimes(mat, crc, n);
      ZerosMore(crc, n, 2 * n * (len / 2));
    }
  }

  lemma Halve(n: nat, len: nat)
    ensures n * len == 2 * n * (len / 2) + (if len % 2 == 1 then n else 0)
    ensures len / 2 == 0 ==> 2 * n * (len / 2) == 0
  {
    assert len == 2 * (len / 2) + len % 2;
    assert n * (2 * (len / 2)) == 2 * n * (len / 2);
    if len % 2 == 1 { assert n * (2 * (len / 2) + 1) == n * (2 * (len / 2)) + n; }
  }

  /** Combining the checksums of two parts gives the checksum of the whole. */
  method CombineParts(a: seq<byte>, b: seq<byte>, crc1: word, crc2: word) returns (r: word)
    requires crc1 == Crc(0, a) && crc2 == Crc(0, b)
    ensures r == Crc(0, a + b)
  {
    hide Crc, Zeros, Add;
    r := Combine(crc1, crc2, |b|);
    CrcConcat(a, b);
    if b == [] {
      assert a + b == a;
    }
  }
}
