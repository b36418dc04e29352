/** Known answers of the two checksums of deps/zlib, on literal bytes, and the
    residue that a CRC-32 leaves after its own checksum (section 8 of RFC 1952,
    section 8.2 of RFC 1950). */
module CheckValues {
  import opened Bits
  import opened XorMath
  import opened Crc32
  import Adler32

  // ---------- registers of 32 bits ----------

  predicate Odd(x: bv32) { x & 1 == 1 }

  function Rest(x: bv32): bv32 { x >> 1 }

  /** The number in a register. */
  function Number(x: bv32): nat
    decreases x
  {
    if x == 0 then 0 else (if Odd(x) then 1 else 0) + 2 * Number(Rest(x))
  }

  lemma Half(x: bv32)
    ensures Number(x) / 2 == Number(Rest(x)) && Number(x) % 2 == if Odd(x) then 1 else 0
    ensures x != 0 ==> Number(x) > 0
    decreases x
  {
    if x != 0 && !Odd(x) {
      Half(Rest(x));
    }
  }

  lemma BitsOf(x: bv32, y: bv32)
    ensures Rest(x) ^ Rest(y) == Rest(x ^ y)
    ensures Odd(x ^ y) == (Odd(x) != Odd(y))
  {
  }

  /** Exclusive or of registers is that of their numbers. */
  lemma {:induction false} XorOf(x: bv32, y: bv32)
    ensures Xor(Number(x), Number(y)) == Number(x ^ y)
    decreases Number(x) + Number(y)
  {
    hide Xor, Odd, Rest;
    BitsOf(x, y);
    if x == 0 && y == 0 {
      XorZero(0);
    } else {
      hide Number;
      Half(x);
      Half(y);
      Half(x ^ y);
      XorOf(Rest(x), Rest(y));
      XorStep(Number(x), Number(y));
      HalvesEqual(Xor(Number(x), Number(y)), Number(x ^ y));
    }
  }

  /** One more hexadecimal digit. */
  lemma Digit(x: bv32, h: bv32, d: nat)
    requires h == x >> 4
    requires d == (if x & 1 == 1 then 1 else 0) + (if x & 2 == 2 then 2 else 0) + (if x & 4 == 4 then 4 else 0) +
                  (if x & 8 == 8 then 8 else 0)
    ensures Number(x) == 16 * Number(h) + d
  {
    hide Number;
    Half(x);
    Half(x >> 1);
    Half(x >> 2);
    Half(x >> 3);
    Parity(x);
  }

  lemma NoDigits()
    ensures Number(0) == 0
  {
  }

  lemma Parity(x: bv32)
    ensures Odd(x >> 1) == (x & 2 == 2) && Odd(x >> 2) == (x & 4 == 4) && Odd(x >> 3) == (x & 8 == 8)
    ensures Rest(x >> 1) == x >> 2 && Rest(x >> 2) == x >> 3 && Rest(x >> 3) == x >> 4
  {
  }

  lemma Sixteenth(x: bv32)
    ensures Number(x) <= 16 * Number(x >> 4) + 15
  {
    hide Number;
    Digit(x, x >> 4, (if x & 1 == 1 then 1 else 0) + (if x & 2 == 2 then 2 else 0) + (if x & 4 == 4 then 4 else 0) +
                     (if x & 8 == 8 then 8 else 0));
  }

  lemma WordNumber(x: bv32)
    ensures Number(x) < 0x1_0000_0000
  {
    hide Number;
    NoDigits();
    var x1 := x >> 4;
    var x2 := x1 >> 4;
    var x3 := x2 >> 4;
    var x4 := x3 >> 4;
    var x5 := x4 >> 4;
    var x6 := x5 >> 4;
    var x7 := x6 >> 4;
    Sixteenth(x);
    Sixteenth(x1);
    Sixteenth(x2);
    Sixteenth(x3);
    Sixteenth(x4);
    Sixteenth(x5);
    Sixteenth(x6);
    Sixteenth(x7);
    assert x7 >> 4 == 0;
  }

  // ---------- the shift register ----------

  function Shift(c: bv32): bv32 { if c & 1 == 1 then 0xEDB8_8320 ^ (c >> 1) else c >> 1 }

  function Shift8(c: bv32): bv32 { Shift(Shift(Shift(Shift(Shift(Shift(Shift(Shift(c)))))))) }

  lemma PolyNumber()
    ensures Number(0xEDB8_8320) == POLY
  {
    hide Number;
    NoDigits();
    Digit(0xE, 0x0, 14);
    Digit(0xED, 0xE, 13);
    Digit(0xEDB, 0xED, 11);
    Digit(0xEDB8, 0xEDB, 8);
    Digit(0xE_DB88, 0xEDB8, 8);
    Digit(0xED_B883, 0xE_DB88, 3);
    Digit(0xEDB_8832, 0xED_B883, 2);
    Digit(0xEDB8_8320, 0xEDB_8832, 0);
  }

  lemma ShiftIs(c: bv32)
    ensures Number(c) < 0x1_0000_0000 && Zero(Number(c)) == Number(Shift(c))
  {
    hide Number, Xor;
    WordNumber(c);
    Half(c);
    PolyNumber();
    XorOf(0xEDB8_8320, c >> 1);
  }

  lemma ShiftNext(c: word, n: nat, d: bv32)
    requires Zeros(c, n) == Number(d)
    ensures Zeros(c, n + 1) == Number(Shift(d))
  {
    hide Number, Zero, Shift;
    ShiftIs(d);
  }

  lemma Shift8Is(c: bv32)
    ensures Number(c) < 0x1_0000_0000 && Zeros(Number(c), 8) == Number(Shift8(c))
  {
    hide Number, Zero, Zeros, Shift;
    WordNumber(c);
    NoZeros(Number(c));
    var c1 := Shift(c);
    var c2 := Shift(c1);
    var c3 := Shift(c2);
    var c4 := Shift(c3);
    var c5 := Shift(c4);
    var c6 := Shift(c5);
    ShiftNext(Number(c), 0, c);
    ShiftNext(Number(c), 1, c1);
    ShiftNext(Number(c), 2, c2);
    ShiftNext(Number(c), 3, c3);
    ShiftNext(Number(c), 4, c4);
    ShiftNext(Number(c), 5, c5);
    ShiftNext(Number(c), 6, c6);
    ShiftNext(Number(c), 7, Shift(c6));
  }

  // ---------- the residue ----------

  lemma OnesNumber()
    ensures Number(0xFFFF_FFFF) == ONES
  {
    hide Number;
    NoDigits();
    Digit(0xF, 0x0, 15);
    Digit(0xFF, 0xF, 15);
    Digit(0xFFF, 0xFF, 15);
    Digit(0xFFFF, 0xFFF, 15);
    Digit(0xF_FFFF, 0xFFFF, 15);
    Digit(0xFF_FFFF, 0xF_FFFF, 15);
    Digit(0xFFF_FFFF, 0xFF_FFFF, 15);
    Digit(0xFFFF_FFFF, 0xFFF_FFFF, 15);
  }

  lemma ResidueNumber()
    ensures Number(0xDEBB_20E3) == 0xDEBB_20E3
  {
    hide Number;
    NoDigits();
    Digit(0xD, 0x0, 13);
    Digit(0xDE, 0xD, 14);
    Digit(0xDEB, 0xDE, 11);
    Digit(0xDEBB, 0xDEB, 11);
    Digit(0xD_EBB2, 0xDEBB, 2);
    Digit(0xDE_BB20, 0xD_EBB2, 0);
    Digit(0xDEB_B20E, 0xDE_BB20, 14);
    Digit(0xDEBB_20E3, 0xDEB_B20E, 3);
  }

  lemma ShiftOnes()
    ensures Shift8(0xFFFF_FFFF) == 0x2DFD_1072 && Shift8(0x2DFD_1072) == 0xBE26_ED00
    ensures Shift8(0xBE26_ED00) == 0xBE_26ED && Shift8(0xBE_26ED) == 0xDEBB_20E3
  {
  }

  /** What all ones become in 32 steps. */
  lemma OnesOut()
    ensures Zeros(ONES, 32) == 0xDEBB_20E3
  {
    hide Number, Zeros, Shift8;
    OnesNumber();
    ResidueNumber();
    ShiftOnes();
    Shift8Is(0xFFFF_FFFF);
    Shift8Is(0x2DFD_1072);
    Shift8Is(0xBE26_ED00);
    Shift8Is(0xBE_26ED);
    ZerosMore(ONES, 8, 8);
    ZerosMore(ONES, 16, 8);
    ZerosMore(ONES, 24, 8);
  }

  /** The four bytes of a word, low byte first. */
  function LowFirst(c: word): (s: seq<byte>)
    ensures |s| == 4
  {
    [c % 0x100, c / 0x100 % 0x100, c / 0x1_0000 % 0x100, c / 0x100_0000]
  }

  lemma {:induction false} AddNot(c: nat, n: nat)
    requires c < Pow2(n)
    ensures Xor(c, Pow2(n) - 1 - c) == Pow2(n) - 1
    decreases n
  {
    if n > 0 {
      AddNot(c / 2, n - 1);
      XorStep(c, Pow2(n) - 1 - c);
    } else {
      XorZero(0);
    }
  }

  /** Any data followed by its own checksum has one and the same checksum. */
  lemma Residue(data: seq<byte>)
    ensures Crc(0, data + LowFirst(Crc(0, data))) == 0x2144_DF1C
  {
    hide Register, Zeros, Little;
    var r := Register(ONES, data);
    var c := Not(r);
    var all := data + LowFirst(c);
    RegisterFour(ONES, all, |data|);
    assert all[..|data|] == data && all[..|data| + 4] == all;
    Whole(c);
    WordSize();
    AddNot(r, 32);
    OnesOut();
  }

  // ---------- check values ----------

  /** The register after one more byte. */
  lemma Push(data: seq<byte>, b: byte, x: bv32, c: bv32, d: bv32)
    requires Register(ONES, data) == Number(c) && Number(x) == b && Shift8(c ^ x) == d
    ensures Register(ONES, data + [b]) == Number(d)
  {
    hide Number, Register, Zeros, Shift8;
    RegisterPush(ONES, data, b);
    XorOf(c, x);
    Shift8Is(c ^ x);
  }

  lemma Figures()
    ensures Number(0x31) == 0x31 && Number(0x32) == 0x32 && Number(0x33) == 0x33
    ensures Number(0x34) == 0x34 && Number(0x35) == 0x35 && Number(0x36) == 0x36
    ensures Number(0x37) == 0x37 && Number(0x38) == 0x38 && Number(0x39) == 0x39
  {
    hide Number;
    NoDigits();
    Digit(3, 0, 3);
    Digit(0x31, 0x3, 1);
    Digit(0x32, 0x3, 2);
    Digit(0x33, 0x3, 3);
    Digit(0x34, 0x3, 4);
    Digit(0x35, 0x3, 5);
    Digit(0x36, 0x3, 6);
    Digit(0x37, 0x3, 7);
    Digit(0x38, 0x3, 8);
    Digit(0x39, 0x3, 9);
  }

  lemma ShiftFigures()
    ensures Shift8(0xFFFF_FFFF ^ 0x31) == 0x7C23_1048 && Shift8(0x7C23_1048 ^ 0x32) == 0xB0AC_BB32
    ensures Shift8(0xB0AC_BB32 ^ 0x33) == 0x77B7_9C2D && Shift8(0x77B7_9C2D ^ 0x34) == 0x641C_1F5C
    ensures Shift8(0x641C_1F5C ^ 0x35) == 0x340A_C5E3 && Shift8(0x340A_C5E3 ^ 0x36) == 0xF68D_2C9E
    ensures Shift8(0xF68D_2C9E ^ 0x37) == 0xAFFC_9660 && Shift8(0xAFFC_9660 ^ 0x38) == 0x651F_2550
    ensures Shift8(0x651F_2550 ^ 0x39) == 0x340B_C6D9
  {
  }

  lemma NoneYet()
    ensures Register(ONES, []) == Number(0xFFFF_FFFF)
  {
    hide Number;
    OnesNumber();
  }

  lemma FirstFour()
    ensures Register(ONES, [0x31, 0x32, 0x33, 0x34]) == Number(0x641C_1F5C)
  {
    hide Number, Register, Shift8;
    NoneYet();
    Figures();
    ShiftFigures();
    assert [] + [0x31] == [0x31];
    Push([], 0x31, 0x31, 0xFFFF_FFFF, 0x7C23_1048);
    assert [0x31] + [0x32] == [0x31, 0x32];
    Push([0x31], 0x32, 0x32, 0x7C23_1048, 0xB0AC_BB32);
    assert [0x31, 0x32] + [0x33] == [0x31, 0x32, 0x33];
    Push([0x31, 0x32], 0x33, 0x33, 0xB0AC_BB32, 0x77B7_9C2D);
    assert [0x31, 0x32, 0x33] + [0x34] == [0x31, 0x32, 0x33, 0x34];
    Push([0x31, 0x32, 0x33], 0x34, 0x34, 0x77B7_9C2D, 0x641C_1F5C);
  }

  lemma LastFive()
    ensures Register(ONES, [0x31, 0x32, 0x33, 0x34, 0x35, 0x36, 0x37, 0x38, 0x39]) == Number(0x340B_C6D9)
  {
    hide Number, Register, Shift8;
    FirstFour();
    Figures();
    ShiftFigures();
    assert [0x31, 0x32, 0x33, 0x34] + [0x35] == [0x31, 0x32, 0x33, 0x34, 0x35];
    Push([0x31, 0x32, 0x33, 0x34], 0x35, 0x35, 0x641C_1F5C, 0x340A_C5E3);
    assert [0x31, 0x32, 0x33, 0x34, 0x35] + [0x36] == [0x31, 0x32, 0x33, 0x34, 0x35, 0x36];
    Push([0x31, 0x32, 0x33, 0x34, 0x35], 0x36, 0x36, 0x340A_C5E3, 0xF68D_2C9E);
    assert [0x31, 0x32, 0x33, 0x34, 0x35, 0x36] + [0x37] == [0x31, 0x32, 0x33, 0x34, 0x35, 0x36, 0x37];
    Push([0x31, 0x32, 0x33, 0x34, 0x35, 0x36], 0x37, 0x37, 0xF68D_2C9E, 0xAFFC_9660);
    assert [0x31, 0x32, 0x33, 0x34, 0x35, 0x36, 0x37] + [0x38] == [0x31, 0x32, 0x33, 0x34, 0x35, 0x36, 0x37, 0x38];
    Push([0x31, 0x32, 0x33, 0x34, 0x35, 0x36, 0x37], 0x38, 0x38, 0xAFFC_9660, 0x651F_2550);
    assert [0x31, 0x32, 0x33, 0x34, 0x35, 0x36, 0x37, 0x38] + [0x39] == [0x31, 0x32, 0x33, 0x34, 0x35, 0x36, 0x37, 0x38, 0x39];
    Push([0x31, 0x32, 0x33, 0x34, 0x35, 0x36, 0x37, 0x38], 0x39, 0x39, 0x651F_2550, 0x340B_C6D9);
  }

  lemma LastNumber()
    ensures Number(0x340B_C6D9) == 0x340B_C6D9
  {
    hide Number;
    NoDigits();
    Digit(0x3, 0x0, 3);
    Digit(0x34, 0x3, 4);
    Digit(0x340, 0x34, 0);
    Digit(0x340B, 0x340, 11);
    Digit(0x3_40BC, 0x340B, 12);
    Digit(0x34_0BC6, 0x3_40BC, 6);
    Digit(0x340_BC6D, 0x34_0BC6, 13);
    Digit(0x340B_C6D9, 0x340_BC6D, 9);
  }

  /** The check value of CRC-32: the figures from 1 to 9. */
  lemma CrcCheck()
    ensures Crc(0, [0x31, 0x32, 0x33, 0x34, 0x35, 0x36, 0x37, 0x38, 0x39]) == 0xCBF4_3926
  {
    hide Register, Number;
    LastFive();
    LastNumber();
  }

  // ---------- Adler-32 ----------

  lemma RawPush(data: seq<byte>, b: byte, s1: nat, s2: nat)
    requires Adler32.Raw(Adler32.Pair(1, 0), data) == Adler32.Pair(s1, s2)
    ensures Adler32.Raw(Adler32.Pair(1, 0), data + [b]) == Adler32.Pair(s1 + b, s2 + s1 + b)
  {
    assert (data + [b])[..|data|] == data;
  }

  /** 1 + 2 + ... + n, and that many b. */
  lemma Triangle(n: nat, b: nat)
    requires n > 0
    ensures n * (n + 1) / 2 * b == (n - 1) * n / 2 * b + n * b && (n - 1) * b + b == n * b
  {
    var t := (n - 1) * n / 2;
    assert n * (n + 1) / 2 == t + n by {
      assert n * (n + 1) == (n - 1) * n + 2 * n;
    }
    assert (t + n) * b == t * b + n * b;
  }

  lemma {:induction false} RawRepeated(b: byte, n: nat)
    ensures Adler32.Raw(Adler32.Pair(1, 0), seq(n, i => b)) == Adler32.Pair(1 + n * b, n + n * (n + 1) / 2 * b)
  {
    if n == 0 {
      RawNone();
    } else {
      hide Adler32.Raw;
      RawRepeated(b, n - 1);
      Triangle(n, b);
      assert seq(n, i => b) == seq(n - 1, i => b) + [b];
      RawPush(seq(n - 1, i => b), b, 1 + (n - 1) * b, n - 1 + (n - 1) * n / 2 * b);
    }
  }

  /** From sums without a modulo to the checksum. */
  lemma AdlerOf(data: seq<byte>, s1: nat, s2: nat)
    requires Adler32.Raw(Adler32.Pair(1, 0), data) == Adler32.Pair(s1, s2)
    ensures Adler32.Adler(1, data) == s1 % 65521 + 0x1_0000 * (s2 % 65521)
  {
    hide Adler32.Raw, Adler32.Sums, Or, Shl;
    Adler32.RawMod(Adler32.Pair(1, 0), data);
  }

  /** n times the same byte, from the starting value 1. */
  lemma AdlerRepeated(b: byte, n: nat)
    ensures Adler32.Adler(1, seq(n, i => b)) ==
            (1 + n * b) % 65521 + 0x1_0000 * ((n + n * (n + 1) / 2 * b) % 65521)
  {
    hide Adler32.Raw, Adler32.Adler;
    RawRepeated(b, n);
    AdlerOf(seq(n, i => b), 1 + n * b, n + n * (n + 1) / 2 * b);
  }

  lemma RawNone()
    ensures Adler32.Raw(Adler32.Pair(1, 0), []) == Adler32.Pair(1, 0)
  {
  }

  /** The nine letters of "Wikipedia". */
  lemma AdlerCheck()
    ensures Adler32.Adler(1, [0x57, 0x69, 0x6B, 0x69, 0x70, 0x65, 0x64, 0x69, 0x61]) == 0x11E6_0398
  {
    hide Adler32.Raw, Adler32.Adler;
    RawNone();
    assert [] + [0x57] == [0x57];
    RawPush([], 0x57, 1, 0);
    assert [0x57] + [0x69] == [0x57, 0x69];
    RawPush([0x57], 0x69, 88, 88);
    assert [0x57, 0x69] + [0x6B] == [0x57, 0x69, 0x6B];
    RawPush([0x57, 0x69], 0x6B, 193, 281);
    assert [0x57, 0x69, 0x6B] + [0x69] == [0x57, 0x69, 0x6B, 0x69];
    RawPush([0x57, 0x69, 0x6B], 0x69, 300, 581);
    assert [0x57, 0x69, 0x6B, 0x69] + [0x70] == [0x57, 0x69, 0x6B, 0x69, 0x70];
    RawPush([0x57, 0x69, 0x6B, 0x69], 0x70, 405, 986);
    assert [0x57, 0x69, 0x6B, 0x69, 0x70] + [0x65] == [0x57, 0x69, 0x6B, 0x69, 0x70, 0x65];
    RawPush([0x57, 0x69, 0x6B, 0x69, 0x70], 0x65, 517, 1503);
    assert [0x57, 0x69, 0x6B, 0x69, 0x70, 0x65] + [0x64] == [0x57, 0x69, 0x6B, 0x69, 0x70, 0x65, 0x64];
    RawPush([0x57, 0x69, 0x6B, 0x69, 0x70, 0x65], 0x64, 618, 2121);
    assert [0x57, 0x69, 0x6B, 0x69, 0x70, 0x65, 0x64] + [0x69] == [0x57, 0x69, 0x6B, 0x69, 0x70, 0x65, 0x64, 0x69];
    RawPush([0x57, 0x69, 0x6B, 0x69, 0x70, 0x65, 0x64], 0x69, 718, 2839);
    assert [0x57, 0x69, 0x6B, 0x69, 0x70, 0x65, 0x64, 0x69] + [0x61] == [0x57, 0x69, 0x6B, 0x69, 0x70, 0x65, 0x64, 0x69, 0x61];
    RawPush([0x57, 0x69, 0x6B, 0x69, 0x70, 0x65, 0x64, 0x69], 0x61, 823, 3662);
    AdlerOf([0x57, 0x69, 0x6B, 0x69, 0x70, 0x65, 0x64, 0x69, 0x61], 920, 4582);
  }
}
