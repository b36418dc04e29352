/** Unsigned shifts and masks as C performs them, and little-endian bit strings.
    The first element of a bit string is the first bit on the wire, which is
    also the least significant bit of the number it encodes. */
module Bits {

  type byte = x: int | 0 <= x < 256

  /** What a caller passes for a buffer. */
  datatype Buf = Null | Buf(data: seq<byte>)

  function Pow2(n: nat): (r: nat)
    ensures r >= 1
  {
    if n == 0 then 1 else 2 * Pow2(n - 1)
  }

  /** A number stored in 16 bits. */
  function Ush(x: nat): (r: nat)
    ensures r < 0x1_0000 && (x < 0x1_0000 ==> r == x)
  {
    x % 0x1_0000
  }

  /** x << k, without loss of high bits. */
  function Shl(x: nat, k: nat): nat
  {
    if k == 0 then x else 2 * Shl(x, k - 1)
  }

  /** x >> k. */
  function Shr(x: nat, k: nat): nat
    decreases x, k
  {
    if k == 0 then x else Shr(x / 2, k - 1)
  }

  /** x & ((1 << k) - 1). */
  function Low(x: nat, k: nat): (r: nat)
    decreases x, k
  {
    if k == 0 then 0 else x % 2 + 2 * Low(x / 2, k - 1)
  }

  lemma {:induction false} Pow2Mono(a: nat, b: nat)
    requires a <= b
    ensures Pow2(a) <= Pow2(b)
    ensures a < b ==> 2 * Pow2(a) <= Pow2(b)
    decreases b
  {
    if a < b { Pow2Mono(a, b - 1); }
  }

  lemma Pow2Values()
    ensures Pow2(8) == 0x100 && Pow2(15) == 0x8000 && Pow2(16) == 0x10000
  {
    assert Pow2(4) == 16;
    assert Pow2(8) == 0x100;
    assert Pow2(12) == 0x1000;
    assert Pow2(15) == 0x8000;
  }

  lemma {:induction false} ShlOne(k: nat)
    ensures Shl(1, k) == Pow2(k) && Shl(0, k) == 0
  {
    if k > 0 { ShlOne(k - 1); }
  }

  lemma {:induction false} ShlTimes(x: nat, k: nat)
    ensures Shl(x, k) == x * Pow2(k)
  {
    if k > 0 {
      ShlTimes(x, k - 1);
      assert 2 * (x * Pow2(k - 1)) == x * (2 * Pow2(k - 1));
    }
  }

  lemma {:induction false} ShlAdd(a: nat, b: nat, k: nat)
    ensures Shl(a + b, k) == Shl(a, k) + Shl(b, k)
  {
    if k > 0 { ShlAdd(a, b, k - 1); }
  }

  lemma {:induction false} ShlShl(a: nat, j: nat, k: nat)
    ensures Shl(a, j + k) == Shl(Shl(a, j), k)
  {
    if k > 0 { ShlShl(a, j, k - 1); }
  }

  lemma {:induction false} SumFits(a: nat, m: nat, b: nat, n: nat)
    requires a < Pow2(m) && b < Pow2(n)
    ensures a + Shl(b, m) < Pow2(m + n)
  {
    if m > 0 { SumFits(a / 2, m - 1, b, n); }
  }

  lemma {:induction false} ShlMono(a: nat, b: nat, k: nat)
    requires a <= b
    ensures Shl(a, k) <= Shl(b, k)
    ensures a < b ==> Shl(a, k) + Pow2(k) <= Shl(b, k)
  {
    if k > 0 { ShlMono(a, b, k - 1); }
  }

  lemma {:induction false} LowShr(x: nat, k: nat)
    ensures x == Low(x, k) + Shl(Shr(x, k), k)
    ensures Low(x, k) < Pow2(k)
    decreases k
  {
    if k > 0 { LowShr(x / 2, k - 1); }
  }

  /** A number is split in one way only into k low bits and the rest. */
  lemma {:induction false} LowShrUnique(a: nat, b: nat, k: nat)
    requires a < Pow2(k)
    ensures Low(a + Shl(b, k), k) == a && Shr(a + Shl(b, k), k) == b
    decreases k
  {
    if k > 0 {
      LowShrUnique(a / 2, b, k - 1);
      var x := a + Shl(b, k);
      assert x % 2 == a % 2 && x / 2 == a / 2 + Shl(b, k - 1);
    }
  }

  lemma LowSmall(x: nat, k: nat)
    requires x < Pow2(k)
    ensures Low(x, k) == x && Shr(x, k) == 0
  {
    ShlOne(k);
    LowShrUnique(x, 0, k);
  }

  lemma {:induction false} LowLow(x: nat, j: nat, k: nat)
    requires k <= j
    ensures Low(Low(x, j), k) == Low(x, k)
    ensures Shr(Low(x, j), k) == Low(Shr(x, k), j - k)
    decreases k
  {
    if k > 0 { LowLow(x / 2, j - 1, k - 1); }
  }

  lemma {:induction false} ShrShr(x: nat, j: nat, k: nat)
    ensures Shr(x, j + k) == Shr(Shr(x, j), k)
    decreases j
  {
    if j > 0 { ShrShr(x / 2, j - 1, k); }
  }

  lemma {:induction false} ShrBound(x: nat, a: nat, b: nat)
    requires x < Pow2(a + b)
    ensures Shr(x, a) < Pow2(b)
    decreases a
  {
    if a > 0 { ShrBound(x / 2, a - 1, b); }
  }

  lemma {:induction false} LowShl(x: nat, j: nat, k: nat)
    requires k <= j
    ensures Low(Shl(x, j), k) == 0 && Shr(Shl(x, j), k) == Shl(x, j - k)
    decreases k
  {
    if k > 0 {
      LowShl(x, j - 1, k - 1);
      var y := Shl(x, j);
      assert y % 2 == 0 && y / 2 == Shl(x, j - 1);
    }
  }

  // ---------- bit strings ----------

  /** The low n bits of v, least significant first. */
  function ToBits(v: nat, n: nat): (b: seq<bool>)
    ensures |b| == n
    decreases v, n
  {
    if n == 0 then [] else [v % 2 == 1] + ToBits(v / 2, n - 1)
  }

  function Bit(b: bool): (r: nat) { if b then 1 else 0 }

  function FromBits(b: seq<bool>): nat
  {
    if b == [] then 0 else Bit(b[0]) + 2 * FromBits(b[1..])
  }

  lemma {:induction false} FromBitsBound(b: seq<bool>)
    ensures FromBits(b) < Pow2(|b|)
  {
    if b != [] { FromBitsBound(b[1..]); }
  }

  lemma {:induction false} ToFrom(b: seq<bool>)
    ensures ToBits(FromBits(b), |b|) == b
  {
    if b != [] {
      ToFrom(b[1..]);
      var v := FromBits(b);
      assert v % 2 == Bit(b[0]) && v / 2 == FromBits(b[1..]);
    }
  }

  lemma {:induction false} FromTo(v: nat, n: nat)
    ensures FromBits(ToBits(v, n)) == Low(v, n)
    decreases n
  {
    if n > 0 {
      FromTo(v / 2, n - 1);
      assert ToBits(v, n)[1..] == ToBits(v / 2, n - 1);
    }
  }

  lemma {:induction false} FromConcat(a: seq<bool>, b: seq<bool>)
    ensures FromBits(a + b) == FromBits(a) + Shl(FromBits(b), |a|)
  {
    if a == [] {
      assert a + b == b;
    } else {
      FromConcat(a[1..], b);
      assert (a + b)[1..] == a[1..] + b;
    }
  }

  lemma {:induction false} ToSplit(v: nat, m: nat, n: nat)
    ensures ToBits(v, m + n) == ToBits(v, m) + ToBits(Shr(v, m), n)
    decreases m
  {
    if m > 0 {
      ToSplit(v / 2, m - 1, n);
      assert ToBits(v, m + n) == [v % 2 == 1] + ToBits(v / 2, m - 1 + n);
    }
  }

  lemma {:induction false} ToLow(v: nat, n: nat)
    ensures ToBits(v, n) == ToBits(Low(v, n), n)
    decreases n
  {
    if n > 0 { ToLow(v / 2, n - 1); }
  }

  /** Placing the n bits of w above the m bits of v. */
  lemma ToConcat(v: nat, m: nat, w: nat, n: nat)
    requires v < Pow2(m)
    ensures ToBits(v + Shl(w, m), m + n) == ToBits(v, m) + ToBits(w, n)
  {
    var x := v + Shl(w, m);
    ToSplit(x, m, n);
    LowShrUnique(v, w, m);
    ToLow(x, m);
  }

  lemma ToPrefix(v: nat, n: nat, k: nat)
    requires k <= n
    ensures ToBits(v, n)[..k] == ToBits(v, k)
    ensures ToBits(v, n)[k..] == ToBits(Shr(v, k), n - k)
  {
    ToSplit(v, k, n - k);
  }

  lemma FromPrefix(b: seq<bool>, k: nat)
    requires k <= |b|
    ensures FromBits(b[..k]) == Low(FromBits(b), k)
    ensures FromBits(b[k..]) == Shr(FromBits(b), k)
  {
    var v, n := FromBits(b), |b|;
    ToFrom(b);
    FromBitsBound(b);
    LowSmall(v, n);
    ToPrefix(v, n, k);
    FromTo(v, k);
    FromTo(Shr(v, k), n - k);
    LowLow(v, n, k);
  }

  /** a | b on unsigned numbers. */
  function Or(a: nat, b: nat): nat
    decreases a + b
  {
    if a == 0 && b == 0 then 0
    else 2 * Or(a / 2, b / 2) + (if a % 2 == 1 || b % 2 == 1 then 1 else 0)
  }

  lemma {:induction false} OrZero(a: nat)
    ensures Or(a, 0) == a && Or(0, a) == a
  {
    if a > 0 { OrZero(a / 2); }
  }

  /** Or of numbers without a common bit. */
  lemma {:induction false} OrDisjoint(a: nat, b: nat, k: nat)
    requires a < Pow2(k)
    ensures Or(a, Shl(b, k)) == a + Shl(b, k)
    decreases k
  {
    if k == 0 {
      OrZero(b);
    } else {
      OrDisjoint(a / 2, b, k - 1);
      var y := Shl(b, k);
      assert y % 2 == 0 && y / 2 == Shl(b, k - 1);
      if a == 0 && y == 0 { OrZero(0); }
    }
  }

  /** The bits of a byte string in the order in which they travel. */
  function BytesBits(s: seq<byte>): (b: seq<bool>)
    ensures |b| == 8 * |s|
  {
    if s == [] then [] else ToBits(s[0], 8) + BytesBits(s[1..])
  }

  lemma {:induction false} BytesBitsConcat(a: seq<byte>, b: seq<byte>)
    ensures BytesBits(a + b) == BytesBits(a) + BytesBits(b)
  {
    hide ToBits;
    if a == [] {
      assert a + b == b;
    } else {
      BytesBitsConcat(a[1..], b);
      assert (a + b)[1..] == a[1..] + b;
      assert ToBits(a[0], 8) + (BytesBits(a[1..]) + BytesBits(b)) == (ToBits(a[0], 8) + BytesBits(a[1..])) + BytesBits(b);
    }
  }

  // ---------- reversal ----------

  /** The low n bits of x in the opposite order. */
  function Rev(x: nat, n: nat): (r: nat)
    decreases x, n
  {
    if n == 0 then 0 else Shl(x % 2, n - 1) + Rev(x / 2, n - 1)
  }

  lemma {:induction false} RevBound(x: nat, n: nat)
    ensures Rev(x, n) < Pow2(n)
    decreases n
  {
    if n > 0 {
      RevBound(x / 2, n - 1);
      ShlOne(n - 1);
    }
  }

  /** The top k bits of the reversal are the reversal of the low k bits. */
  lemma {:induction false} RevTop(x: nat, n: nat, k: nat)
    requires k <= n
    ensures Shr(Rev(x, n), n - k) == Rev(x, k)
    ensures Low(Rev(x, n), n - k) == Rev(Shr(x, k), n - k)
    decreases k
  {
    RevBound(x, n);
    if k == 0 {
      LowSmall(Rev(x, n), n);
    } else {
      RevTop(x / 2, n - 1, k - 1);
      TopStep(x % 2, Rev(x / 2, n - 1), n, k);
    }
  }

  /** Putting one more bit on top of the reversal. */
  lemma TopStep(b: nat, r: nat, n: nat, k: nat)
    requires 0 < k <= n
    ensures Shr(Shl(b, n - 1) + r, n - k) == Shl(b, k - 1) + Shr(r, n - k)
    ensures Low(Shl(b, n - 1) + r, n - k) == Low(r, n - k)
  {
    hide Shr, Low, Shl;
    LowShr(r, n - k);
    ShlShl(b, k - 1, n - k);
    ShlAdd(Shl(b, k - 1), Shr(r, n - k), n - k);
    LowShrUnique(Low(r, n - k), Shl(b, k - 1) + Shr(r, n - k), n - k);
  }

  lemma {:induction false} RevLow(x: nat, n: nat)
    ensures Rev(x, n) == Rev(Low(x, n), n)
    decreases n
  {
    hide Shl;
    if n > 0 {
      RevLow(x / 2, n - 1);
      var y := Low(x, n);
      assert y % 2 == x % 2 && y / 2 == Low(x / 2, n - 1);
    }
  }

  lemma {:induction false} RevRev(x: nat, n: nat)
    ensures Rev(Rev(x, n), n) == Low(x, n)
    decreases n
  {
    hide Shl;
    if n > 0 {
      RevRev(x / 2, n - 1);
      RevBound(x / 2, n - 1);
      RevTopBit(Rev(x / 2, n - 1), x % 2, n);
    }
  }

  lemma RevTopBit(r: nat, b: nat, n: nat)
    requires n > 0 && r < Pow2(n - 1) && b < 2
    ensures Rev(r + Shl(b, n - 1), n) == b + 2 * Rev(r, n - 1)
  {
    hide Shr, Shl, Low, Rev, Pow2;
    var y := r + Shl(b, n - 1);
    RevSnoc(y, n);
    LowShrUnique(r, b, n - 1);
    RevLow(y, n - 1);
  }

  /** Reversal by the top bit. */
  lemma {:induction false} RevSnoc(y: nat, n: nat)
    requires n > 0
    ensures Rev(y, n) == Shr(y, n - 1) % 2 + 2 * Rev(y, n - 1)
    decreases n
  {
    if n > 1 {
      RevSnoc(y / 2, n - 1);
    }
  }

  /** Reversing n bits of a number that ends in n - k zeros. */
  lemma {:induction false} RevShl(c: nat, n: nat, k: nat)
    requires k <= n
    ensures Rev(Shl(c, n - k), n) == Rev(c, k)
    decreases n - k
  {
    if k < n {
      RevShl(c, n - 1, k);
      assert Shl(c, n - k) % 2 == 0 && Shl(c, n - k) / 2 == Shl(c, n - 1 - k);
      ShlOne(n - 1);
    }
  }
}
