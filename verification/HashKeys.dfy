/** The rolling hash of deflate (UPDATE_HASH of deps/zlib/deflate.c). */
module HashKeys {
  import opened Bits
  import opened XorMath

  /** hash_bits; the hash mask is Pow2(bits) - 1. */
  predicate HashBits(bits: nat) { 8 <= bits <= 16 }

  /** hash_shift: after three updates an older byte no longer matters. */
  function HashShift(bits: nat): nat { (bits + 2) / 3 }

  /** UPDATE_HASH(s, h, c) */
  function Update(h: nat, c: byte, bits: nat): (k: nat)
    ensures k < Pow2(bits)
  {
    LowShr(Xor(Shl(h, HashShift(bits)), c), bits);
    Low(Xor(Shl(h, HashShift(bits)), c), bits)
  }

  /** The key of a string of three bytes. */
  function Key(b0: byte, b1: byte, b2: byte, bits: nat): (k: nat)
    ensures k < Pow2(bits)
  {
    Update(Update(Update(0, b0, bits), b1, bits), b2, bits)
  }

  /** A running key whose last two bytes were b0 and b1, whatever came before. */
  predicate Primed(h: nat, b0: byte, b1: byte, bits: nat)
  {
    Low(h, 2 * HashShift(bits)) == Low(Update(Update(0, b0, bits), b1, bits), 2 * HashShift(bits))
  }

  lemma {:induction false} LowShlSame(a: nat, b: nat, m: nat, s: nat)
    requires Low(a, m) == Low(b, m)
    ensures Low(Shl(a, s), m + s) == Low(Shl(b, s), m + s)
    decreases s
  {
    hide Low;
    if s > 0 {
      LowShlSame(a, b, m, s - 1);
      LowTwice(Shl(a, s - 1), m + s - 1);
      LowTwice(Shl(b, s - 1), m + s - 1);
    }
  }

  lemma LowTwice(x: nat, k: nat)
    ensures Low(2 * x, k + 1) == 2 * Low(x, k)
  {
    assert 2 * x % 2 == 0 && 2 * x / 2 == x;
  }

  lemma LowLess(a: nat, b: nat, m: nat, n: nat)
    requires Low(a, m) == Low(b, m) && n <= m
    ensures Low(a, n) == Low(b, n)
  {
    LowLow(a, m, n);
    LowLow(b, m, n);
  }

  /** An update forgets the oldest bits. */
  lemma UpdateAgrees(h: nat, h': nat, c: byte, bits: nat, m: nat, n: nat)
    requires Low(h, m) == Low(h', m) && n <= m + HashShift(bits) && n <= bits
    ensures Low(Update(h, c, bits), n) == Low(Update(h', c, bits), n)
  {
    hide Low, Xor, Shl;
    var s := HashShift(bits);
    LowShlSame(h, h', m, s);
    LowLess(Shl(h, s), Shl(h', s), m + s, n);
    LowXor(Shl(h, s), Shl(h', s), c, n);
    LowLow(Xor(Shl(h, s), c), bits, n);
    LowLow(Xor(Shl(h', s), c), bits, n);
  }

  lemma Whole(h: nat, bits: nat)
    requires h < Pow2(bits)
    ensures Low(h, bits) == h
  {
    LowSmall(h, bits);
  }

  /** The third update gives the key of the last three bytes, and stays primed. */
  lemma UpdateIsKey(h: nat, b0: byte, b1: byte, b2: byte, bits: nat)
    requires HashBits(bits) && Primed(h, b0, b1, bits)
    ensures Update(h, b2, bits) == Key(b0, b1, b2, bits)
    ensures Primed(Update(h, b2, bits), b1, b2, bits)
  {
    hide Low, Update;
    var s := HashShift(bits);
    var u := Update(Update(0, b0, bits), b1, bits);
    UpdateAgrees(h, u, b2, bits, 2 * s, bits);
    Whole(Update(h, b2, bits), bits);
    Whole(Update(u, b2, bits), bits);
    KeyPrimes(b0, b1, b2, bits);
  }

  lemma KeyPrimes(b0: byte, b1: byte, b2: byte, bits: nat)
    requires HashBits(bits)
    ensures Primed(Key(b0, b1, b2, bits), b1, b2, bits)
  {
    hide Low, Update;
    var s := HashShift(bits);
    NoBits(Update(0, b0, bits));
    UpdateAgrees(Update(0, b0, bits), 0, b1, bits, 0, s);
    UpdateAgrees(Update(Update(0, b0, bits), b1, bits), Update(0, b1, bits), b2, bits, s, 2 * s);
  }

  lemma NoBits(h: nat)
    ensures Low(h, 0) == Low(0, 0)
  {
  }

  /** ins_h = window[str]; UPDATE_HASH(s, s->ins_h, window[str + 1]) */
  lemma StartPrimes(b0: byte, b1: byte, bits: nat)
    requires HashBits(bits)
    ensures Primed(Update(b0, b1, bits), b0, b1, bits) && b0 < Pow2(bits)
  {
    hide Low, Xor;
    Pow2Mono(8, bits);
    Pow2Values();
    ShlOne(HashShift(bits));
    XorZero(b0);
    LowSmall(b0, bits);
  }

  /** Strings with equal keys and equal first two bytes have equal third bytes:
      why longest_match() need not compare those. */
  lemma ThirdByte(b0: byte, b1: byte, x: byte, y: byte, bits: nat)
    requires HashBits(bits) && Key(b0, b1, x, bits) == Key(b0, b1, y, bits)
    ensures x == y
  {
    hide Low, Xor, Shl;
    XorCancel(Shl(Update(Update(0, b0, bits), b1, bits), HashShift(bits)), x, y, bits);
    Pow2Mono(8, bits);
    Pow2Values();
    Whole(x, bits);
    Whole(y, bits);
  }
}
