/** Adler-32 of deps/zlib/adler32.c: the modulo is deferred over NMAX bytes and
    can be done without division; both against the byte by byte definition of
    section 2.2 of RFC 1950. */
module Adler32 {
  import opened Bits

  type u32 = x: nat | x < 0x1_0000_0000

  const BASE: nat := 65521
  const NMAX: nat := 5552

  // ---------- the definition ----------

  datatype Pair = Pair(s1: nat, s2: nat)

  predicate Reduced(p: Pair) { p.s1 < BASE && p.s2 < BASE }

  /** Two halves of a word. */
  predicate Halves(p: Pair) { p.s1 < 0x1_0000 && p.s2 < 0x1_0000 }

  function Residues(p: Pair): (r: Pair)
    ensures Reduced(r)
  {
    Pair(p.s1 % BASE, p.s2 % BASE)
  }

  /** Both sums after one more byte. */
  function Next(p: Pair, b: byte): (r: Pair)
    ensures Reduced(r)
  {
    var s1 := (p.s1 + b) % BASE;
    Pair(s1, (p.s2 + s1) % BASE)
  }

  function Sums(p: Pair, data: seq<byte>): (r: Pair)
    ensures Reduced(p) ==> Reduced(r)
    decreases |data|
  {
    if data == [] then p else Next(Sums(p, data[..|data| - 1]), data[|data| - 1])
  }

  /** adler | (sum2 << 16) */
  function Pack(p: Pair): (a: nat)
    requires Halves(p)
    ensures a == p.s1 + 0x1_0000 * p.s2 && a < 0x1_0000_0000
  {
    PackSum(p.s1, p.s2);
    Or(p.s1, Shl(p.s2, 16))
  }

  function Unpack(a: u32): (p: Pair)
    ensures Halves(p)
  {
    Pair(a % 0x1_0000, a / 0x1_0000)
  }

  lemma PackSum(s1: nat, s2: nat)
    requires s1 < 0x1_0000
    ensures Or(s1, Shl(s2, 16)) == s1 + 0x1_0000 * s2
  {
    Pow2Values();
    OrDisjoint(s1, s2, 16);
    ShlTimes(s2, 16);
  }

  lemma UnpackPack(p: Pair)
    requires Halves(p)
    ensures Unpack(Pack(p)) == p
  {
    hide Or, Shl;
  }

  /** The checksum of what has checksum adler, followed by data. A starting value
      stands for the one with the same sums modulo BASE. */
  function Adler(adler: u32, data: seq<byte>): nat
  {
    Pack(Sums(Residues(Unpack(adler)), data))
  }

  // ---------- modulo without division ----------

  lemma ModShift(a: nat, k: nat, b: nat)
    requires a == b + BASE * k
    ensures a % BASE == b % BASE
  {
    ModPlus(b, k);
  }

  lemma {:induction false} ModPlus(b: nat, k: nat)
    ensures (b + BASE * k) % BASE == b % BASE
  {
    if k > 0 {
      ModPlus(b, k - 1);
      assert (b + BASE * (k - 1) + BASE) % BASE == (b + BASE * (k - 1)) % BASE;
    }
  }

  /** CHOP(a): 65536 is 15 modulo BASE. */
  method Chop(a0: nat) returns (a: nat)
    ensures a == a0 % 0x1_0000 + 15 * (a0 / 0x1_0000) && a % BASE == a0 % BASE
  {
    var tmp := a0 / 0x1_0000;
    a := a0 % 0x1_0000;
    a := a + (16 * tmp - tmp);
    ModShift(a0, tmp, a);
  }

  lemma ModSmall(a: nat)
    requires a < 2 * BASE
    ensures a % BASE == if a >= BASE then a - BASE else a
  {
    if a >= BASE { ModShift(a, 1, a - BASE); }
  }

  /** MOD28(a), with or without division. */
  method Mod28(a0: nat, divide: bool) returns (a: nat)
    requires a0 < 0x1000_0000
    ensures a == a0 % BASE
  {
    if divide { return a0 % BASE; }
    a := Chop(a0);
    ModSmall(a);
    if a >= BASE { a := a - BASE; }
  }

  /** MOD(a) */
  method Mod(a0: u32, divide: bool) returns (a: nat)
    ensures a == a0 % BASE
  {
    if divide { return a0 % BASE; }
    a := Chop(a0);
    a := Mod28(a, divide);
  }

  /** MOD63(a): 2^32 is 225 modulo BASE. */
  method Mod63(a0: nat, divide: bool) returns (a: nat)
    requires a0 < 0x8000_0000_0000_0000
    ensures a == a0 % BASE
  {
    if divide { return a0 % BASE; }
    var tmp := a0 / 0x1_0000_0000;
    a := a0 % 0x1_0000_0000;
    a := a + (256 * tmp - 32 * tmp + tmp);
    ModShift(a0, 65551 * tmp, a);
    a := Chop(a);
    a := Chop(a);
    ModSmall(a);
    if a >= BASE { a := a - BASE; }
  }

  // ---------- deferred modulo ----------

  /** The sums without any modulo. */
  function Raw(p: Pair, data: seq<byte>): (r: Pair)
    decreases |data|
  {
    if data == [] then p
    else
      var q := Raw(p, data[..|data| - 1]);
      var s1 := q.s1 + data[|data| - 1];
      Pair(s1, q.s2 + s1)
  }

  /** What the sums can grow to in n bytes. */
  function Most(n: nat): nat { 255 * (n * (n + 1) / 2) + (n + 1) * (BASE - 1) }

  lemma MostNext(n: nat)
    ensures Most(n + 1) == Most(n) + 255 * (n + 1) + (BASE - 1)
  {
    assert (n + 1) * (n + 2) / 2 == n * (n + 1) / 2 + (n + 1) by {
      assert (n + 1) * (n + 2) == n * (n + 1) + 2 * (n + 1);
    }
  }

  lemma {:induction false} RawBound(p: Pair, data: seq<byte>)
    requires Halves(p)
    ensures Raw(p, data).s1 <= BASE + 14 + 255 * |data| && Raw(p, data).s2 <= Most(|data|) + 15 * (|data| + 1)
    ensures Reduced(p) ==> Raw(p, data).s1 <= BASE - 1 + 255 * |data| && Raw(p, data).s2 <= Most(|data|)
    decreases |data|
  {
    hide Most;
    if data != [] {
      RawBound(p, data[..|data| - 1]);
      MostNext(|data| - 1);
    } else {
      MostNone();
    }
  }

  lemma MostNone()
    ensures Most(0) == BASE - 1
  {
  }

  lemma {:induction false} MostMono(m: nat, n: nat)
    requires m <= n
    ensures Most(m) <= Most(n)
    decreases n
  {
    hide Most;
    if m < n {
      MostMono(m, n - 1);
      MostNext(n - 1);
    }
  }

  /** NMAX bytes fit in 32 bits, and no more do. */
  lemma NMaxExact(n: nat)
    ensures n <= NMAX <==> Most(n) < 0x1_0000_0000
  {
    hide Most;
    MostAtNMax();
    if n <= NMAX { MostMono(n, NMAX); } else { MostMono(NMAX + 1, n); }
  }

  lemma MostAtNMax()
    ensures Most(NMAX) + 15 * (NMAX + 1) < 0x1_0000_0000 <= Most(NMAX + 1)
  {
    assert NMAX * (NMAX + 1) / 2 == 15415128;
    assert (NMAX + 1) * (NMAX + 2) / 2 == 15420681;
  }

  /** The bound is reached: largest sums and largest bytes. */
  lemma {:induction false} MostReached(n: nat)
    ensures Raw(Pair(BASE - 1, BASE - 1), seq(n, i => 255)) == Pair(BASE - 1 + 255 * n, Most(n))
  {
    hide Most;
    var data := seq(n, i => 255);
    if n == 0 {
      MostNone();
    } else {
      assert data[..n - 1] == seq(n - 1, i => 255);
      MostReached(n - 1);
      MostNext(n - 1);
    }
  }

  lemma AddMod(a: nat, b: nat)
    ensures (a % BASE + b) % BASE == (a + b) % BASE
  {
    var k := a / BASE;
    ModShift(a + b, k, a % BASE + b);
  }

  /** The modulo may be taken at the end. */
  lemma {:induction false} RawMod(p: Pair, data: seq<byte>)
    ensures Sums(Residues(p), data) == Residues(Raw(p, data))
    decreases |data|
  {
    if data != [] {
      var rest, b := data[..|data| - 1], data[|data| - 1];
      RawMod(p, rest);
      var q := Raw(p, rest);
      AddMod(q.s1, b);
      var s1 := q.s1 + b;
      AddMod(q.s2, s1 % BASE);
      AddMod(s1, q.s2);
    }
  }

  lemma ResiduesSame(p: Pair)
    requires Reduced(p)
    ensures Residues(p) == p
  {
    ModSmall(p.s1);
    ModSmall(p.s2);
  }

  lemma {:induction false} SumsConcat(p: Pair, a: seq<byte>, b: seq<byte>)
    ensures Sums(p, a + b) == Sums(Sums(p, a), b)
    decreases |b|
  {
    hide Next;
    if b == [] {
      assert a + b == a;
    } else {
      assert (a + b)[..|a + b| - 1] == a + b[..|b| - 1];
      SumsConcat(p, a, b[..|b| - 1]);
    }
  }

  // ---------- adler32 ----------

  /** DO1 for each of some bytes: 32 bits are enough for NMAX of them. */
  method AddBytes(ghost p: Pair, buf: seq<byte>, from: nat, to: nat, adler0: u32, sum0: u32, ghost start: nat) returns (adler: u32, sum2: u32)
    requires Halves(p) && start <= from <= to <= |buf| && to - start <= NMAX
    requires Pair(adler0, sum0) == Raw(p, buf[start..from])
    ensures Pair(adler, sum2) == Raw(p, buf[start..to])
  {
    adler, sum2 := adler0, sum0;
    for i := from to to
      invariant Pair(adler, sum2) == Raw(p, buf[start..i])
    {
      assert buf[start..i + 1][..i - start] == buf[start..i];
      RawBound(p, buf[start..i + 1]);
      MostMono(i + 1 - start, NMAX);
      MostAtNMax();
      adler := adler + buf[i];
      sum2 := sum2 + adler;
    }
  }

  /** while (len >= 16) { DO16(buf); }, or one NMAX block of them */
  method AddGroups(ghost p: Pair, buf: seq<byte>, start: nat, groups: nat, adler0: u32, sum0: u32) returns (adler: u32, sum2: u32)
    requires Halves(p) && start + 16 * groups <= |buf| && 16 * groups <= NMAX && p == Pair(adler0, sum0)
    ensures Pair(adler, sum2) == Raw(p, buf[start..start + 16 * groups])
  {
    hide Raw;
    adler, sum2 := adler0, sum0;
    NoBytes(p, buf, start);
    var n := groups;
    while n > 0
      invariant 0 <= n <= groups && Pair(adler, sum2) == Raw(p, buf[start..start + 16 * (groups - n)])
    {
      var from := start + 16 * (groups - n);
      adler, sum2 := AddBytes(p, buf, from, from + 16, adler, sum2, start);
      n := n - 1;
    }
  }

  lemma NoBytes(p: Pair, buf: seq<byte>, i: nat)
    requires i <= |buf|
    ensures Raw(p, buf[i..i]) == p && Sums(p, buf[i..i]) == p
  {
  }

  /** MOD(adler); MOD(sum2); */
  method Reduce(ghost p: Pair, ghost data: seq<byte>, adler0: u32, sum0: u32, divide: bool) returns (adler: nat, sum2: nat)
    requires Pair(adler0, sum0) == Raw(p, data)
    ensures Pair(adler, sum2) == Sums(Residues(p), data) && adler < BASE && sum2 < BASE
  {
    hide Raw, Sums;
    RawMod(p, data);
    adler := Mod(adler0, divide);
    sum2 := Mod(sum0, divide);
  }

  /** The sum of one byte is not taken modulo BASE but less BASE at most once. */
  predicate Overfull(adler: u32, b: byte) { Unpack(adler).s2 + (Unpack(adler).s1 + b) % BASE >= 2 * BASE }

  /** adler32(): every path computes the definition, in 32-bit arithmetic; only for
      one byte after a starting value that is no checksum the second sum can come
      out BASE too large. */
  method Adler32(adler0: u32, buf: Buf, len: nat, divide: bool) returns (r: nat)
    requires if buf.Null? then len != 1 else len == |buf.data|
    ensures buf.Null? ==> r == 1
    ensures buf.Buf? && !(len == 1 && Overfull(adler0, buf.data[0])) ==> r == Adler(adler0, buf.data)
    ensures buf.Buf? && len == 1 && Overfull(adler0, buf.data[0]) ==>
              !Reduced(Unpack(adler0)) && r == Adler(adler0, buf.data) + 0x1_0000 * BASE
  {
    hide Adler, Overfull;
    if len == 1 {
      r := AdlerByte(adler0, buf.data);
      return;
    }
    if buf.Null? { return 1; }
    if len < 16 {
      r := AdlerShort(adler0, buf.data, divide);
    } else {
      r := AdlerLong(adler0, buf.data, divide);
    }
  }

  /** if (len == 1) */
  method AdlerByte(adler0: u32, buf: seq<byte>) returns (r: nat)
    requires |buf| == 1
    ensures !Overfull(adler0, buf[0]) ==> r == Adler(adler0, buf)
    ensures Overfull(adler0, buf[0]) ==> !Reduced(Unpack(adler0)) && r == Adler(adler0, buf) + 0x1_0000 * BASE
  {
    hide Raw, Sums, Or, Shl;
    var sum2: u32, adler: u32 := adler0 / 0x1_0000 % 0x1_0000, adler0 % 0x1_0000;
    ByteSums(Unpack(adler0), buf);
    adler := adler + buf[0];
    if adler >= BASE { adler := adler - BASE; }
    sum2 := sum2 + adler;
    if sum2 >= BASE { sum2 := sum2 - BASE; }
    r := Pack(Pair(adler, sum2));
  }

  /** One subtraction instead of each modulo. */
  lemma ByteSums(p: Pair, buf: seq<byte>)
    requires Halves(p) && |buf| == 1
    ensures var a, q := (p.s1 + buf[0]) % BASE, Sums(Residues(p), buf);
            && a == (if p.s1 + buf[0] >= BASE then p.s1 + buf[0] - BASE else p.s1 + buf[0]) && q.s1 == a < BASE
            && q.s2 == if p.s2 + a >= 2 * BASE then p.s2 + a - 2 * BASE else if p.s2 + a >= BASE then p.s2 + a - BASE else p.s2 + a
    ensures Reduced(p) ==> p.s2 + (p.s1 + buf[0]) % BASE < 2 * BASE
  {
    hide Sums;
    var b := buf[0];
    var a := (p.s1 + b) % BASE;
    OneByte(Residues(p), buf);
    AddMod(p.s1, b);
    AddMod(p.s2, a);
    ModSmall(p.s1 + b);
    ThreeOff(p.s2 + a);
  }

  /** if (len < 16) */
  method AdlerShort(adler0: u32, buf: seq<byte>, divide: bool) returns (r: nat)
    requires |buf| < 16
    ensures r == Adler(adler0, buf)
  {
    hide Raw, Sums, Or, Shl;
    ghost var p := Unpack(adler0);
    var sum2: u32, adler: u32 := adler0 / 0x1_0000 % 0x1_0000, adler0 % 0x1_0000;
    NoBytes(p, buf, 0);
    adler, sum2 := AddBytes(p, buf, 0, |buf|, adler, sum2, 0);
    assert buf[0..|buf|] == buf;
    RawMod(p, buf);
    RawBound(p, buf);
    Small(|buf|);
    ModSmall(adler);
    if adler >= BASE { adler := adler - BASE; }
    sum2 := Mod28(sum2, divide);
    assert Pair(adler, sum2) == Sums(Residues(p), buf);
    r := Pack(Pair(adler, sum2));
  }

  /** Blocks of NMAX bytes and the rest. */
  method AdlerLong(adler0: u32, buf: seq<byte>, divide: bool) returns (r: nat)
    requires |buf| >= 16
    ensures r == Adler(adler0, buf)
  {
    hide Raw, Sums, Or, Shl, Residues;
    ghost var p := Unpack(adler0);
    var sum2: u32, adler: u32 := adler0 / 0x1_0000 % 0x1_0000, adler0 % 0x1_0000;
    NoBytes(Residues(p), buf, 0);
    var i := 0;
    while |buf| - i >= NMAX
      decreases |buf| - i
      invariant i <= |buf| && Halves(Pair(adler, sum2)) && Residues(Pair(adler, sum2)) == Sums(Residues(p), buf[0..i])
      invariant i > 0 ==> Reduced(Pair(adler, sum2))
    {
      adler, sum2 := OneBlock(Residues(p), buf, i, NMAX / 16, i + NMAX, adler, sum2, divide);
      i := i + NMAX;
    }
    if i < |buf| {
      adler, sum2 := OneBlock(Residues(p), buf, i, (|buf| - i) / 16, |buf|, adler, sum2, divide);
    }
    assert buf[0..|buf|] == buf;
    ResiduesSame(Pair(adler, sum2));
    r := Pack(Pair(adler, sum2));
  }

  /** At most NMAX bytes with one modulo at the end. */
  method OneBlock(ghost p: Pair, buf: seq<byte>, i: nat, groups: nat, to: nat, adler0: u32, sum0: u32, divide: bool)
    returns (adler: nat, sum2: nat)
    requires i + 16 * groups <= to <= |buf| && to - i <= NMAX
    requires Halves(Pair(adler0, sum0)) && Residues(Pair(adler0, sum0)) == Sums(p, buf[0..i])
    ensures Residues(Pair(adler, sum2)) == Sums(p, buf[0..to]) && Reduced(Pair(adler, sum2))
  {
    hide Raw, Sums, Residues;
    ghost var q := Pair(adler0, sum0);
    var a: u32, s: u32 := AddGroups(q, buf, i, groups, adler0, sum0);
    a, s := AddBytes(q, buf, i + 16 * groups, to, a, s, i);
    adler, sum2 := Reduce(q, buf[i..to], a, s, divide);
    SumsConcat(p, buf[0..i], buf[i..to]);
    assert buf[0..i] + buf[i..to] == buf[0..to];
    ResiduesSame(Pair(adler, sum2));
  }

  lemma OneByte(p: Pair, buf: seq<byte>)
    requires |buf| == 1
    ensures Sums(p, buf) == Next(p, buf[0])
  {
    assert buf[..0] == [];
  }

  lemma Small(n: nat)
    requires n < 16
    ensures BASE + 14 + 255 * n < 2 * BASE && Most(n) + 15 * (n + 1) < 0x1000_0000
  {
    MostMono(n, 15);
    assert Most(15) == 255 * 120 + 16 * (BASE - 1);
  }

  // ---------- combination ----------

  /** How the sums of data depend on where they start. */
  lemma {:induction false} RawAffine(s1: nat, s2: nat, data: seq<byte>)
    ensures Raw(Pair(s1, s2), data) == Pair(s1 + Raw(Pair(0, 0), data).s1, s2 + |data| * s1 + Raw(Pair(0, 0), data).s2)
    decreases |data|
  {
    if data != [] {
      RawAffine(s1, s2, data[..|data| - 1]);
      OneTimesMore(|data| - 1, s1);
    }
  }

  lemma OneTimesMore(n: nat, x: nat)
    ensures (n + 1) * x == n * x + x
  {
  }

  /** Modulo BASE a factor may be reduced. */
  lemma MulMod(a: nat, b: nat)
    ensures (a % BASE * b) % BASE == (a * b) % BASE
  {
    var k := a / BASE;
    assert a * b == a % BASE * b + BASE * (k * b) by { Distribute(a % BASE, k, b); }
    ModShift(a * b, k * b, a % BASE * b);
  }

  lemma Distribute(r: nat, k: nat, b: nat)
    ensures (r + BASE * k) * b == r * b + BASE * (k * b)
  {
  }

  /** The sums of n more bytes, which begun anew are q, after sums p. */
  function Joined(p: Pair, q: Pair, n: nat): (r: Pair)
    ensures Reduced(r)
  {
    Pair((p.s1 + q.s1 + BASE - 1) % BASE, (p.s2 + q.s2 + n * p.s1 + n * (BASE - 1)) % BASE)
  }

  /** Sums of a concatenation, from the sums of the parts begun anew. */
  lemma ConcatSums(a: seq<byte>, b: seq<byte>)
    ensures Sums(Pair(1, 0), a + b) == Joined(Sums(Pair(1, 0), a), Sums(Pair(1, 0), b), |b|)
  {
    hide Sums, Joined;
    SumsConcat(Pair(1, 0), a, b);
    var p := Sums(Pair(1, 0), a);
    FirstFrom(p, b);
    SecondFrom(p, b);
  }

  lemma FirstFrom(p: Pair, b: seq<byte>)
    requires Reduced(p)
    ensures Sums(p, b).s1 == Joined(p, Sums(Pair(1, 0), b), |b|).s1
  {
    hide Raw, Sums;
    RawMod(p, b);
    ResiduesSame(p);
    RawMod(Pair(1, 0), b);
    ResiduesSame(Pair(1, 0));
    RawAffine(p.s1, p.s2, b);
    RawAffine(1, 0, b);
    FirstSum(p.s1, Raw(Pair(0, 0), b).s1);
  }

  lemma SecondFrom(p: Pair, b: seq<byte>)
    requires Reduced(p)
    ensures Sums(p, b).s2 == Joined(p, Sums(Pair(1, 0), b), |b|).s2
  {
    hide Raw, Sums;
    RawMod(p, b);
    ResiduesSame(p);
    RawMod(Pair(1, 0), b);
    ResiduesSame(Pair(1, 0));
    RawAffine(p.s1, p.s2, b);
    RawAffine(1, 0, b);
    var z2 := Raw(Pair(0, 0), b).s2;
    SecondSum(|b| * p.s1, p.s2, |b|, z2, Raw(p, b).s2, Raw(Pair(1, 0), b).s2);
  }

  lemma FirstSum(s1: nat, z1: nat)
    ensures (s1 + z1) % BASE == (s1 + (1 + z1) % BASE + BASE - 1) % BASE
  {
    AddMod(1 + z1, s1 + BASE - 1);
    ModShift(s1 + z1 + BASE, 1, s1 + z1);
  }

  lemma SecondSum(m: nat, s2: nat, n: nat, z2: nat, x: nat, y: nat)
    requires x == s2 + m + z2 && y == n * 1 + z2
    ensures x % BASE == (s2 + y % BASE + m + n * (BASE - 1)) % BASE
  {
    var w := n * (BASE - 1);
    AddMod(y, s2 + m + w);
    assert n * 1 + w == BASE * n;
    ModShift(x + BASE * n, n, x);
  }

  /** adler32_combine_() */
  method Combine(adler1: u32, adler2: u32, len2: int, divide: bool) returns (r: nat)
    requires Reduced(Unpack(adler1)) && Reduced(Unpack(adler2)) && len2 < 0x8000_0000_0000_0000
    ensures len2 < 0 ==> r == 0xFFFF_FFFF
    ensures len2 >= 0 ==> r == Pack(Joined(Unpack(adler1), Unpack(adler2), len2))
  {
    hide Pack, Reduced;
    HalvesOf(adler1);
    HalvesOf(adler2);
    if len2 < 0 { return 0xFFFF_FFFF; }
    ghost var p, q := Unpack(adler1), Unpack(adler2);
    var rem := Mod63(len2, divide);
    var sum1: u32 := adler1 % 0x1_0000;
    ProductFits(rem, sum1);
    var sum2: u32 := rem * sum1;
    sum2 := Mod(sum2, divide);
    CombinedSecond(p, q, len2, rem, sum2);
    sum1 := sum1 + (adler2 % 0x1_0000 + BASE - 1);
    sum2 := sum2 + (adler1 / 0x1_0000 % 0x1_0000 + adler2 / 0x1_0000 % 0x1_0000 + BASE - rem);
    TwoOff(sum1);
    ThreeOff(sum2);
    if sum1 >= BASE { sum1 := sum1 - BASE; }
    if sum1 >= BASE { sum1 := sum1 - BASE; }
    if sum2 >= 2 * BASE { sum2 := sum2 - 2 * BASE; }
    if sum2 >= BASE { sum2 := sum2 - BASE; }
    r := PackBoth(sum1, sum2);
  }

  /** sum1 | (sum2 << 16) */
  method PackBoth(s1: nat, s2: nat) returns (r: nat)
    requires s1 < BASE && s2 < BASE
    ensures Reduced(Pair(s1, s2)) && r == Pack(Pair(s1, s2))
  {
    r := Pack(Pair(s1, s2));
  }

  lemma HalvesOf(a: u32)
    requires Reduced(Unpack(a))
    ensures a % 0x1_0000 < BASE && a / 0x1_0000 < BASE && a / 0x1_0000 % 0x1_0000 == a / 0x1_0000
  {
  }

  lemma ProductFits(a: nat, b: nat)
    requires a < BASE && b < BASE
    ensures a * b < 0x1_0000_0000
  {
    MulLess(a, BASE - 1, b);
  }

  lemma {:induction false} MulLess(a: nat, c: nat, b: nat)
    requires a <= c
    ensures a * b <= c * b
  {
    if b > 0 { MulLess(a, c, b - 1); }
  }

  lemma TwoOff(a: nat)
    requires a < 3 * BASE
    ensures a % BASE == if a >= 2 * BASE then a - 2 * BASE else if a >= BASE then a - BASE else a
  {
    if a >= 2 * BASE { ModShift(a, 2, a - 2 * BASE); } else { ModSmall(a); }
  }

  lemma ThreeOff(a: nat)
    requires a < 4 * BASE
    ensures var b := if a >= 2 * BASE then a - 2 * BASE else a; a % BASE == if b >= BASE then b - BASE else b
  {
    var b := if a >= 2 * BASE then a - 2 * BASE else a;
    if a >= 2 * BASE { ModShift(a, 2, b); }
    ModSmall(b);
  }

  lemma CombinedSecond(p: Pair, q: Pair, len: nat, rem: nat, prod: nat)
    requires rem == len % BASE && prod == (rem * p.s1) % BASE
    ensures (prod + (p.s2 + q.s2 + BASE - rem)) % BASE == (p.s2 + q.s2 + len * p.s1 + len * (BASE - 1)) % BASE
  {
    MulMod(len, p.s1);
    var x := p.s2 + q.s2;
    AddMod(len * p.s1, x + BASE - rem);
    var k := len / BASE;
    assert len == rem + BASE * k;
    assert len * (BASE - 1) == BASE * len - len;
    ModShift(x + len * p.s1 + len * (BASE - 1) + BASE, len - k + 0, x + len * p.s1 + BASE - rem);
    ModShift(x + len * p.s1 + len * (BASE - 1) + BASE, 1, x + len * p.s1 + len * (BASE - 1));
  }

  /** Combining the checksums of two parts gives the checksum of the whole. */
  method CombineParts(a: seq<byte>, b: seq<byte>, adler1: u32, adler2: u32, divide: bool) returns (r: nat)
    requires |b| < 0x8000_0000_0000_0000 && adler1 == Adler(1, a) && adler2 == Adler(1, b)
    ensures r == Adler(1, a + b)
  {
    hide Sums, Or, Shl, Joined;
    ResiduesSame(Pair(1, 0));
    UnpackPack(Sums(Pair(1, 0), a));
    UnpackPack(Sums(Pair(1, 0), b));
    ConcatSums(a, b);
    r := Combine(adler1, adler2, |b|, divide);
  }
}
