/** One raw stream byte by byte, and what inflate() makes of it: a stored block,
    a block with the fixed codes and one with codes of its own, whose header uses
    every repeat symbol. The same bits are what deflate writes for these blocks. */
module KnownStream {
  import opened Bits
  import opened HuffmanCode
  import opened TableTheory
  import opened InflateTable
  import opened Tokens
  import opened InflateSpec
  import opened InflateProps
  import opened CodeLengths
  import opened BlockFormat
  import opened FormatTables
  import opened InflateState
  import opened InflateHistory
  import opened Inflate
  import FastEntry

  /** The stream. */
  function Stream(): (s: seq<byte>)
    ensures |s| == 35
  {
    Stored() + Coded1() + Coded2()
  }

  /** The stored block. */
  function Stored(): (s: seq<byte>)
    ensures |s| == 10
  {
    [0x00, 0x05, 0x00, 0xFA, 0xFF, 0x68, 0x65, 0x6C, 0x6C, 0x6F]
  }

  /** The other two. */
  function Coded1(): (s: seq<byte>)
    ensures |s| == 12
  {
    [0x52, 0xC0, 0x46, 0xBE, 0x04, 0x34, 0x15, 0xDF, 0x04, 0x00, 0x00, 0x00]
  }

  function Coded2(): (s: seq<byte>)
    ensures |s| == 13
  {
    [0x0C, 0xC2, 0xB4, 0x76, 0xF8, 0xD7, 0xC0, 0xCB, 0x93, 0xA4, 0x7B, 0x6A, 0x35]
  }

  /** "hello " */
  function HelloSpace(): (s: seq<byte>)
    ensures |s| == 6
  {
    [0x68, 0x65, 0x6C, 0x6C, 0x6F, 0x20]
  }

  /** "abcdab" */
  function Letters(): (s: seq<byte>)
    ensures |s| == 6
  {
    [0x61, 0x62, 0x63, 0x64, 0x61, 0x62]
  }

  /** "hello hello hello hello he", the byte E9, and "abcdababcdababcdabababcdababa" */
  function Text(): (s: seq<byte>)
    ensures |s| == 56
  {
    HelloSpace() + HelloSpace() + HelloSpace() + HelloSpace() + [0x68, 0x65, 0xE9] +
    Letters() + Letters() + Letters() + [0x61, 0x62] + Letters() + [0x61, 0x62, 0x61]
  }

  // ---------- the three blocks ----------

  /** "hello", as it is */
  function Hello(): seq<byte> { [0x68, 0x65, 0x6C, 0x6C, 0x6F] }

  /** Block 2. Its match is of 20 bytes, 6 back; E9 has a code of nine bits. */
  function FixedTokens(): (ts: seq<Token>)
    ensures |ts| == 3
  {
    [Literal(0x20), Match(20, 6), Literal(0xE9)]
  }

  /** Block 3: "abcdab" and two matches. */
  function OwnTokens(): (ts: seq<Token>)
    ensures |ts| == 8
  {
    [Literal(0x61), Literal(0x62), Literal(0x63), Literal(0x64), Literal(0x61), Literal(0x62), Match(12, 6), Match(11, 8)]
  }

  /** Its codes: four letters, the end of the block, and lengths 11 and 12; and
      distances 5 to 8. */
  function LitLengths(): (r: Lengths)
    ensures |r| == 266
  {
    Repeat(0, 97) + Repeat(3, 4) + Repeat(0, 155) + [2] + Repeat(0, 8) + [2]
  }

  function DistLengths(): (r: Lengths)
    ensures |r| == 6
  {
    Repeat(0, 4) + [1, 1]
  }

  /** The code in which these lengths are sent. */
  function ClLengths(): (r: Lengths)
    ensures |r| == 19
  {
    [0, 3, 2, 3, 0, 0, 0, 0, 0, 0, 0, 0, 0, 0, 0, 0, 3, 3, 2]
  }

  function LitItems(): seq<Item>
  {
    [Zeros11(97), Len(3), Prev(3), Zeros11(138), Zeros11(17), Len(2), Zeros3(8), Len(2)]
  }

  function DistItems(): seq<Item> { [Zeros3(4), Len(1), Len(1)] }

  // ---------- codes ----------

  lemma ClCodes()
    ensures var c := ClLengths();
            && Used(c, 2) && Code(c, 2) == 0 && Used(c, 18) && Code(c, 18) == 1
            && Used(c, 1) && Code(c, 1) == 4 && Used(c, 3) && Code(c, 3) == 5
            && Used(c, 16) && Code(c, 16) == 6 && Used(c, 17) && Code(c, 17) == 7
  {
    hide Count;
    var c := ClLengths();
    ClCounts();
    assert FirstCode(c, 2) == 0;
    assert FirstCode(c, 3) == 4;
  }

  lemma ClCounts()
    ensures var c := ClLengths();
            && (forall l: nat | 0 < l :: Total(c, l) == if l == 2 then 2 else if l == 3 then 4 else 0)
            && Count(c, 2, 2) == 0 && Count(c, 18, 2) == 1
            && Count(c, 1, 3) == 0 && Count(c, 3, 3) == 1 && Count(c, 16, 3) == 2 && Count(c, 17, 3) == 3
  {
    hide Count;
    var c := ClLengths();
    CountNone(c);
    forall l: nat | 0 < l
      ensures Count(c, 1, l) == 0 && Count(c, 2, l) == (if l == 3 then 1 else 0)
      ensures Count(c, 3, l) == (if l == 3 then 1 else if l == 2 then 1 else 0)
      ensures Count(c, 16, l) == (if l == 3 then 2 else if l == 2 then 1 else 0)
      ensures Count(c, 17, l) == (if l == 3 then 3 else if l == 2 then 1 else 0)
      ensures Count(c, 18, l) == (if l == 3 then 4 else if l == 2 then 1 else 0)
      ensures Count(c, 19, l) == (if l == 3 then 4 else if l == 2 then 2 else 0)
    {
      CountRun(c, 0, 1, 0, l);
      CountRun(c, 1, 2, 3, l);
      CountRun(c, 2, 3, 2, l);
      CountRun(c, 3, 4, 3, l);
      CountRun(c, 4, 16, 0, l);
      CountRun(c, 16, 18, 3, l);
      CountRun(c, 16, 17, 3, l);
      CountRun(c, 18, 19, 2, l);
    }
  }

  lemma LitCodes()
    ensures var c := LitLengths();
            && Used(c, 0x61) && c[0x61] == 3 && Code(c, 0x61) == 4 && Used(c, 0x62) && c[0x62] == 3 && Code(c, 0x62) == 5
            && Used(c, 0x63) && c[0x63] == 3 && Code(c, 0x63) == 6 && Used(c, 0x64) && c[0x64] == 3 && Code(c, 0x64) == 7
            && Used(c, 256) && c[256] == 2 && Code(c, 256) == 0 && Used(c, 265) && c[265] == 2 && Code(c, 265) == 1
  {
    hide Count;
    var c := LitLengths();
    LitCounts();
    assert FirstCode(c, 2) == 0;
    assert FirstCode(c, 3) == 4;
  }

  lemma LitCounts()
    ensures var c := LitLengths();
            && (forall l: nat | 0 < l :: Total(c, l) == if l == 2 then 2 else if l == 3 then 4 else 0)
            && Count(c, 256, 2) == 0 && Count(c, 265, 2) == 1
            && Count(c, 97, 3) == 0 && Count(c, 98, 3) == 1 && Count(c, 99, 3) == 2 && Count(c, 100, 3) == 3
  {
    hide Count;
    var c := LitLengths();
    CountNone(c);
    forall l: nat | 0 < l
      ensures Count(c, 97, l) == 0 && Count(c, 256, l) == (if l == 3 then 4 else 0)
      ensures Count(c, 265, l) == (if l == 3 then 4 else if l == 2 then 1 else 0)
      ensures Count(c, 266, l) == (if l == 3 then 4 else if l == 2 then 2 else 0)
    {
      CountRun(c, 0, 97, 0, l);
      CountRun(c, 97, 101, 3, l);
      CountRun(c, 101, 256, 0, l);
      CountRun(c, 256, 257, 2, l);
      CountRun(c, 257, 265, 0, l);
      CountRun(c, 265, 266, 2, l);
    }
    CountRun(c, 97, 98, 3, 3);
    CountRun(c, 97, 99, 3, 3);
    CountRun(c, 97, 100, 3, 3);
  }

  lemma DistCodes()
    ensures var c := DistLengths();
            Used(c, 4) && c[4] == 1 && Code(c, 4) == 0 && Used(c, 5) && c[5] == 1 && Code(c, 5) == 1
  {
    hide Count;
    var c := DistLengths();
    CountNone(c);
    CountRun(c, 0, 4, 0, 1);
    CountNext(c, 4);
  }

  // ---------- bits as numbers ----------

  /** Bits are joined into one number. */
  lemma Join(v: nat, n: nat, x: nat, m: nat, y: nat, k: nat)
    requires v < Pow2(n) && y == v + x * Pow2(n) && k == n + m
    ensures ToBits(v, n) + ToBits(x, m) == ToBits(y, k)
  {
    ToConcat(v, n, x, m);
    ShlTimes(x, n);
  }

  /** One more length of the code length code before those from place i + 1 on. */
  lemma LengthBefore(c: Lengths, i: nat, n: nat, v: nat, x: nat)
    requires i < n <= 19 == |c| && c[Order(i)] == v < 8
    requires LenLensBits(c, i + 1, n) == ToBits(x, 3 * (n - i - 1))
    ensures LenLensBits(c, i, n) == ToBits(v + 8 * x, 3 * (n - i))
  {
    hide ToBits, Order;
    SmallPowers();
    Join(v, 3, x, 3 * (n - i - 1), v + 8 * x, 3 * (n - i));
  }

  lemma LastLengths()
    ensures LenLensBits(ClLengths(), 9, 18) == ToBits(0x308_3000, 27)
  {
    hide ToBits, Order, LenLensBits;
    var c := ClLengths();
    ClNone();
    OrderTable(17);
    LengthBefore(c, 17, 18, 3, 0);
    OrderTable(16);
    LengthBefore(c, 16, 18, 0, 3);
    OrderTable(15);
    LengthBefore(c, 15, 18, 2, 0x18);
    OrderTable(14);
    LengthBefore(c, 14, 18, 0, 0xC2);
    OrderTable(13);
    LengthBefore(c, 13, 18, 3, 0x610);
    OrderTable(12);
    LengthBefore(c, 12, 18, 0, 0x3083);
    OrderTable(11);
    LengthBefore(c, 11, 18, 0, 0x1_8418);
    OrderTable(10);
    LengthBefore(c, 10, 18, 0, 0xC_20C0);
    OrderTable(9);
    LengthBefore(c, 9, 18, 0, 0x61_0600);
  }

  lemma LengthLengths()
    ensures LenLensBits(ClLengths(), 0, 18) == ToBits(0x18_4180_0000_009B, 54)
  {
    hide ToBits, Order, LenLensBits;
    var c := ClLengths();
    LastLengths();
    OrderTable(8);
    LengthBefore(c, 8, 18, 0, 0x308_3000);
    OrderTable(7);
    LengthBefore(c, 7, 18, 0, 0x1841_8000);
    OrderTable(6);
    LengthBefore(c, 6, 18, 0, 0xC20C_0000);
    OrderTable(5);
    LengthBefore(c, 5, 18, 0, 0x6_1060_0000);
    OrderTable(4);
    LengthBefore(c, 4, 18, 0, 0x30_8300_0000);
    OrderTable(3);
    LengthBefore(c, 3, 18, 0, 0x184_1800_0000);
    OrderTable(2);
    LengthBefore(c, 2, 18, 2, 0xC20_C000_0000);
    OrderTable(1);
    LengthBefore(c, 1, 18, 3, 0x6106_0000_0002);
    OrderTable(0);
    LengthBefore(c, 0, 18, 3, 0x3_0830_0000_0013);
  }

  lemma ClNone()
    ensures LenLensBits(ClLengths(), 18, 18) == ToBits(0, 0)
  {
  }

  /** The bits of an item, and those of some items, are the n bits of v. */
  predicate ItemIs(c: Lengths, i: Item, v: nat, n: nat)
  {
    ValidItem(i) && Used(c, Sym(i)) && ItemBits(c, i) == ToBits(v, n) && v < Pow2(n)
  }

  predicate ItemsAre(c: Lengths, items: seq<Item>, v: nat, n: nat)
  {
    ItemsCodable(c, items) && ItemsBits(c, items) == ToBits(v, n)
  }

  /** One more item before those from number i + 1 on. */
  lemma ItemBefore(c: Lengths, items: seq<Item>, i: nat, v: nat, n: nat, x: nat, m: nat, y: nat, k: nat)
    requires i < |items| && ItemIs(c, items[i], v, n) && ItemsAre(c, items[i + 1..], x, m)
    requires y == v + x * Pow2(n) && k == n + m
    ensures ItemsAre(c, items[i..], y, k)
  {
    hide ToBits, ItemBits, Used;
    assert items[i..][1..] == items[i + 1..] && items[i..][0] == items[i];
    Join(v, n, x, m, y, k);
  }

  /** The code for an item and its extra bits. */
  lemma ItemNumber(c: Lengths, i: Item, code: nat, l: nat, e: nat, n: nat, y: nat, k: nat)
    requires ValidItem(i) && Used(c, Sym(i)) && c[Sym(i)] == l && Rev(Code(c, Sym(i)), l) == code < Pow2(l)
    requires ItemExtra(i) == ToBits(e, n) && y == code + e * Pow2(l) && k == l + n && y < Pow2(k)
    ensures ItemIs(c, i, y, k)
  {
    hide ToBits;
    Join(code, l, e, n, y, k);
  }

  /** The codes of two and three bits as they are sent. */
  lemma SmallCodes()
    ensures Rev(0, 2) == 0 && Rev(1, 2) == 2
    ensures Rev(4, 3) == 1 && Rev(5, 3) == 5 && Rev(6, 3) == 3 && Rev(7, 3) == 7
  {
  }

  lemma NoExtraBits(i: Item)
    requires i.Len? && ValidItem(i)
    ensures ItemExtra(i) == ToBits(0, 0)
  {
  }

  lemma NoBits(c: Lengths, items: seq<Item>)
    ensures ItemsAre(c, items[|items|..], 0, 0)
  {
  }

  lemma LitItemsNumbers()
    ensures ItemIs(ClLengths(), Zeros11(97), 0x15A, 9)
    ensures ItemIs(ClLengths(), Len(3), 5, 3)
    ensures ItemIs(ClLengths(), Prev(3), 3, 5)
    ensures ItemIs(ClLengths(), Zeros11(138), 0x1FE, 9)
    ensures ItemIs(ClLengths(), Zeros11(17), 0x1A, 9)
    ensures ItemIs(ClLengths(), Len(2), 0, 2)
    ensures ItemIs(ClLengths(), Zeros3(8), 0x2F, 6)
  {
    hide ToBits, Rev, Pow2, ItemBits, Code, ItemIs;
    var c := ClLengths();
    ClCodes();
    SmallCodes();
    SmallPowers();
    ItemNumber(c, Zeros11(97), 2, 2, 86, 7, 0x15A, 9);
    NoExtraBits(Len(3));
    ItemNumber(c, Len(3), 5, 3, 0, 0, 5, 3);
    ItemNumber(c, Prev(3), 3, 3, 0, 2, 3, 5);
    ItemNumber(c, Zeros11(138), 2, 2, 127, 7, 0x1FE, 9);
    ItemNumber(c, Zeros11(17), 2, 2, 6, 7, 0x1A, 9);
    NoExtraBits(Len(2));
    ItemNumber(c, Len(2), 0, 2, 0, 0, 0, 2);
    ItemNumber(c, Zeros3(8), 7, 3, 5, 3, 0x2F, 6);
  }

  lemma LitItemsBits()
    ensures ItemsAre(ClLengths(), LitItems(), 0x5E0_6BFC_3B5A, 45)
  {
    hide Pow2, ItemIs, ItemsAre, ClLengths;
    var c, items := ClLengths(), LitItems();
    LitItemsNumbers();
    SmallPowers();
    NoBits(c, items);
    ItemBefore(c, items, 7, 0, 2, 0, 0, 0, 2);
    ItemBefore(c, items, 6, 0x2F, 6, 0, 2, 0x2F, 8);
    ItemBefore(c, items, 5, 0, 2, 0x2F, 8, 0xBC, 10);
    ItemBefore(c, items, 4, 0x1A, 9, 0xBC, 10, 0x1_781A, 19);
    ItemBefore(c, items, 3, 0x1FE, 9, 0x1_781A, 19, 0x2F0_35FE, 28);
    ItemBefore(c, items, 2, 3, 5, 0x2F0_35FE, 28, 0x5E06_BFC3, 33);
    ItemBefore(c, items, 1, 5, 3, 0x5E06_BFC3, 33, 0x2_F035_FE1D, 36);
    ItemBefore(c, items, 0, 0x15A, 9, 0x2_F035_FE1D, 36, 0x5E0_6BFC_3B5A, 45);
    assert items[0..] == items;
  }

  lemma DistItemsNumbers()
    ensures ItemIs(ClLengths(), Zeros3(4), 0xF, 6)
    ensures ItemIs(ClLengths(), Len(1), 1, 3)
  {
    hide ToBits, Rev, Pow2, ItemBits, Code, ItemIs;
    var c := ClLengths();
    ClCodes();
    SmallCodes();
    SmallPowers();
    ItemNumber(c, Zeros3(4), 7, 3, 1, 3, 0xF, 6);
    NoExtraBits(Len(1));
    ItemNumber(c, Len(1), 1, 3, 0, 0, 1, 3);
  }

  lemma DistItemsBits()
    ensures ItemsAre(ClLengths(), DistItems(), 0x24F, 12)
  {
    hide Pow2, ItemIs, ItemsAre, ClLengths;
    var c, items := ClLengths(), DistItems();
    DistItemsNumbers();
    SmallPowers();
    NoBits(c, items);
    ItemBefore(c, items, 2, 1, 3, 0, 0, 1, 3);
    ItemBefore(c, items, 1, 1, 3, 1, 3, 9, 6);
    ItemBefore(c, items, 0, 0xF, 6, 9, 6, 0x24F, 12);
    assert items[0..] == items;
  }

  // ---------- tokens ----------

  /** The bits of a token, of some tokens, and of a symbol with its extra bits, are the
      n bits of v. */
  predicate TokenIs(ll: Lengths, dl: Lengths, t: Token, v: nat, n: nat)
  {
    Codable(ll, dl, t) && TokenBits(ll, dl, t) == ToBits(v, n) && v < Pow2(n)
  }

  predicate TokensAre(ll: Lengths, dl: Lengths, ts: seq<Token>, v: nat, n: nat)
  {
    AllCodable(ll, dl, ts) && TokensBits(ll, dl, ts) == ToBits(v, n)
  }

  predicate SymbolIs(lens: Lengths, s: nat, extra: seq<bool>, v: nat, n: nat)
  {
    Used(lens, s) && CodeBits(lens, s) + extra == ToBits(v, n) && v < Pow2(n)
  }

  /** One more token before those from number i + 1 on. */
  lemma TokenBefore(ll: Lengths, dl: Lengths, ts: seq<Token>, i: nat, v: nat, n: nat, x: nat, m: nat, y: nat, k: nat)
    requires i < |ts| && TokenIs(ll, dl, ts[i], v, n) && TokensAre(ll, dl, ts[i + 1..], x, m)
    requires y == v + x * Pow2(n) && k == n + m
    ensures TokensAre(ll, dl, ts[i..], y, k)
  {
    hide ToBits, TokenBits, Codable;
    assert ts[i..][1..] == ts[i + 1..] && ts[i..][0] == ts[i];
    Join(v, n, x, m, y, k);
  }

  lemma LiteralNumber(ll: Lengths, dl: Lengths, c: byte, v: nat, n: nat)
    requires Used(ll, c) && ll[c] == n && Rev(Code(ll, c), n) == v < Pow2(n)
    ensures TokenIs(ll, dl, Literal(c), v, n)
  {
    hide Rev, Code, ToBits, Pow2;
  }

  /** A code followed by extra bits. */
  lemma SymbolNumber(lens: Lengths, s: nat, v: nat, n: nat, extra: seq<bool>, x: nat, m: nat, y: nat, k: nat)
    requires Used(lens, s) && lens[s] == n && Rev(Code(lens, s), n) == v < Pow2(n) && extra == ToBits(x, m)
    requires y == v + x * Pow2(n) && k == n + m && y < Pow2(k)
    ensures SymbolIs(lens, s, extra, y, k)
  {
    hide ToBits, Rev, Code, Pow2;
    Join(v, n, x, m, y, k);
  }

  /** A match is the symbol of its length and that of its distance. */
  lemma MatchNumber(ll: Lengths, dl: Lengths, lc: nat, dc: nat, v: nat, n: nat, x: nat, m: nat, y: nat, k: nat)
    requires lc <= 255 && dc < WSIZE
    requires SymbolIs(ll, LenSym(lc), LengthExtra(lc), v, n) && SymbolIs(dl, DistCode(dc), DistExtra(dc), x, m)
    requires y == v + x * Pow2(n) && k == n + m && y < Pow2(k)
    ensures TokenIs(ll, dl, Match(lc + 3, dc + 1), y, k)
  {
    hide ToBits, CodeBits, LengthExtra, DistExtra, LenSym, DistCode, Used;
    Join(v, n, x, m, y, k);
    var p, q, r, s := CodeBits(ll, LenSym(lc)), LengthExtra(lc), CodeBits(dl, DistCode(dc)), DistExtra(dc);
    assert p + q + r + s == (p + q) + (r + s);
  }

  lemma LengthGoesOn(lc: nat, k: nat, c: nat)
    requires k <= c <= LENGTH_CODES - 2 && BaseLength(c) <= lc && (c < LENGTH_CODES - 2 ==> lc < BaseLength(c + 1))
    ensures LengthFrom(lc, k) == c
    decreases c - k
  {
    hide BaseLength;
    if k < c {
      LengthsGrow(k + 1, c);
      LengthGoesOn(lc, k + 1, c);
    }
  }

  lemma {:induction false} LengthsGrow(a: nat, b: nat)
    requires a <= b <= LENGTH_CODES - 1
    ensures BaseLength(a) <= BaseLength(b)
    decreases b
  {
    hide Pow2, ExtraLBits;
    if a < b { LengthsGrow(a, b - 1); }
  }

  lemma DistGoesOn(d: nat, k: nat, c: nat)
    requires k <= c <= D_CODES - 1 && BaseDist(c) <= d && (c < D_CODES - 1 ==> d < BaseDist(c + 1))
    ensures DistFrom(d, k) == c
    decreases c - k
  {
    hide BaseDist;
    if k < c {
      DistsGrow(k + 1, c);
      DistGoesOn(d, k + 1, c);
    }
  }

  lemma {:induction false} DistsGrow(a: nat, b: nat)
    requires a <= b <= D_CODES
    ensures BaseDist(a) <= BaseDist(b)
    decreases b
  {
    hide Pow2, ExtraDBits;
    if a < b { DistsGrow(a, b - 1); }
  }

  lemma MatchBases()
    ensures BaseLength(12) == 16 && BaseLength(13) == 20 && BaseLength(8) == 8 && BaseLength(9) == 10
    ensures BaseDist(4) == 4 && BaseDist(5) == 6 && BaseDist(6) == 8
  {
    hide BaseLength, BaseDist;
    LengthRow(12);
    LengthRow(13);
    LengthRow(8);
    LengthRow(9);
    DistRow(4);
    DistRow(5);
    DistRow(6);
  }

  /** The symbols of the matches. */
  lemma MatchSymbols()
    ensures LengthCode(17) == 12 && LengthCode(9) == 8 && LengthCode(8) == 8
    ensures DistCode(5) == 4 && DistCode(7) == 5
  {
    hide BaseLength, BaseDist, LengthFrom, DistFrom;
    MatchBases();
    LengthGoesOn(17, 0, 12);
    LengthGoesOn(9, 0, 8);
    LengthGoesOn(8, 0, 8);
    DistGoesOn(5, 0, 4);
    DistGoesOn(7, 0, 5);
  }

  lemma MatchExtras()
    ensures LengthExtra(17) == ToBits(1, 2) && LengthExtra(9) == ToBits(1, 1) && LengthExtra(8) == ToBits(0, 1)
    ensures DistExtra(5) == ToBits(1, 1) && DistExtra(7) == ToBits(1, 1)
  {
    hide ToBits, LengthCode, DistCode, BaseLength, BaseDist;
    MatchBases();
    MatchSymbols();
  }

  /** The fixed codes of this block as they are sent. */
  lemma FixedNumbers()
    ensures Rev(0x50, 8) == 10 && Rev(13, 7) == 88 && Rev(4, 5) == 4 && Rev(0x1E9, 9) == 303 && Rev(0, 7) == 0
  {
    hide Rev, Pow2;
    SmallPowers();
    NoneReversed();
    RevStep(0, 1);
    RevStep(1, 2);
    RevStep(2, 3);
    RevStep(5, 4);
    RevStep(0xA, 5);
    RevStep(0x14, 6);
    RevStep(0x28, 7);
    RevStep(0x50, 8);
    RevStep(0, 2);
    RevStep(0, 3);
    RevStep(1, 4);
    RevStep(3, 5);
    RevStep(6, 6);
    RevStep(0xD, 7);
    RevStep(1, 3);
    RevStep(2, 4);
    RevStep(4, 5);
    RevStep(1, 1);
    RevStep(3, 2);
    RevStep(7, 3);
    RevStep(0xF, 4);
    RevStep(0x1E, 5);
    RevStep(0x3D, 6);
    RevStep(0x7A, 7);
    RevStep(0xF4, 8);
    RevStep(0x1E9, 9);
    RevStep(0, 4);
    RevStep(0, 5);
    RevStep(0, 6);
    RevStep(0, 7);
  }

  lemma RevStep(x: nat, n: nat)
    requires n > 0
    ensures Rev(x, n) == (x % 2) * Pow2(n - 1) + Rev(x / 2, n - 1)
  {
    ShlTimes(x % 2, n - 1);
  }

  lemma NoneReversed()
    ensures forall x: nat :: Rev(x, 0) == 0
  {
  }

  lemma NoTokens(ll: Lengths, dl: Lengths, ts: seq<Token>)
    ensures TokensAre(ll, dl, ts[|ts|..], 0, 0)
  {
  }

  lemma FixedTokensNumbers()
    ensures TokenIs(FixedLengths(), FixedDists(), Literal(0x20), 0xA, 8)
    ensures TokenIs(FixedLengths(), FixedDists(), Match(20, 6), 0x48D8, 15)
    ensures TokenIs(FixedLengths(), FixedDists(), Literal(0xE9), 0x12F, 9)
  {
    hide ToBits, Rev, Pow2, Code, CodeBits, LengthCode, DistCode, LengthExtra, DistExtra, TokenIs, SymbolIs, FixedLengths, FixedDists;
    var ll, dl := FixedLengths(), FixedDists();
    FixedTable(0x20);
    FixedTable(0xE9);
    FixedTable(269);
    FixedTable(4);
    FixedNumbers();
    MatchSymbols();
    MatchExtras();
    SmallPowers();
    Pow2Values();
    LiteralNumber(ll, dl, 0x20, 0xA, 8);
    SymbolNumber(ll, 269, 0x58, 7, LengthExtra(17), 1, 2, 0xD8, 9);
    SymbolNumber(dl, 4, 4, 5, DistExtra(5), 1, 1, 0x24, 6);
    MatchNumber(ll, dl, 17, 5, 0xD8, 9, 0x24, 6, 0x48D8, 15);
    LiteralNumber(ll, dl, 0xE9, 0x12F, 9);
  }

  lemma FixedTokensBits()
    ensures TokensAre(FixedLengths(), FixedDists(), FixedTokens(), 0x97C8_D80A, 32)
  {
    hide Pow2, TokenIs, TokensAre, FixedLengths, FixedDists;
    var ll, dl, ts := FixedLengths(), FixedDists(), FixedTokens();
    FixedTokensNumbers();
    SmallPowers();
    Pow2Values();
    NoTokens(ll, dl, ts);
    TokenBefore(ll, dl, ts, 2, 0x12F, 9, 0, 0, 0x12F, 9);
    TokenBefore(ll, dl, ts, 1, 0x48D8, 15, 0x12F, 9, 0x97_C8D8, 24);
    TokenBefore(ll, dl, ts, 0, 0xA, 8, 0x97_C8D8, 24, 0x97C8_D80A, 32);
    assert ts[0..] == ts;
  }

  lemma OneBit()
    ensures Rev(0, 1) == 0 && Rev(1, 1) == 1
  {
  }

  lemma OwnTokensNumbers()
    ensures TokenIs(LitLengths(), DistLengths(), Literal(0x61), 1, 3)
    ensures TokenIs(LitLengths(), DistLengths(), Literal(0x62), 5, 3)
    ensures TokenIs(LitLengths(), DistLengths(), Literal(0x63), 3, 3)
    ensures TokenIs(LitLengths(), DistLengths(), Literal(0x64), 7, 3)
    ensures TokenIs(LitLengths(), DistLengths(), Match(12, 6), 0x16, 5)
    ensures TokenIs(LitLengths(), DistLengths(), Match(11, 8), 0x1A, 5)
  {
    hide ToBits, Rev, Pow2, Code, CodeBits, LengthCode, DistCode, LengthExtra, DistExtra, TokenIs, SymbolIs, LitLengths, DistLengths;
    var ll, dl := LitLengths(), DistLengths();
    LitCodes();
    DistCodes();
    SmallCodes();
    OneBit();
    MatchSymbols();
    MatchExtras();
    SmallPowers();
    LiteralNumber(ll, dl, 0x61, 1, 3);
    LiteralNumber(ll, dl, 0x62, 5, 3);
    LiteralNumber(ll, dl, 0x63, 3, 3);
    LiteralNumber(ll, dl, 0x64, 7, 3);
    SymbolNumber(ll, 265, 2, 2, LengthExtra(9), 1, 1, 6, 3);
    SymbolNumber(dl, 4, 0, 1, DistExtra(5), 1, 1, 2, 2);
    MatchNumber(ll, dl, 9, 5, 6, 3, 2, 2, 0x16, 5);
    SymbolNumber(ll, 265, 2, 2, LengthExtra(8), 0, 1, 2, 3);
    SymbolNumber(dl, 5, 1, 1, DistExtra(7), 1, 1, 3, 2);
    MatchNumber(ll, dl, 8, 7, 2, 3, 3, 2, 0x1A, 5);
  }

  lemma OwnTokensBits()
    ensures TokensAre(LitLengths(), DistLengths(), OwnTokens(), 0xD5A_9EE9, 28)
  {
    hide Pow2, TokenIs, TokensAre, LitLengths, DistLengths;
    var ll, dl, ts := LitLengths(), DistLengths(), OwnTokens();
    OwnTokensNumbers();
    SmallPowers();
    Pow2Values();
    NoTokens(ll, dl, ts);
    TokenBefore(ll, dl, ts, 7, 0x1A, 5, 0, 0, 0x1A, 5);
    TokenBefore(ll, dl, ts, 6, 0x16, 5, 0x1A, 5, 0x356, 10);
    TokenBefore(ll, dl, ts, 5, 5, 3, 0x356, 10, 0x1AB5, 13);
    TokenBefore(ll, dl, ts, 4, 1, 3, 0x1AB5, 13, 0xD5A9, 16);
    TokenBefore(ll, dl, ts, 3, 7, 3, 0xD5A9, 16, 0x6_AD4F, 19);
    TokenBefore(ll, dl, ts, 2, 3, 3, 0x6_AD4F, 19, 0x35_6A7B, 22);
    TokenBefore(ll, dl, ts, 1, 5, 3, 0x35_6A7B, 22, 0x1AB_53DD, 25);
    TokenBefore(ll, dl, ts, 0, 1, 3, 0x1AB_53DD, 25, 0xD5A_9EE9, 28);
    assert ts[0..] == ts;
  }

  // ---------- the header of block 3 ----------

  /** Equal lengths up to the last of a run only raise the counter. */
  lemma {:induction false} RunGoesOn(lens: seq<nat>, n: nat, k: nat, r: Run)
    requires n + k < |lens| && r.count + k < r.maxCount
    requires forall i :: n <= i < n + k ==> lens[i] == lens[i + 1]
    ensures Items(lens, n, r) == Items(lens, n + k, r.(count := r.count + k))
    decreases k
  {
    if k > 0 { RunGoesOn(lens, n + 1, k - 1, r.(count := r.count + 1)); }
  }

  /** A whole run of k equal lengths x. */
  lemma WholeRun(lens: seq<nat>, n: nat, k: nat, r: Run, x: nat)
    requires k > 0 && n + k <= |lens| && r.count == 0 && k <= r.maxCount
    requires forall i :: n <= i < n + k ==> lens[i] == x
    requires k == r.maxCount || NextLen(lens, n + k - 1) != x
    ensures Items(lens, n, r) ==
            RunItems(x, r.prevlen, k, r.minCount) + Items(lens, n + k, NextRun(x, NextLen(lens, n + k - 1)))
  {
    hide NextRun, RunItems;
    RunGoesOn(lens, n, k - 1, r);
  }

  lemma LitTree()
    ensures TreeItems(LitLengths()) == LitItems()
  {
    hide Items, Repeat;
    var c := LitLengths();
    WholeRun(c, 0, 97, Run(-1, 0, 138, 3), 0);
    WholeRun(c, 97, 4, Run(0, 0, 7, 4), 3);
    WholeRun(c, 101, 138, Run(3, 0, 138, 3), 0);
    WholeRun(c, 239, 17, Run(0, 0, 138, 3), 0);
    LitTreeEnd();
  }

  lemma LitTreeEnd()
    ensures Items(LitLengths(), 256, Run(0, 0, 7, 4)) == [Len(2), Zeros3(8), Len(2)]
  {
    hide Items, Repeat;
    var c := LitLengths();
    WholeRun(c, 256, 1, Run(0, 0, 7, 4), 2);
    WholeRun(c, 257, 8, Run(2, 0, 138, 3), 0);
    WholeRun(c, 265, 1, Run(0, 0, 7, 4), 2);
    NoItems(c);
    assert Lens(2, 1) == [Len(2)] + Lens(2, 0);
  }

  lemma NoItems(lens: seq<nat>)
    ensures forall r :: Items(lens, |lens|, r) == []
  {
  }

  lemma DistTree()
    ensures TreeItems(DistLengths()) == DistItems()
  {
    hide Items, Repeat;
    var c := DistLengths();
    WholeRun(c, 0, 4, Run(-1, 0, 138, 3), 0);
    WholeRun(c, 4, 2, Run(0, 0, 7, 4), 1);
    NoItems(c);
    assert Lens(1, 1) == [Len(1)] + Lens(1, 0);
    assert Lens(1, 2) == [Len(1)] + Lens(1, 1);
  }

  // ---------- the decoder takes the codes ----------

  /** Two codes of two bits and four of three bits. */
  lemma SixCodes(lens: Lengths)
    requires forall l: nat | 0 < l :: Total(lens, l) == if l == 2 then 2 else if l == 3 then 4 else 0
    ensures Complete(lens)
  {
    hide Total;
    BelowFlat(lens, 4, 16);
    Pow2Values();
    SmallPowers();
    ShlTimes(2, 13);
    ShlTimes(4, 12);
    ShlOne(14);
    assert Below(lens, 2) == 0;
    assert Below(lens, 3) == 0x4000;
    assert Below(lens, 4) == 0x8000;
  }

  lemma ClFits()
    ensures Fits(CODES, ClLengths(), CODEBITS)
  {
    hide Fits, Total, Count, Complete, Longest;
    ClCounts();
    SixCodes(ClLengths());
    SmallPowers();
    FitsFlat(CODES, ClLengths(), 7);
  }

  lemma TreesFit()
    ensures BothFit(LitLengths(), DistLengths())
  {
    hide Fits, Total, Count, Complete, Longest;
    LitCounts();
    SixCodes(LitLengths());
    SmallPowers();
    FitsFlat(LENS, LitLengths(), 9);
    DistTotals();
    FitsFlat(DISTS, DistLengths(), 6);
  }

  lemma DistTotals()
    ensures Complete(DistLengths())
  {
    hide Count;
    var c := DistLengths();
    CountNone(c);
    forall l: nat | 0 < l
      ensures Total(c, l) == if l == 1 then 2 else 0
    {
      CountRun(c, 0, 4, 0, l);
      CountRun(c, 4, 6, 1, l);
    }
    hide Total;
    BelowFlat(c, 2, 16);
    Pow2Values();
    SmallPowers();
    ShlTimes(2, 14);
    assert Pow2(14) == 2 * Pow2(13);
  }

  lemma HeaderSent()
    ensures TreesSent(LitLengths(), DistLengths(), ClLengths(), 18)
  {
    hide Fits, TreeItems, LitItems, DistItems, ItemsCodable, Partial, LitLengths, DistLengths, ClLengths, ItemsBits;
    ClFits();
    LengthsInRange();
    AllButOne();
    LitTree();
    DistTree();
    LitItemsBits();
    DistItemsBits();
  }

  lemma LengthsInRange()
    ensures InRange(LitLengths()) && InRange(DistLengths()) && LitLengths()[END_BLOCK] != 0
    ensures forall s :: 0 <= s < 19 ==> ClLengths()[s] <= CODEBITS
  {
  }

  /** The length that is not sent is zero. */
  lemma AllButOne()
    ensures Partial(ClLengths(), ClLengths(), 18)
  {
  }

  // ---------- the bits of the blocks ----------

  lemma BigPowers()
    ensures Pow2(12) == 0x1000 && Pow2(28) == 0x1000_0000 && Pow2(32) == 0x1_0000_0000 && Pow2(42) == 0x400_0000_0000 && Pow2(45) == 0x2000_0000_0000 && Pow2(54) == 0x40_0000_0000_0000
  {
    SmallPowers();
    assert Pow2(16) == 0x1_0000;
    assert Pow2(20) == 0x10_0000;
    assert Pow2(24) == 0x100_0000;
    assert Pow2(28) == 0x1000_0000;
    assert Pow2(32) == 0x1_0000_0000;
    assert Pow2(36) == 0x10_0000_0000;
    assert Pow2(40) == 0x100_0000_0000;
    assert Pow2(42) == 0x400_0000_0000;
    assert Pow2(44) == 0x1000_0000_0000;
    assert Pow2(45) == 0x2000_0000_0000;
    assert Pow2(48) == 0x1_0000_0000_0000;
    assert Pow2(52) == 0x10_0000_0000_0000;
    assert Pow2(54) == 0x40_0000_0000_0000;
  }

  /** A field before other bits. */
  lemma FieldBefore(v: nat, n: nat, rest: seq<bool>, x: nat, m: nat, y: nat, k: nat)
    requires v < Pow2(n) && rest == ToBits(x, m) && y == v + x * Pow2(n) && k == n + m
    ensures ToBits(v, n) + rest == ToBits(y, k)
  {
    hide ToBits;
    Join(v, n, x, m, y, k);
  }

  lemma FixedBlockBits()
    ensures AllCodable(FixedLengths(), FixedDists(), FixedTokens()) && Used(FixedLengths(), END_BLOCK)
    ensures StaticBits(false, FixedTokens()) == ToBits(0x4_BE46_C052, 42)
  {
    hide ToBits, TokensBits, FixedLengths, FixedDists, FixedTokens, AllCodable, Rev, Code, Pow2;
    FixedTokensBits();
    FixedTable(END_BLOCK);
    FixedNumbers();
    SmallPowers();
    BigPowers();
    var end := CodeBits(FixedLengths(), END_BLOCK);
    var body := ToBits(0x97C8_D80A, 32) + end;
    FieldBefore(0x97C8_D80A, 32, end, 0, 7, 0x97C8_D80A, 39);
    FieldBefore(2, 3, body, 0x97C8_D80A, 39, 0x4_BE46_C052, 42);
  }

  lemma OwnBlockBits()
    ensures TreesSent(LitLengths(), DistLengths(), ClLengths(), 18)
    ensures AllCodable(LitLengths(), DistLengths(), OwnTokens()) && Used(LitLengths(), END_BLOCK)
    ensures DynamicBits(true, LitLengths(), DistLengths(), ClLengths(), 18, OwnTokens()) == ToBits(0xD5A_9EE9_24F2_F035_FE1D_AD30_8300_0000_0137_C54D, 158)
  {
    hide ToBits, TokensBits, AllCodable, Rev, Code, Pow2, ItemsBits, TreeItems, LenLensBits, ItemsCodable, Fits, InRange;
    hide OwnTokens, LitItems, DistItems, Partial;
    HeaderSent();
    LitTree();
    DistTree();
    LengthLengths();
    LitItemsBits();
    DistItemsBits();
    OwnTokensBits();
    LitCodes();
    SmallCodes();
    SmallPowers();
    BigPowers();
    var c, l, d := ClLengths(), LitLengths(), DistLengths();
    var f8 := CodeBits(l, END_BLOCK);
    var f7 := TokensBits(l, d, OwnTokens()) + f8;
    var f6 := ItemsBits(c, TreeItems(d)) + f7;
    var f5 := ItemsBits(c, TreeItems(l)) + f6;
    var f4 := LenLensBits(c, 0, 18) + f5;
    var f3 := ToBits(14, 4) + f4;
    var f2 := ToBits(5, 5) + f3;
    var f1 := ToBits(9, 5) + f2;
    FieldBefore(0xD5A_9EE9, 28, f8, 0, 2, 0xD5A_9EE9, 30);
    FieldBefore(0x24F, 12, f7, 0xD5A_9EE9, 30, 0xD5_A9EE_924F, 42);
    FieldBefore(0x5E0_6BFC_3B5A, 45, f6, 0xD5_A9EE_924F, 42, 0x1A_B53D_D249_E5E0_6BFC_3B5A, 87);
    FieldBefore(0x18_4180_0000_009B, 54, f5, 0x1A_B53D_D249_E5E0_6BFC_3B5A, 87, 0x6AD_4F74_9279_781A_FF0E_D698_4180_0000_009B, 141);
    FieldBefore(0xE, 4, f4, 0x6AD_4F74_9279_781A_FF0E_D698_4180_0000_009B, 141, 0x6AD4_F749_2797_81AF_F0ED_6984_1800_0000_09BE, 145);
    FieldBefore(5, 5, f3, 0x6AD4_F749_2797_81AF_F0ED_6984_1800_0000_09BE, 145, 0xD_5A9E_E924_F2F0_35FE_1DAD_3083_0000_0001_37C5, 150);
    FieldBefore(9, 5, f2, 0xD_5A9E_E924_F2F0_35FE_1DAD_3083_0000_0001_37C5, 150, 0x1AB_53DD_249E_5E06_BFC3_B5A6_1060_0000_0026_F8A9, 155);
    FieldBefore(5, 3, f1, 0x1AB_53DD_249E_5E06_BFC3_B5A6_1060_0000_0026_F8A9, 155, 0xD5A_9EE9_24F2_F035_FE1D_AD30_8300_0000_0137_C54D, 158);
    Regroup(HeaderBits(DYN_TREES, true), ToBits(9, 5), ToBits(5, 5), ToBits(14, 4), LenLensBits(c, 0, 18),
            ItemsBits(c, TreeItems(l)), ItemsBits(c, TreeItems(d)), TokensBits(l, d, OwnTokens()), f8);
  }

  lemma Regroup(a: seq<bool>, b: seq<bool>, c: seq<bool>, d: seq<bool>, e: seq<bool>, f: seq<bool>, g: seq<bool>,
                h: seq<bool>, i: seq<bool>)
    ensures a + (b + c + d + e + f + g) + (h + i) == a + (b + (c + (d + (e + (f + (g + (h + i)))))))
  {
  }

  // ---------- the bytes ----------

  /** One more byte before those from number i + 1 on. */
  lemma ByteBefore(s: seq<byte>, i: nat, c: byte, x: nat)
    requires i < |s| && s[i] == c && BytesBits(s[i + 1..]) == ToBits(x, 8 * (|s| - i - 1))
    ensures BytesBits(s[i..]) == ToBits(c + 0x100 * x, 8 * (|s| - i))
  {
    hide ToBits;
    SmallPowers();
    assert s[i..][1..] == s[i + 1..];
    Join(c, 8, x, 8 * (|s| - i - 1), c + 0x100 * x, 8 * (|s| - i));
  }

  lemma NoBytes(s: seq<byte>)
    ensures BytesBits(s[|s|..]) == ToBits(0, 0)
  {
  }

  lemma StoredAt()
    ensures var s := Stream();
            && s[0] == 0x00 && s[1] == 0x05 && s[2] == 0x00 && s[3] == 0xFA && s[4] == 0xFF && s[5] == 0x68 && s[6] == 0x65
            && s[7] == 0x6C && s[8] == 0x6C && s[9] == 0x6F
  {
    hide Coded1, Coded2;
  }

  lemma Coded1At()
    ensures var s := Stream();
            && s[10] == 0x52 && s[11] == 0xC0 && s[12] == 0x46 && s[13] == 0xBE && s[14] == 0x04 && s[15] == 0x34 && s[16] == 0x15
            && s[17] == 0xDF && s[18] == 0x04 && s[19] == 0x00 && s[20] == 0x00 && s[21] == 0x00
  {
    hide Stored, Coded2;
  }

  lemma Coded2At()
    ensures var s := Stream();
            && s[22] == 0x0C && s[23] == 0xC2 && s[24] == 0xB4 && s[25] == 0x76 && s[26] == 0xF8 && s[27] == 0xD7 && s[28] == 0xC0
            && s[29] == 0xCB && s[30] == 0x93 && s[31] == 0xA4 && s[32] == 0x7B && s[33] == 0x6A && s[34] == 0x35
  {
    hide Stored, Coded1;
  }

  lemma LastBytes()
    ensures BytesBits(Stream()[22..]) == ToBits(0x35_6A7B_A493_CBC0_D7F8_76B4_C20C, 104)
  {
    hide ToBits, BytesBits, Stream;
    var s := Stream();
    Coded2At();
    NoBytes(s);
    ByteBefore(s, 34, 0x35, 0);
    ByteBefore(s, 33, 0x6A, 0x35);
    ByteBefore(s, 32, 0x7B, 0x356A);
    ByteBefore(s, 31, 0xA4, 0x35_6A7B);
    ByteBefore(s, 30, 0x93, 0x356A_7BA4);
    ByteBefore(s, 29, 0xCB, 0x35_6A7B_A493);
    ByteBefore(s, 28, 0xC0, 0x356A_7BA4_93CB);
    ByteBefore(s, 27, 0xD7, 0x35_6A7B_A493_CBC0);
    ByteBefore(s, 26, 0xF8, 0x356A_7BA4_93CB_C0D7);
    ByteBefore(s, 25, 0x76, 0x35_6A7B_A493_CBC0_D7F8);
    ByteBefore(s, 24, 0xB4, 0x356A_7BA4_93CB_C0D7_F876);
    ByteBefore(s, 23, 0xC2, 0x35_6A7B_A493_CBC0_D7F8_76B4);
    ByteBefore(s, 22, 0x0C, 0x356A_7BA4_93CB_C0D7_F876_B4C2);
  }

  lemma BlockBytes()
    ensures BytesBits(Stream()[10..]) == ToBits(0x35_6A7B_A493_CBC0_D7F8_76B4_C20C_0000_0004_DF15_3404_BE46_C052, 200)
  {
    hide ToBits, BytesBits, Stream;
    var s := Stream();
    Coded1At();
    LastBytes();
    ByteBefore(s, 21, 0x00, 0x35_6A7B_A493_CBC0_D7F8_76B4_C20C);
    ByteBefore(s, 20, 0x00, 0x356A_7BA4_93CB_C0D7_F876_B4C2_0C00);
    ByteBefore(s, 19, 0x00, 0x35_6A7B_A493_CBC0_D7F8_76B4_C20C_0000);
    ByteBefore(s, 18, 0x04, 0x356A_7BA4_93CB_C0D7_F876_B4C2_0C00_0000);
    ByteBefore(s, 17, 0xDF, 0x35_6A7B_A493_CBC0_D7F8_76B4_C20C_0000_0004);
    ByteBefore(s, 16, 0x15, 0x356A_7BA4_93CB_C0D7_F876_B4C2_0C00_0000_04DF);
    ByteBefore(s, 15, 0x34, 0x35_6A7B_A493_CBC0_D7F8_76B4_C20C_0000_0004_DF15);
    ByteBefore(s, 14, 0x04, 0x356A_7BA4_93CB_C0D7_F876_B4C2_0C00_0000_04DF_1534);
    ByteBefore(s, 13, 0xBE, 0x35_6A7B_A493_CBC0_D7F8_76B4_C20C_0000_0004_DF15_3404);
    ByteBefore(s, 12, 0x46, 0x356A_7BA4_93CB_C0D7_F876_B4C2_0C00_0000_04DF_1534_04BE);
    ByteBefore(s, 11, 0xC0, 0x35_6A7B_A493_CBC0_D7F8_76B4_C20C_0000_0004_DF15_3404_BE46);
    ByteBefore(s, 10, 0x52, 0x356A_7BA4_93CB_C0D7_F876_B4C2_0C00_0000_04DF_1534_04BE_46C0);
  }

  /** The two blocks with codes are the bytes from the tenth on. */
  lemma CodedBlocks()
    ensures AllCodable(FixedLengths(), FixedDists(), FixedTokens()) && Used(FixedLengths(), END_BLOCK)
    ensures TreesSent(LitLengths(), DistLengths(), ClLengths(), 18)
    ensures AllCodable(LitLengths(), DistLengths(), OwnTokens()) && Used(LitLengths(), END_BLOCK)
    ensures BytesBits(Stream()[10..]) == StaticBits(false, FixedTokens()) +
              DynamicBits(true, LitLengths(), DistLengths(), ClLengths(), 18, OwnTokens())
  {
    hide ToBits, BytesBits, Stream, AllCodable, Used, TreesSent, StaticBits, DynamicBits, Pow2;
    BlockBytes();
    FixedBlockBits();
    OwnBlockBits();
    BigPowers();
    Join(0x4_BE46_C052, 42, 0xD5A_9EE9_24F2_F035_FE1D_AD30_8300_0000_0137_C54D, 158, 0x35_6A7B_A493_CBC0_D7F8_76B4_C20C_0000_0004_DF15_3404_BE46_C052, 200);
  }

  /** The bytes before are a stored block. */
  lemma StoredBytes()
    ensures BytesBits(Stream()[..10]) == StoredBits(false, ToBits(0, 5), Hello())
  {
    hide ToBits, BytesBits;
    Pow2Values();
    SmallPowers();
    assert 0xFFFF - |Hello()| == 0xFFFA;
    Join(0, 3, 0, 5, 0, 8);
    Join(5, 8, 0, 8, 5, 16);
    Join(0xFA, 8, 0xFF, 8, 0xFFFA, 16);
    hide Stream;
    StoredAt();
    var s := Stream()[..10];
    OneByte(s, 0);
    OneByte(s, 1);
    OneByte(s, 2);
    OneByte(s, 3);
    OneByte(s, 4);
    assert s[5..] == Hello();
    assert s[0..] == s;
    FourParts(ToBits(0, 3), ToBits(0, 5), ToBits(5, 8), ToBits(0, 8), ToBits(0xFA, 8), ToBits(0xFF, 8), BytesBits(Hello()));
  }

  lemma OneByte(s: seq<byte>, i: nat)
    requires i < |s|
    ensures BytesBits(s[i..]) == ToBits(s[i], 8) + BytesBits(s[i + 1..])
  {
    hide ToBits;
    assert s[i..][1..] == s[i + 1..];
  }

  lemma FourParts(a: seq<bool>, b: seq<bool>, c: seq<bool>, d: seq<bool>, e: seq<bool>, f: seq<bool>, g: seq<bool>)
    ensures (a + b) + (c + (d + (e + (f + g)))) == a + (b + (c + d) + (e + f) + g)
  {
  }

  // ---------- what they stand for ----------

  /** A match no longer than its distance repeats bytes that are already there. */
  lemma {:induction false} CopyWhole(out: seq<byte>, dist: nat, n: nat)
    requires 1 <= dist <= |out| && n <= dist
    ensures CopyBack(out, dist, n) == out + out[|out| - dist..][..n]
    decreases n
  {
    if n > 0 {
      CopyWhole(out, dist, n - 1);
      CopyLast(out, dist, n - 1);
    }
  }

  lemma {:induction false} CopyLast(out: seq<byte>, dist: nat, n: nat)
    requires 1 <= dist <= |out|
    ensures var c := CopyBack(out, dist, n); CopyBack(out, dist, n + 1) == c + [c[|c| - dist]]
    decreases n
  {
    if n > 0 { CopyLast(out + [out[|out| - dist]], dist, n - 1); }
  }

  lemma {:induction false} CopyTwice(out: seq<byte>, dist: nat, m: nat, n: nat)
    requires 1 <= dist <= |out|
    ensures CopyBack(out, dist, m + n) == CopyBack(CopyBack(out, dist, m), dist, n)
    decreases m
  {
    if m > 0 { CopyTwice(out + [out[|out| - dist]], dist, m - 1, n); }
  }

  /** The first of some tokens, from number i on. */
  lemma ExpandFrom(out: seq<byte>, ts: seq<Token>, i: nat, next: seq<byte>, all: seq<byte>)
    requires i < |ts| && ValidToken(ts[i], |out|) && Expand(out, ts[i]) == next
    requires ValidTokens(ts[i + 1..], |next|) && ExpandAll(next, ts[i + 1..]) == all
    requires |next| == |out| + Size(ts[i])
    ensures ValidTokens(ts[i..], |out|) && ExpandAll(out, ts[i..]) == all
  {
    hide Expand;
    assert ts[i..][1..] == ts[i + 1..];
  }

  lemma NothingMore(out: seq<byte>, ts: seq<Token>)
    ensures ValidTokens(ts[|ts|..], |out|) && ExpandAll(out, ts[|ts|..]) == out
  {
  }

  /** What a match whose distance is |s| adds to text that ends with s. */
  lemma Repeated(before: seq<byte>, s: seq<byte>)
    requires s != []
    ensures CopyBack(before + s, |s|, |s|) == before + s + s
  {
    CopyWhole(before + s, |s|, |s|);
    assert (before + s)[|before|..] == s;
    assert s[..|s|] == s;
  }

  lemma RepeatedStart(before: seq<byte>, s: seq<byte>, n: nat)
    requires s != [] && n <= |s|
    ensures CopyBack(before + s, |s|, n) == before + s + s[..n]
  {
    CopyWhole(before + s, |s|, n);
    assert (before + s)[|before|..] == s;
  }

  /** Match(20, 6) after "hello " */
  lemma FourHellos()
    ensures var h := HelloSpace(); CopyBack(h, 6, 20) == h + h + h + h + [0x68, 0x65]
  {
    hide CopyBack, HelloSpace;
    var h := HelloSpace();
    assert [] + h == h;
    CopyTwice(h, 6, 6, 14);
    Repeated([], h);
    CopyTwice(h + h, 6, 6, 8);
    Repeated(h, h);
    CopyTwice(h + h + h, 6, 6, 2);
    Repeated(h + h, h);
    RepeatedStart(h + h + h, h, 2);
    HeIs();
  }

  lemma HeIs()
    ensures HelloSpace()[..2] == [0x68, 0x65]
  {
  }

  lemma FixedMeaning()
    ensures ValidTokens(FixedTokens(), 5)
    ensures ExpandAll(Hello(), FixedTokens()) == Text()[..27]
  {
    hide CopyBack, ValidTokens, ExpandAll;
    var ts, h := FixedTokens(), HelloSpace();
    var h4 := h + h + h + h + [0x68, 0x65];
    assert h == Hello() + [0x20];
    FourHellos();
    var all := h4 + [0xE9];
    NothingMore(all, ts);
    ExpandFrom(h4, ts, 2, all, all);
    ExpandFrom(h, ts, 1, h4, all);
    ExpandFrom(Hello(), ts, 0, h, all);
    assert ts[0..] == ts;
    assert all == Text()[..27];
  }

  /** Match(12, 6) and Match(11, 8) after text that ends with "abcdab" */
  lemma LetterMatches(before: seq<byte>)
    ensures var l := Letters();
            && CopyBack(before + l, 6, 12) == before + l + l + l
            && CopyBack(before + l + l + l, 8, 11) == before + l + l + l + [0x61, 0x62] + l + [0x61, 0x62, 0x61]
  {
    hide CopyBack, Letters;
    var l := Letters();
    CopyTwice(before + l, 6, 6, 6);
    Repeated(before, l);
    Repeated(before + l, l);
    var a, e := LettersEnd();
    var p := before + l + a;
    assert before + l + l + l == before + l + (l + l) == p + e;
    CopyTwice(p + e, 8, 8, 3);
    Repeated(p, e);
    RepeatedStart(p + e, e, 3);
  }

  /** The last eight of its letters. */
  lemma LettersEnd() returns (a: seq<byte>, e: seq<byte>)
    ensures |e| == 8 && Letters() + Letters() == a + e && e == [0x61, 0x62] + Letters() && e[..3] == [0x61, 0x62, 0x61]
  {
    a, e := [0x61, 0x62, 0x63, 0x64], [0x61, 0x62] + Letters();
  }

  lemma OwnMeaning()
    ensures ValidTokens(OwnTokens(), 27) && ExpandAll(Text()[..27], OwnTokens()) == Text()
  {
    hide CopyBack, ValidTokens, ExpandAll, Text;
    var ts, l, t := OwnTokens(), Letters(), Text()[..27];
    var all := t + l + l + l + [0x61, 0x62] + l + [0x61, 0x62, 0x61];
    LastMeaning(t);
    ExpandFrom(t + l[..2], ts, 2, t + l[..3], all);
    ExpandFrom(t + l[..1], ts, 1, t + l[..2], all);
    ExpandFrom(t, ts, 0, t + l[..1], all);
    assert ts[0..] == ts;
    TextEnd();
  }

  lemma LastMeaning(t: seq<byte>)
    requires |t| == 27
    ensures var l := Letters();
            && ValidTokens(OwnTokens()[3..], 30)
            && ExpandAll(t + l[..3], OwnTokens()[3..]) == t + l + l + l + [0x61, 0x62] + l + [0x61, 0x62, 0x61]
  {
    hide CopyBack, ValidTokens, ExpandAll;
    var ts, l := OwnTokens(), Letters();
    LetterMatches(t);
    var t6 := t + l;
    var t7 := t + l + l + l;
    var all := t7 + [0x61, 0x62] + l + [0x61, 0x62, 0x61];
    NothingMore(all, ts);
    ExpandFrom(t7, ts, 7, all, all);
    ExpandFrom(t6, ts, 6, t7, all);
    ExpandFrom(t + l[..5], ts, 5, t6, all);
    ExpandFrom(t + l[..4], ts, 4, t + l[..5], all);
    ExpandFrom(t + l[..3], ts, 3, t + l[..4], all);
  }

  lemma TextEnd()
    ensures var l := Letters(); Text() == Text()[..27] + l + l + l + [0x61, 0x62] + l + [0x61, 0x62, 0x61]
  {
    hide Letters, HelloSpace;
  }

  // ---------- the run ----------

  /** The last two blocks take a decoder that has "hello" to the end. */
  lemma CodedRun(m1: Machine) returns (m: Machine)
    requires Sound(m1) && m1.mode == TYPE && !m1.last && m1.out == Hello()
    ensures Reaches(m1, BytesBits(Stream()[10..]), m, []) && m.mode == DONE && m.out == Text()
  {
    hide Reaches, Sound, AllCodable, Used, ToBits, BytesBits, StaticBits, DynamicBits, ValidTokens, ExpandAll;
    hide BothFit, Stream, Text, Partial, Fits, ItemsCodable, InRange, TreeItems, LitLengths, DistLengths, ClLengths, CopyBack;
    CodedBlocks();
    FixedMeaning();
    OwnMeaning();
    TreesFit();
    var l, d, c := LitLengths(), DistLengths(), ClLengths();
    var own := DynamicBits(true, l, d, c, 18, OwnTokens());
    var coded := StaticBits(false, FixedTokens()) + own;
    var m2 := StaticRoundTrip(m1, false, FixedTokens(), own);
    assert own + [] == own;
    var m3, b3 := DynamicRoundTrip(m2, true, l, d, c, 18, OwnTokens(), []);
    m := Finished(m3);
    ReachesTrans(m1, coded, m2, own, m3, []);
    ReachesTrans(m1, coded, m3, [], m, []);
  }

  lemma Finished(m3: Machine) returns (m: Machine)
    requires Sound(m3) && m3.mode == TYPE && m3.last
    ensures Reaches(m3, [], m, []) && m.mode == DONE && m.out == m3.out
  {
    hide Reaches, Sound;
    var none: seq<bool> := [];
    RunEnd(m3, none, none);
    assert none + none == none;
    m := m3.(mode := DONE);
  }

  /** These bytes and no others lead from the start to the end of the stream. */
  lemma StreamRun() returns (m: Machine)
    ensures Reaches(InflateSpec.Start(), BytesBits(Stream()), m, []) && m.mode == DONE && m.out == Text()
  {
    hide Reaches, Sound, ToBits, BytesBits, StoredBits, Stream, Text;
    var m0 := InflateSpec.Start();
    StartSound();
    StoredBytes();
    assert Stream() == Stream()[..10] + Stream()[10..];
    BytesBitsConcat(Stream()[..10], Stream()[10..]);
    var m1 := StoredRoundTrip(m0, false, ToBits(0, 5), Hello(), BytesBits(Stream()[10..]));
    m := CodedRun(m1);
    ReachesTrans(m0, BytesBits(Stream()), m1, BytesBits(Stream()[10..]), m, []);
  }

  /** Where a decoder is after one call with these bytes and room for more. */
  lemma StreamEnds(used: nat, m: Machine, p: seq<bool>)
    requires used <= 35 && Fed(Stream()[..used], m, p)
    requires Halted(m) || (used == 35 && Step(m, p) == Stuck) || |m.out| > 56
    ensures m.mode == DONE && m.out == Text() && used == 35 && p == []
  {
    hide Step, BytesBits, Reaches, Stream, Text;
    var m2 := StreamRun();
    var fed, more := Stream()[..used], Stream()[used..];
    assert fed + more == Stream();
    Halts(m2, []);
    FastEntry.BeforeStuck(fed, more, m, p, m2, []);
    if used == 35 {
      assert fed == Stream();
    }
    if Halted(m) {
      AllUsed(fed, more, m, p);
    } else {
      assert Fed(fed, m2, []);
      SameInput(fed, m, p, m2, []);
    }
  }

  /** A finished decoder has not been given more than the stream. */
  lemma AllUsed(fed: seq<byte>, more: seq<byte>, m: Machine, p: seq<bool>)
    requires Fed(fed, m, p) && m.mode == DONE
    requires Reaches(InflateSpec.Start(), BytesBits(fed + more), m, [])
    ensures more == [] && p == []
  {
    hide Step, BytesBits, Reaches;
    var b :| Reaches(InflateSpec.Start(), BytesBits(fed), m, b) && (m.mode == BAD || b == p);
    StartSound();
    BytesBitsConcat(fed, more);
    var x := BytesBits(more);
    ReachesMore(InflateSpec.Start(), BytesBits(fed), m, b, x);
    Halts(m, b + x);
    Halts(m, []);
    StuckUnique(InflateSpec.Start(), BytesBits(fed + more), m, b + x, m, []);
  }

  /** inflate() on these bytes: this text, and the end of the stream. */
  method InflateStreamBytes() returns (ret: Return, out: seq<byte>, used: nat)
    ensures ret == Z_STREAM_END && out == Text() && used == 35
  {
    hide InflateStream.Idle, InflateStream.St, Step, Pend, Fed, Stream, Text;
    var d := new InflateStream();
    ghost var held;
    ret, out, used, held := d.Inflate(Stream(), 100);
    d.History();
    assert d.fed == Stream()[..used];
    StreamEnds(used, d.m, Pend(d.St()));
  }
}
