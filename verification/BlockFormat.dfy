/** The bits of deflate blocks, as trees.c writes them, and the proof that the
    decoder turns them back into the data. */
module BlockFormat {
  import opened Bits
  import opened HuffmanCode
  import opened TableTheory
  import opened InflateTable
  import opened Tokens
  import opened InflateSpec
  import opened InflateProps
  import opened CodeLengths

  const END_BLOCK: nat := 256

  // ---------- tokens ----------

  function LenSym(lc: nat): nat { 257 + LengthCode(lc) }

  /** The symbols of a token have codes. */
  predicate Codable(ll: Lengths, dl: Lengths, t: Token)
  {
    match t
    case Literal(c) => Used(ll, c)
    case Match(n, d) =>
      MIN_MATCH <= n <= MAX_MATCH && 1 <= d <= WSIZE && Used(ll, LenSym(n - MIN_MATCH)) && Used(dl, DistCode(d - 1))
  }

  function LengthExtra(lc: nat): seq<bool>
    requires lc <= 255
  {
    LengthCoding(lc);
    var c := LengthCode(lc);
    if ExtraLBits(c) == 0 then [] else (LengthRow(c); ToBits(lc - BaseLength(c), ExtraLBits(c)))
  }

  function DistExtra(d: nat): seq<bool>
    requires d < WSIZE
  {
    DistCoding(d);
    var c := DistCode(d);
    if ExtraDBits(c) == 0 then [] else ToBits(d - BaseDist(c), ExtraDBits(c))
  }

  function TokenBits(ll: Lengths, dl: Lengths, t: Token): seq<bool>
    requires Codable(ll, dl, t)
  {
    match t
    case Literal(c) => CodeBits(ll, c)
    case Match(n, d) =>
      CodeBits(ll, LenSym(n - MIN_MATCH)) + LengthExtra(n - MIN_MATCH) +
      CodeBits(dl, DistCode(d - 1)) + DistExtra(d - 1)
  }

  predicate AllCodable(ll: Lengths, dl: Lengths, ts: seq<Token>)
  {
    forall i :: 0 <= i < |ts| ==> Codable(ll, dl, ts[i])
  }

  function TokensBits(ll: Lengths, dl: Lengths, ts: seq<Token>): seq<bool>
    requires AllCodable(ll, dl, ts)
  {
    if ts == [] then [] else TokenBits(ll, dl, ts[0]) + TokensBits(ll, dl, ts[1..])
  }

  function BodyBits(ll: Lengths, dl: Lengths, ts: seq<Token>): seq<bool>
    requires AllCodable(ll, dl, ts) && Used(ll, END_BLOCK)
  {
    TokensBits(ll, dl, ts) + CodeBits(ll, END_BLOCK)
  }

  lemma {:induction false} TokensSnoc(ll: Lengths, dl: Lengths, a: seq<Token>, t: Token)
    requires AllCodable(ll, dl, a) && Codable(ll, dl, t)
    ensures AllCodable(ll, dl, a + [t])
    ensures TokensBits(ll, dl, a + [t]) == TokensBits(ll, dl, a) + TokenBits(ll, dl, t)
  {
    hide TokenBits, Codable;
    if a == [] {
      assert a + [t] == [t] && [t][1..] == [];
    } else {
      assert (a + [t])[1..] == a[1..] + [t];
      TokensSnoc(ll, dl, a[1..], t);
    }
  }

  // ---------- running the decoder ----------

  /** The states that differ from m in the output and in scratch fields only. */
  predicate Same(m: Machine, m': Machine)
  {
    m'.last == m.last && m'.llens == m.llens && m'.dlens == m.dlens
  }

  lemma PeekCode(x: seq<bool>, rest: seq<bool>)
    ensures Peek(x + rest, |x|) == FromBits(x) && (x + rest)[|x|..] == rest
  {
    assert (x + rest)[..|x|] == x;
  }

  lemma PeekValue(v: nat, n: nat, rest: seq<bool>)
    requires v < Pow2(n)
    ensures Peek(ToBits(v, n) + rest, n) == v && (ToBits(v, n) + rest)[n..] == rest
  {
    PeekCode(ToBits(v, n), rest);
    FromTo(v, n);
    LowSmall(v, n);
  }

  lemma CodeDecodes(lens: Lengths, s: nat, rest: seq<bool>)
    requires Used(lens, s) && Kraft(lens) <= Pow2(MAXBITS)
    ensures Decode(lens, CodeBits(lens, s) + rest) == Symbol(s)
    ensures (CodeBits(lens, s) + rest)[lens[s]..] == rest
  {
    hide CodeBits;
    assert Starts(lens, s, CodeBits(lens, s) + rest);
    DecodeIs(lens, s, CodeBits(lens, s) + rest);
  }

  /** Decoding one literal/length symbol. */
  lemma RunSymbol(m: Machine, s: nat, rest: seq<bool>)
    requires Sound(m) && m.mode == LEN && Used(m.llens, s)
    ensures s < 288
    ensures Reaches(m, CodeBits(m.llens, s) + rest, AfterLen(m, Op(LENS, s), Val(LENS, s)), rest)
  {
    hide CodeBits, Reaches, Decode, AfterLen, Kraft, Accepted, Pow2;
    var b := CodeBits(m.llens, s) + rest;
    CodeDecodes(m.llens, s, rest);
    ReachesStep(m, b);
  }

  lemma RunLiteral(m: Machine, c: nat, rest: seq<bool>) returns (m': Machine)
    requires Sound(m) && m.mode == LEN && c < 256 && Used(m.llens, c)
    ensures Reaches(m, CodeBits(m.llens, c) + rest, m', rest)
    ensures Sound(m') && m'.mode == LEN && Same(m, m') && m'.out == m.out + [c as byte]
  {
    hide CodeBits, Reaches, Kraft, Accepted, Pow2, Decode;
    RunSymbol(m, c, rest);
    var m1 := AfterLen(m, Op(LENS, c), Val(LENS, c));
    var o := Step(m1, rest);
    m' := o.m;
    ReachesStep(m1, rest);
    ReachesTrans(m, CodeBits(m.llens, c) + rest, m1, rest, m', rest);
  }

  /** Reading n extra bits; none are read when n is zero. */
  lemma RunLenExt(m: Machine, x: seq<bool>, rest: seq<bool>) returns (m': Machine)
    requires Sound(m) && m.mode == LENEXT && |x| == m.extra
    ensures Reaches(m, x + rest, m', rest)
    ensures Sound(m') && m'.mode == DIST && Same(m, m') && m'.out == m.out && m'.length == m.length + FromBits(x)
  {
    hide Reaches, Kraft, Accepted, Pow2;
    PeekCode(x, rest);
    SoundStep(m, x + rest);
    ReachesStep(m, x + rest);
    m' := Step(m, x + rest).m;
  }

  lemma RunDistExt(m: Machine, x: seq<bool>, rest: seq<bool>) returns (m': Machine)
    requires Sound(m) && m.mode == DISTEXT && |x| == m.extra
    ensures Reaches(m, x + rest, m', rest)
    ensures Sound(m') && m'.mode == MATCH && Same(m, m') && m'.out == m.out && m'.length == m.length
    ensures m'.offset == m.offset + FromBits(x)
  {
    hide Reaches, Kraft, Accepted, Pow2;
    PeekCode(x, rest);
    SoundStep(m, x + rest);
    ReachesStep(m, x + rest);
    m' := Step(m, x + rest).m;
  }

  lemma RunDist(m: Machine, s: nat, rest: seq<bool>)
    requires Sound(m) && m.mode == DIST && Used(m.dlens, s)
    ensures s < 32
    ensures Reaches(m, CodeBits(m.dlens, s) + rest, AfterDist(m, Op(DISTS, s), Val(DISTS, s)), rest)
  {
    hide CodeBits, Reaches, Decode, AfterDist, Kraft, Accepted, Pow2;
    var b := CodeBits(m.dlens, s) + rest;
    CodeDecodes(m.dlens, s, rest);
    ReachesStep(m, b);
  }

  /** Copying a match byte by byte. */
  lemma {:induction false} RunCopy(m: Machine, rest: seq<bool>) returns (m': Machine)
    requires Sound(m) && m.mode == MATCH && m.offset <= |m.out|
    ensures Reaches(m, rest, m', rest)
    ensures Sound(m') && m'.mode == LEN && Same(m, m') && m'.out == CopyBack(m.out, m.offset, m.length)
    decreases m.length
  {
    hide Reaches, Kraft, Accepted, Pow2, Step, CopyBack;
    CopyStep(m, rest);
    var o := Step(m, rest);
    SoundStep(m, rest);
    ReachesStep(m, rest);
    if m.length == 1 {
      m' := o.m;
    } else {
      m' := RunCopy(o.m, rest);
      ReachesTrans(m, rest, o.m, rest, m', rest);
    }
  }

  lemma CopyStep(m: Machine, rest: seq<bool>)
    requires m.mode == MATCH && 1 <= m.length && 1 <= m.offset <= |m.out|
    ensures var out' := m.out + [m.out[|m.out| - m.offset]];
            && Step(m, rest) == Go(m.(length := m.length - 1, out := out', mode := if m.length == 1 then LEN else MATCH), 0)
            && CopyBack(m.out, m.offset, m.length) == CopyBack(out', m.offset, m.length - 1)
            && CopyBack(out', m.offset, 0) == out'
            && rest[0..] == rest
  {
  }

  /** The value of a length and of a distance on both sides. */
  lemma LengthBits(lc: nat)
    requires lc <= 255
    ensures var x, s := LengthExtra(lc), LenSym(lc);
            && 257 <= s < 286 && |x| == Op(LENS, s) % 16 && 16 <= Op(LENS, s) <= 21
            && Val(LENS, s) + FromBits(x) == lc + MIN_MATCH
  {
    hide Pow2, LBase, BaseLength, LengthCode, ToBits;
    LengthCoding(lc);
    LenSymbol(LenSym(lc));
    var c := LengthCode(lc);
    if ExtraLBits(c) != 0 {
      LengthRow(c);
      FromToExact(lc - BaseLength(c), ExtraLBits(c));
    } else {
      Powers();
    }
  }

  lemma FromToExact(v: nat, n: nat)
    requires v < Pow2(n)
    ensures FromBits(ToBits(v, n)) == v
  {
    FromTo(v, n);
    LowSmall(v, n);
  }

  lemma DistBits(d: nat)
    requires d < WSIZE
    ensures var x, s := DistExtra(d), DistCode(d);
            && s < 30 && |x| == Op(DISTS, s) % 16 && 16 <= Op(DISTS, s) <= 29
            && Val(DISTS, s) + FromBits(x) == d + 1
  {
    hide Pow2, DBase, BaseDist, DistCode, ToBits;
    DistCoding(d);
    DistSymbol(DistCode(d));
    var c := DistCode(d);
    if ExtraDBits(c) != 0 {
      FromToExact(d - BaseDist(c), ExtraDBits(c));
    } else {
      Powers();
    }
  }

  lemma RunLength(m: Machine, lc: nat, rest: seq<bool>) returns (m': Machine)
    requires Sound(m) && m.mode == LEN && lc <= 255 && Used(m.llens, LenSym(lc))
    ensures Reaches(m, CodeBits(m.llens, LenSym(lc)) + LengthExtra(lc) + rest, m', rest)
    ensures Sound(m') && m'.mode == DIST && Same(m, m') && m'.out == m.out && m'.length == lc + MIN_MATCH
  {
    hide Reaches, CodeBits, Sound, LenSym, LengthExtra, Op, Val;
    var s, x := LenSym(lc), LengthExtra(lc);
    LengthBits(lc);
    RunSymbol(m, s, x + rest);
    AfterLenSound(m, s);
    var m1 := AfterLen(m, Op(LENS, s), Val(LENS, s));
    m' := RunLenExt(m1, x, rest);
    var b := CodeBits(m.llens, s) + x + rest;
    assert b == CodeBits(m.llens, s) + (x + rest);
    ReachesTrans(m, b, m1, x + rest, m', rest);
  }

  lemma RunDistance(m: Machine, d: nat, rest: seq<bool>) returns (m': Machine)
    requires Sound(m) && m.mode == DIST && d < WSIZE && Used(m.dlens, DistCode(d))
    ensures Reaches(m, CodeBits(m.dlens, DistCode(d)) + DistExtra(d) + rest, m', rest)
    ensures Sound(m') && m'.mode == MATCH && Same(m, m') && m'.out == m.out && m'.length == m.length && m'.offset == d + 1
  {
    hide Reaches, CodeBits, Sound, DistCode, DistExtra, Op, Val;
    var s, x := DistCode(d), DistExtra(d);
    DistBits(d);
    RunDist(m, s, x + rest);
    AfterDistSound(m, s);
    var m1 := AfterDist(m, Op(DISTS, s), Val(DISTS, s));
    m' := RunDistExt(m1, x, rest);
    var b := CodeBits(m.dlens, s) + x + rest;
    assert b == CodeBits(m.dlens, s) + (x + rest);
    ReachesTrans(m, b, m1, x + rest, m', rest);
  }

  /** The bits of a token decode to the token. */
  lemma RunToken(m: Machine, t: Token, rest: seq<bool>) returns (m': Machine)
    requires Sound(m) && m.mode == LEN && Codable(m.llens, m.dlens, t) && ValidToken(t, |m.out|)
    ensures Reaches(m, TokenBits(m.llens, m.dlens, t) + rest, m', rest)
    ensures Sound(m') && m'.mode == LEN && Same(m, m') && m'.out == Expand(m.out, t)
  {
    hide Reaches, CodeBits, Sound, LenSym, LengthExtra, DistCode, DistExtra, Used, CopyBack;
    match t
    case Literal(c) =>
      m' := RunLiteral(m, c, rest);
    case Match(n, d) =>
      var lb := CodeBits(m.llens, LenSym(n - MIN_MATCH)) + LengthExtra(n - MIN_MATCH);
      var db := CodeBits(m.dlens, DistCode(d - 1)) + DistExtra(d - 1);
      var m1 := RunLength(m, n - MIN_MATCH, db + rest);
      var m2 := RunDistance(m1, d - 1, rest);
      m' := RunCopy(m2, rest);
      assert TokenBits(m.llens, m.dlens, t) + rest == lb + (db + rest);
      ReachesTrans(m1, db + rest, m2, rest, m', rest);
      ReachesTrans(m, lb + (db + rest), m1, db + rest, m', rest);
  }

  lemma {:induction false} RunTokens(m: Machine, ts: seq<Token>, rest: seq<bool>) returns (m': Machine)
    requires Sound(m) && m.mode == LEN && AllCodable(m.llens, m.dlens, ts) && ValidTokens(ts, |m.out|)
    ensures Reaches(m, TokensBits(m.llens, m.dlens, ts) + rest, m', rest)
    ensures Sound(m') && m'.mode == LEN && Same(m, m') && m'.out == ExpandAll(m.out, ts)
    decreases |ts|
  {
    hide Reaches, Sound, TokenBits, Expand, Codable, ValidToken;
    if ts == [] {
      m' := m;
      assert TokensBits(m.llens, m.dlens, ts) + rest == rest;
      ReachesSelf(m, rest);
    } else {
      var more := TokensBits(m.llens, m.dlens, ts[1..]) + rest;
      var m1 := RunToken(m, ts[0], more);
      ExpandSize(m.out, ts[0]);
      m' := RunTokens(m1, ts[1..], rest);
      assert TokensBits(m.llens, m.dlens, ts) + rest == TokenBits(m.llens, m.dlens, ts[0]) + more;
      ReachesTrans(m, TokensBits(m.llens, m.dlens, ts) + rest, m1, more, m', rest);
    }
  }

  lemma ExpandSize(out: seq<byte>, t: Token)
    requires ValidToken(t, |out|)
    ensures |Expand(out, t)| == |out| + Size(t)
  {
  }

  /** A whole block body returns to the block header state. */
  lemma RunBody(m: Machine, ts: seq<Token>, rest: seq<bool>) returns (m': Machine)
    requires Sound(m) && m.mode == LEN && AllCodable(m.llens, m.dlens, ts) && ValidTokens(ts, |m.out|)
    requires Used(m.llens, END_BLOCK)
    ensures Reaches(m, BodyBits(m.llens, m.dlens, ts) + rest, m', rest)
    ensures Sound(m') && m'.mode == TYPE && m'.last == m.last && m'.out == ExpandAll(m.out, ts)
  {
    hide Reaches, TokensBits, Kraft, Accepted, Pow2, CodeBits, AllCodable, ExpandAll, ValidTokens, Used;
    var e := CodeBits(m.llens, END_BLOCK);
    var m1 := RunTokens(m, ts, e + rest);
    RunSymbol(m1, END_BLOCK, rest);
    m' := AfterLen(m1, Op(LENS, END_BLOCK), Val(LENS, END_BLOCK));
    AfterLenSound(m1, END_BLOCK);
    assert BodyBits(m.llens, m.dlens, ts) + rest == TokensBits(m.llens, m.dlens, ts) + (e + rest);
    ReachesTrans(m, BodyBits(m.llens, m.dlens, ts) + rest, m1, e + rest, m', rest);
  }

  // ---------- the trees of a dynamic block ----------

  function ItemExtra(i: Item): seq<bool>
    requires ValidItem(i)
  {
    match i
    case Len(_) => []
    case Prev(n) => ToBits(n - 3, 2)
    case Zeros3(n) => ToBits(n - 3, 3)
    case Zeros11(n) => ToBits(n - 11, 7)
  }

  function ItemBits(bl: Lengths, i: Item): seq<bool>
    requires ValidItem(i) && Used(bl, Sym(i))
  {
    CodeBits(bl, Sym(i)) + ItemExtra(i)
  }

  predicate ItemsCodable(bl: Lengths, items: seq<Item>)
  {
    forall k :: 0 <= k < |items| ==> ValidItem(items[k]) && Used(bl, Sym(items[k]))
  }

  function ItemsBits(bl: Lengths, items: seq<Item>): seq<bool>
    requires ItemsCodable(bl, items)
  {
    if items == [] then [] else ItemBits(bl, items[0]) + ItemsBits(bl, items[1..])
  }

  lemma {:induction false} ItemsConcat(bl: Lengths, a: seq<Item>, b: seq<Item>)
    requires ItemsCodable(bl, a) && ItemsCodable(bl, b)
    ensures ItemsCodable(bl, a + b)
    ensures ItemsBits(bl, a + b) == ItemsBits(bl, a) + ItemsBits(bl, b)
  {
    hide ItemBits, ValidItem, Used;
    if a == [] {
      assert a + b == b;
    } else {
      assert (a + b)[1..] == a[1..] + b;
      ItemsConcat(bl, a[1..], b);
      assert ItemBits(bl, a[0]) + (ItemsBits(bl, a[1..]) + ItemsBits(bl, b)) ==
             (ItemBits(bl, a[0]) + ItemsBits(bl, a[1..])) + ItemsBits(bl, b);
    }
  }

  lemma ItemValue(i: Item)
    requires ValidItem(i) && !i.Len?
    ensures var n := if i.Prev? then 2 else if i.Zeros3? then 3 else 7;
            |ItemExtra(i)| == n && FromBits(ItemExtra(i)) == (if i.Zeros11? then i.n - 11 else i.n - 3)
  {
    hide ToBits, FromBits;
    Powers();
    var n := if i.Prev? then 2 else if i.Zeros3? then 3 else 7;
    FromToExact(if i.Zeros11? then i.n - 11 else i.n - 3, n);
  }

  /** One step of the decoder on the bits of an item. */
  lemma ItemStep(m: Machine, i: Item, rest: seq<bool>)
    requires Sound(m) && m.mode == CODELENS && ValidItem(i) && Used(m.clens, Sym(i))
    requires i.Prev? ==> m.lens != []
    requires |AddItem(m.lens, i)| <= m.nlen + m.ndist
    ensures Step(m, ItemBits(m.clens, i) + rest) == Go(m.(lens := AddItem(m.lens, i)), |ItemBits(m.clens, i)|)
  {
    hide CodeBits, Kraft, Accepted, Pow2, Decode, ItemExtra, Peek, Usable, Sound, ItemBits;
    ItemDecodes(m, i, rest);
    if i.Len? {
      NoExtra(i);
      assert Repeat(i.l, 1) == [i.l];
    } else {
      ItemValue(i);
    }
  }

  lemma ItemDecodes(m: Machine, i: Item, rest: seq<bool>)
    requires Sound(m) && m.mode == CODELENS && ValidItem(i) && Used(m.clens, Sym(i))
    ensures var b, l := ItemBits(m.clens, i) + rest, m.clens[Sym(i)];
            && Decode(m.clens, b) == Symbol(Sym(i)) && |ItemBits(m.clens, i)| == l + |ItemExtra(i)|
            && Peek(b[l..], |ItemExtra(i)|) == FromBits(ItemExtra(i))
  {
    hide CodeBits, Kraft, Accepted, Pow2, Decode, ItemExtra, Peek, ValidItem, Sym;
    AcceptedKraft(CODES, m.clens);
    assert ItemBits(m.clens, i) + rest == CodeBits(m.clens, Sym(i)) + (ItemExtra(i) + rest);
    CodeDecodes(m.clens, Sym(i), ItemExtra(i) + rest);
    PeekCode(ItemExtra(i), rest);
  }

  lemma NoExtra(i: Item)
    requires i.Len? && ValidItem(i)
    ensures ItemExtra(i) == []
  {
  }

  lemma {:induction false} RunItemList(m: Machine, items: seq<Item>, rest: seq<bool>) returns (m': Machine)
    requires Sound(m) && m.mode == CODELENS && ItemsCodable(m.clens, items) && Addable(m.lens, items)
    requires |AddItems(m.lens, items)| <= m.nlen + m.ndist
    ensures m' == m.(lens := AddItems(m.lens, items)) && Sound(m')
    ensures Reaches(m, ItemsBits(m.clens, items) + rest, m', rest)
    decreases |items|
  {
    hide Reaches, Sound, Step, ItemBits, AddItem, Used;
    if items == [] {
      m' := m;
      assert ItemsBits(m.clens, items) + rest == rest;
      ReachesSelf(m, rest);
    } else {
      var more := ItemsBits(m.clens, items[1..]) + rest;
      var b := ItemBits(m.clens, items[0]) + more;
      ItemStep(m, items[0], more);
      SoundStep(m, b);
      ReachesStep(m, b);
      assert b[|ItemBits(m.clens, items[0])|..] == more;
      var m1 := m.(lens := AddItem(m.lens, items[0]));
      m' := RunItemList(m1, items[1..], rest);
      assert ItemsBits(m.clens, items) + rest == b;
      ReachesTrans(m, b, m1, more, m', rest);
    }
  }

  /** The place of a symbol in the order in which lengths are sent. */
  function Rank(s: nat): (r: nat)
    ensures r < 19
    ensures s < 19 ==> Order(r) == s
  {
    match s
    case 0 => 3 case 1 => 17 case 2 => 15 case 3 => 13 case 4 => 11 case 5 => 9 case 6 => 7 case 7 => 5
    case 8 => 4 case 9 => 6 case 10 => 8 case 11 => 10 case 12 => 12 case 13 => 14 case 14 => 16
    case 15 => 18 case 16 => 0 case 17 => 1 case _ => 2
  }

  lemma RankOrder(i: nat)
    requires i < 19
    ensures Rank(Order(i)) == i
  {
  }

  /** The 3-bit lengths sent from place i up to place n. */
  function LenLensBits(bl: Lengths, i: nat, n: nat): seq<bool>
    requires i <= n <= 19 == |bl|
    decreases n - i
  {
    if i == n then [] else ToBits(bl[Order(i)], 3) + LenLensBits(bl, i + 1, n)
  }

  /** The lengths sent up to place n are in cl; the others are zero. */
  ghost predicate Partial(cl: Lengths, bl: Lengths, n: nat)
  {
    |cl| == 19 == |bl| && forall s :: 0 <= s < 19 ==> cl[s] == (if Rank(s) < n then bl[s] else 0)
  }

  lemma PartialStep(cl: Lengths, bl: Lengths, i: nat, n: nat)
    requires Partial(cl, bl, i) && Partial(bl, bl, n) && i <= n <= 19
    ensures |cl| == 19 && |bl| == 19 && (i == n ==> cl == bl)
    ensures i < n ==> Partial(cl[Order(i) := bl[Order(i)]], bl, i + 1)
  {
    hide Rank, Order;
    if i < n { RankOrder(i); }
  }

  lemma StartPartial(bl: Lengths)
    requires |bl| == 19
    ensures Partial(Zeros(19), bl, 0)
  {
  }

  lemma {:induction false} RunLenLens(m: Machine, bl: Lengths, rest: seq<bool>) returns (m': Machine)
    requires Sound(m) && m.mode == LENLENS && |bl| == 19 && forall s :: 0 <= s < 19 ==> bl[s] <= CODEBITS
    requires Partial(m.clens, bl, m.have) && Partial(bl, bl, m.ncode)
    ensures m' == m.(clens := bl, have := m.ncode) && Sound(m')
    ensures Reaches(m, LenLensBits(bl, m.have, m.ncode) + rest, m', rest)
    decreases m.ncode - m.have
  {
    hide Reaches, Step, Accepted, Kraft, Partial, Order, ToBits, Zeros;
    PartialStep(m.clens, bl, m.have, m.ncode);
    if m.have == m.ncode {
      m' := m;
      assert LenLensBits(bl, m.have, m.ncode) + rest == rest;
      ReachesSelf(m, rest);
    } else {
      var x := bl[Order(m.have)];
      var more := LenLensBits(bl, m.have + 1, m.ncode) + rest;
      var b := ToBits(x, 3) + more;
      LenLensStep(m, x, more);
      SoundStep(m, b);
      ReachesStep(m, b);
      var m1 := Step(m, b).m;
      m' := RunLenLens(m1, bl, rest);
      assert LenLensBits(bl, m.have, m.ncode) + rest == b;
      ReachesTrans(m, b, m1, more, m', rest);
    }
  }

  lemma LenLensStep(m: Machine, x: nat, more: seq<bool>)
    requires Sound(m) && m.mode == LENLENS && m.have < m.ncode && x <= CODEBITS
    ensures Step(m, ToBits(x, 3) + more) == Go(m.(clens := m.clens[Order(m.have) := x], have := m.have + 1), 3)
    ensures (ToBits(x, 3) + more)[3..] == more
  {
    hide ToBits, Peek;
    Powers();
    PeekValue(x, 3, more);
  }

  /** Everything between the header of a dynamic block and its first token. */
  function TreesBits(ll: Lengths, dl: Lengths, bl: Lengths, blcodes: nat): seq<bool>
    requires 257 <= |ll| <= 286 && 1 <= |dl| <= 30 && 4 <= blcodes <= 19 == |bl|
    requires ItemsCodable(bl, TreeItems(ll)) && ItemsCodable(bl, TreeItems(dl))
  {
    ToBits(|ll| - 257, 5) + ToBits(|dl| - 1, 5) + ToBits(blcodes - 4, 4) + LenLensBits(bl, 0, blcodes)
    + ItemsBits(bl, TreeItems(ll)) + ItemsBits(bl, TreeItems(dl))
  }

  /** The code lengths of both trees, and the code they are sent in. */
  ghost predicate TreesSent(ll: Lengths, dl: Lengths, bl: Lengths, blcodes: nat)
  {
    && 257 <= |ll| <= 286 && 1 <= |dl| <= 30 && 4 <= blcodes <= 19 == |bl|
    && InRange(ll) && InRange(dl) && ll[END_BLOCK] != 0 && Fits(CODES, bl, CODEBITS)
    && (forall s :: 0 <= s < 19 ==> bl[s] <= CODEBITS)
    && Partial(bl, bl, blcodes)
    && ItemsCodable(bl, TreeItems(ll)) && ItemsCodable(bl, TreeItems(dl))
  }

  /** The decoder accepts both trees. */
  ghost predicate BothFit(ll: Lengths, dl: Lengths)
  {
    Fits(LENS, ll, LENBITS) && Fits(DISTS, dl, DISTBITS)
  }

  lemma TableStep(m: Machine, nl: nat, nd: nat, nc: nat, rest: seq<bool>)
    requires m.mode == TABLE && 257 <= nl <= 286 && 1 <= nd <= 30 && 4 <= nc <= 19
    ensures var b := ToBits(nl - 257, 5) + ToBits(nd - 1, 5) + ToBits(nc - 4, 4) + rest;
            && Step(m, b) == Go(m.(mode := LENLENS, nlen := nl, ndist := nd, ncode := nc, have := 0, clens := Zeros(19)), 14)
            && b[14..] == rest
  {
    hide ToBits, Peek, Zeros;
    Powers();
    ThreeValues(nl - 257, nd - 1, nc - 4, rest);
  }

  lemma ThreeValues(u: nat, v: nat, w: nat, rest: seq<bool>)
    requires u < Pow2(5) && v < Pow2(5) && w < Pow2(4)
    ensures var b := ToBits(u, 5) + ToBits(v, 5) + ToBits(w, 4) + rest;
            Peek(b, 5) == u && Peek(b[5..], 5) == v && Peek(b[10..], 4) == w && b[14..] == rest
  {
    hide ToBits, Peek, Pow2;
    var x, y, z := ToBits(u, 5), ToBits(v, 5), ToBits(w, 4);
    var b := x + y + z + rest;
    assert b == x + (y + z + rest) && b[5..] == y + (z + rest) && b[10..] == z + rest && b[14..] == rest;
    PeekValue(u, 5, y + z + rest);
    PeekValue(v, 5, z + rest);
    PeekValue(w, 4, rest);
  }

  /** The state in which all code lengths of a dynamic block have been read. */
  ghost predicate LengthsRead(m: Machine, m': Machine, ll: Lengths, dl: Lengths)
  {
    && Sound(m') && m'.mode == CODELENS && m'.lens == ll + dl && m'.nlen == |ll| && m'.ndist == |dl|
    && m'.out == m.out && m'.last == m.last
  }

  /** Reading the trees of a dynamic block gives back the code lengths. */
  lemma RunLengths(m: Machine, ll: Lengths, dl: Lengths, bl: Lengths, blcodes: nat, rest: seq<bool>) returns (m': Machine)
    requires Sound(m) && m.mode == TABLE && TreesSent(ll, dl, bl, blcodes)
    ensures Reaches(m, TreesBits(ll, dl, bl, blcodes) + rest, m', rest) && LengthsRead(m, m', ll, dl)
  {
    hide Reaches, Step, ToBits, LenLensBits, TreeItems, ItemsBits, Sound, Partial, Fits, ItemsCodable;
    var xy := ToBits(|ll| - 257, 5) + ToBits(|dl| - 1, 5) + ToBits(blcodes - 4, 4);
    var li, di := ItemsBits(bl, TreeItems(ll)), ItemsBits(bl, TreeItems(dl));
    var cl := LenLensBits(bl, 0, blcodes);
    var r1 := cl + (li + di + rest);
    TableStep(m, |ll|, |dl|, blcodes, r1);
    SoundStep(m, xy + r1);
    ReachesStep(m, xy + r1);
    var m1 := Step(m, xy + r1).m;
    StartPartial(bl);
    var m2 := RunLenLens(m1, bl, li + di + rest);
    m' := RunTreeItems(m2, ll, dl, bl, blcodes, rest);
    assert TreesBits(ll, dl, bl, blcodes) + rest == xy + r1;
    ReachesTrans(m, xy + r1, m1, r1, m2, li + di + rest);
    ReachesTrans(m, xy + r1, m2, li + di + rest, m', rest);
  }

  lemma RunTreeItems(m: Machine, ll: Lengths, dl: Lengths, bl: Lengths, blcodes: nat, rest: seq<bool>) returns (m': Machine)
    requires Sound(m) && m.mode == LENLENS && m.have == m.ncode && m.clens == bl
    requires m.nlen == |ll| && m.ndist == |dl| && TreesSent(ll, dl, bl, blcodes)
    ensures Reaches(m, ItemsBits(bl, TreeItems(ll)) + ItemsBits(bl, TreeItems(dl)) + rest, m', rest)
    ensures LengthsRead(m, m', ll, dl)
  {
    hide Reaches, ToBits, LenLensBits, TreeItems, ItemsBits, Partial, Fits, ItemsCodable, Accepted, Kraft, StepCodeLens,
         AddItems, Addable;
    var li, di := TreeItems(ll), TreeItems(dl);
    var b := ItemsBits(bl, li) + ItemsBits(bl, di) + rest;
    SoundStep(m, b);
    ReachesStep(m, b);
    var m1 := Step(m, b).m;
    TreeItemsAdd([], ll);
    assert [] + ll == ll;
    TreeItemsAdd(ll, dl);
    AddConcat([], li, di);
    ItemsConcat(bl, li, di);
    m' := RunItemList(m1, li + di, rest);
    ReachesTrans(m, b, m1, b, m', rest);
  }

  /** Once all lengths have been read, the decoder accepts the trees or gives up. */
  lemma TreesJudged(m: Machine, ll: Lengths, dl: Lengths, rest: seq<bool>)
    requires m.mode == CODELENS && m.lens == ll + dl && m.nlen == |ll| && m.ndist == |dl|
    requires |ll| >= 257 && ll[END_BLOCK] != 0
    ensures Step(m, rest) ==
            Go(if BothFit(ll, dl) then m.(mode := LEN, llens := ll, dlens := dl) else m.(mode := BAD), 0)
    ensures rest[0..] == rest
  {
    hide Fits;
    assert (ll + dl)[..|ll|] == ll && (ll + dl)[|ll|..] == dl;
  }

  lemma RunTrees(m: Machine, ll: Lengths, dl: Lengths, bl: Lengths, blcodes: nat, rest: seq<bool>) returns (m': Machine)
    requires Sound(m) && m.mode == TABLE && TreesSent(ll, dl, bl, blcodes)
    ensures Reaches(m, TreesBits(ll, dl, bl, blcodes) + rest, m', rest)
    ensures Sound(m') && m'.out == m.out && m'.last == m.last
    ensures m'.mode == if BothFit(ll, dl) then LEN else BAD
    ensures BothFit(ll, dl) ==> m'.llens == ll && m'.dlens == dl
  {
    hide Reaches, Step, TreesBits, Sound, Partial, BothFit, ItemsCodable, Fits, TreeItems;
    var m1 := RunLengths(m, ll, dl, bl, blcodes, rest);
    TreesJudged(m1, ll, dl, rest);
    SoundStep(m1, rest);
    ReachesStep(m1, rest);
    m' := Step(m1, rest).m;
    ReachesTrans(m, TreesBits(ll, dl, bl, blcodes) + rest, m1, rest, m', rest);
  }

  // ---------- whole blocks ----------

  const STORED_BLOCK: nat := 0
  const STATIC_TREES: nat := 1
  const DYN_TREES: nat := 2

  /** The three bits that begin a block. */
  function HeaderBits(kind: nat, last: bool): seq<bool>
    requires kind <= 2
  {
    ToBits(2 * kind + Bit(last), 3)
  }

  lemma HeaderStep(m: Machine, kind: nat, last: bool, rest: seq<bool>)
    requires m.mode == TYPE && !m.last && kind <= 2
    ensures var m' := m.(last := last);
            Step(m, HeaderBits(kind, last) + rest) ==
              Go(if kind == STORED_BLOCK then m'.(mode := STORED)
                 else if kind == STATIC_TREES then m'.(mode := LEN, llens := FixedLengths(), dlens := FixedDists())
                 else m'.(mode := TABLE), 3)
    ensures (HeaderBits(kind, last) + rest)[3..] == rest
  {
    hide FixedLengths, FixedDists;
    var v := 2 * kind + Bit(last);
    var b := HeaderBits(kind, last) + rest;
    assert HeaderBits(kind, last) == [last] + ToBits(kind, 2);
    assert b[1..] == ToBits(kind, 2) + rest;
    PeekValue(kind, 2, rest);
  }

  function StaticBits(last: bool, ts: seq<Token>): seq<bool>
    requires AllCodable(FixedLengths(), FixedDists(), ts)
    requires Used(FixedLengths(), END_BLOCK)
  {
    HeaderBits(STATIC_TREES, last) + BodyBits(FixedLengths(), FixedDists(), ts)
  }

  function DynamicBits(last: bool, ll: Lengths, dl: Lengths, bl: Lengths, blcodes: nat, ts: seq<Token>): seq<bool>
    requires 257 <= |ll| <= 286 && 1 <= |dl| <= 30 && 4 <= blcodes <= 19 == |bl|
    requires ItemsCodable(bl, TreeItems(ll)) && ItemsCodable(bl, TreeItems(dl))
    requires AllCodable(ll, dl, ts) && Used(ll, END_BLOCK)
  {
    HeaderBits(DYN_TREES, last) + TreesBits(ll, dl, bl, blcodes) + BodyBits(ll, dl, ts)
  }

  /** A static block decodes to the expansion of its tokens. */
  lemma StaticRoundTrip(m: Machine, last: bool, ts: seq<Token>, rest: seq<bool>) returns (m': Machine)
    requires Sound(m) && m.mode == TYPE && !m.last
    requires AllCodable(FixedLengths(), FixedDists(), ts) && Used(FixedLengths(), END_BLOCK)
    requires ValidTokens(ts, |m.out|)
    ensures Reaches(m, StaticBits(last, ts) + rest, m', rest)
    ensures Sound(m') && m'.mode == TYPE && m'.last == last && m'.out == ExpandAll(m.out, ts)
  {
    hide Reaches, Step, HeaderBits, BodyBits, FixedLengths, FixedDists, Sound, ExpandAll, AllCodable, Used;
    var body := BodyBits(FixedLengths(), FixedDists(), ts) + rest;
    var b := HeaderBits(STATIC_TREES, last) + body;
    HeaderStep(m, STATIC_TREES, last, body);
    SoundStep(m, b);
    ReachesStep(m, b);
    var m1 := Step(m, b).m;
    m' := RunBody(m1, ts, rest);
    assert StaticBits(last, ts) + rest == b;
    ReachesTrans(m, b, m1, body, m', rest);
  }

  /** A dynamic block decodes to the expansion of its tokens if the decoder
      accepts its trees, and is refused otherwise. */
  lemma DynamicRoundTrip(m: Machine, last: bool, ll: Lengths, dl: Lengths, bl: Lengths, blcodes: nat, ts: seq<Token>,
                         rest: seq<bool>) returns (m': Machine, b': seq<bool>)
    requires Sound(m) && m.mode == TYPE && !m.last && TreesSent(ll, dl, bl, blcodes)
    requires AllCodable(ll, dl, ts) && Used(ll, END_BLOCK) && ValidTokens(ts, |m.out|)
    ensures Reaches(m, DynamicBits(last, ll, dl, bl, blcodes, ts) + rest, m', b')
    ensures BothFit(ll, dl) ==> Sound(m') && m'.mode == TYPE && m'.last == last && m'.out == ExpandAll(m.out, ts) && b' == rest
    ensures !BothFit(ll, dl) ==> m'.mode == BAD && m'.out == m.out
  {
    hide Reaches, Step, HeaderBits, BodyBits, TreesBits, Sound, ExpandAll, AllCodable, Used, BothFit, ItemsCodable, TreeItems, Partial, Fits;
    var body := BodyBits(ll, dl, ts) + rest;
    var trees := TreesBits(ll, dl, bl, blcodes) + body;
    var b := HeaderBits(DYN_TREES, last) + trees;
    HeaderStep(m, DYN_TREES, last, trees);
    SoundStep(m, b);
    ReachesStep(m, b);
    var m1 := Step(m, b).m;
    m' := RunTrees(m1, ll, dl, bl, blcodes, body);
    b' := body;
    assert DynamicBits(last, ll, dl, bl, blcodes, ts) + rest == b;
    ReachesTrans(m, b, m1, trees, m', body);
    if BothFit(ll, dl) {
      var m2 := m';
      m' := RunBody(m2, ts, rest);
      b' := rest;
      ReachesTrans(m, b, m2, body, m', rest);
    }
  }

  /** A stored block whose header is followed by the bits pad up to a byte boundary. */
  function StoredBits(last: bool, pad: seq<bool>, data: seq<byte>): seq<bool>
    requires |data| <= 0xFFFF
  {
    HeaderBits(STORED_BLOCK, last) + (pad + ToBits(|data|, 16) + ToBits(0xFFFF - |data|, 16) + BytesBits(data))
  }

  lemma StoredAlign(m: Machine, pad: seq<bool>, rest: seq<bool>)
    requires m.mode == STORED && |pad| < 8 && |rest| % 8 == 0
    ensures Reaches(m, pad + rest, m, rest)
  {
    hide Reaches;
    assert Skip(pad + rest) == |pad|;
    if pad == [] {
      assert pad + rest == rest;
      ReachesSelf(m, rest);
    } else {
      assert Step(m, pad + rest) == Go(m, |pad|);
      ReachesStep(m, pad + rest);
      assert (pad + rest)[|pad|..] == rest;
    }
  }

  lemma StoredStep(m: Machine, n: nat, rest: seq<bool>)
    requires m.mode == STORED && |rest| % 8 == 0 && n <= 0xFFFF
    ensures var b := ToBits(n, 16) + ToBits(0xFFFF - n, 16) + rest;
            Step(m, b) == Go(m.(mode := COPY, length := n), 32) && b[32..] == rest
  {
    hide ToBits, Peek;
    Pow2Values();
    var x, y := ToBits(n, 16), ToBits(0xFFFF - n, 16);
    var b := x + y + rest;
    assert b == x + (y + rest) && b[16..] == y + rest;
    PeekValue(n, 16, y + rest);
    PeekValue(0xFFFF - n, 16, rest);
  }

  lemma CopyByteStep(m: Machine, c: byte, more: seq<bool>)
    requires m.mode == COPY && m.length > 0
    ensures var b := ToBits(c, 8) + more;
            Step(m, b) == Go(m.(length := m.length - 1, out := m.out + [c]), 8) && b[8..] == more
  {
    hide ToBits, Peek;
    Pow2Values();
    PeekValue(c, 8, more);
  }

  /** The state after n bytes of a stored block have been copied. */
  function Copied(m: Machine, data: seq<byte>): Machine
    requires |data| <= m.length
  {
    m.(length := m.length - |data|, out := m.out + data)
  }

  lemma {:induction false} RunCopied(m: Machine, data: seq<byte>, rest: seq<bool>)
    requires Sound(m) && m.mode == COPY && |data| <= m.length
    ensures Reaches(m, BytesBits(data) + rest, Copied(m, data), rest) && Sound(Copied(m, data))
    decreases |data|
  {
    hide Reaches, Sound, Step, BytesBits;
    if data == [] {
      StoredEnd(rest);
      assert m.out + data == m.out;
      ReachesSelf(m, rest);
    } else {
      var more := BytesBits(data[1..]) + rest;
      var b := ToBits(data[0], 8) + more;
      FirstByte(data, rest);
      CopyByteStep(m, data[0], more);
      SoundStep(m, b);
      ReachesStep(m, b);
      RunCopied(Step(m, b).m, data[1..], rest);
      assert m.out + [data[0]] + data[1..] == m.out + data;
      ReachesTrans(m, b, Step(m, b).m, more, Copied(m, data), rest);
    }
  }

  lemma RunStored(m: Machine, data: seq<byte>, rest: seq<bool>) returns (m': Machine)
    requires Sound(m) && m.mode == COPY && m.length == |data|
    ensures Reaches(m, BytesBits(data) + rest, m', rest)
    ensures Sound(m') && m'.mode == TYPE && m'.last == m.last && m'.out == m.out + data
  {
    hide Reaches, Sound, BytesBits;
    RunCopied(m, data, rest);
    var c := Copied(m, data);
    StoredEnd(rest);
    assert Step(c, rest) == Go(c.(mode := TYPE), 0);
    SoundStep(c, rest);
    ReachesStep(c, rest);
    m' := c.(mode := TYPE);
    ReachesTrans(m, BytesBits(data) + rest, c, rest, m', rest);
  }

  lemma StoredEnd(rest: seq<bool>)
    ensures rest[0..] == rest && BytesBits([]) + rest == rest
  {
  }

  lemma FirstByte(data: seq<byte>, rest: seq<bool>)
    requires data != []
    ensures BytesBits(data) + rest == ToBits(data[0], 8) + (BytesBits(data[1..]) + rest)
  {
    hide ToBits;
  }

  /** A stored block decodes to its data. */
  lemma StoredRoundTrip(m: Machine, last: bool, pad: seq<bool>, data: seq<byte>, rest: seq<bool>) returns (m': Machine)
    requires Sound(m) && m.mode == TYPE && !m.last && |data| <= 0xFFFF
    requires |pad| < 8 && |rest| % 8 == 0
    ensures Reaches(m, StoredBits(last, pad, data) + rest, m', rest)
    ensures Sound(m') && m'.mode == TYPE && m'.last == last && m'.out == m.out + data
  {
    hide Reaches, Step, HeaderBits, BytesBits, ToBits, Sound;
    var r2 := BytesBits(data) + rest;
    var r1 := ToBits(|data|, 16) + ToBits(0xFFFF - |data|, 16) + r2;
    var r0 := pad + r1;
    var b := HeaderBits(STORED_BLOCK, last) + r0;
    HeaderStep(m, STORED_BLOCK, last, r0);
    SoundStep(m, b);
    ReachesStep(m, b);
    var m1 := Step(m, b).m;
    StoredAlign(m1, pad, r1);
    StoredStep(m1, |data|, r2);
    SoundStep(m1, r1);
    ReachesStep(m1, r1);
    var m2 := Step(m1, r1).m;
    m' := RunStored(m2, data, rest);
    assert StoredBits(last, pad, data) + rest == b;
    ReachesTrans(m, b, m1, r0, m1, r1);
    ReachesTrans(m, b, m1, r1, m2, r2);
    ReachesTrans(m, b, m2, r2, m', rest);
  }

  /** After the last block the decoder skips to a byte boundary and is done. */
  lemma RunEnd(m: Machine, pad: seq<bool>, rest: seq<bool>)
    requires Sound(m) && m.mode == TYPE && m.last && |pad| < 8 && |rest| % 8 == 0
    ensures Reaches(m, pad + rest, m.(mode := DONE), rest)
  {
    hide Reaches;
    assert Skip(pad + rest) == |pad| && (pad + rest)[|pad|..] == rest;
    ReachesStep(m, pad + rest);
  }
}
