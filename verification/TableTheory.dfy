/** What the two-level decoding tables of inftrees.c mean, and why each step of
    the loop that fills them keeps that meaning. */
module TableTheory {
  import opened Bits
  import opened HuffmanCode
  import opened CodeOrder

  /** One table entry: an operation, the bits it consumes, and a value. */
  datatype Entry = Entry(op: nat, bits: nat, val: nat)

  datatype CodeType = CODES | LENS | DISTS

  /** Operations 1..15 point to a second-level table with that many index bits. */
  predicate IsLink(e: Entry) { 1 <= e.op < 16 }

  // Base values and operations of length codes 257.. and distance codes 0..

  function LBase(c: nat): nat
  {
    match c case 0 => 3 case 1 => 4 case 2 => 5 case 3 => 6 case 4 => 7 case 5 => 8 case 6 => 9 case 7 => 10 case
    8 => 11 case 9 => 13 case 10 => 15 case 11 => 17 case 12 => 19 case 13 => 23 case 14 => 27 case 15 => 31 case
    16 => 35 case 17 => 43 case 18 => 51 case 19 => 59 case 20 => 67 case 21 => 83 case 22 => 99 case 23 => 115
    case 24 => 131 case 25 => 163 case 26 => 195 case 27 => 227 case 28 => 258 case 29 => 0 case _ => 0
  }

  function LExt(c: nat): nat
  {
    match c case 0 => 16 case 1 => 16 case 2 => 16 case 3 => 16 case 4 => 16 case 5 => 16 case 6 => 16 case 7 =>
    16 case 8 => 17 case 9 => 17 case 10 => 17 case 11 => 17 case 12 => 18 case 13 => 18 case 14 => 18 case 15 =>
    18 case 16 => 19 case 17 => 19 case 18 => 19 case 19 => 19 case 20 => 20 case 21 => 20 case 22 => 20 case 23
    => 20 case 24 => 21 case 25 => 21 case 26 => 21 case 27 => 21 case 28 => 16 case 29 => 78 case _ => 68
  }

  function DBase(c: nat): nat
  {
    match c case 0 => 1 case 1 => 2 case 2 => 3 case 3 => 4 case 4 => 5 case 5 => 7 case 6 => 9 case 7 => 13 case
    8 => 17 case 9 => 25 case 10 => 33 case 11 => 49 case 12 => 65 case 13 => 97 case 14 => 129 case 15 => 193
    case 16 => 257 case 17 => 385 case 18 => 513 case 19 => 769 case 20 => 1025 case 21 => 1537 case 22 => 2049
    case 23 => 3073 case 24 => 4097 case 25 => 6145 case 26 => 8193 case 27 => 12289 case 28 => 16385 case 29 =>
    24577 case 30 => 0 case _ => 0
  }

  function DExt(c: nat): nat
  {
    match c case 0 => 16 case 1 => 16 case 2 => 16 case 3 => 16 case 4 => 17 case 5 => 17 case 6 => 18 case 7 =>
    18 case 8 => 19 case 9 => 19 case 10 => 20 case 11 => 20 case 12 => 21 case 13 => 21 case 14 => 22 case 15 =>
    22 case 16 => 23 case 17 => 23 case 18 => 24 case 19 => 24 case 20 => 25 case 21 => 25 case 22 => 26 case 23
    => 26 case 24 => 27 case 25 => 27 case 26 => 28 case 27 => 28 case 28 => 29 case 29 => 29 case 30 => 64 case _
    => 64
  }

  /** How many symbols a code of this type may have. */
  function MaxSyms(ty: CodeType): nat
  {
    match ty case CODES => 19 case LENS => 288 case DISTS => 32
  }

  /** The operation and value that inflate() must see for a symbol. */
  function Op(ty: CodeType, s: nat): (op: nat)
    requires s < MaxSyms(ty)
    ensures !(1 <= op < 16)
  {
    match ty
    case CODES => 0
    case LENS => if s < 256 then 0 else if s == 256 then 96 else LExt(s - 257)
    case DISTS => DExt(s)
  }

  function Val(ty: CodeType, s: nat): nat
    requires s < MaxSyms(ty)
  {
    match ty
    case CODES => s
    case LENS => if s < 256 then s else if s == 256 then 0 else LBase(s - 257)
    case DISTS => DBase(s)
  }

  const InvalidEntry := Entry(64, 1, 0)

  /** The entry a reader must end at for symbol s, with the bits of both levels. */
  function Full(ty: CodeType, lens: Lengths, s: nat): Entry
    requires s < |lens| <= MaxSyms(ty)
  {
    Entry(Op(ty, s), lens[s], Val(ty, s))
  }

  /** Looking up x (any number of bits ahead) ends at entry e. */
  ghost predicate Leads(tab: seq<Entry>, root: nat, x: nat, e: Entry)
  {
    Low(x, root) < |tab| &&
    var h := tab[Low(x, root)];
    if IsLink(h) then
      h.bits == root &&
      var j := h.val + Low(Shr(x, root), h.op);
      j < |tab| && !IsLink(tab[j]) &&
      tab[j].op == e.op && tab[j].val == e.val && tab[j].bits >= 1 && root + tab[j].bits == e.bits
    else
      h == e
  }

  function Huff(lens: Lengths, s: nat): nat
    requires Used(lens, s)
  {
    Rev(Code(lens, s), lens[s])
  }

  /** x starts with the code of s. */
  ghost predicate Hit(lens: Lengths, s: nat, x: nat)
  {
    Used(lens, s) && Low(x, lens[s]) == Huff(lens, s)
  }

  lemma HitUnique(lens: Lengths, s: nat, t: nat, x: nat)
    requires Kraft(lens) <= Pow2(MAXBITS) && Hit(lens, s, x) && Hit(lens, t, x)
    ensures s == t
  {
    CodeFits(lens, s);
    CodeFits(lens, t);
    OwnsIffPrefix(lens, s, x);
    OwnsIffPrefix(lens, t, x);
    OwnerUnique(lens, s, t, Rev(x, MAXBITS));
  }

  // ---------- reversed codes ----------

  lemma HuffReversal(lens: Lengths, s: nat)
    requires Used(lens, s) && Kraft(lens) <= Pow2(MAXBITS)
    ensures Huff(lens, s) < Pow2(lens[s]) && Low(Huff(lens, s), lens[s]) == Huff(lens, s)
    ensures Huff(lens, s) == Rev(Start(lens, s), MAXBITS)
    ensures Rev(Huff(lens, s), MAXBITS) == Start(lens, s)
  {
    var l, c := lens[s], Code(lens, s);
    RevBound(c, l);
    LowSmall(Huff(lens, s), l);
    RevShl(c, MAXBITS, l);
    IntervalBounds(lens, s);
    RevRev(Start(lens, s), MAXBITS);
    LowSmall(Start(lens, s), MAXBITS);
  }

  lemma {:induction false} ShrMono(a: nat, b: nat, k: nat)
    requires a <= b
    ensures Shr(a, k) <= Shr(b, k)
    decreases k
  {
    if k > 0 { ShrMono(a / 2, b / 2, k - 1); }
  }

  lemma {:induction false} LowJoin(x: nat, a: nat, b: nat)
    ensures Low(x, a + b) == Low(x, a) + Shl(Low(Shr(x, a), b), a)
    decreases a
  {
    if a > 0 { LowJoin(x / 2, a - 1, b); }
  }

  /** The root bits of a code as a number read most significant bit first. */
  function Top(lens: Lengths, s: nat, root: nat): nat
    requires Used(lens, s) && root <= MAXBITS
  {
    Shr(Start(lens, s), MAXBITS - root)
  }

  lemma TopIsLow(lens: Lengths, s: nat, root: nat)
    requires Used(lens, s) && root <= MAXBITS && Kraft(lens) <= Pow2(MAXBITS)
    ensures Top(lens, s, root) == Rev(Low(Huff(lens, s), root), root)
    ensures Low(Huff(lens, s), root) == Rev(Top(lens, s, root), root)
  {
    hide Shl, Shr, Low, Rev, Pow2;
    var h := Huff(lens, s);
    HuffReversal(lens, s);
    RevTop(h, MAXBITS, root);
    RevLow(h, root);
    RevRev(h, root);
  }

  /** A code longer than root ends inside the block of its root prefix. */
  lemma EndsInBlock(lens: Lengths, s: nat, root: nat)
    requires Used(lens, s) && root < lens[s]
    ensures Start(lens, s) + Width(lens[s]) <= Shl(Top(lens, s, root) + 1, MAXBITS - root)
    ensures Shl(Top(lens, s, root), MAXBITS - root) <= Start(lens, s)
  {
    var l, c := lens[s], Code(lens, s);
    var a, b := MAXBITS - l, l - root;
    LowShl(c, a, a);
    ShrShr(Start(lens, s), a, b);
    var q := Shr(c, b);
    assert Top(lens, s, root) == q;
    LowShr(c, b);
    ShlAdd(q, 1, b);
    ShlOne(b);
    ShlMono(c + 1, Shl(q + 1, b), a);
    ShlShl(q + 1, b, a);
    ShlAdd(c, 1, a);
    ShlOne(a);
    ShlMono(Shl(q, b), c, a);
    ShlShl(q, b, a);
  }

  /** Between two codes with one root prefix there is no other root prefix. */
  lemma Sandwich(lens: Lengths, root: nat, s: nat, p: nat, t: nat)
    requires Used(lens, s) && Used(lens, p) && Used(lens, t)
    requires root <= MAXBITS && Kraft(lens) <= Pow2(MAXBITS)
    requires Start(lens, s) <= Start(lens, p) <= Start(lens, t)
    ensures Top(lens, p, root) <= Top(lens, t, root)
    ensures Low(Huff(lens, p), root) != Low(Huff(lens, t), root) ==> Top(lens, p, root) < Top(lens, t, root)
    ensures Low(Huff(lens, s), root) == Low(Huff(lens, t), root) ==>
            Low(Huff(lens, p), root) == Low(Huff(lens, t), root)
  {
    hide Shl, Shr, Low, Rev;
    TopIsLow(lens, s, root);
    TopIsLow(lens, p, root);
    TopIsLow(lens, t, root);
    ShrMono(Start(lens, s), Start(lens, p), MAXBITS - root);
    ShrMono(Start(lens, p), Start(lens, t), MAXBITS - root);
  }

  /** Symbol number k begins a root prefix that no earlier symbol has. */
  ghost predicate NewPrefix(lens: Lengths, root: nat, k: nat)
  {
    0 < k < UsedCount(lens) && lens[SymAt(lens, k)] > root &&
    var p := SymAt(lens, k - 1);
    lens[p] <= root || Low(Huff(lens, p), root) != Low(Huff(lens, SymAt(lens, k)), root)
  }

  lemma PrefixFresh(lens: Lengths, root: nat, k: nat, s: nat, x: nat)
    requires Kraft(lens) <= Pow2(MAXBITS) && root <= MAXBITS && NewPrefix(lens, root, k)
    requires Hit(lens, s, x) && Position(lens, s) < k
    ensures Low(x, root) != Low(Huff(lens, SymAt(lens, k)), root)
  {
    hide Shl, Shr, Low, Rev, Pow2, Kraft, Code;
    var p, t := SymAt(lens, k - 1), SymAt(lens, k);
    SymAtIs(lens, s);
    OrderSorted(lens, k - 1, k);
    if lens[s] <= root {
      if Low(x, root) == Low(Huff(lens, t), root) { FreshShort(lens, root, s, t, x); }
    } else {
      if Position(lens, s) < k - 1 { OrderSorted(lens, Position(lens, s), k - 1); }
      LowLow(x, lens[s], root);
      Sandwich(lens, root, s, p, t);
    }
  }

  lemma FreshShort(lens: Lengths, root: nat, s: nat, t: nat, x: nat)
    requires Kraft(lens) <= Pow2(MAXBITS) && Hit(lens, s, x) && Used(lens, t)
    requires lens[s] <= root && Low(x, root) == Low(Huff(lens, t), root)
    ensures s == t
  {
    HuffReversal(lens, t);
    LowLow(x, root, lens[s]);
    LowLow(Huff(lens, t), root, lens[s]);
    HitUnique(lens, s, t, Huff(lens, t));
  }

  /** A new root prefix begins exactly at the start of its block. */
  lemma BlockStart(lens: Lengths, root: nat, k: nat)
    requires Kraft(lens) <= Pow2(MAXBITS) && root <= MAXBITS && NewPrefix(lens, root, k)
    ensures var t := SymAt(lens, k);
            Start(lens, t) == Shl(Top(lens, t, root), MAXBITS - root)
  {
    hide Shl, Shr, Low, Rev, Pow2, Kraft, Huff, Code;
    var p, t := SymAt(lens, k - 1), SymAt(lens, k);
    NextStart(lens, k - 1);
    EndsInBlock(lens, t, root);
    if lens[p] <= root {
      EndAligned(lens, p, root);
    } else {
      EndsInBlock(lens, p, root);
      Sandwich(lens, root, p, p, t);
      ShlMono(Top(lens, p, root) + 1, Top(lens, t, root), MAXBITS - root);
    }
  }

  lemma EndAligned(lens: Lengths, p: nat, root: nat)
    requires Used(lens, p) && lens[p] <= root <= MAXBITS
    ensures var e := Start(lens, p) + Width(lens[p]); e == Shl(Shr(e, MAXBITS - root), MAXBITS - root)
  {
    var c, l := Code(lens, p), lens[p];
    ShlAdd(c, 1, MAXBITS - l);
    ShlOne(MAXBITS - l);
    LowShl(c + 1, MAXBITS - l, MAXBITS - root);
    LowShr(Start(lens, p) + Width(l), MAXBITS - root);
  }

  // ---------- the table while it is being filled ----------

  /** Where the loop stands: the current table starts at nx and has curr index
      bits; drop is 0 in the root table and root afterwards; low is the root
      prefix of the current second-level table. */
  datatype Cursor = Cursor(root: nat, nx: nat, curr: nat, drop: nat, low: nat)

  ghost predicate Placed(tab: seq<Entry>, c: Cursor, x: nat, e: Entry)
  {
    Leads(tab, c.root, x, e) &&
    var h := tab[Low(x, c.root)];
    IsLink(h) ==>
      c.drop == c.root && h.val >= Pow2(c.root) &&
      (h.val + Pow2(h.op) <= c.nx || (h.val == c.nx && h.op == c.curr && Low(x, c.root) == c.low))
  }

  /** Every string that starts with the code of one of the first k symbols is
      already decoded by the table. */
  ghost predicate Built(ty: CodeType, lens: Lengths, tab: seq<Entry>, c: Cursor, k: nat)
    requires |lens| <= MaxSyms(ty)
  {
    forall s, x {:trigger Hit(lens, s, x)} ::
      Hit(lens, s, x) && Position(lens, s) < k ==> Placed(tab, c, x, Full(ty, lens, s))
  }

  /** The cursor suits a code of length len with reversed code huff. */
  ghost predicate Ready(tab: seq<Entry>, c: Cursor, len: nat, huff: nat)
  {
    if c.drop == 0 then
      c.nx == 0 && c.curr == c.root && 1 <= len <= c.root && Pow2(c.root) <= |tab|
    else
      && c.drop == c.root && c.root < len <= c.root + c.curr && 1 <= c.curr < 16
      && c.low == Low(huff, c.root) && Pow2(c.root) <= c.nx && c.nx + Pow2(c.curr) <= |tab|
      && c.low < Pow2(c.root) && tab[c.low] == Entry(c.curr, c.root, c.nx)
  }

  /** tab' is tab with e entered at every index of the current table whose low
      d bits are h. */
  ghost predicate Filled(tab: seq<Entry>, tab': seq<Entry>, nx: nat, curr: nat, d: nat, h: nat, e: Entry)
  {
    |tab'| == |tab| &&
    forall i :: 0 <= i < |tab| ==>
      tab'[i] == (if nx <= i < nx + Pow2(curr) && Low(i - nx, d) == h then e else tab[i])
  }

  lemma FillKeeps(ty: CodeType, lens: Lengths, tab: seq<Entry>, tab': seq<Entry>, c: Cursor, k: nat)
    requires |lens| <= MaxSyms(ty) && Kraft(lens) <= Pow2(MAXBITS) && c.root <= MAXBITS
    requires k < UsedCount(lens) && Built(ty, lens, tab, c, k)
    requires var t := SymAt(lens, k);
             && Ready(tab, c, lens[t], Huff(lens, t))
             && Filled(tab, tab', c.nx, c.curr, lens[t] - c.drop, Shr(Huff(lens, t), c.drop),
                       Entry(Op(ty, t), lens[t] - c.drop, Val(ty, t)))
    ensures Built(ty, lens, tab', c, k + 1)
  {
    hide Shl, Shr, Low, Rev, Pow2, Huff, Placed, Position, UsedCount, Kraft, Filled, Ready;
    var t := SymAt(lens, k);
    forall s, x | Hit(lens, s, x) && Position(lens, s) < k + 1
      ensures Placed(tab', c, x, Full(ty, lens, s))
    {
      if Position(lens, s) == k {
        SymAtIs(lens, s);
        FillHits(ty, lens, tab, tab', c, t, x);
      } else {
        FillOther(lens, t, s, x, k);
        FillMisses(ty, lens, tab, tab', c, t, x, Full(ty, lens, s));
      }
    }
  }

  lemma FillOther(lens: Lengths, t: nat, s: nat, x: nat, k: nat)
    requires Kraft(lens) <= Pow2(MAXBITS) && At(lens, t, k) && Hit(lens, s, x) && Position(lens, s) != k
    ensures !Hit(lens, t, x)
  {
    if Hit(lens, t, x) { HitUnique(lens, s, t, x); }
  }

  lemma ShrZero(x: nat)
    ensures Shr(x, 0) == x
  {
  }

  lemma FillHits(ty: CodeType, lens: Lengths, tab: seq<Entry>, tab': seq<Entry>, c: Cursor, t: nat, x: nat)
    requires |lens| <= MaxSyms(ty) && Kraft(lens) <= Pow2(MAXBITS)
    requires Hit(lens, t, x) && Ready(tab, c, lens[t], Huff(lens, t))
    requires Filled(tab, tab', c.nx, c.curr, lens[t] - c.drop, Shr(Huff(lens, t), c.drop),
                    Entry(Op(ty, t), lens[t] - c.drop, Val(ty, t)))
    ensures Placed(tab', c, x, Full(ty, lens, t))
  {
    hide Shl, Shr, Low, Rev, Huff, Kraft, Pow2;
    LowShr(x, c.root);
    if c.drop == 0 {
      ShrZero(Huff(lens, t));
      LowLow(x, c.root, lens[t]);
    } else {
      SubIndex(x, c.root, c.curr, lens[t]);
      assert tab'[c.low] == tab[c.low];
      assert tab'[c.nx + Low(Shr(x, c.root), c.curr)] ==
             Entry(Op(ty, t), lens[t] - c.root, Val(ty, t));
    }
  }

  /** The index of x in a second-level table, and what it shares with a code of
      l bits. */
  lemma SubIndex(x: nat, root: nat, curr: nat, l: nat)
    requires root < l <= root + curr
    ensures Low(Shr(x, root), curr) < Pow2(curr)
    ensures Low(Low(Shr(x, root), curr), l - root) == Shr(Low(x, l), root)
    ensures Low(Low(x, l), root) == Low(x, root)
  {
    LowShr(Shr(x, root), curr);
    LowLow(Shr(x, root), curr, l - root);
    LowLow(x, l, root);
  }

  lemma FillMisses(ty: CodeType, lens: Lengths, tab: seq<Entry>, tab': seq<Entry>, c: Cursor, t: nat, x: nat, e: Entry)
    requires |lens| <= MaxSyms(ty) && Kraft(lens) <= Pow2(MAXBITS)
    requires Used(lens, t) && !Hit(lens, t, x) && Ready(tab, c, lens[t], Huff(lens, t))
    requires Filled(tab, tab', c.nx, c.curr, lens[t] - c.drop, Shr(Huff(lens, t), c.drop),
                    Entry(Op(ty, t), lens[t] - c.drop, Val(ty, t)))
    requires Placed(tab, c, x, e)
    ensures Placed(tab', c, x, e)
  {
    hide Shl, Shr, Low, Rev, Op, Val, Kraft, Pow2;
    LowShr(x, c.root);
    assert tab'[Low(x, c.root)] == tab[Low(x, c.root)] by {
      if c.drop == 0 {
        ShrZero(Huff(lens, t));
        LowLow(x, c.root, lens[t]);
      }
    }
    var h := tab[Low(x, c.root)];
    if IsLink(h) {
      var j := h.val + Low(Shr(x, c.root), h.op);
      LowShr(Shr(x, c.root), h.op);
      assert tab'[j] == tab[j] by {
        if h.val == c.nx && h.op == c.curr && Low(x, c.root) == c.low {
          SubIndex(x, c.root, c.curr, lens[t]);
          SameLow(x, Huff(lens, t), lens[t], c.root);
        }
      }
    }
  }

  /** Two numbers that agree on root low bits and on the next l - root bits. */
  lemma SameLow(x: nat, g: nat, l: nat, root: nat)
    requires root <= l && Low(x, root) == Low(g, root)
    ensures Shr(Low(x, l), root) == Shr(g, root) ==> Low(x, l) == g
  {
    LowShr(g, root);
    LowShr(Low(x, l), root);
    LowLow(x, l, root);
  }

  /** Opening a second-level table for a new root prefix. */
  lemma LinkKeeps(ty: CodeType, lens: Lengths, tab: seq<Entry>, c: Cursor, c': Cursor, k: nat)
    requires |lens| <= MaxSyms(ty) && Kraft(lens) <= Pow2(MAXBITS)
    requires c.root <= MAXBITS && NewPrefix(lens, c.root, k)
    requires Built(ty, lens, tab, c, k)
    requires c.nx + Pow2(c.curr) >= Pow2(c.root)
    requires c'.root == c.root && c'.drop == c.root && c'.nx == c.nx + Pow2(c.curr)
    requires c'.low == Low(Huff(lens, SymAt(lens, k)), c.root) < |tab|
    requires c'.low < Pow2(c.root)
    ensures Built(ty, lens, tab[c'.low := Entry(c'.curr, c.root, c'.nx)], c', k)
  {
    hide Shl, Shr, Low, Rev, Pow2, Huff, Placed, Position, UsedCount, NewPrefix, Kraft;
    var tab' := tab[c'.low := Entry(c'.curr, c.root, c'.nx)];
    forall s, x | Hit(lens, s, x) && Position(lens, s) < k
      ensures Placed(tab', c', x, Full(ty, lens, s))
    {
      PrefixFresh(lens, c.root, k, s, x);
      LowShr(x, c.root);
      LinkPlaced(tab, c, c', x, Full(ty, lens, s));
    }
  }

  lemma LinkPlaced(tab: seq<Entry>, c: Cursor, c': Cursor, x: nat, e: Entry)
    requires Placed(tab, c, x, e) && Low(x, c.root) != c'.low < Pow2(c.root)
    requires c.nx + Pow2(c.curr) >= Pow2(c.root)
    requires c'.root == c.root && c'.drop == c.root && c'.nx == c.nx + Pow2(c.curr) && c'.low < |tab|
    ensures Placed(tab[c'.low := Entry(c'.curr, c.root, c'.nx)], c', x, e)
  {
    hide Shl, Shr, Low, Rev;
  }

  // ---------- second-level table sizes ----------

  /** Index bits for a second-level table: T is the longest code length seen so
      far, left the number of free slots at that length, cnt the codes of
      length T still to come. */
  function Grow(lens: Lengths, max: nat, T: nat, left: nat, cnt: nat): (r: nat)
    ensures r >= T && (T <= max ==> r <= max)
    decreases max - T
  {
    if T < max && left > cnt then Grow(lens, max, T + 1, 2 * (left - cnt), Total(lens, T + 1)) else T
  }

  /** All codes with root prefix low have at most root + curr bits. */
  ghost predicate Roomy(lens: Lengths, root: nat, low: nat, curr: nat, max: nat)
    requires root <= MAXBITS
  {
    root + curr >= max ||
    (root + curr < MAXBITS && Below(lens, root + curr + 1) >= Shl(Rev(low, root) + 1, MAXBITS - root))
  }

  lemma {:induction false} GrowRoomy(lens: Lengths, max: nat, T: nat, left: nat, cnt: nat, pos: nat, end: nat)
    requires 1 <= T <= max <= MAXBITS
    requires pos + Shl(left, MAXBITS - T) == end
    requires pos + Shl(cnt, MAXBITS - T) == Below(lens, T + 1)
    ensures var r := Grow(lens, max, T, left, cnt); r == max || (r < max && Below(lens, r + 1) >= end)
    decreases max - T
  {
    if T < max {
      if left > cnt {
        ShlAdd(left - cnt, cnt, MAXBITS - T);
        ShlShl(left - cnt, 1, MAXBITS - T - 1);
        assert Shl(left - cnt, 1) == 2 * Shl(left - cnt, 0);
        GrowRoomy(lens, max, T + 1, 2 * (left - cnt), Total(lens, T + 1), Below(lens, T + 1), end);
      } else {
        ShlMono(left, cnt, MAXBITS - T);
      }
    }
  }

  lemma RoomyFits(lens: Lengths, root: nat, low: nat, curr: nat, max: nat, s: nat)
    requires root <= MAXBITS && Kraft(lens) <= Pow2(MAXBITS) && Roomy(lens, root, low, curr, max)
    requires Used(lens, s) && root < lens[s] <= max && Low(Huff(lens, s), root) == low
    ensures lens[s] <= root + curr
  {
    hide Shl, Shr, Low, Rev, Pow2, Below, Huff, Start;
    TopIsLow(lens, s, root);
    EndsInBlock(lens, s, root);
    IntervalBounds(lens, s);
    assert Pow2(MAXBITS - lens[s]) >= 1;
    if root + curr < lens[s] { BelowMono(lens, root + curr + 1, lens[s]); }
  }

  // ---------- incrementing a reversed code ----------

  /** Add one to a reversed code of len bits; the carry runs downwards. */
  function Increment(huff: nat, len: nat): nat
    decreases len
  {
    if len == 0 then 0
    else if Shr(huff, len - 1) % 2 == 1 then Increment(Low(huff, len - 1), len - 1)
    else Low(huff, len - 1) + Pow2(len - 1)
  }

  lemma {:induction false} IncrementRev(c: nat, len: nat)
    ensures Increment(Rev(c, len), len) == Rev(c + 1, len)
    decreases len
  {
    if len > 0 {
      var r := Rev(c / 2, len - 1);
      RevBound(c / 2, len - 1);
      ShlOne(len - 1);
      LowShrUnique(r, c % 2, len - 1);
      if c % 2 == 1 {
        IncrementRev(c / 2, len - 1);
        assert (c + 1) / 2 == c / 2 + 1;
      } else {
        assert (c + 1) / 2 == c / 2;
      }
    }
  }

  /** The increment moves to the next interval, or wraps to zero at the end. */
  lemma IncrementNext(lens: Lengths, s: nat)
    requires Used(lens, s) && Kraft(lens) <= Pow2(MAXBITS)
    ensures Increment(Huff(lens, s), lens[s]) == Rev(Start(lens, s) + Width(lens[s]), MAXBITS)
  {
    hide Shl, Rev, Pow2, Increment, FirstCode, Count, Below;
    IncrementAt(Code(lens, s), lens[s], MAXBITS);
  }

  lemma IncrementAt(c: nat, l: nat, n: nat)
    requires l <= n
    ensures Increment(Rev(c, l), l) == Rev(Shl(c, n - l) + Pow2(n - l), n)
  {
    hide Rev, Increment;
    IncrementRev(c, l);
    ShlAdd(c, 1, n - l);
    ShlOne(n - l);
    RevShl(c + 1, n, l);
  }
}
