/** inflate_fast() of deps/zlib/inffast.c: the unrolled decoding loop for when
    input and output space are plentiful, with its three-way copy from the
    circular window, as a refinement of the same abstract decoder. */
module InflateFast {
  import opened Bits
  import opened HuffmanCode
  import opened TableTheory
  import opened InflateTable
  import opened Tokens
  import opened InflateSpec
  import opened InflateProps
  import opened Lookup
  import opened Demand
  import opened Window
  import opened BlockFormat
  import opened InflateCases
  import opened InflateState
  import opened InflateMoves
  import opened SymbolReader

  /** Local copies of the stream registers. */
  datatype Registers = Registers(next: nat, hold: nat, bits: nat, put: seq<byte>, left: nat)

  ghost function Here(input: seq<byte>, r: Registers): (h: seq<bool>)
    ensures |h| >= r.bits
  {
    ToBits(r.hold, r.bits) + Rest(input, r.next)
  }

  /** The decoder has come from m0, with the bits a0 ahead, to m; the bits still
      ahead are the end of a0. */
  ghost predicate Along(input: seq<byte>, prior: seq<byte>, m0: Machine, a0: seq<bool>, m: Machine, r: Registers)
  {
    var h := Here(input, r);
    && BitsOk(input, r.next, r.hold, r.bits) && Sound(m) && m.out == prior + r.put
    && Reaches(m0, a0, m, h) && |h| <= |a0| && h == a0[|a0| - |h|..]
  }

  /** Dropping used bits for one step of the decoder. */
  lemma AlongStep(input: seq<byte>, prior: seq<byte>, m0: Machine, a0: seq<bool>, m: Machine, r: Registers,
                  m': Machine, r': Registers, used: nat)
    requires Along(input, prior, m0, a0, m, r) && Step(m, ToBits(r.hold, r.bits)) == Go(m', used) && used <= r.bits
    requires r'.next == r.next && r'.hold == Shr(r.hold, used) && r'.bits == r.bits - used && m'.out == prior + r'.put
    ensures Along(input, prior, m0, a0, m', r') && |Here(input, r')| == |Here(input, r)| - used
  {
    hide Step, Sound, Reaches, Pow2, ToBits, Rest, Shr;
    var p, rest := ToBits(r.hold, r.bits), Rest(input, r.next);
    DropOk(input, r.next, r.hold, r.bits, used);
    SoundStep(m, p);
    StepMore(m, p, rest);
    ReachesStep(m, p + rest);
    assert (p + rest)[used..] == p[used..] + rest == Here(input, r');
    ReachesTrans(m0, a0, m, p + rest, m', Here(input, r'));
  }

  /** hold += *in++ << bits */
  method PullFast(input: seq<byte>, r: Registers, ghost prior: seq<byte>, ghost m0: Machine, ghost a0: seq<bool>,
                  ghost m: Machine)
    returns (r': Registers)
    requires Along(input, prior, m0, a0, m, r) && r.next < |input| && r.bits <= 24
    ensures Along(input, prior, m0, a0, m, r') && Here(input, r') == Here(input, r)
    ensures r'.put == r.put && r'.left == r.left && r'.bits == r.bits + 8 && r'.next == r.next + 1
    ensures ToBits(r.hold, r.bits) == ToBits(r'.hold, r'.bits)[..r.bits]
  {
    hide Sound, Reaches, Pow2, ToBits, BytesBits, Shl;
    PullHeld(r.hold, r.bits, input[r.next]);
    PullRest(ToBits(r.hold, r.bits), input, r.next);
    r' := r.(next := r.next + 1, hold := r.hold + Shl(input[r.next], r.bits), bits := r.bits + 8);
  }

  method PullTwo(input: seq<byte>, r: Registers, ghost prior: seq<byte>, ghost m0: Machine, ghost a0: seq<bool>,
                 ghost m: Machine)
    returns (r': Registers)
    requires Along(input, prior, m0, a0, m, r) && r.next + 2 <= |input| && r.bits < 15
    ensures Along(input, prior, m0, a0, m, r') && Here(input, r') == Here(input, r)
    ensures r'.put == r.put && r'.left == r.left && r'.bits == r.bits + 16 && r'.next == r.next + 2
    ensures ToBits(r.hold, r.bits) == ToBits(r'.hold, r'.bits)[..r.bits]
  {
    hide Along, ToBits, Here;
    r' := PullFast(input, r, prior, m0, a0, m);
    ghost var p := ToBits(r'.hold, r'.bits);
    r' := PullFast(input, r', prior, m0, a0, m);
    assert ToBits(r'.hold, r'.bits)[..r.bits] == p[..r.bits];
  }

  /** Look up a code of which all bits are there, in one or two levels. */
  method FastSymbol(ty: CodeType, ghost lens: Lengths, tab: seq<Entry>, root: nat, r: Registers)
    returns (op: nat, val: nat, r': Registers, ghost used: nat)
    requires |lens| <= MaxSyms(ty) && InRange(lens) && Accepted(ty, lens) && Decodes(ty, lens, tab, root) && ty != CODES
    requires r.hold < Pow2(r.bits) && 15 <= r.bits
    ensures 1 <= used <= 15 && Read(ty, lens, ToBits(r.hold, r.bits), Entry(op, used, val))
    ensures r' == r.(hold := Shr(r.hold, used), bits := r.bits - used)
  {
    hide Pow2, Low, ToBits, Decodes, Accepted, InRange, Leads, Ends, Shr, Read;
    ghost var e := LookupEnds(ty, lens, tab, root, r.hold);
    LinkTest(ty, lens, tab, root, r.hold, e);
    EndsBits(ty, lens, r.hold, e);
    ReadAll(ty, lens, r.hold, r.bits, e);
    var here := tab[Low(r.hold, root)];
    SecondIs(ty, lens, tab, root, r.hold, e);
    r' := r.(hold := Shr(r.hold, here.bits), bits := r.bits - here.bits);
    op, val, used := here.op, here.val, here.bits;
    if op / 16 == 0 && (op != 0 || ty == DISTS) {
      here := tab[here.val + Low(r'.hold, op)];
      r' := r'.(hold := Shr(r'.hold, here.bits), bits := r'.bits - here.bits);
      op, val, used := here.op, here.val, used + here.bits;
    }
  }

  /** The second-level entry completes the first. */
  lemma SecondIs(ty: CodeType, lens: Lengths, tab: seq<Entry>, root: nat, x: nat, e: Entry)
    requires |lens| <= MaxSyms(ty) && InRange(lens) && Ends(ty, lens, x, e) && Leads(tab, root, x, e)
    ensures var h := tab[Low(x, root)];
            if IsLink(h) then
              var j := h.val + Low(Shr(x, h.bits), h.op);
              && h.bits == root && j < |tab| && e == Entry(tab[j].op, h.bits + tab[j].bits, tab[j].val)
              && Shr(Shr(x, h.bits), tab[j].bits) == Shr(x, e.bits)
            else h == e
  {
    hide Low, Shr, Ends;
    var h := tab[Low(x, root)];
    if IsLink(h) {
      var j := h.val + Low(Shr(x, root), h.op);
      ShrShr(x, root, tab[j].bits);
    }
  }

  // ---------- copying a match ----------

  /** n bytes of a match by threes, as inflate_fast() copies them. */
  method CopyUnrolled(window: array<byte>, fromWindow: bool, from: nat, n: nat, put: seq<byte>, ghost prior: seq<byte>,
                      ghost dist: nat)
    returns (put': seq<byte>)
    requires 1 <= dist <= |prior| + |put| == |prior + put|
    requires if fromWindow then n <= dist - |put| && Piece(window[..], from, n, prior, |prior| + |put| - dist)
             else from + dist == |put|
    ensures prior + put' == CopyBack(prior + put, dist, n)
  {
    hide CopyBack, Piece;
    put' := put;
    var len, f := n, from;
    CopyNone(prior + put, dist);
    ghost var done := 0;
    while len > 2
      invariant len >= 0 && done + len == n && |put'| == |put| + done && f == from + done
      invariant prior + put' == CopyBack(prior + put, dist, done)
      invariant if fromWindow then len <= dist - |put'| && Piece(window[..], f, len, prior, |prior| + |put'| - dist)
                else f + dist == |put'|
    {
      put', f := CopyThree(window, fromWindow, f, len, put', prior, dist);
      CopyMore(prior + put, dist, done, 3);
      len := len - 3;
      done := done + 3;
    }
    if len > 0 {
      put' := CopyMatch(window, fromWindow, f, len, put', prior, dist);
      CopyMore(prior + put, dist, done, len);
    }
  }

  method CopyThree(window: array<byte>, fromWindow: bool, from: nat, ghost len: nat, put: seq<byte>, ghost prior: seq<byte>,
                   ghost dist: nat)
    returns (put': seq<byte>, from': nat)
    requires 3 <= len && 1 <= dist <= |prior| + |put| == |prior + put|
    requires if fromWindow then len <= dist - |put| && Piece(window[..], from, len, prior, |prior| + |put| - dist)
             else from + dist == |put|
    ensures prior + put' == CopyBack(prior + put, dist, 3) && |put'| == |put| + 3 && from' == from + 3
    ensures if fromWindow then len - 3 <= dist - |put'| && Piece(window[..], from', len - 3, prior, |prior| + |put'| - dist)
            else from' + dist == |put'|
  {
    hide CopyBack, Piece;
    if fromWindow {
      PieceShort(window[..], from, len, prior, |prior| + |put| - dist, 3);
      PieceDrop(window[..], from, len, prior, |prior| + |put| - dist, 3);
    }
    put' := CopyMatch(window, fromWindow, from, 3, put, prior, dist);
    CopyLength(prior, put, dist, 3, put');
    from' := from + 3;
  }

  lemma CopyLength(prior: seq<byte>, put: seq<byte>, d: nat, n: nat, put': seq<byte>)
    requires 1 <= d <= |prior + put| && prior + put' == CopyBack(prior + put, d, n)
    ensures |put'| == |put| + n && put <= put'
  {
    hide CopyBack;
    assert prior + put <= prior + put';
    assert put' == (prior + put')[|prior|..] && put == (prior + put)[|prior|..];
  }

  lemma PieceDrop(w: seq<byte>, from: nat, n: nat, prior: seq<byte>, k: int, d: nat)
    requires Piece(w, from, n, prior, k) && d <= n
    ensures Piece(w, from + d, n - d, prior, k + d)
  {
    assert w[from + d..from + n] == w[from..from + n][d..];
    assert prior[k + d..k + n] == prior[k..k + n][d..];
  }

  /** Copying a bytes and then b more. */
  lemma {:induction false} CopyMore(out: seq<byte>, d: nat, a: nat, b: nat)
    requires 1 <= d <= |out|
    ensures CopyBack(CopyBack(out, d, a), d, b) == CopyBack(out, d, a + b)
    decreases a
  {
    if a > 0 { CopyMore(out + [out[|out| - d]], d, a - 1, b); }
  }

  /** Copy a match of which some part is in the window: one piece of it, or its
      end and its start, and then the output. */
  method CopyWindow(window: array<byte>, wsize: nat, wnext: nat, whave: nat, put: seq<byte>, ghost prior: seq<byte>,
                    dist: nat, len: nat)
    returns (put': seq<byte>)
    requires Recalls(window[..], wsize, wnext, whave, prior) && |put| < dist <= |put| + whave && 1 <= len
    ensures dist <= |prior + put| && prior + put' == CopyBack(prior + put, dist, len)
  {
    hide CopyBack, Piece;
    RecallsRange(window[..], wsize, wnext, whave, prior);
    var op := dist - |put|;
    if wnext == 0 {
      put' := CopyPart(window, wsize, wnext, whave, put, prior, dist, len, wsize - op, op);
    } else if wnext < op {
      var from := wsize + wnext - op;
      op := op - wnext;
      if op < len {
        InOnePiece(window[..], wsize, wnext, whave, prior, put, dist, from, op);
        put' := CopyMatch(window, true, from, op, put, prior, dist);
        CopyLength(prior, put, dist, op, put');
        ghost var put1 := put';
        put' := CopyPart(window, wsize, wnext, whave, put', prior, dist, len - op, 0, wnext);
        CopyMore(prior + put, dist, op, len - op);
      } else {
        InOnePiece(window[..], wsize, wnext, whave, prior, put, dist, from, len);
        put' := CopyUnrolled(window, true, from, len, put, prior, dist);
      }
    } else {
      put' := CopyPart(window, wsize, wnext, whave, put, prior, dist, len, wnext - op, op);
    }
  }

  /** At most op bytes from the window, and the rest from the output. */
  method CopyPart(window: array<byte>, ghost wsize: nat, ghost wnext: nat, ghost whave: nat, put: seq<byte>,
                  ghost prior: seq<byte>, dist: nat, len: nat, from: nat, op: nat)
    returns (put': seq<byte>)
    requires Recalls(window[..], wsize, wnext, whave, prior) && |put| < dist <= |put| + whave && 1 <= len
    requires op == dist - |put| && if op > wnext then from == wsize - (op - wnext) && wnext == 0 else from == wnext - op
    ensures dist <= |prior + put| && prior + put' == CopyBack(prior + put, dist, len)
  {
    hide CopyBack, Piece, Recalls;
    InOnePiece(window[..], wsize, wnext, whave, prior, put, dist, from, op);
    if op < len {
      put' := CopyMatch(window, true, from, op, put, prior, dist);
      CopyLength(prior, put, dist, op, put');
      CopyMore(prior + put, dist, op, len - op);
      put' := CopyUnrolled(window, false, |put'| - dist, len - op, put', prior, dist);
    } else {
      PieceShort(window[..], from, op, prior, |prior| + |put| - dist, len);
      put' := CopyUnrolled(window, true, from, len, put, prior, dist);
    }
  }

  /** Copy a match that lies wholly in the output; it has at least three bytes. */
  method CopyDirect(window: array<byte>, put: seq<byte>, ghost prior: seq<byte>, dist: nat, len: nat)
    returns (put': seq<byte>)
    requires 1 <= dist <= |put| && 3 <= len
    ensures dist <= |prior + put| && prior + put' == CopyBack(prior + put, dist, len)
  {
    hide CopyBack, Piece;
    var from;
    put', from := CopyThree(window, false, |put| - dist, len, put, prior, dist);
    CopyMore(prior + put, dist, 3, len - 3);
    put' := CopyUnrolled(window, false, from, len - 3, put', prior, dist);
  }

  // ---------- one round of the loop ----------

  /** What the loop leaves alone. */
  ghost predicate Tabled(m: Machine, lencode: seq<Entry>, lenbits: nat, distcode: seq<Entry>, distbits: nat)
  {
    && |m.llens| <= 288 && Decodes(LENS, m.llens, lencode, lenbits)
    && |m.dlens| <= 32 && Decodes(DISTS, m.dlens, distcode, distbits)
  }

  lemma BlockSound(m: Machine)
    requires Sound(m) && InBlock(m.mode)
    ensures InRange(m.llens) && Accepted(LENS, m.llens) && InRange(m.dlens) && Accepted(DISTS, m.dlens)
    ensures m.mode == LENEXT ==> m.extra <= 5
    ensures m.mode == DISTEXT ==> m.extra <= 13
    ensures m.mode == MATCH ==> 1 <= m.offset <= WSIZE && 1 <= m.length
  {
    hide Accepted, InRange, Kraft, Pow2;
  }

  lemma AlongSound(input: seq<byte>, prior: seq<byte>, m0: Machine, a0: seq<bool>, m: Machine, r: Registers)
    requires Along(input, prior, m0, a0, m, r)
    ensures Sound(m) && r.hold < Pow2(r.bits) && m.out == prior + r.put && r.next <= |input| && r.bits <= 32
  {
    hide Sound, Reaches, Pow2;
  }

  /** The symbol at the head of the bits, as a step of the decoder. */
  method FastLen(input: seq<byte>, r: Registers, lencode: seq<Entry>, lenbits: nat, ghost distcode: seq<Entry>,
                 ghost distbits: nat, ghost prior: seq<byte>, ghost m0: Machine, ghost a0: seq<bool>, ghost m: Machine)
    returns (op: nat, val: nat, r': Registers, ghost m': Machine, ghost used: nat)
    requires Along(input, prior, m0, a0, m, r) && m.mode == LEN && Tabled(m, lencode, lenbits, distcode, distbits)
    requires r.bits >= 15
    ensures Along(input, prior, m0, a0, m', r') && m' == AfterEntry(m, Entry(op, used, val))
    ensures 1 <= used <= 15 && r' == r.(hold := Shr(r.hold, used), bits := r.bits - used)
    ensures |Here(input, r')| == |Here(input, r)| - used
    ensures Step(m, ToBits(r.hold, r.bits)) == Go(m', used)
    ensures op == 0 <==> LenMode(op) == LIT
    ensures op / 16 % 2 == 1 <==> LenMode(op) == LENEXT
    ensures op / 16 % 2 != 1 && op != 0 ==> LenMode(op) == (if EndOp(op) then TYPE else BAD)
  {
    hide Along, ToBits, Here, Shr, AfterEntry, Read, Accepted, InRange, Decodes, Step, Sound, Pow2, LenMode, EndOp;
    AlongSound(input, prior, m0, a0, m, r);
    BlockSound(m);
    op, val, r', used := FastSymbol(LENS, m.llens, lencode, lenbits, r);
    m' := AfterEntry(m, Entry(op, used, val));
    EntryStep(m, ToBits(r.hold, r.bits), Entry(op, used, val));
    AfterEntryIs(m, Entry(op, used, val));
    LenOps(m.llens, ToBits(r.hold, r.bits), Entry(op, used, val));
    AlongStep(input, prior, m0, a0, m, r, m', r', used);
  }

  /** Which operations a literal/length and a distance entry can have. */
  lemma LenOps(lens: Lengths, p: seq<bool>, e: Entry)
    requires |lens| <= 288 && Read(LENS, lens, p, e)
    ensures e.op == 0 <==> LenMode(e.op) == LIT
    ensures e.op / 16 % 2 == 1 <==> LenMode(e.op) == LENEXT
    ensures e.op / 16 % 2 != 1 && e.op != 0 ==> LenMode(e.op) == (if EndOp(e.op) then TYPE else BAD)
  {
    hide Decode, LBase;
  }

  lemma DistOps(lens: Lengths, p: seq<bool>, e: Entry)
    requires |lens| <= 32 && Read(DISTS, lens, p, e)
    ensures e.op / 16 % 2 == 1 <==> !BadOp(e.op)
  {
    hide Decode, DBase;
  }

  /** Add the extra bits of a length or of a distance; they are all there. */
  method FastExtra(input: seq<byte>, r: Registers, base: nat, op: nat, ghost prior: seq<byte>, ghost m0: Machine,
                   ghost a0: seq<bool>, ghost m: Machine)
    returns (v: nat, r': Registers, ghost m': Machine)
    requires Along(input, prior, m0, a0, m, r) && m.mode in {LENEXT, DISTEXT} && op == m.extra && op <= r.bits
    requires base == if m.mode == LENEXT then m.length else m.offset
    ensures Along(input, prior, m0, a0, m', r')
    ensures m' == if m.mode == LENEXT then m.(mode := DIST, length := v) else m.(mode := MATCH, offset := v)
    ensures r' == r.(hold := Shr(r.hold, op), bits := r.bits - op) && |Here(input, r')| == |Here(input, r)| - op
  {
    hide Along, ToBits, Here, Shr, Step, Sound, Pow2, Low;
    AlongSound(input, prior, m0, a0, m, r);
    v := base + Low(r.hold, op);
    r' := r.(hold := Shr(r.hold, op), bits := r.bits - op);
    m' := if m.mode == LENEXT then m.(mode := DIST, length := v) else m.(mode := MATCH, offset := v);
    ExtraStep(m, r.hold, r.bits);
    AlongStep(input, prior, m0, a0, m, r, m', r', op);
  }

  /** A length with its extra bits, of which at most one byte must be pulled. */
  method FastLength(input: seq<byte>, r: Registers, val: nat, op: nat, ghost prior: seq<byte>, ghost m0: Machine,
                    ghost a0: seq<bool>, ghost m: Machine)
    returns (len: nat, r': Registers, ghost m': Machine)
    requires Along(input, prior, m0, a0, m, r) && m.mode == LENEXT && val == m.length && op == m.extra
    requires r.next < |input|
    ensures Along(input, prior, m0, a0, m', r') && m' == m.(mode := DIST, length := len) && 3 <= len <= 258
    ensures r'.put == r.put && r'.left == r.left && |Here(input, r')| == |Here(input, r)| - op && op <= 5
    ensures r.next <= r'.next <= r.next + 1 && r'.bits + op == r.bits + 8 * (r'.next - r.next)
  {
    hide Along, ToBits, Here, Shr, Step, Sound, Pow2;
    r', len, m' := r, val, m;
    AlongSound(input, prior, m0, a0, m, r');
    BlockSound(m);
    if op != 0 && r'.bits < op {
      r' := PullFast(input, r', prior, m0, a0, m');
    }
    len, r', m' := FastExtra(input, r', val, op, prior, m0, a0, m');
    AlongSound(input, prior, m0, a0, m', r');
    LengthRange(m');
  }

  lemma LengthRange(m: Machine)
    requires Sound(m) && m.mode == DIST
    ensures 3 <= m.length <= 258
  {
    hide Accepted, InRange, Kraft, Pow2;
  }

  /** The distance symbol at the head of the bits, as a step of the decoder. */
  method FastDist(input: seq<byte>, r: Registers, ghost lencode: seq<Entry>, ghost lenbits: nat, distcode: seq<Entry>,
                  distbits: nat, ghost prior: seq<byte>, ghost m0: Machine, ghost a0: seq<bool>, ghost m: Machine)
    returns (op: nat, val: nat, r': Registers, ghost m': Machine)
    requires Along(input, prior, m0, a0, m, r) && m.mode == DIST && Tabled(m, lencode, lenbits, distcode, distbits)
    requires r.bits >= 15
    ensures Along(input, prior, m0, a0, m', r') && m' == AfterDist(m, op, val)
    ensures r'.put == r.put && r'.left == r.left && r'.next == r.next && r.bits <= r'.bits + 15
    ensures |Here(input, r')| <= |Here(input, r)|
    ensures op / 16 % 2 == 1 <==> !BadOp(op)
  {
    hide Along, ToBits, Here, Shr, AfterDist, Read, Accepted, InRange, Decodes, Step, Sound, Pow2, BadOp;
    AlongSound(input, prior, m0, a0, m, r);
    BlockSound(m);
    ghost var used;
    op, val, r', used := FastSymbol(DISTS, m.dlens, distcode, distbits, r);
    m' := AfterDist(m, op, val);
    DistStepCase(m, ToBits(r.hold, r.bits), Entry(op, used, val));
    DistOps(m.dlens, ToBits(r.hold, r.bits), Entry(op, used, val));
    DistKeeps(m, op, val);
    AlongStep(input, prior, m0, a0, m, r, m', r', used);
  }

  lemma DistKeeps(m: Machine, op: nat, val: nat)
    ensures var m' := AfterDist(m, op, val);
            && m'.out == m.out && m'.llens == m.llens && m'.dlens == m.dlens && m'.length == m.length && m'.last == m.last
            && (BadOp(op) ==> m'.mode == BAD)
            && (!BadOp(op) ==> m'.mode == DISTEXT && m'.offset == val && m'.extra == op % 16)
  {
  }

  /** The extra bits of a distance, for which up to two bytes must be pulled. */
  method FastDistance(input: seq<byte>, r: Registers, val: nat, op: nat, ghost prior: seq<byte>, ghost m0: Machine,
                      ghost a0: seq<bool>, ghost m: Machine)
    returns (dist: nat, r': Registers, ghost m': Machine)
    requires Along(input, prior, m0, a0, m, r) && m.mode == DISTEXT && val == m.offset && op == m.extra
    requires r.bits < 13 ==> r.next + 1 + (if r.bits + 8 < 13 then 1 else 0) <= |input|
    ensures Along(input, prior, m0, a0, m', r') && m' == m.(mode := MATCH, offset := dist)
    ensures r'.put == r.put && r'.left == r.left && |Here(input, r')| <= |Here(input, r)|
  {
    hide Along, ToBits, Here, Shr, Step, Sound, Pow2;
    r', dist, m' := r, val, m;
    AlongSound(input, prior, m0, a0, m, r');
    BlockSound(m);
    if r'.bits < op {
      r' := PullFast(input, r', prior, m0, a0, m');
      if r'.bits < op {
        r' := PullFast(input, r', prior, m0, a0, m');
      }
    }
    dist, r', m' := FastExtra(input, r', val, op, prior, m0, a0, m');
  }

  /** Copy a match to the output, or find that it reaches back too far. */
  method FastCopy(input: seq<byte>, r: Registers, window: array<byte>, wsize: nat, wnext: nat, whave: nat, dist: nat,
                  len: nat, ghost prior: seq<byte>, ghost m0: Machine, ghost a0: seq<bool>, ghost m: Machine)
    returns (mode: Mode, r': Registers, ghost m': Machine)
    requires Along(input, prior, m0, a0, m, r) && m.mode == MATCH && dist == m.offset && len == m.length && 3 <= len <= 258
    requires Recalls(window[..], wsize, wnext, whave, prior) && r.left >= 258
    ensures Along(input, prior, m0, a0, m', r') && mode == m'.mode && mode in {LEN, BAD} && Here(input, r') == Here(input, r)
    ensures |r'.put| + r'.left == |r.put| + r.left && m'.last == m.last
    ensures mode == LEN ==> m'.llens == m.llens && m'.dlens == m.dlens
  {
    hide Along, ToBits, Here, Shr, Step, Sound, Pow2, CopyBack, Recalls;
    AlongSound(input, prior, m0, a0, m, r);
    BlockSound(m);
    var put';
    if dist > |r.put| {
      var op := dist - |r.put|;
      BeyondWindow(window[..], wsize, wnext, whave, prior, r.put, dist);
      if op > whave {
        TooFarStep(m, ToBits(r.hold, r.bits));
        AlongFree(input, prior, m0, a0, m, r, m.(mode := BAD), r);
        return BAD, r, m.(mode := BAD);
      }
      put' := CopyWindow(window, wsize, wnext, whave, r.put, prior, dist, len);
    } else {
      put' := CopyDirect(window, r.put, prior, dist, len);
    }
    CopyLength(prior, r.put, dist, len, put');
    m' := Matched(m, len);
    r' := r.(put := put', left := r.left - len);
    AlongMatch(input, prior, m0, a0, m, r, r');
    mode := LEN;
  }

  /** A step that uses no bits. */
  lemma AlongFree(input: seq<byte>, prior: seq<byte>, m0: Machine, a0: seq<bool>, m: Machine, r: Registers,
                  m': Machine, r': Registers)
    requires Along(input, prior, m0, a0, m, r) && Step(m, ToBits(r.hold, r.bits)) == Go(m', 0)
    requires r'.next == r.next && r'.hold == r.hold && r'.bits == r.bits && m'.out == prior + r'.put
    ensures Along(input, prior, m0, a0, m', r') && Here(input, r') == Here(input, r)
  {
    hide Along, Step;
    ShrNone(r.hold);
    AlongStep(input, prior, m0, a0, m, r, m', r', 0);
  }

  lemma AlongMatch(input: seq<byte>, prior: seq<byte>, m0: Machine, a0: seq<bool>, m: Machine, r: Registers, r': Registers)
    requires Along(input, prior, m0, a0, m, r) && m.mode == MATCH && 1 <= m.length && 1 <= m.offset <= |m.out|
    requires r'.next == r.next && r'.hold == r.hold && r'.bits == r.bits
    requires prior + r'.put == CopyBack(prior + r.put, m.offset, m.length)
    ensures Along(input, prior, m0, a0, Matched(m, m.length), r') && Here(input, r') == Here(input, r)
    ensures Matched(m, m.length).mode == LEN
  {
    hide Step, Sound, Reaches, Pow2, ToBits, Rest, CopyBack;
    RunMatched(m, m.length, Here(input, r));
    ReachesTrans(m0, a0, m, Here(input, r), Matched(m, m.length), Here(input, r));
  }

  /** After a length symbol: its extra bits, the distance, and the copy. */
  method FastMatch(input: seq<byte>, r: Registers, n0: nat, val: nat, op: nat, window: array<byte>, wsize: nat, wnext: nat,
                   whave: nat, ghost lencode: seq<Entry>, ghost lenbits: nat, distcode: seq<Entry>, distbits: nat,
                   ghost prior: seq<byte>, ghost m0: Machine, ghost a0: seq<bool>, ghost m: Machine)
    returns (mode: Mode, r': Registers, ghost m': Machine)
    requires Along(input, prior, m0, a0, m, r) && m.mode == LENEXT && val == m.length && op == m.extra
    requires Tabled(m, lencode, lenbits, distcode, distbits)
    requires n0 <= r.next && n0 + 6 <= |input| && r.next <= n0 + 2 && 8 * (r.next - n0) <= r.bits + 15
    requires Recalls(window[..], wsize, wnext, whave, prior) && r.left >= 258
    ensures Along(input, prior, m0, a0, m', r') && mode == m'.mode && mode in {LEN, BAD}
    ensures |r'.put| + r'.left == |r.put| + r.left && |Here(input, r')| <= |Here(input, r)| && m'.last == m.last
    ensures mode == LEN ==> m'.llens == m.llens && m'.dlens == m.dlens
  {
    hide Along, Recalls, AfterDist, Decodes, BadOp, Here;
    var len;
    len, r', m' := FastLength(input, r, val, op, prior, m0, a0, m);
    if r'.bits < 15 {
      r' := PullTwo(input, r', prior, m0, a0, m');
    }
    var dop, dval;
    ghost var m1 := m';
    dop, dval, r', m' := FastDist(input, r', lencode, lenbits, distcode, distbits, prior, m0, a0, m');
    DistKeeps(m1, dop, dval);
    if dop / 16 % 2 == 1 {
      var dist;
      dist, r', m' := FastDistance(input, r', dval, dop % 16, prior, m0, a0, m');
      mode, r', m' := FastCopy(input, r', window, wsize, wnext, whave, dist, len, prior, m0, a0, m');
    } else {
      mode := BAD;
    }
  }

  method FastLiteral(input: seq<byte>, r: Registers, val: nat, ghost prior: seq<byte>, ghost m0: Machine,
                     ghost a0: seq<bool>, ghost m: Machine)
    returns (r': Registers, ghost m': Machine)
    requires Along(input, prior, m0, a0, m, r) && m.mode == LIT && m.length == val && r.left >= 1
    ensures Along(input, prior, m0, a0, m', r') && m'.mode == LEN && Here(input, r') == Here(input, r) && m'.last == m.last
    ensures |r'.put| + r'.left == |r.put| + r.left && m'.llens == m.llens && m'.dlens == m.dlens
  {
    hide Along, Here, Step, Sound, ToBits;
    AlongSound(input, prior, m0, a0, m, r);
    var c := (val % 256) as byte;
    LitStep(m, ToBits(r.hold, r.bits));
    r' := r.(put := r.put + [c], left := r.left - 1);
    m' := m.(mode := LEN, out := m.out + [c]);
    assert prior + r.put + [c] == prior + r'.put;
    AlongFree(input, prior, m0, a0, m, r, m', r');
  }

  /** If the first k bits did not suffice for the step, more than k are used. */
  lemma UsesMore(m: Machine, p: seq<bool>, k: nat)
    requires Sound(m) && Step(m, p).Go? && k <= |p| && (|p| - k) % 8 == 0
    ensures Step(m, p[..k]) == Stuck ==> Step(m, p).used > k
  {
    hide Sound, Step;
    if Step(m, p).used <= k { Enough(m, p, k); }
  }

  /** One round of the loop: a literal, a match, the end of the block or an error. */
  method FastOne(input: seq<byte>, r: Registers, window: array<byte>, wsize: nat, wnext: nat, whave: nat,
                 lencode: seq<Entry>, lenbits: nat, distcode: seq<Entry>, distbits: nat,
                 ghost prior: seq<byte>, ghost m0: Machine, ghost a0: seq<bool>, ghost m: Machine)
    returns (mode: Mode, r': Registers, ghost m': Machine)
    requires Along(input, prior, m0, a0, m, r) && m.mode == LEN && Tabled(m, lencode, lenbits, distcode, distbits)
    requires r.next + 6 <= |input| && r.left >= 258 && Recalls(window[..], wsize, wnext, whave, prior)
    ensures Along(input, prior, m0, a0, m', r') && mode == m'.mode && mode in {LEN, TYPE, BAD}
    ensures |r'.put| + r'.left == |r.put| + r.left && m'.last == m.last
    ensures |Here(input, r')| < |Here(input, r)|
    ensures Step(m, ToBits(r.hold, r.bits)) == Stuck ==> |Here(input, r')| + r.bits < |Here(input, r)|
    ensures mode == LEN ==> m'.llens == m.llens && m'.dlens == m.dlens
  {
    hide Along, Recalls, AfterEntry, Decodes, Here, Step, Sound, ToBits, Shr, LenMode, Read;
    r', m' := r, m;
    if r'.bits < 15 {
      r' := PullTwo(input, r', prior, m0, a0, m');
    }
    ghost var r1 := r';
    AlongSound(input, prior, m0, a0, m, r1);
    var op, val;
    ghost var used;
    op, val, r', m', used := FastLen(input, r', lencode, lenbits, distcode, distbits, prior, m0, a0, m');
    UsesMore(m, ToBits(r1.hold, r1.bits), r.bits);
    ghost var e := Entry(op, used, val);
    AfterEntryIs(m, e);
    if op == 0 {
      r', m' := FastLiteral(input, r', val, prior, m0, a0, m');
      mode := LEN;
    } else if op / 16 % 2 == 1 {
      mode, r', m' := FastMatch(input, r', r.next, val, op % 16, window, wsize, wnext, whave, lencode, lenbits,
                                distcode, distbits, prior, m0, a0, m');
    } else if op / 32 % 2 == 1 {
      mode := TYPE;
    } else {
      mode := BAD;
    }
  }

  // ---------- the loop ----------

  /** do { ... } while (in < last && out < end), and then the unused bytes go back. */
  method FastLoop(input: seq<byte>, r: Registers, window: array<byte>, wsize: nat, wnext: nat, whave: nat,
                  lencode: seq<Entry>, lenbits: nat, distcode: seq<Entry>, distbits: nat,
                  ghost prior: seq<byte>, ghost m: Machine)
    returns (mode: Mode, r': Registers, ghost m': Machine)
    requires BitsOk(input, r.next, r.hold, r.bits) && Sound(m) && m.out == prior + r.put && Held(m, ToBits(r.hold, r.bits))
    requires m.mode == LEN && Tabled(m, lencode, lenbits, distcode, distbits)
    requires r.next + 6 <= |input| && r.left >= 258 && Recalls(window[..], wsize, wnext, whave, prior)
    ensures BitsOk(input, r'.next, r'.hold, r'.bits) && Sound(m') && m'.out == prior + r'.put && r'.bits < 8
    ensures Reaches(m, Here(input, r), m', Here(input, r')) && |Here(input, r')| < |Here(input, r)|
    ensures mode == m'.mode && mode in {LEN, TYPE, BAD} && |r'.put| + r'.left == |r.put| + r.left && m'.last == m.last
    ensures mode == LEN ==> m'.llens == m.llens && m'.dlens == m.dlens
  {
    hide Along, Recalls, Decodes, Here, Step, Sound, ToBits, Reaches, Pow2;
    ghost var a0 := Here(input, r);
    AlongStart(input, prior, m, r);
    mode, r', m' := FastOne(input, r, window, wsize, wnext, whave, lencode, lenbits, distcode, distbits, prior, m, a0, m);
    while mode == LEN && r'.next + 5 < |input| && 257 < r'.left
      invariant Along(input, prior, m, a0, m', r') && mode == m'.mode && mode in {LEN, TYPE, BAD}
      invariant |r'.put| + r'.left == |r.put| + r.left && m'.last == m.last
      invariant |Here(input, r')| < |a0| && |Here(input, r')| + r.bits < |a0| + 8
      invariant mode == LEN ==> m'.llens == m.llens && m'.dlens == m.dlens
      decreases |Here(input, r')|
    {
      mode, r', m' := FastOne(input, r', window, wsize, wnext, whave, lencode, lenbits, distcode, distbits, prior, m, a0, m');
    }
    r' := ReturnBytes(input, r, r', prior, m, a0, m');
  }

  lemma AlongStart(input: seq<byte>, prior: seq<byte>, m: Machine, r: Registers)
    requires BitsOk(input, r.next, r.hold, r.bits) && Sound(m) && m.out == prior + r.put
    ensures Along(input, prior, m, Here(input, r), m, r)
  {
    hide Sound, Reaches, Here, ToBits, Pow2;
    ReachesSelf(m, Here(input, r));
    var h := Here(input, r);
    assert h == h[|h| - |h|..];
  }

  /** len = bits >> 3; in -= len; bits -= len << 3; hold &= (1U << bits) - 1; */
  method ReturnBytes(input: seq<byte>, ghost r0: Registers, r: Registers, ghost prior: seq<byte>, ghost m0: Machine,
                     ghost a0: seq<bool>, ghost m: Machine)
    returns (r': Registers)
    requires BitsOk(input, r0.next, r0.hold, r0.bits) && a0 == Here(input, r0) && Along(input, prior, m0, a0, m, r)
    requires |Here(input, r)| + r0.bits < |a0| + 8
    ensures BitsOk(input, r'.next, r'.hold, r'.bits) && r'.bits < 8 && r'.put == r.put && r'.left == r.left
    ensures Here(input, r') == Here(input, r) && Sound(m) && m.out == prior + r.put && Reaches(m0, a0, m, Here(input, r))
  {
    hide Sound, Reaches, Pow2, Low, ToBits, BytesBits;
    var len := r.bits / 8;
    ReturnOk(input, r0, r, len);
    r' := Registers(r.next - len, Low(r.hold, r.bits - 8 * len), r.bits - 8 * len, r.put, r.left);
  }

  /** The bytes that go back are those that were pulled last. */
  lemma ReturnOk(input: seq<byte>, r0: Registers, r: Registers, len: nat)
    requires BitsOk(input, r0.next, r0.hold, r0.bits) && BitsOk(input, r.next, r.hold, r.bits) && len == r.bits / 8
    requires var h, a0 := Here(input, r), Here(input, r0);
             |h| <= |a0| && h == a0[|a0| - |h|..] && |h| + r0.bits < |a0| + 8
    ensures r0.next <= r.next - len
    ensures var bits := r.bits - 8 * len;
            && BitsOk(input, r.next - len, Low(r.hold, bits), bits)
            && ToBits(Low(r.hold, bits), bits) + Rest(input, r.next - len) == Here(input, r)
  {
    hide Pow2, Low, ToBits, Here, Rest;
    var h, a0, bits, n := Here(input, r), Here(input, r0), r.bits - 8 * len, r.next - len;
    HereLength(input, r);
    HereLength(input, r0);
    ReturnCount(r.bits, r0.bits, |input| - r.next, |input| - r0.next, len);
    RestFrom(input, r0.next, n, ToBits(r0.hold, r0.bits));
    HereSplit(input, r, bits);
    LowShr(r.hold, bits);
    SuffixOfSuffix(a0, h, bits);
    HereIs(input, r0);
    BitsOkAt(input, n, Low(r.hold, bits), bits);
  }

  lemma BitsOkAt(input: seq<byte>, next: nat, hold: nat, bits: nat)
    requires hold < Pow2(bits) && bits <= 32 && next <= |input|
    ensures BitsOk(input, next, hold, bits)
  {
  }

  lemma HereIs(input: seq<byte>, r: Registers)
    ensures Here(input, r) == ToBits(r.hold, r.bits) + Rest(input, r.next)
  {
  }

  lemma HereLength(input: seq<byte>, r: Registers)
    requires r.next <= |input|
    ensures |Here(input, r)| == r.bits + 8 * (|input| - r.next)
  {
  }

  lemma HereSplit(input: seq<byte>, r: Registers, k: nat)
    requires k <= r.bits
    ensures Here(input, r) == ToBits(Low(r.hold, k), k) + Here(input, r)[k..]
  {
    hide Low, Rest;
    ToPrefix(r.hold, r.bits, k);
    ToLow(r.hold, k);
    var h := Here(input, r);
    assert h[..k] == ToBits(r.hold, r.bits)[..k];
  }

  lemma SuffixOfSuffix(a: seq<bool>, h: seq<bool>, k: nat)
    requires |h| <= |a| && h == a[|a| - |h|..] && k <= |h|
    ensures h[k..] == a[|a| - |h| + k..]
  {
  }

  lemma ReturnCount(bits: nat, bits0: nat, left: nat, left0: nat, len: nat)
    requires len == bits / 8 && bits + 8 * left + bits0 < bits0 + 8 * left0 + 8
    ensures len <= left0 - left
  {
  }

  /** The stream from a later byte on. */
  lemma RestFrom(input: seq<byte>, a: nat, b: nat, p: seq<bool>)
    requires a <= b <= |input|
    ensures (p + Rest(input, a))[|p| + 8 * (b - a)..] == Rest(input, b)
  {
    hide BytesBits;
    assert input[a..] == input[a..b] + input[b..];
    BytesBitsConcat(input[a..b], input[b..]);
  }
}
