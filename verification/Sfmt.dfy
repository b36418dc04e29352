/** The block generators of deps/SFMT/SFMT.c: in place and into an array of the
    caller, they follow the same recurrence. */
module Sfmt {

  type u32 = x: nat | x < 0x1_0000_0000 witness 0

  /** w128_t */
  datatype W128 = W128(u0: u32, u1: u32, u2: u32, u3: u32)

  /** SFMT_N, SFMT_POS1 and the recursion, whatever function of four words it is. */
  datatype Params = Params(n: nat, pos: nat, f: (W128, W128, W128, W128) -> W128)

  predicate Usable(p: Params) { 2 <= p.n && p.pos < p.n }

  /** The recurrence that starts with the words of s. */
  function Term(p: Params, s: seq<W128>, k: nat): W128
    requires Usable(p) && |s| == p.n
    decreases k
  {
    if k < p.n then s[k]
    else p.f(Term(p, s, k - p.n), Term(p, s, k - p.n + p.pos), Term(p, s, k - 2), Term(p, s, k - 1))
  }

  /** count terms from number k on. */
  function Terms(p: Params, s: seq<W128>, k: nat, count: nat): (r: seq<W128>)
    requires Usable(p) && |s| == p.n
    ensures |r| == count && forall i :: 0 <= i < count ==> r[i] == Term(p, s, k + i)
  {
    seq(count, i requires 0 <= i => Term(p, s, k + i))
  }

  /** Starting again from a later stretch of the recurrence continues it. */
  lemma {:induction false} TermShifts(p: Params, s: seq<W128>, k: nat, i: nat)
    requires Usable(p) && |s| == p.n
    ensures Term(p, Terms(p, s, k, p.n), i) == Term(p, s, k + i)
    decreases i
  {
    hide Terms;
    var w := Terms(p, s, k, p.n);
    if i < p.n {
      TermStart(p, s, k, i);
    } else {
      TermShifts(p, s, k, i - p.n);
      TermShifts(p, s, k, i - p.n + p.pos);
      TermShifts(p, s, k, i - 2);
      TermShifts(p, s, k, i - 1);
      TermNext(p, w, i);
      TermNext(p, s, k + i);
    }
  }

  lemma TermStart(p: Params, s: seq<W128>, k: nat, i: nat)
    requires Usable(p) && |s| == p.n && i < p.n
    ensures Term(p, Terms(p, s, k, p.n), i) == Term(p, s, k + i)
  {
  }

  lemma TermNext(p: Params, s: seq<W128>, k: nat)
    requires Usable(p) && |s| == p.n && k >= p.n
    ensures Term(p, s, k) == p.f(Term(p, s, k - p.n), Term(p, s, k - p.n + p.pos), Term(p, s, k - 2), Term(p, s, k - 1))
  {
  }

  lemma TermsShift(p: Params, s: seq<W128>, k: nat, i: nat, count: nat)
    requires Usable(p) && |s| == p.n
    ensures Terms(p, Terms(p, s, k, p.n), i, count) == Terms(p, s, k + i, count)
  {
    hide Term;
    var a, b := Terms(p, Terms(p, s, k, p.n), i, count), Terms(p, s, k + i, count);
    forall j | 0 <= j < count
      ensures a[j] == b[j]
    {
      TermShifts(p, s, k, i + j);
      assert k + (i + j) == k + i + j;
    }
  }

  // ---------- in place ----------

  /** The first i words have been replaced by the next terms. */
  ghost predicate Replaced(p: Params, s: seq<W128>, st: seq<W128>, i: nat)
    requires Usable(p) && |s| == p.n
  {
    |st| == p.n && forall k :: 0 <= k < p.n ==> st[k] == if k < i then Term(p, s, p.n + k) else s[k]
  }

  /** The places of the words that the next one is made of. */
  lemma InPlace(p: Params, s: seq<W128>, st: seq<W128>, i: nat)
    requires Usable(p) && |s| == p.n && Replaced(p, s, st, i) && i < p.n
    ensures var n := p.n;
            var w := p.f(st[i], if i < n - p.pos then st[i + p.pos] else st[i + p.pos - n],
                         if i < 2 then st[n - 2 + i] else st[i - 2], if i < 1 then st[n - 1] else st[i - 1]);
            Term(p, s, n + i) == w && Replaced(p, s, st[i := w], i + 1)
  {
    hide Term;
    TermNext(p, s, p.n + i);
    StartTerms(p, s);
  }

  lemma StartTerms(p: Params, s: seq<W128>)
    requires Usable(p) && |s| == p.n
    ensures forall k :: 0 <= k < p.n ==> Term(p, s, k) == s[k]
  {
  }

  /** *r = f(*a, *b, *c, *d) */
  method DoRecursion(p: Params, r: array<W128>, ri: nat, a: W128, b: W128, c: W128, d: W128)
    requires ri < r.Length
    modifies r
    ensures r[..] == old(r[..])[ri := p.f(a, b, c, d)]
  {
    r[ri] := p.f(a, b, c, d);
  }

  /** sfmt_gen_rand_all(): the next n terms take the place of the last ones. */
  method GenRandAll(p: Params, state: array<W128>)
    requires Usable(p) && state.Length == p.n
    modifies state
    ensures state[..] == Terms(p, old(state[..]), p.n, p.n)
  {
    hide Term, Replaced;
    ghost var s := state[..];
    var n := p.n;
    var r1, r2 := n - 2, n - 1;
    var i := 0;
    NoneReplaced(p, s);
    while i < n - p.pos
      invariant i <= n - p.pos && r1 == (if i < 2 then n - 2 + i else i - 2) && r2 == if i < 1 then n - 1 else i - 1
      invariant Replaced(p, s, state[..], i)
    {
      InPlace(p, s, state[..], i);
      DoRecursion(p, state, i, state[i], state[i + p.pos], state[r1], state[r2]);
      r1 := r2;
      r2 := i;
      i := i + 1;
    }
    while i < n
      invariant n - p.pos <= i <= n && r1 == (if i < 2 then n - 2 + i else i - 2) && r2 == if i < 1 then n - 1 else i - 1
      invariant Replaced(p, s, state[..], i)
    {
      InPlace(p, s, state[..], i);
      DoRecursion(p, state, i, state[i], state[i + p.pos - n], state[r1], state[r2]);
      r1 := r2;
      r2 := i;
      i := i + 1;
    }
    AllReplaced(p, s, state[..]);
  }

  lemma NoneReplaced(p: Params, s: seq<W128>)
    requires Usable(p) && |s| == p.n
    ensures Replaced(p, s, s, 0)
  {
  }

  lemma AllReplaced(p: Params, s: seq<W128>, st: seq<W128>)
    requires Usable(p) && |s| == p.n && Replaced(p, s, st, p.n)
    ensures st == Terms(p, s, p.n, p.n)
  {
    hide Term;
  }

  // ---------- into an array ----------

  /** Where r1 and r2 point to. */
  datatype Pointer = Pointer(to: array<W128>, at: nat)

  /** The first i words are the terms that follow s. */
  ghost predicate Filled(p: Params, s: seq<W128>, a: seq<W128>, i: nat)
    requires Usable(p) && |s| == p.n
  {
    i <= |a| && forall k :: 0 <= k < i ==> a[k] == Term(p, s, p.n + k)
  }

  lemma InArray(p: Params, s: seq<W128>, a: seq<W128>, i: nat)
    requires Usable(p) && |s| == p.n && Filled(p, s, a, i) && i < |a|
    ensures var n := p.n;
            var w := p.f(if i < n then s[i] else a[i - n], if i < n - p.pos then s[i + p.pos] else a[i + p.pos - n],
                         if i < 2 then s[n - 2 + i] else a[i - 2], if i < 1 then s[n - 1] else a[i - 1]);
            Filled(p, s, a[i := w], i + 1)
  {
    hide Term;
    TermNext(p, s, p.n + i);
    StartTerms(p, s);
  }

  /** r1 and r2 before word i is made. */
  ghost predicate Trailing(state: array<W128>, a: array<W128>, i: nat, r1: Pointer, r2: Pointer)
    requires state.Length >= 2
  {
    && r1 == (if i < 2 then Pointer(state, state.Length - 2 + i) else Pointer(a, i - 2))
    && r2 == if i < 1 then Pointer(state, state.Length - 1) else Pointer(a, i - 1)
  }

  /** One word of the array, and on to the next. */
  method FillOne(p: Params, state: array<W128>, a: array<W128>, i: nat, x: W128, y: W128, r1: Pointer, r2: Pointer)
    returns (r1': Pointer, r2': Pointer)
    requires Usable(p) && state.Length == p.n && i < a.Length && a != state && Trailing(state, a, i, r1, r2)
    requires Filled(p, state[..], a[..], i) && x == (if i < p.n then state[i] else a[i - p.n])
    requires y == if i < p.n - p.pos then state[i + p.pos] else a[i + p.pos - p.n]
    modifies a
    ensures Trailing(state, a, i + 1, r1', r2') && Filled(p, state[..], a[..], i + 1)
    ensures forall k :: i < k < a.Length ==> a[k] == old(a[k])
  {
    hide Term, Filled;
    InArray(p, state[..], a[..], i);
    DoRecursion(p, a, i, x, y, r1.to[r1.at], r2.to[r2.at]);
    assert forall k :: i < k < a.Length ==> a[..][k] == a[k];
    r1', r2' := r2, Pointer(a, i);
  }

  /** The first three loops of gen_rand_array(): all words but those that also go
      into the state. */
  method FillFront(p: Params, state: array<W128>, a: array<W128>, size: nat) returns (i: nat, r1: Pointer, r2: Pointer)
    requires Usable(p) && state.Length == p.n <= size <= a.Length && a != state
    modifies a
    ensures i == (if size < 2 * p.n then p.n else size - p.n) && Trailing(state, a, i, r1, r2)
    ensures Filled(p, state[..], a[..], i) && a[size..] == old(a[size..])
  {
    hide Term, Filled;
    ghost var s := state[..];
    var n := p.n;
    r1, r2, i := Pointer(state, n - 2), Pointer(state, n - 1), 0;
    NoneFilled(p, s, a[..]);
    while i < n - p.pos
      invariant i <= n - p.pos && Trailing(state, a, i, r1, r2) && Filled(p, s, a[..], i) && a[size..] == old(a[size..])
    {
      r1, r2 := FillOne(p, state, a, i, state[i], state[i + p.pos], r1, r2);
      i := i + 1;
    }
    while i < n
      invariant n - p.pos <= i <= n && Trailing(state, a, i, r1, r2) && Filled(p, s, a[..], i) && a[size..] == old(a[size..])
    {
      r1, r2 := FillOne(p, state, a, i, state[i], a[i + p.pos - n], r1, r2);
      i := i + 1;
    }
    while i < size - n
      invariant n <= i && (i <= size - n || i == n) && Trailing(state, a, i, r1, r2) && Filled(p, s, a[..], i)
      invariant a[size..] == old(a[size..])
    {
      r1, r2 := FillOne(p, state, a, i, a[i - n], a[i + p.pos - n], r1, r2);
      i := i + 1;
    }
  }

  lemma NoneFilled(p: Params, s: seq<W128>, a: seq<W128>)
    requires Usable(p) && |s| == p.n
    ensures Filled(p, s, a, 0)
  {
  }

  /** gen_rand_array(): size words, of which the last n become the state. */
  method GenRandArray(p: Params, state: array<W128>, a: array<W128>, size: nat)
    requires Usable(p) && state.Length == p.n <= size <= a.Length && a != state
    modifies state, a
    ensures a[..size] == Terms(p, old(state[..]), p.n, size) && a[size..] == old(a[size..])
    ensures state[..] == Terms(p, old(state[..]), size, p.n)
  {
    hide Term, Filled;
    ghost var s := state[..];
    var n := p.n;
    var i, r1, r2 := FillFront(p, state, a, size);
    ghost var front := a[..];
    var j := 0;
    while j < 2 * n - size
      modifies state
      invariant (j <= 2 * n - size || j == 0) && forall k :: 0 <= k < j ==> state[k] == a[k + size - n]
    {
      state[j] := a[j + size - n];
      j := j + 1;
    }
    assert a[..] == front;
    while i < size
      invariant n <= i <= size && j == i - (size - n) && Trailing(state, a, i, r1, r2) && Filled(p, s, a[..], i)
      invariant a[size..] == old(a[size..]) && forall k :: 0 <= k < j ==> state[k] == a[k + size - n]
    {
      InArray(p, s, a[..], i);
      DoRecursion(p, a, i, a[i - n], a[i + p.pos - n], r1.to[r1.at], r2.to[r2.at]);
      r1 := r2;
      r2 := Pointer(a, i);
      state[j] := a[i];
      i := i + 1;
      j := j + 1;
    }
    AllFilled(p, s, a[..], size, state[..]);
  }

  lemma AllFilled(p: Params, s: seq<W128>, a: seq<W128>, size: nat, st: seq<W128>)
    requires Usable(p) && |s| == |st| == p.n <= size && Filled(p, s, a, size)
    requires forall k :: 0 <= k < p.n ==> st[k] == a[k + size - p.n]
    ensures a[..size] == Terms(p, s, p.n, size) && st == Terms(p, s, size, p.n)
  {
    hide Term;
    forall k | 0 <= k < p.n
      ensures st[k] == Term(p, s, size + k)
    {
      assert a[k + size - p.n] == Term(p, s, p.n + (k + size - p.n));
    }
  }

  // ---------- the stream of a generator ----------

  /** The words of count calls of sfmt_gen_rand_all() after another. */
  function Blocks(p: Params, s: seq<W128>, count: nat): seq<W128>
    requires Usable(p) && |s| == p.n
    decreases count
  {
    if count == 0 then [] else Terms(p, s, p.n, p.n) + Blocks(p, Terms(p, s, p.n, p.n), count - 1)
  }

  /** They are the recurrence without gaps. */
  lemma {:induction false} BlocksAreTerms(p: Params, s: seq<W128>, count: nat)
    requires Usable(p) && |s| == p.n
    ensures |Blocks(p, s, count)| == count * p.n && Blocks(p, s, count) == Terms(p, s, p.n, count * p.n)
    decreases count
  {
    hide Term;
    if count == 0 {
      assert Terms(p, s, p.n, 0) == [];
    } else {
      var s1 := Terms(p, s, p.n, p.n);
      BlocksAreTerms(p, s1, count - 1);
      TermsShift(p, s, p.n, p.n, (count - 1) * p.n);
      TermsSplit(p, s, p.n, p.n, (count - 1) * p.n);
      assert count * p.n == p.n + (count - 1) * p.n;
    }
  }

  lemma TermsSplit(p: Params, s: seq<W128>, k: nat, m: nat, n: nat)
    requires Usable(p) && |s| == p.n
    ensures Terms(p, s, k, m + n) == Terms(p, s, k, m) + Terms(p, s, k + m, n)
  {
    hide Term;
    var a, b := Terms(p, s, k, m + n), Terms(p, s, k, m) + Terms(p, s, k + m, n);
    forall i | 0 <= i < m + n
      ensures a[i] == b[i]
    {
      assert i >= m ==> k + m + (i - m) == k + i;
    }
  }

  /** One of the four numbers in a word, in the order in which they lie in memory. */
  function Part(w: W128, i: nat): u32 { if i == 0 then w.u0 else if i == 1 then w.u1 else if i == 2 then w.u2 else w.u3 }

  /** Number k of the generator that was seeded with s. */
  function Number(p: Params, s: seq<W128>, k: nat): u32
    requires Usable(p) && |s| == p.n
  {
    Part(Term(p, s, p.n + k / 4), k % 4)
  }

  /** sfmt_t */
  class Generator {
    const p: Params
    const state: array<W128>
    var idx: nat
    // what it was seeded with, and how many terms are older than the state
    ghost const seed: seq<W128>
    ghost var base: nat

    ghost predicate Valid()
      reads this, state
    {
      && Usable(p) && state.Length == p.n == |seed| && idx <= 4 * p.n && (idx < 4 * p.n ==> base >= p.n)
      && state[..] == Terms(p, seed, base, p.n)
    }

    /** How many numbers have been taken. */
    ghost function Taken(): int
      reads this
    {
      4 * base + idx - 4 * p.n
    }

    /** A generator whose state has been initialized. */
    constructor (p: Params, init: array<W128>)
      requires Usable(p) && init.Length == p.n
      ensures Valid() && Taken() == 0 && seed == init[..] && this.p == p && idx == 4 * p.n && state == init
    {
      this.p, state, idx, seed, base := p, init, 4 * p.n, init[..], 0;
      new;
      assert Terms(p, seed, 0, p.n) == seed;
    }

    /** sfmt_genrand_uint32() */
    method GenRandUint32() returns (r: u32)
      requires Valid()
      modifies this, state
      ensures Valid() && Taken() == old(Taken()) + 1 && old(Taken()) >= 0 && r == Number(p, seed, old(Taken()))
      ensures var w, i := Term(p, seed, p.n + old(Taken()) / 4), old(Taken()) % 4;
              && (i == 0 ==> r == w.u0) && (i == 1 ==> r == w.u1) && (i == 2 ==> r == w.u2) && (i == 3 ==> r == w.u3)
    {
      hide Term;
      if idx >= 4 * p.n {
        GenRandAll(p, state);
        TermsShift(p, seed, base, p.n, p.n);
        base := base + p.n;
        idx := 0;
      }
      r := Part(state[idx / 4], idx % 4);
      assert p.n + Taken() / 4 == base + idx / 4 && Taken() % 4 == idx % 4;
      idx := idx + 1;
    }

    /** sfmt_fill_array32() into an array of whole words: the same numbers as from that
        many single calls. */
    method FillArray32(a: array<W128>, size: nat)
      requires Valid() && a != state && idx == 4 * p.n && size % 4 == 0 && size >= 4 * p.n && size / 4 <= a.Length
      modifies this, state, a
      ensures Valid() && Taken() == old(Taken()) + size && idx == 4 * p.n && old(Taken()) >= 0
      ensures forall k :: 0 <= k < size ==> Part(a[k / 4], k % 4) == Number(p, seed, old(Taken()) + k)
      ensures old(Taken()) % 4 == 0
      ensures forall j :: 0 <= j < size / 4 ==> a[j] == Term(p, seed, p.n + old(Taken()) / 4 + j)
      ensures a[size / 4..] == old(a[size / 4..])
    {
      hide Term;
      GenRandArray(p, state, a, size / 4);
      TermsShift(p, seed, base, p.n, size / 4);
      TermsShift(p, seed, base, size / 4, p.n);
      ghost var taken := 4 * base;
      base := base + size / 4;
      forall j | 0 <= j < size / 4
        ensures a[j] == Term(p, seed, p.n + taken / 4 + j)
      {
        assert a[j] == a[..size / 4][j];
        assert p.n + taken / 4 + j == old(base) + p.n + j;
      }
      forall k | 0 <= k < size
        ensures Part(a[k / 4], k % 4) == Number(p, seed, taken + k)
      {
        assert a[k / 4] == a[..size / 4][k / 4];
        assert p.n + (taken + k) / 4 == old(base) + p.n + k / 4;
      }
    }
  }
}
