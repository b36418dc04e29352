/** Frequencies that are powers of two, or nearly, have only one cheapest code:
    that in which a symbol with frequency 2^(15-l) has l bits. */
module DyadicCode {
  import opened Bits
  import opened HuffmanCode
  import opened PriorityHeap
  import opened Sums
  import opened LengthLimit
  import opened Optimal
  import opened SoleCode

  /** The frequency that suits a length. One symbol of one bit may occur once less,
      so that all together fit in a block. */
  predicate Suits(f: nat, l: nat)
  {
    1 <= l <= MAXBITS && (f == Pow2(MAXBITS - l) || (l == 1 && f == Pow2(MAXBITS - 1) - 1))
  }

  lemma {:induction false} PowLinear(k: nat)
    ensures Pow2(k) >= 1 + k
  {
    if k > 0 { PowLinear(k - 1); }
  }

  lemma Times(u: nat, f: nat, e: nat, l: nat)
    ensures u * (f * e) == u * f * e && u * f * (1 + e) == u * f + u * f * e
  {
  }

  /** Room and cost of one symbol with another length, in units of 2^-n: u is the
      room of a code of fifteen bits. */
  lemma OneSymbol(f: nat, l: nat, e: nat, n: nat, u: nat)
    requires Suits(f, l) && MAXBITS <= n && e <= n && u == Pow2(n - MAXBITS)
    ensures Pow2(n - e) + u * (f * e) >= Pow2(n - l) + u * (f * l)
    ensures e > l ==> Pow2(n - e) + u * (f * e) > Pow2(n - l) + u * (f * l)
  {
    hide Pow2;
    PowMul(n - MAXBITS, MAXBITS - l);
    if f == Pow2(MAXBITS - l) {
      PowerSymbol(u * f, l, e, n);
      Times(u, f, e, l);
      Times(u, f, l, l);
    } else {
      FourteenBits();
      LesserSymbol(f, e, n, u);
    }
  }

  lemma PowerSymbol(w: nat, l: nat, e: nat, n: nat)
    requires 1 <= l <= n && e <= n && w == Pow2(n - l)
    ensures Pow2(n - e) + w * e >= w + w * l
    ensures e > l ==> Pow2(n - e) + w * e > w + w * l
  {
    hide Pow2;
    if e <= l {
      PowMul(n - l, l - e);
      PowLinear(l - e);
      Scale(1 + (l - e), Pow2(l - e), w);
      assert w * (1 + (l - e)) + w * e == w + w * l;
    } else {
      Scale(l + 1, e, w);
      assert (l + 1) * w == w + w * l;
    }
  }

  lemma LesserSymbol(f: nat, e: nat, n: nat, u: nat)
    requires f == 0x3FFF && MAXBITS <= n && e <= n && u == Pow2(n - MAXBITS)
    ensures Pow2(n - e) + u * (f * e) >= Pow2(n - 1) + u * f
    ensures e > 1 ==> Pow2(n - e) + u * (f * e) > Pow2(n - 1) + u * f
  {
    hide Pow2;
    PowMul(n - MAXBITS, 14);
    assert Pow2(14) == 0x4000 by { FourteenBits(); }
    assert Pow2(n - 1) == u * 0x4000;
    if e == 0 {
      PowMul(n - MAXBITS, MAXBITS);
      Pow2Values();
      assert Pow2(n) == u * 0x8000;
    } else if e == 2 {
      PowMul(n - MAXBITS, 13);
      assert Pow2(13) == 0x2000 by { FourteenBits(); }
      assert Pow2(n - 2) == u * 0x2000;
      assert u * (f * 2) == u * 0x7FFE;
    } else if e > 2 {
      Scale(3 * f, f * e, u);
      assert u * (3 * f) == u * 0xBFFD;
    }
  }

  lemma FourteenBits()
    ensures Pow2(14) == 0x4000 && Pow2(13) == 0x2000
  {
    assert Pow2(7) == 0x80;
  }

  /** All symbols together. */
  lemma {:induction false} Together(freq: seq<nat>, g: seq<nat>, e: seq<nat>, s: seq<nat>, n: nat, u: nat)
    requires MAXBITS <= n && u == Pow2(n - MAXBITS)
    requires forall i :: 0 <= i < |s| ==> s[i] < |g| && s[i] < |e| && e[s[i]] <= n && Suits(At(freq, s[i]), g[s[i]])
    ensures var x, y := SumAt(Weights(e, n), s) + u * SumAt(Spent(freq, e), s), SumAt(Weights(g, n), s) + u * SumAt(Spent(freq, g), s);
            x >= y && ((exists i :: 0 <= i < |s| && e[s[i]] > g[s[i]]) ==> x > y)
    decreases |s|
  {
    hide Pow2, Suits;
    if s != [] {
      var k := |s| - 1;
      var x := s[k];
      Together(freq, g, e, s[..k], n, u);
      SuitsRange(At(freq, x), g[x]);
      OneSymbol(At(freq, x), g[x], e[x], n, u);
      Shares(u, SumAt(Spent(freq, e), s[..k]), At(freq, x) * e[x]);
      Shares(u, SumAt(Spent(freq, g), s[..k]), At(freq, x) * g[x]);
    }
  }

  lemma SuitsRange(f: nat, l: nat)
    requires Suits(f, l)
    ensures 1 <= l <= MAXBITS
  {
  }

  lemma Shares(u: nat, a: nat, b: nat)
    ensures u * (a + b) == u * a + u * b
  {
  }

  /** Shorter lengths take more room. */
  lemma {:induction false} MoreRoom(g: seq<nat>, e: seq<nat>, s: seq<nat>, n: nat)
    requires forall i :: 0 <= i < |s| ==> s[i] < |g| && s[i] < |e| && e[s[i]] <= g[s[i]] <= n
    ensures SumAt(Weights(e, n), s) >= SumAt(Weights(g, n), s)
    ensures (exists i :: 0 <= i < |s| && e[s[i]] < g[s[i]]) ==> SumAt(Weights(e, n), s) > SumAt(Weights(g, n), s)
    decreases |s|
  {
    hide Pow2;
    if s != [] {
      var k := |s| - 1;
      var x := s[k];
      MoreRoom(g, e, s[..k], n);
      Pow2Mono(n - g[x], n - e[x]);
      if e[x] < g[x] {
        Pow2Mono(n - g[x] + 1, n - e[x]);
        TwicePow(n - g[x]);
      }
    }
  }

  /** If the lengths fill the room, they are the only cheapest ones. */
  lemma DyadicSole(freq: seq<nat>, g: seq<nat>, syms: seq<nat>)
    requires forall i :: 0 <= i < |syms| ==> syms[i] < |g| && Suits(At(freq, syms[i]), g[syms[i]])
    requires SumAt(Weights(g, MAXBITS), syms) == Pow2(MAXBITS)
    ensures Sole(freq, g, syms, MAXBITS)
  {
    hide SumAt, Pow2, Differ;
    assert Prefix(g, syms, MAXBITS);
    forall e: seq<nat>, top: nat | Prefix(e, syms, top) && Differ(e, g, syms)
      ensures SumAt(Spent(freq, g), syms) < SumAt(Spent(freq, e), syms)
    {
      CostsMore(freq, g, syms, e, top);
    }
  }

  lemma CostsMore(freq: seq<nat>, g: seq<nat>, syms: seq<nat>, e: seq<nat>, top: nat)
    requires forall i :: 0 <= i < |syms| ==> syms[i] < |g| && Suits(At(freq, syms[i]), g[syms[i]])
    requires SumAt(Weights(g, MAXBITS), syms) == Pow2(MAXBITS) && Prefix(g, syms, MAXBITS)
    requires Prefix(e, syms, top) && Differ(e, g, syms)
    ensures SumAt(Spent(freq, g), syms) < SumAt(Spent(freq, e), syms)
  {
    hide SumAt, Pow2, Suits, Prefix;
    var n := if top < MAXBITS then MAXBITS else top;
    var u := Pow2(n - MAXBITS);
    PrefixRange(e, syms, top);
    PrefixRange(g, syms, MAXBITS);
    RoomIn(e, syms, top, n);
    RoomIn(g, syms, MAXBITS, n);
    PowMul(MAXBITS, n - MAXBITS);
    Together(freq, g, e, syms, n, u);
    var i :| 0 <= i < |syms| && At(e, syms[i]) != At(g, syms[i]);
    if exists k :: 0 <= k < |syms| && e[syms[k]] > g[syms[k]] {
      Cheaper(SumAt(Spent(freq, g), syms), SumAt(Spent(freq, e), syms), u);
    } else {
      assert e[syms[i]] < g[syms[i]];
      MoreRoom(g, e, syms, n);
    }
  }

  lemma RoomIn(e: seq<nat>, syms: seq<nat>, top: nat, n: nat)
    requires Prefix(e, syms, top) && top <= n
    ensures SumAt(Weights(e, n), syms) <= Pow2(n)
    ensures SumAt(Weights(e, top), syms) == Pow2(top) ==> SumAt(Weights(e, n), syms) == Pow2(n)
  {
    hide SumAt, Pow2;
    Coarser(e, syms, top, n);
    PowMul(top, n - top);
    Scale(SumAt(Weights(e, top), syms), Pow2(top), Pow2(n - top));
  }

  lemma Cheaper(a: nat, b: nat, u: nat)
    ensures u * b > u * a ==> b > a
  {
    if b <= a { Scale(b, a, u); }
  }

  /** Two symbols have one bit each. */
  lemma TwoSole(freq: seq<nat>, g: seq<nat>, a: nat, b: nat)
    requires a != b && a < |g| && b < |g| && g[a] == g[b] == 1 && At(freq, a) > 0 && At(freq, b) > 0
    ensures Sole(freq, g, [a, b], MAXBITS)
  {
    hide SumAt, Pow2;
    Pair(Weights(g, MAXBITS), a, b);
    TwicePow(MAXBITS - 1);
    forall e: seq<nat>, top: nat | Prefix(e, [a, b], top) && Differ(e, g, [a, b])
      ensures SumAt(Spent(freq, g), [a, b]) < SumAt(Spent(freq, e), [a, b])
    {
      assert [a, b][0] == a && [a, b][1] == b;
      Pair(Weights(e, top), a, b);
      Pair(Spent(freq, e), a, b);
      Pair(Spent(freq, g), a, b);
      assert e[a] > 0 && e[b] > 0;
      Longer(At(freq, a), e[a]);
      Longer(At(freq, b), e[b]);
    }
  }

  lemma Pair(t: seq<nat>, a: nat, b: nat)
    ensures SumAt(t, [a, b]) == At(t, a) + At(t, b)
  {
    hide SumAt;
    SumNone(t);
    SumPush(t, [], a);
    SumPush(t, [a], b);
    assert [] + [a] == [a] && [a] + [b] == [a, b];
  }

  lemma Longer(f: nat, e: nat)
    requires f > 0 && e > 0
    ensures f * e >= f && (e > 1 ==> f * e > f)
  {
    if e > 1 { Scale(2, e, f); }
  }
}
