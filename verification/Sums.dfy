/** Sums of table entries over lists of indices. */
module Sums {
  import opened PriorityHeap

  function SumAt(a: seq<nat>, at: seq<nat>): nat
  {
    if at == [] then 0 else SumAt(a, at[..|at| - 1]) + At(a, at[|at| - 1])
  }

  lemma SumPush(a: seq<nat>, at: seq<nat>, x: nat)
    ensures SumAt(a, at + [x]) == SumAt(a, at) + At(a, x)
  {
    assert (at + [x])[..|at|] == at;
  }

  lemma {:induction false} SumConcat(a: seq<nat>, s: seq<nat>, t: seq<nat>)
    ensures SumAt(a, s + t) == SumAt(a, s) + SumAt(a, t)
    decreases |t|
  {
    if t == [] {
      assert s + t == s;
    } else {
      assert s + t == (s + t[..|t| - 1]) + [t[|t| - 1]];
      SumPush(a, s + t[..|t| - 1], t[|t| - 1]);
      SumConcat(a, s, t[..|t| - 1]);
    }
  }

  /** Only the entries that are indexed count. */
  lemma {:induction false} SumSame(a: seq<nat>, b: seq<nat>, at: seq<nat>)
    requires forall i :: 0 <= i < |at| ==> At(a, at[i]) == At(b, at[i])
    ensures SumAt(a, at) == SumAt(b, at)
    decreases |at|
  {
    if at != [] { SumSame(a, b, at[..|at| - 1]); }
  }

  /** Changing one entry that is indexed once. */
  lemma {:induction false} SumChange(a: seq<nat>, b: seq<nat>, at: seq<nat>, p: nat)
    requires p < |at| && forall i :: 0 <= i < |at| && i != p ==> At(a, at[i]) == At(b, at[i])
    ensures SumAt(b, at) + At(a, at[p]) == SumAt(a, at) + At(b, at[p])
    decreases |at|
  {
    if p == |at| - 1 {
      SumSame(a, b, at[..p]);
    } else {
      SumChange(a, b, at[..|at| - 1], p);
    }
  }

  lemma Without(l: seq<nat>, x: nat, r: seq<nat>)
    ensures multiset(l + ([x] + r)) == multiset(l + r) + multiset([x])
  {
    assert multiset(l + ([x] + r)) == multiset(l) + multiset([x] + r);
  }

  lemma Cancel(a: multiset<nat>, b: multiset<nat>, c: multiset<nat>)
    requires a + c == b + c
    ensures a == b
  {
    assert (a + c) - c == a && (b + c) - c == b;
  }

  /** The order of the indices does not matter. */
  lemma {:induction false} SumPerm(a: seq<nat>, s: seq<nat>, t: seq<nat>)
    requires multiset(s) == multiset(t)
    ensures SumAt(a, s) == SumAt(a, t)
    decreases |s|
  {
    if s == [] {
      assert |multiset(t)| == 0;
    } else {
      var n, x := |s| - 1, s[|s| - 1];
      assert s == s[..n] + ([x] + []) && s[..n] + [] == s[..n];
      Without(s[..n], x, []);
      assert x in multiset(t);
      var p :| 0 <= p < |t| && t[p] == x;
      var l, r := t[..p], t[p + 1..];
      assert t == l + ([x] + r);
      Without(l, x, r);
      Cancel(multiset(s[..n]), multiset(l + r), multiset([x]));
      SumPerm(a, s[..n], l + r);
      SumInsert(a, l, x, r);
    }
  }

  lemma SumInsert(a: seq<nat>, l: seq<nat>, x: nat, r: seq<nat>)
    ensures SumAt(a, l + ([x] + r)) == SumAt(a, l + r) + At(a, x)
  {
    SumConcat(a, l, r);
    SumConcat(a, l, [x] + r);
    SumConcat(a, [x], r);
    assert [x][..0] == [];
  }

  lemma {:induction false} SumAdd(a: seq<nat>, b: seq<nat>, c: seq<nat>, at: seq<nat>)
    requires forall i :: 0 <= i < |at| ==> At(c, at[i]) == At(a, at[i]) + At(b, at[i])
    ensures SumAt(c, at) == SumAt(a, at) + SumAt(b, at)
    decreases |at|
  {
    if at != [] { SumAdd(a, b, c, at[..|at| - 1]); }
  }

  lemma {:induction false} SumMono(a: seq<nat>, b: seq<nat>, at: seq<nat>)
    requires forall i :: 0 <= i < |at| ==> At(a, at[i]) <= At(b, at[i])
    ensures SumAt(a, at) <= SumAt(b, at)
    decreases |at|
  {
    if at != [] { SumMono(a, b, at[..|at| - 1]); }
  }

  lemma {:induction false} ZeroSum(a: seq<nat>, s: seq<nat>)
    requires forall i :: 0 <= i < |s| ==> At(a, s[i]) == 0
    ensures SumAt(a, s) == 0
    decreases |s|
  {
    if s != [] { ZeroSum(a, s[..|s| - 1]); }
  }

  /** The indices below n. */
  function Upto(n: nat): (s: seq<nat>)
    ensures |s| == n && forall i :: 0 <= i < n ==> s[i] == i
  {
    seq(n, i => i)
  }

  /** Raising one entry. */
  lemma SumOneMore(a: seq<nat>, b: seq<nat>, n: nat, x: nat)
    requires x < n && At(b, x) == At(a, x) + 1 && forall y: nat :: y != x && y < n ==> At(b, y) == At(a, y)
    ensures SumAt(b, Upto(n)) == SumAt(a, Upto(n)) + 1
  {
    hide SumAt;
    SumChange(a, b, Upto(n), x);
  }

  lemma UptoNext(n: nat)
    ensures Upto(n + 1) == Upto(n) + [n]
  {
  }
}
