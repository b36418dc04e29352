/** Exclusive or of numbers: addition of polynomials over GF(2). */
module XorMath {
  import opened Bits

  function Xor(a: nat, b: nat): nat
    decreases a + b
  {
    if a == 0 && b == 0 then 0
    else 2 * Xor(a / 2, b / 2) + (if a % 2 != b % 2 then 1 else 0)
  }

  lemma XorStep(a: nat, c: nat)
    ensures Xor(a, c) / 2 == Xor(a / 2, c / 2) && Xor(a, c) % 2 == (if a % 2 != c % 2 then 1 else 0)
  {
  }

  lemma {:induction false} XorZero(b: nat)
    ensures Xor(0, b) == b && Xor(b, 0) == b
  {
    if b > 0 { XorZero(b / 2); }
  }

  lemma {:induction false} XorComm(a: nat, b: nat)
    ensures Xor(a, b) == Xor(b, a)
    decreases a + b
  {
    if a + b > 0 { XorComm(a / 2, b / 2); }
  }

  lemma {:induction false} XorSelf(a: nat)
    ensures Xor(a, a) == 0
  {
    if a > 0 { XorSelf(a / 2); }
  }

  lemma {:induction false} XorAssoc(a: nat, b: nat, c: nat)
    ensures Xor(Xor(a, b), c) == Xor(a, Xor(b, c))
    decreases a + b + c
  {
    if a + b + c > 0 {
      XorAssoc(a / 2, b / 2, c / 2);
      XorStep(Xor(a, b), c);
      XorStep(a, b);
      XorStep(a, Xor(b, c));
      XorStep(b, c);
      HalvesEqual(Xor(Xor(a, b), c), Xor(a, Xor(b, c)));
    }
  }

  lemma HalvesEqual(x: nat, y: nat)
    ensures x / 2 == y / 2 && x % 2 == y % 2 ==> x == y
  {
  }

  /** Sums may be reordered and pairs cancel. */
  lemma XorMoves(a: nat, b: nat, c: nat)
    ensures Xor(a, Xor(b, c)) == Xor(b, Xor(a, c)) && Xor(Xor(a, b), Xor(a, c)) == Xor(b, c)
    ensures Xor(Xor(a, b), c) == Xor(a, Xor(b, c)) && Xor(Xor(a, b), b) == a && Xor(a, Xor(a, b)) == b
  {
    hide Xor;
    XorComm(a, b);
    XorAssoc(a, b, c);
    XorAssoc(b, a, c);
    XorAssoc(b, a, Xor(a, c));
    XorAssoc(a, a, c);
    XorAssoc(a, b, b);
    XorAssoc(a, a, b);
    XorSelf(a);
    XorSelf(b);
    XorZero(a);
    XorZero(b);
    XorZero(c);
  }

  lemma {:induction false} XorBound(a: nat, b: nat, n: nat)
    requires a < Pow2(n) && b < Pow2(n)
    ensures Xor(a, b) < Pow2(n)
    decreases n
  {
    if n > 0 { XorBound(a / 2, b / 2, n - 1); }
  }

  /** Low bits and high bits are added separately. */
  lemma {:induction false} XorLanes(l: nat, h: nat, l': nat, h': nat, n: nat)
    requires l < Pow2(n) && l' < Pow2(n)
    ensures Xor(l + Shl(h, n), l' + Shl(h', n)) == Xor(l, l') + Shl(Xor(h, h'), n)
    decreases n
  {
    if n > 0 {
      hide Xor, Shl;
      XorLanes(l / 2, h, l' / 2, h', n - 1);
      XorStep(l + Shl(h, n), l' + Shl(h', n));
      XorStep(l, l');
      LaneHalf(l, h, n);
      LaneHalf(l', h', n);
      LaneHalf(Xor(l, l'), Xor(h, h'), n);
    } else {
      XorZero(0);
    }
  }

  lemma LaneHalf(l: nat, h: nat, n: nat)
    requires n > 0
    ensures (l + Shl(h, n)) % 2 == l % 2 && (l + Shl(h, n)) / 2 == l / 2 + Shl(h, n - 1)
  {
  }

  /** Numbers without common bits are added as they are. */
  lemma XorDisjoint(l: nat, h: nat, n: nat)
    requires l < Pow2(n)
    ensures Xor(l, Shl(h, n)) == l + Shl(h, n) && Xor(Shl(h, n), l) == l + Shl(h, n)
  {
    hide Xor, Shl;
    ShlOne(n);
    XorLanes(l, 0, 0, h, n);
    XorZero(l);
    XorZero(h);
    XorComm(l, Shl(h, n));
  }

  lemma {:induction false} XorShl(a: nat, b: nat, n: nat)
    ensures Xor(Shl(a, n), Shl(b, n)) == Shl(Xor(a, b), n)
  {
    if n > 0 {
      XorShl(a, b, n - 1);
      XorStep(Shl(a, n), Shl(b, n));
      ShlHalf(a, n);
      ShlHalf(b, n);
    }
  }

  lemma ShlHalf(a: nat, n: nat)
    requires n > 0
    ensures Shl(a, n) % 2 == 0 && Shl(a, n) / 2 == Shl(a, n - 1)
  {
  }

  lemma {:induction false} LowXor(a: nat, b: nat, c: nat, n: nat)
    requires Low(a, n) == Low(b, n)
    ensures Low(Xor(a, c), n) == Low(Xor(b, c), n)
    decreases n
  {
    if n > 0 {
      XorStep(a, c);
      XorStep(b, c);
      LowXor(a / 2, b / 2, c / 2, n - 1);
    }
  }

  /** Exclusive or with the same number can be undone. */
  lemma {:induction false} XorCancel(a: nat, x: nat, y: nat, n: nat)
    requires Low(Xor(a, x), n) == Low(Xor(a, y), n)
    ensures Low(x, n) == Low(y, n)
    decreases n
  {
    if n > 0 {
      XorStep(a, x);
      XorStep(a, y);
      XorCancel(a / 2, x / 2, y / 2, n - 1);
    }
  }
}
