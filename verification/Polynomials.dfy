/**
 The ring GF(2)[X]: a polynomial is the number whose bit i is the coefficient of X^i,
 addition is exclusive or. No bound on the degree.
 */
module Polynomials {
  import opened Words

  function Mul(a: nat, b: nat): nat {
    if b == 0 then 0 else Xor(if b % 2 == 1 then a else 0, 2 * Mul(a, b / 2))
  }

  // The degree; -1 for the zero polynomial.
  function Deg(a: nat): (d: int)
    ensures -1 <= d && (d == -1 <==> a == 0)
  {
    if a == 0 then -1 else 1 + Deg(a / 2)
  }

  // ----- the laws of the ring

  lemma {:induction false} XorSwap(a: nat, b: nat, c: nat, d: nat)
    ensures Xor(Xor(a, b), Xor(c, d)) == Xor(Xor(a, c), Xor(b, d))
  {
    XorGroup(a, b, Xor(c, d));
    XorGroup(b, c, d);
    XorGroup(c, b, d);
    XorGroup(a, c, Xor(b, d));
  }

  lemma {:induction false} XorDouble(a: nat, b: nat)
    ensures Xor(2 * a, 2 * b) == 2 * Xor(a, b)
  {
    assert 2 * a / 2 == a && 2 * b / 2 == b && (2 * a + 2 * b) % 2 == 0;
  }

  // Adding twice is not adding.
  lemma {:induction false} XorCancel(a: nat, b: nat)
    ensures Xor(Xor(a, b), b) == a && Xor(b, Xor(b, a)) == a && Xor(a, b) == Xor(b, a)
    ensures Xor(a, b) == 0 <==> a == b
  {
    XorGroup(a, b, b);
    XorGroup(b, b, a);
    XorGroup(a, 0, 0);
    XorGroup(b, a, b);
    XorGroup(b, 0, 0);
  }

  lemma {:induction false} MulZeroOne(a: nat)
    ensures Mul(0, a) == 0 && Mul(a, 0) == 0 && Mul(1, a) == a && Mul(a, 1) == a
  {
    if a != 0 {
      MulZeroOne(a / 2);
      XorGroup(0, 0, 0);
      BitLowXor(a % 2, a / 2);
    }
    assert Mul(a, 1) == Xor(a, 2 * Mul(a, 0));
    XorGroup(a, 0, 0);
  }

  // A number is its last bit and twice its half.
  lemma {:induction false} BitLowXor(b: nat, h: nat)
    requires b < 2
    ensures Xor(b, 2 * h) == b + 2 * h
  {
    XorGroup(h, 0, 0);
    assert b / 2 == 0 && 2 * h / 2 == h;
    if b + h > 0 { assert Xor(b, 2 * h) == (b + 2 * h) % 2 + 2 * Xor(b / 2, 2 * h / 2); }
  }

  lemma {:induction false} MulDouble(a: nat, b: nat)
    ensures Mul(2 * a, b) == 2 * Mul(a, b) && Mul(a, 2 * b) == 2 * Mul(a, b)
  {
    if b != 0 {
      MulDouble(a, b / 2);
      XorDouble(if b % 2 == 1 then a else 0, 2 * Mul(a, b / 2));
      XorGroup(2 * Mul(a, b), 0, 0);
      assert 2 * b / 2 == b && 2 * b % 2 == 0;
    }
  }

  lemma {:induction false} MulAddLeft(a: nat, c: nat, b: nat)
    ensures Mul(Xor(a, c), b) == Xor(Mul(a, b), Mul(c, b))
  {
    if b == 0 {
      XorGroup(0, 0, 0);
    } else {
      MulAddLeft(a, c, b / 2);
      var x, y := Mul(a, b / 2), Mul(c, b / 2);
      XorDouble(x, y);
      XorGroup(0, 0, 0);
      XorSwap(if b % 2 == 1 then a else 0, if b % 2 == 1 then c else 0, 2 * x, 2 * y);
    }
  }

  lemma {:induction false} MulComm(a: nat, b: nat)
    ensures Mul(a, b) == Mul(b, a)
    decreases b
  {
    if b == 0 {
      MulZeroOne(a);
    } else {
      MulComm(a, b / 2);
      BitLowXor(b % 2, b / 2);
      MulAddLeft(b % 2, 2 * (b / 2), a);
      MulDouble(b / 2, a);
      MulZeroOne(a);
    }
  }

  lemma {:induction false} MulAddRight(a: nat, b: nat, c: nat)
    ensures Mul(a, Xor(b, c)) == Xor(Mul(a, b), Mul(a, c))
  {
    MulAddLeft(b, c, a);
    MulComm(a, b);
    MulComm(a, c);
    MulComm(a, Xor(b, c));
  }

  lemma {:induction false} MulAssoc(a: nat, b: nat, c: nat)
    ensures Mul(Mul(a, b), c) == Mul(a, Mul(b, c))
    decreases c
  {
    if c == 0 {
      MulZeroOne(a);
    } else {
      MulAssoc(a, b, c / 2);
      var low, high := if c % 2 == 1 then b else 0, Mul(b, c / 2);
      MulAddRight(a, low, 2 * high);
      MulDouble(a, high);
      MulZeroOne(a);
    }
  }

  // ----- degrees

  lemma {:induction false} DegPow2(a: nat, n: nat)
    ensures a < Pow2(n) <==> Deg(a) < n
    decreases n
  {
    if n > 0 && a > 0 { DegPow2(a / 2, n - 1); }
  }

  lemma {:induction false} DegXor(a: nat, b: nat)
    ensures Deg(a) < Deg(b) ==> Deg(Xor(a, b)) == Deg(b) == Deg(Xor(b, a))
    ensures Deg(a) == Deg(b) >= 0 ==> Deg(Xor(a, b)) < Deg(a)
    decreases a + b
  {
    if a > 0 || b > 0 {
      DegXor(a / 2, b / 2);
      assert Xor(a, b) / 2 == Xor(a / 2, b / 2) && Xor(b, a) / 2 == Xor(b / 2, a / 2);
    }
  }

  lemma {:induction false} DegXorBound(a: nat, b: nat, n: int)
    requires Deg(a) < n && Deg(b) < n
    ensures Deg(Xor(a, b)) < n
  {
    DegXor(a, b);
    DegXor(b, a);
    XorGroup(a, b, 0);
    XorGroup(0, 0, 0);
  }

  lemma {:induction false} DegShl(a: nat, n: nat)
    requires a > 0
    ensures Deg(Shl(a, n)) == Deg(a) + n
  {
    if n > 0 {
      DegShl(a, n - 1);
      assert Shl(a, n) / 2 == Shl(a, n - 1);
    }
  }

  lemma {:induction false} DegMul(a: nat, b: nat)
    requires a > 0 && b > 0
    ensures Mul(a, b) > 0 && Deg(Mul(a, b)) == Deg(a) + Deg(b)
    decreases b
  {
    if b / 2 == 0 {
      MulZeroOne(a);
    } else {
      DegMul(a, b / 2);
      var high := 2 * Mul(a, b / 2);
      assert high / 2 == Mul(a, b / 2);
      DegXor(if b % 2 == 1 then a else 0, high);
    }
  }

  // ----- division

  // x divided by d leaves quotient q and remainder r.
  ghost predicate IsDivMod(x: nat, d: nat, q: nat, r: nat) {
    x == Xor(Mul(q, d), r) && Deg(r) < Deg(d)
  }

  lemma {:induction false} DivModUnique(x: nat, d: nat, q: nat, r: nat, q': nat, r': nat)
    requires IsDivMod(x, d, q, r) && IsDivMod(x, d, q', r')
    ensures q == q' && r == r'
  {
    var m, m', dq := Mul(q, d), Mul(q', d), Xor(q, q');
    XorSwap(m, r, m', r');
    XorCancel(x, x);
    XorCancel(Xor(m, m'), Xor(r, r'));
    MulAddLeft(q, q', d);
    DegXorBound(r, r', Deg(d));
    if dq != 0 { DegMul(dq, d); }
    XorCancel(q, q');
    XorCancel(r, r');
    MulZeroOne(d);
  }

  function Mod(x: nat, d: nat): (r: nat)
    requires d > 0
    ensures Deg(r) < Deg(d)
    decreases Deg(x) + 1
  {
    if Deg(x) < Deg(d) then x else LeadCancels(x, d); Mod(Xor(x, Shl(d, Deg(x) - Deg(d))), d)
  }

  function Div(x: nat, d: nat): nat
    requires d > 0
    decreases Deg(x) + 1
  {
    if Deg(x) < Deg(d) then 0
    else LeadCancels(x, d); Xor(Pow2(Deg(x) - Deg(d)), Div(Xor(x, Shl(d, Deg(x) - Deg(d))), d))
  }

  // Aligning the divisor's leading term with x's and adding takes the leading term of x away.
  lemma {:induction false} LeadCancels(x: nat, d: nat)
    requires d > 0 && Deg(d) <= Deg(x)
    ensures Deg(Xor(x, Shl(d, Deg(x) - Deg(d)))) < Deg(x)
  {
    DegShl(d, Deg(x) - Deg(d));
    DegXor(x, Shl(d, Deg(x) - Deg(d)));
  }

  lemma {:induction false} MulPow2(n: nat, d: nat)
    ensures Mul(Pow2(n), d) == Shl(d, n)
    decreases n
  {
    if n == 0 { MulZeroOne(d); } else { MulPow2(n - 1, d); MulDouble(Pow2(n - 1), d); }
  }

  lemma {:induction false} DivModExact(x: nat, d: nat)
    requires d > 0
    ensures IsDivMod(x, d, Div(x, d), Mod(x, d))
    decreases Deg(x) + 1
  {
    if Deg(x) < Deg(d) {
      MulZeroOne(d);
      XorGroup(x, 0, 0);
    } else {
      var n := Deg(x) - Deg(d);
      var m := Shl(d, n);
      LeadCancels(x, d);
      DivModExact(Xor(x, m), d);
      MulPow2(n, d);
      MulAddLeft(Pow2(n), Div(Xor(x, m), d), d);
      XorGroup(m, Mul(Div(Xor(x, m), d), d), Mod(x, d));
      XorCancel(x, m);
      XorCancel(m, x);
    }
  }
}
