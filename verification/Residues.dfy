/** Residues modulo a polynomial, divisibility, greatest common divisors and irreducibility. */
module Residues {
  import opened Words
  import opened Polynomials

  // ----- residues

  lemma {:induction false} ModIs(x: nat, d: nat, q: nat, r: nat)
    requires IsDivMod(x, d, q, r)
    ensures d > 0 && Mod(x, d) == r && Div(x, d) == q
  {
    DivModExact(x, d);
    DivModUnique(x, d, q, r, Div(x, d), Mod(x, d));
  }

  lemma {:induction false} ModSmall(x: nat, d: nat)
    requires Deg(x) < Deg(d)
    ensures Mod(x, d) == x
  {
    MulZeroOne(d);
    XorGroup(x, 0, 0);
    ModIs(x, d, 0, x);
  }

  lemma {:induction false} ModAdd(x: nat, y: nat, d: nat)
    requires d > 0
    ensures Mod(Xor(x, y), d) == Xor(Mod(x, d), Mod(y, d))
  {
    hide Mod, Div, Mul, Xor;
    DivModExact(x, d);
    DivModExact(y, d);
    MulAddLeft(Div(x, d), Div(y, d), d);
    XorSwap(Mul(Div(x, d), d), Mod(x, d), Mul(Div(y, d), d), Mod(y, d));
    DegXorBound(Mod(x, d), Mod(y, d), Deg(d));
    ModIs(Xor(x, y), d, Xor(Div(x, d), Div(y, d)), Xor(Mod(x, d), Mod(y, d)));
  }

  lemma {:induction false} ModMultiple(q: nat, d: nat)
    requires d > 0
    ensures Mod(Mul(q, d), d) == 0 && Mod(Mul(d, q), d) == 0
  {
    XorGroup(Mul(q, d), 0, 0);
    ModIs(Mul(q, d), d, q, 0);
    MulComm(q, d);
  }

  // Factors may be reduced before multiplying.
  lemma {:induction false} ModMul(x: nat, y: nat, d: nat)
    requires d > 0
    ensures Mod(Mul(Mod(x, d), y), d) == Mod(Mul(x, y), d) == Mod(Mul(x, Mod(y, d)), d)
  {
    hide Mod, Div, Mul, Xor;
    ModMulLeft(x, y, d);
    ModMulLeft(y, x, d);
    MulComm(x, y);
    MulComm(x, Mod(y, d));
  }

  lemma {:induction false} ModMulLeft(x: nat, y: nat, d: nat)
    requires d > 0
    ensures Mod(Mul(Mod(x, d), y), d) == Mod(Mul(x, y), d)
  {
    hide Mod, Div, Mul, Xor;
    DivModExact(x, d);
    var q, r := Div(x, d), Mod(x, d);
    MulAddLeft(Mul(q, d), r, y);
    MulAssoc(q, d, y);
    MulComm(d, y);
    MulAssoc(q, y, d);
    ModMultiple(Mul(q, y), d);
    ModAdd(Mul(Mul(q, y), d), Mul(r, y), d);
    XorGroup(Mod(Mul(r, y), d), 0, 0);
  }

  lemma {:induction false} ModTwice(x: nat, d: nat)
    requires d > 0
    ensures Mod(Mod(x, d), d) == Mod(x, d)
  {
    ModSmall(Mod(x, d), d);
  }

  // ----- divisibility

  ghost predicate Divides(d: nat, x: nat) {
    exists q :: Mul(q, d) == x
  }

  lemma {:induction false} DividesMod(d: nat, x: nat)
    requires d > 0
    ensures Divides(d, x) <==> Mod(x, d) == 0
  {
    hide Mod, Div, Mul, Xor;
    if Divides(d, x) {
      var q :| Mul(q, d) == x;
      ModMultiple(q, d);
    }
    DivModExact(x, d);
    XorGroup(Mul(Div(x, d), d), 0, 0);
  }

  lemma {:induction false} DividesAdd(d: nat, x: nat, y: nat)
    requires Divides(d, x) && Divides(d, y)
    ensures Divides(d, Xor(x, y))
  {
    var q :| Mul(q, d) == x;
    var r :| Mul(r, d) == y;
    MulAddLeft(q, r, d);
  }

  lemma {:induction false} DividesMul(d: nat, x: nat, y: nat)
    requires Divides(d, x)
    ensures Divides(d, Mul(y, x)) && Divides(d, Mul(x, y))
  {
    var q :| Mul(q, d) == x;
    MulAssoc(y, q, d);
    MulComm(x, y);
  }

  lemma {:induction false} DividesTrans(d: nat, x: nat, y: nat)
    requires Divides(d, x) && Divides(x, y)
    ensures Divides(d, y)
  {
    var q :| Mul(q, x) == y;
    DividesMul(d, x, q);
  }

  lemma {:induction false} DividesZeroSelf(d: nat)
    ensures Divides(d, 0) && Divides(d, d) && Divides(1, d)
  {
    MulZeroOne(d);
  }

  // ----- greatest common divisor

  function GCD(x: nat, f: nat): nat
    decreases f
  {
    if f == 0 then x
    else if x == 0 then f
    else
      var (x, f) := if Deg(x) < Deg(f) then (f, x) else (x, f);
      SmallerRemainder(x, f);
      GCD(f, Mod(x, f))
  }

  lemma {:induction false} DegOrder(a: nat, b: nat)
    requires Deg(a) < Deg(b)
    ensures a < b
    decreases b
  {
    if a > 0 { DegOrder(a / 2, b / 2); }
  }

  lemma {:induction false} SmallerRemainder(x: nat, f: nat)
    requires f > 0
    ensures Mod(x, f) < f && (Deg(x) > Deg(f) ==> f < x)
  {
    DegOrder(Mod(x, f), f);
    if Deg(x) > Deg(f) { DegOrder(f, x); }
  }

  // The greatest common divisor divides both, and is a combination of both.
  lemma {:induction false} GCDBezout(x: nat, f: nat) returns (u: nat, v: nat)
    ensures Divides(GCD(x, f), x) && Divides(GCD(x, f), f)
    ensures GCD(x, f) == Xor(Mul(u, x), Mul(v, f))
    decreases f
  {
    MulZeroOne(x);
    MulZeroOne(f);
    if f == 0 {
      u, v := 1, 0;
      XorGroup(x, 0, 0);
      DividesZeroSelf(x);
    } else if x == 0 {
      u, v := 0, 1;
      XorGroup(f, 0, 0);
      DividesZeroSelf(f);
    } else if Deg(x) < Deg(f) {
      SmallerRemainder(f, x);
      u, v := EuclidStep(f, x, GCD(x, f), x, Mod(f, x));
      u, v := v, u;
      XorCancel(Mul(u, x), Mul(v, f));
    } else {
      SmallerRemainder(x, f);
      u, v := EuclidStep(x, f, GCD(x, f), f, Mod(x, f));
    }
  }

  lemma {:induction false} EuclidStep(x: nat, f: nat, g: nat, f': nat, r: nat) returns (u: nat, v: nat)
    requires f > 0 && r == Mod(x, f) && f' == f && g == GCD(f, r) && r < f
    ensures Divides(g, x) && Divides(g, f) && g == Xor(Mul(u, x), Mul(v, f))
    decreases f, 0
  {
    hide Mod, Div, Mul, Xor, GCD;
    var q := Div(x, f);
    DivModExact(x, f);
    var s, t := GCDBezout(f, r);
    DividesMul(g, f, q);
    DividesAdd(g, Mul(q, f), r);
    // g = s f + t r = s f + t (x + q f) = t x + (s + t q) f
    u, v := t, Xor(s, Mul(t, q));
    XorCancel(r, Mul(q, f));
    XorCancel(Mul(q, f), r);
    MulAddRight(t, x, Mul(q, f));
    MulAssoc(t, q, f);
    MulAddLeft(s, Mul(t, q), f);
    XorGroup(Mul(s, f), Mul(t, x), Mul(Mul(t, q), f));
    XorGroup(Mul(t, x), Mul(s, f), Mul(Mul(t, q), f));
    XorCancel(Mul(t, x), Mul(s, f));
  }

  // Its divisors are the common divisors.
  lemma {:induction false} GCDDivisors(x: nat, f: nat, c: nat)
    ensures Divides(c, GCD(x, f)) <==> Divides(c, x) && Divides(c, f)
  {
    var _, _ := GCDBezout(x, f);
    if Divides(c, GCD(x, f)) {
      DividesTrans(c, GCD(x, f), x);
      DividesTrans(c, GCD(x, f), f);
    } else if Divides(c, x) && Divides(c, f) {
      GCDGreatest(x, f, c);
    }
  }

  // Every common divisor divides it.
  lemma {:induction false} GCDGreatest(x: nat, f: nat, c: nat)
    requires Divides(c, x) && Divides(c, f)
    ensures Divides(c, GCD(x, f))
  {
    var u, v := GCDBezout(x, f);
    DividesMul(c, x, u);
    DividesMul(c, f, v);
    DividesAdd(c, Mul(u, x), Mul(v, f));
  }
}
