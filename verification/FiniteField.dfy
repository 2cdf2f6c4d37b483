/** The finite field of residues modulo an irreducible polynomial. */
module FiniteField {
  import opened Words
  import opened Polynomials
  import opened Residues

  // Not constant, and no product of two polynomials that are not.
  ghost predicate Irreducible(f: nat) {
    Deg(f) >= 1 && forall a, b :: Mul(a, b) == f ==> Deg(a) <= 0 || Deg(b) <= 0
  }

  lemma {:induction false} OnlyConstants(a: nat)
    ensures Deg(a) <= 0 <==> a == 0 || a == 1
  {
    if a >= 2 { assert a / 2 >= 1; }
  }

  // A divisor of an irreducible polynomial is 1 or the polynomial.
  lemma {:induction false} DivisorOfIrreducible(g: nat, f: nat)
    requires Irreducible(f) && Divides(g, f)
    ensures g == 1 || g == f
  {
    var q :| Mul(q, g) == f;
    OnlyConstants(q);
    OnlyConstants(g);
    MulZeroOne(g);
    MulZeroOne(q);
  }

  // Irreducible polynomials are prime: there are no zero divisors modulo one.
  lemma {:induction false} Prime(f: nat, a: nat, b: nat)
    requires Irreducible(f) && Mod(Mul(a, b), f) == 0
    ensures Mod(a, f) == 0 || Mod(b, f) == 0
  {
    hide Mod, Mul, Xor, GCD;
    var g := GCD(f, a);
    var u, v := GCDBezout(f, a);
    DivisorOfIrreducible(g, f);
    DividesMod(f, a);
    DividesMod(f, b);
    DividesMod(f, Mul(a, b));
    if g == 1 {
      // b = (u f + v a) b = u f b + v (a b)
      MulZeroOne(b);
      MulAddLeft(Mul(u, f), Mul(v, a), b);
      MulAssoc(v, a, b);
      DividesZeroSelf(f);
      DividesMul(f, f, u);
      DividesMul(f, Mul(u, f), b);
      DividesMul(f, Mul(a, b), v);
      DividesAdd(f, Mul(Mul(u, f), b), Mul(v, Mul(a, b)));
    }
  }

  // Every polynomial that is not constant has an irreducible divisor.
  lemma {:induction false} IrreducibleFactor(a: nat) returns (f: nat)
    requires Deg(a) >= 1
    ensures Irreducible(f) && Divides(f, a) && Deg(f) <= Deg(a)
    decreases Deg(a)
  {
    hide Mul;
    if Irreducible(a) {
      DividesZeroSelf(a);
      f := a;
    } else {
      var x, y :| Mul(x, y) == a && Deg(x) > 0 && Deg(y) > 0;
      DegMul(x, y);
      f := IrreducibleFactor(y);
      assert Divides(y, a);
      DividesTrans(f, y, a);
    }
  }

  // A reducible polynomial has an irreducible divisor of at most half its degree.
  lemma {:induction false} SmallFactor(x: nat) returns (f: nat)
    requires Deg(x) >= 1 && !Irreducible(x)
    ensures Irreducible(f) && Divides(f, x) && 1 <= Deg(f) <= Deg(x) / 2
  {
    hide Mul;
    var a, b :| Mul(a, b) == x && Deg(a) > 0 && Deg(b) > 0;
    DegMul(a, b);
    MulComm(a, b);
    assert Divides(a, x) && Divides(b, x);
    if Deg(a) <= Deg(b) {
      f := IrreducibleFactor(a);
      DividesTrans(f, a, x);
    } else {
      f := IrreducibleFactor(b);
      DividesTrans(f, b, x);
    }
  }

  // ----- multiplication of residues

  function Times(a: nat, b: nat, f: nat): nat
    requires f > 0
  {
    Mod(Mul(a, b), f)
  }

  lemma {:induction false} TimesLaws(a: nat, b: nat, c: nat, f: nat)
    requires f > 0
    ensures Times(a, b, f) == Times(b, a, f)
    ensures Times(Times(a, b, f), c, f) == Times(a, Times(b, c, f), f)
  {
    hide Mod, Mul;
    MulComm(a, b);
    MulAssoc(a, b, c);
    ModMul(Mul(a, b), c, f);
    ModMul(a, Mul(b, c), f);
  }

  // Nonzero residues may be cancelled.
  lemma {:induction false} TimesCancel(a: nat, b: nat, c: nat, f: nat)
    requires Irreducible(f) && Times(a, c, f) == Times(b, c, f) && Mod(c, f) != 0
    ensures Mod(a, f) == Mod(b, f)
  {
    hide Mod, Mul, Xor;
    MulAddLeft(a, b, c);
    ModAdd(Mul(a, c), Mul(b, c), f);
    XorGroup(Times(a, c, f), 0, 0);
    Prime(f, Xor(a, b), c);
    ModAdd(a, b, f);
    XorCancel(Mod(a, f), Mod(b, f));
  }

  function Power(a: nat, n: nat, f: nat): nat
    requires f > 0
  {
    if n == 0 then Mod(1, f) else Times(a, Power(a, n - 1, f), f)
  }

  // ----- products over sets of residues

  ghost function Product(s: set<nat>, f: nat): nat
    requires f > 0
  {
    if s == {} then Mod(1, f) else var x :| x in s; Times(x, Product(s - {x}, f), f)
  }

  // Any element can be taken out first.
  lemma {:induction false} ProductTake(s: set<nat>, y: nat, f: nat)
    requires f > 0 && y in s
    ensures Product(s, f) == Times(y, Product(s - {y}, f), f)
    decreases s
  {
    hide Times;
    var x :| x in s && Product(s, f) == Times(x, Product(s - {x}, f), f);
    if x != y {
      ProductTake(s - {x}, y, f);
      ProductTake(s - {y}, x, f);
      assert s - {x} - {y} == s - {y} - {x};
      var rest := Product(s - {x} - {y}, f);
      TimesLaws(x, y, rest, f);
      TimesLaws(y, x, rest, f);
    }
  }

  ghost function Scaled(a: nat, s: set<nat>, f: nat): set<nat>
    requires f > 0
  {
    set r | r in s :: Times(a, r, f)
  }

  ghost function Below(n: nat): (s: set<nat>)
    ensures |s| == n && forall r: nat :: r in s <==> r < n
  {
    if n == 0 then {} else Below(n - 1) + {n - 1}
  }

  // All nonzero residues.
  ghost function Units(f: nat): set<nat>
    requires f > 0
  {
    Below(Pow2(Deg(f))) - {0}
  }

  lemma {:induction false} UnitIs(r: nat, f: nat)
    requires f > 0
    ensures r in Units(f) <==> r > 0 && Mod(r, f) == r
  {
    DegPow2(r, Deg(f));
    if Deg(r) < Deg(f) { ModSmall(r, f); }
  }

  // Scaling one more element adds one more.
  lemma {:induction false} ScaledStep(a: nat, s: set<nat>, x: nat, f: nat)
    requires Irreducible(f) && Mod(a, f) != 0 && s <= Units(f) && x in s
    ensures var ax := Times(a, x, f); ax in Scaled(a, s, f) && Scaled(a, s, f) - {ax} == Scaled(a, s - {x}, f)
  {
    hide Times, Mod, Irreducible, Units;
    var rest, ax := s - {x}, Times(a, x, f);
    ScaledFresh(a, rest, x, f);
    assert s == rest + {x};
    assert Scaled(a, s, f) == Scaled(a, rest, f) + {ax};
  }

  // Scaling every factor scales the product by as many powers.
  lemma {:induction false} ProductScaled(a: nat, s: set<nat>, f: nat)
    requires Irreducible(f) && Mod(a, f) != 0 && s <= Units(f)
    ensures |Scaled(a, s, f)| == |s|
    ensures Product(Scaled(a, s, f), f) == Times(Power(a, |s|, f), Product(s, f), f)
    decreases s
  {
    hide Times, Mod, Irreducible, Units;
    if s == {} {
      OneTimes(f);
    } else {
      hide Scaled, Product;
      var x :| x in s;
      var rest, ax := s - {x}, Times(a, x, f);
      ProductScaled(a, rest, f);
      ScaledStep(a, s, x, f);
      ProductTake(Scaled(a, s, f), ax, f);
      ProductTake(s, x, f);
      // (a x) (a^n P) = (a a^n) (x P)
      Exchange(a, x, Power(a, |rest|, f), Product(rest, f), f);
    }
  }

  lemma {:induction false} OneTimes(f: nat)
    requires f > 0
    ensures Times(Mod(1, f), Mod(1, f), f) == Mod(1, f)
  {
    MulZeroOne(1);
    ModMul(1, 1, f);
    ModMul(1, Mod(1, f), f);
  }

  lemma {:induction false} Exchange(a: nat, x: nat, p: nat, q: nat, f: nat)
    requires f > 0
    ensures Times(Times(a, x, f), Times(p, q, f), f) == Times(Times(a, p, f), Times(x, q, f), f)
  {
    hide Times;
    TimesLaws(a, x, Times(p, q, f), f);
    TimesLaws(x, p, q, f);
    TimesLaws(p, x, q, f);
    TimesLaws(a, p, Times(x, q, f), f);
  }

  lemma {:induction false} ScaledFresh(a: nat, s: set<nat>, x: nat, f: nat)
    requires Irreducible(f) && Mod(a, f) != 0 && s <= Units(f) && x in Units(f) && x !in s
    ensures Times(a, x, f) !in Scaled(a, s, f)
  {
    hide Mod, Mul, Irreducible, Units;
    forall r | r in s ensures Times(a, r, f) != Times(a, x, f) {
      if Times(a, r, f) == Times(a, x, f) {
        TimesLaws(a, r, 0, f);
        TimesLaws(a, x, 0, f);
        TimesCancel(r, x, a, f);
        UnitIs(r, f);
        UnitIs(x, f);
      }
    }
  }

  // ----- Fermat's theorem

  lemma {:induction false} SubsetOfSameSize(s: set<nat>, t: set<nat>)
    requires s <= t && |s| == |t|
    ensures s == t
  {
    assert |t| == |s| + |t - s| by { assert t == s + (t - s); }
  }

  lemma {:induction false} ScaledUnits(a: nat, f: nat)
    requires Irreducible(f) && Mod(a, f) != 0
    ensures Scaled(a, Units(f), f) == Units(f)
  {
    hide Mod, Mul, Irreducible, Units, Product, Power;
    ProductScaled(a, Units(f), f);
    forall y | y in Scaled(a, Units(f), f) ensures y in Units(f) {
      var r :| r in Units(f) && y == Times(a, r, f);
      UnitIs(r, f);
      if y == 0 { Prime(f, a, r); }
      ModTwice(Mul(a, r), f);
      UnitIs(y, f);
    }
    SubsetOfSameSize(Scaled(a, Units(f), f), Units(f));
  }

  lemma {:induction false} ProductNonzero(s: set<nat>, f: nat)
    requires f > 0 && Irreducible(f) && s <= Units(f)
    ensures Product(s, f) != 0 && Mod(Product(s, f), f) == Product(s, f)
    decreases s
  {
    hide Mod, Mul, Irreducible, Units;
    ModTwice(1, f);
    if s == {} {
      OneNonzero(f);
    } else {
      var x :| x in s && Product(s, f) == Times(x, Product(s - {x}, f), f);
      var p := Product(s - {x}, f);
      ProductNonzero(s - {x}, f);
      UnitIs(x, f);
      assert Times(x, p, f) == Mod(Mul(x, p), f);
      if Product(s, f) == 0 { Prime(f, x, p); }
      ModTwice(Mul(x, p), f);
    }
  }

  lemma {:induction false} OneNonzero(f: nat)
    requires Irreducible(f)
    ensures Mod(1, f) == 1
  {
    ModSmall(1, f);
  }

  // Every residue is its own 2^d-th power, d the degree of the modulus.
  lemma {:induction false} Fermat(a: nat, f: nat)
    requires f > 0 && Irreducible(f)
    ensures Power(a, Pow2(Deg(f)), f) == Mod(a, f)
  {
    hide Mod, Mul, Irreducible, Units, Product, Scaled, Times;
    var n := |Units(f)|;
    UnitsCount(f);
    if Mod(a, f) == 0 {
      ZeroTimes(a, Power(a, n, f), f);
    } else {
      ProductScaled(a, Units(f), f);
      ScaledUnits(a, f);
      ProductNonzero(Units(f), f);
      var p := Product(Units(f), f);
      // a^n p = p = 1 p
      OneTimesAny(p, f);
      TimesCancel(Power(a, n, f), Mod(1, f), p, f);
      PowerReduced(a, n, f);
      ModTwice(1, f);
      OneTimesAny(a, f);
    }
  }

  lemma {:induction false} UnitsCount(f: nat)
    requires f > 0
    ensures |Units(f)| == Pow2(Deg(f)) - 1
  {
    assert 0 in Below(Pow2(Deg(f)));
  }

  lemma {:induction false} PowerReduced(a: nat, n: nat, f: nat)
    requires f > 0
    ensures Mod(Power(a, n, f), f) == Power(a, n, f)
  {
    if n == 0 { ModTwice(1, f); } else { ModTwice(Mul(a, Power(a, n - 1, f)), f); }
  }

  lemma {:induction false} ZeroTimes(a: nat, b: nat, f: nat)
    requires f > 0 && Mod(a, f) == 0
    ensures Times(a, b, f) == 0
  {
    ModMul(a, b, f);
    MulZeroOne(b);
    ModSmall(0, f);
  }

  lemma {:induction false} OneTimesAny(a: nat, f: nat)
    requires f > 0
    ensures Times(Mod(1, f), a, f) == Mod(a, f) == Times(a, Mod(1, f), f)
  {
    hide Mod, Mul;
    MulZeroOne(a);
    ModMul(1, a, f);
    ModMul(a, 1, f);
  }

  // X to the n, reduced.
  lemma {:induction false} PowerOfX(n: nat, f: nat)
    requires f > 0
    ensures Power(2, n, f) == Mod(Pow2(n), f)
  {
    hide Mod;
    if n > 0 {
      PowerOfX(n - 1, f);
      ModMul(2, Pow2(n - 1), f);
      MulComm(2, Pow2(n - 1));
      MulDouble(Pow2(n - 1), 1);
      MulZeroOne(Pow2(n - 1));
    }
  }
}
