/** Arithmetic on polynomials of degree at most 63, one machine word each. */
module PolOps {
  import opened Words
  import opened Polynomials
  import opened Residues
  import opened FiniteField
  import opened FieldRoots

  type Pol = Word

  datatype Outcome<T> = Done(value: T) | Panic

  lemma {:induction false} WordDeg(x: nat)
    ensures x < TWO64 <==> Deg(x) < 64
  {
    DegPow2(x, 64);
    ShlWord(1);
  }

  lemma {:induction false} BitsBelowDeg(x: nat, n: nat)
    requires Deg(x) < n
    ensures LowBits(x, n) == x
    decreases n
  {
    if n > 0 && x > 0 { BitsBelowDeg(x / 2, n - 1); }
    if x == 0 && n > 0 { BitsBelowDeg(0, n - 1); }
  }

  // x << i, without what is shifted out of the word.
  function ShiftLeft(x: Pol, i: nat): Pol {
    Trunc(Shl(x, i))
  }

  // Schoolbook multiplication in 64 bits: the low word of the product.
  method MulWord(x: Pol, y: Pol) returns (res: Pol)
    ensures res == Trunc(Mul(x, y))
  {
    hide Mul, Xor, LowBits, Bit, Trunc, Shl;
    TruncZero(x, y);
    if x == 0 || y == 0 { return 0; }
    res := 0;
    for i := 0 to Deg(y) + 1
      invariant res == Trunc(Mul(x, LowBits(y, i)))
    {
      MulNextBit(x, y, i);
      if Bit(y, i) {
        res := Xor64(res, ShiftLeft(x, i));
      }
    }
    BitsBelowDeg(y, Deg(y) + 1);
  }

  lemma {:induction false} TruncZero(x: nat, y: nat)
    ensures Trunc(0) == 0 && Mul(x, LowBits(y, 0)) == 0 && (x == 0 || y == 0 ==> Mul(x, y) == 0)
  {
    MulZeroOne(x);
    MulZeroOne(y);
  }

  lemma {:induction false} MulNextBit(x: nat, y: nat, i: nat)
    ensures Trunc(Mul(x, LowBits(y, i + 1))) ==
      if Bit(y, i) then Xor(Trunc(Mul(x, LowBits(y, i))), Trunc(Shl(x, i))) else Trunc(Mul(x, LowBits(y, i)))
  {
    hide Mul, Xor, LowBits, Bit, Trunc;
    LowBitsNext(y, i);
    MulAddRight(x, LowBits(y, i), Pow2(i));
    MulPow2(i, x);
    MulComm(x, Pow2(i));
    TruncXor(Mul(x, LowBits(y, i)), Shl(x, i));
    XorGroup(LowBits(y, i), 0, 0);
  }

  // Long division; dividing anything but zero by zero panics.
  method DivMod(x: Pol, d: Pol) returns (r: Outcome<(Pol, Pol)>)
    ensures r.Panic? <==> x != 0 && d == 0
    ensures r.Done? && d != 0 ==> r.value == (Div(x, d), Mod(x, d))
    ensures x == 0 ==> r == Done((0, 0))
  {
    hide Div, Mod, Shl, Xor, Or, Bit, Deg;
    DivModZero(d);
    if x == 0 { return Done((0, 0)); }
    if d == 0 { return Panic; }
    var D := Deg(d);
    var diff := Deg(x) - D;
    if diff < 0 {
      DivModStep(x, d);
      return Done((0, x));
    }
    var q: Pol, rest: Pol := 0, x;
    NoBits(diff);
    WordDeg(x);
    XorGroup(Div(x, d), 0, 0);
    while diff >= 0
      invariant diff == Deg(rest) - D && Deg(rest) < 64
      invariant Div(x, d) == Xor(q, Div(rest, d)) && Mod(x, d) == Mod(rest, d)
      invariant forall k: nat :: Bit(q, k) ==> diff < k < 64
      decreases Deg(rest) + 1
    {
      DivModStep(rest, d);
      DivBit(q, diff, Div(Xor(rest, Shl(d, diff)), d));
      WordDeg(Shl(d, diff));
      var m := ShiftLeft(d, diff);
      q := Or(q, ShiftLeft(1, diff));
      rest := Xor64(rest, m);
      diff := Deg(rest) - D;
      WordDeg(rest);
    }
    DivModStep(rest, d);
    XorGroup(q, 0, 0);
    r := Done((q, rest));
  }

  lemma {:induction false} DivModZero(d: nat)
    ensures d != 0 ==> Div(0, d) == 0 && Mod(0, d) == 0
  {
  }

  lemma {:induction false} NoBits(diff: int)
    ensures forall k: nat :: Bit(0, k) ==> diff < k < 64
  {
    forall k: nat ensures !Bit(0, k) { BitZero(k); }
  }

  // One step of the division.
  lemma {:induction false} DivModStep(x: nat, d: nat)
    requires d > 0
    ensures if Deg(x) < Deg(d) then Div(x, d) == 0 && Mod(x, d) == x
      else var n := Deg(x) - Deg(d); var y := Xor(x, Shl(d, n));
        && Deg(y) < Deg(x) && Deg(Shl(d, n)) == Deg(x)
        && Div(x, d) == Xor(Pow2(n), Div(y, d)) && Mod(x, d) == Mod(y, d)
  {
    if Deg(d) <= Deg(x) {
      LeadCancels(x, d);
      DegShl(d, Deg(x) - Deg(d));
    }
  }

  // Setting the quotient bit at diff, below all that are set, adds it.
  lemma {:induction false} DivBit(q: nat, diff: int, rest: nat)
    requires 0 <= diff < 64 && forall k: nat :: Bit(q, k) ==> diff < k < 64
    ensures Trunc(Shl(1, diff)) == Pow2(diff)
    ensures Xor(q, Xor(Pow2(diff), rest)) == Xor(Or(q, Pow2(diff)), rest)
    ensures Or(q, Pow2(diff)) < TWO64
    ensures forall k: nat :: Bit(Or(q, Pow2(diff)), k) ==> diff <= k < 64
  {
    hide Or, Xor;
    OrNewBit(q, diff);
    XorGroup(q, Pow2(diff), rest);
    var all := Or(q, Pow2(diff));
    forall k: nat ensures Bit(all, k) ==> diff <= k < 64 {
      BitOr(q, Pow2(diff), k);
      BitPow2(diff, k);
    }
    FitsWord(all);
    DegShl(1, diff);
    WordDeg(Shl(1, diff));
  }

  // ----- overflow-checked multiplication

  method MulOverflows(a: Pol, b: Pol) returns (r: bool)
    ensures r <==> a != 0 && b != 0 && Deg(a) + Deg(b) > 63
  {
    hide Mul, Xor, Div, Mod, Trunc;
    WordDeg(a);
    WordDeg(b);
    if a <= 1 || b <= 1 {
      OnlyConstants(a);
      OnlyConstants(b);
      return false;
    }
    var c := MulWord(a, b);
    var d := DivMod(c, b);
    TruncatedDivision(a, b);
    return d.value.0 != a;
  }

  // Dividing the truncated product gives the factor back exactly when nothing was truncated.
  lemma {:induction false} TruncatedDivision(a: nat, b: nat)
    requires a > 0 && b > 0
    ensures Div(Trunc(Mul(a, b)), b) == a <==> Deg(a) + Deg(b) <= 63
  {
    hide Mul, Xor, Div, Mod;
    var p := Mul(a, b);
    DegMul(a, b);
    WordDeg(p);
    WordDeg(Trunc(p));
    if Deg(a) + Deg(b) <= 63 {
      XorGroup(p, 0, 0);
      ModIs(p, b, a, 0);
    } else if Div(Trunc(p), b) == a {
      DivModExact(Trunc(p), b);
      DegXor(Mod(Trunc(p), b), p);
    }
  }

  // The product, or a panic when it does not fit 64 bits.
  method MulPol(x: Pol, y: Pol) returns (r: Outcome<Pol>)
    ensures r.Panic? <==> x != 0 && y != 0 && Deg(x) + Deg(y) > 63
    ensures r.Done? ==> r.value == Mul(x, y)
  {
    var over := MulOverflows(x, y);
    if over { return Panic; }
    var p := MulWord(x, y);
    ProductFits(x, y);
    r := Done(p);
  }

  lemma {:induction false} ProductFits(x: nat, y: nat)
    requires x == 0 || y == 0 || Deg(x) + Deg(y) <= 63
    ensures Trunc(Mul(x, y)) == Mul(x, y)
  {
    hide Mul, Shl;
    MulZeroOne(x);
    MulZeroOne(y);
    if x != 0 && y != 0 { DegMul(x, y); }
    WordDeg(Mul(x, y));
  }

  // ----- modular multiplication and repeated squaring

  // x times f modulo g, by shifting x one place at a time and reducing; the product is never formed.
  method MulMod(x: Pol, f: Pol, g: Pol) returns (r: Outcome<Pol>)
    ensures r.Panic? <==> x != 0 && f != 0 && (g == 0 || (Deg(x) == 63 && Deg(f) >= 1))
    ensures r.Done? ==> if g == 0 then r.value == 0 else r.value == Mod(Mul(x, f), g)
  {
    hide Mul, Xor, Mod, Shl, Bit, LowBits, Deg, Pow2;
    WordDeg(g);
    WordDeg(x);
    MulZeroOne(x);
    MulZeroOne(f);
    if g != 0 { ZeroReduced(g); }
    if x == 0 || f == 0 { return Done(0); }
    var res: Pol := 0;
    NoLowBits(f);
    for i := 0 to Deg(f) + 1
      invariant g != 0 ==> res == Mod(Mul(x, LowBits(f, i)), g)
      invariant g == 0 ==> LowBits(f, i) == 0 && res == 0
      invariant i >= 1 && Deg(x) == 63 ==> LowBits(f, i) < 2
    {
      NextLowBits(f, i);
      if Bit(f, i) {
        var a := ShiftMod(x, i, g);
        if a.Panic? { return Panic; }
        AddTerm(res, x, f, i, a.value, g);
        var sum := DivMod(Xor64(res, a.value), g);
        if sum.Panic? { return Panic; }
        res := sum.value.1;
      } else if g != 0 {
        XorGroup(LowBits(f, i), 0, 0);
      }
    }
    BitsBelowDeg(f, Deg(f) + 1);
    OnlyConstants(f);
    r := Done(res);
  }

  // x times X^i modulo g, for i > 0; x itself, unreduced, for i = 0.
  method ShiftMod(x: Pol, i: nat, g: Pol) returns (r: Outcome<Pol>)
    requires x != 0
    ensures r.Panic? <==> i > 0 && (g == 0 || Deg(x) == 63)
    ensures r.Done? && g != 0 ==> Mod(r.value, g) == Mod(Shl(x, i), g)
    ensures r.Done? && i == 0 ==> r.value == x
  {
    hide Mul, Xor, Mod, Deg;
    WordDeg(g);
    WordDeg(x);
    TwoDegree();
    var a := x;
    for j := 0 to i
      invariant j == 0 ==> a == x
      invariant j > 0 ==> g != 0 && Deg(x) < 63 && Deg(a) < 63
      invariant g != 0 ==> Mod(a, g) == Mod(Shl(x, j), g)
    {
      var twice := MulPol(a, 2);
      if twice.Panic? { return Panic; }
      MulByX(a);
      var reduced := DivMod(twice.value, g);
      if reduced.Panic? { return Panic; }
      ModDoubles(a, Shl(x, j), g);
      a := reduced.value.1;
    }
    r := Done(a);
  }

  lemma {:induction false} TwoDegree()
    ensures Deg(2) == 1
  {
    assert Deg(1) == 1 + Deg(0);
  }

  lemma {:induction false} MulByX(a: nat)
    ensures Mul(a, 2) == 2 * a
  {
    MulDouble(a, 1);
    MulZeroOne(a);
  }

  lemma {:induction false} ModDoubles(a: nat, b: nat, g: nat)
    requires g > 0 && Mod(a, g) == Mod(b, g)
    ensures Mod(Mod(2 * a, g), g) == Mod(2 * a, g) == Mod(2 * b, g)
  {
    hide Mod, Mul;
    MulByX(a);
    MulByX(b);
    ModMul(a, 2, g);
    ModMul(b, 2, g);
    ModTwice(2 * a, g);
  }

  lemma {:induction false} NoLowBits(f: nat)
    ensures LowBits(f, 0) == 0
  {
  }

  lemma {:induction false} NextLowBits(f: nat, i: nat)
    ensures LowBits(f, i + 1) == Xor(LowBits(f, i), if Bit(f, i) then Pow2(i) else 0)
    ensures i == 0 ==> LowBits(f, i + 1) < 2
    ensures !Bit(f, i) ==> LowBits(f, i + 1) == LowBits(f, i)
  {
    LowBitsNext(f, i);
    XorGroup(LowBits(f, i), 0, 0);
  }

  // Adding the term of bit i to the residue so far.
  lemma {:induction false} AddTerm(res: nat, x: nat, f: nat, i: nat, a: nat, g: nat)
    requires g > 0 ==> res == Mod(Mul(x, LowBits(f, i)), g) && Mod(a, g) == Mod(Shl(x, i), g) && Bit(f, i)
    ensures g > 0 ==> Mod(Xor(res, a), g) == Mod(Mul(x, LowBits(f, i + 1)), g)
    ensures Xor(0, a) == a
  {
    hide Mod, Mul, Xor, LowBits, Bit, Shl, Pow2;
    XorGroup(a, 0, 0);
    if g > 0 {
      LowBitsNext(f, i);
      MulAddRight(x, LowBits(f, i), Pow2(i));
      MulPow2(i, x);
      MulComm(x, Pow2(i));
      ModAdd(res, a, g);
      ModTwice(Mul(x, LowBits(f, i)), g);
      ModAdd(Mul(x, LowBits(f, i)), Shl(x, i), g);
    }
  }

  // 1 << p as an int: the sign bit for p = 63, nothing beyond.
  function IntShift(p: nat): int {
    if p < 63 then Pow2(p) else if p == 63 then -0x8000_0000_0000_0000 else 0
  }

  // X^(2^p) + X modulo g, by p squarings, as long as 2^p fits an int; from p = 63 on the loop does nothing.
  method Qp(p: nat, g: Pol) returns (r: Outcome<Pol>)
    ensures r.Panic? <==> g == 0 && 0 < p < 63
    ensures r.Done? && g != 0 && p < 63 ==> r.value == Mod(Xor(Pow2(Pow2(p)), 2), g)
    ensures p >= 63 ==> r == Done(0)
  {
    hide Mul, Xor, Mod, Deg;
    WordDeg(g);
    TwoDegree();
    var num := IntShift(p);
    var i := 1;
    var res: Pol := 2;
    ghost var k := 0;
    while i < num
      invariant i == Pow2(k) && k <= p && (p >= 63 ==> k == 0)
      invariant g == 0 ==> k == 0
      invariant k == 0 ==> res == 2
      invariant Deg(res) < 63
      invariant g != 0 ==> Mod(res, g) == Mod(Pow2(i), g)
      decreases p - k
    {
      assert p < 63 && k != p;
      var square := MulMod(res, res, g);
      if square.Panic? { return Panic; }
      SquareStep(res, i, g);
      res := square.value;
      i := i * 2;
      k := k + 1;
    }
    if k < p < 63 { Pow2Grows(k, p); }
    XorCancel(2, 2);
    var sum := DivMod(Xor64(res, 2), g);
    if g != 0 {
      ModAdd(res, 2, g);
      ModAdd(Pow2(i), 2, g);
    }
    r := if sum.Panic? then Panic else Done(sum.value.1);
  }

  // Squaring X^i, reduced.
  lemma {:induction false} SquareStep(res: nat, i: nat, g: nat)
    requires g > 0 ==> Mod(res, g) == Mod(Pow2(i), g)
    ensures g > 0 ==> Mod(Mod(Mul(res, res), g), g) == Mod(Pow2(i * 2), g)
  {
    hide Mod, Mul;
    if g > 0 {
      ModTwice(Mul(res, res), g);
      ModMul(res, res, g);
      ModMul(Mod(res, g), res, g);
      ModMulBoth(res, res, g);
      ModMulBoth(Pow2(i), Pow2(i), g);
      MulPow2(i, Pow2(i));
      ShlAdd(1, i, i);
    }
  }

  // Ben-Or's test: no X^(2^i) + X up to half the degree shares a factor with x.
  ghost predicate BenOr(x: nat) {
    x == 0 || forall i: nat :: 1 <= i <= Deg(x) / 2 ==> GCD(x, Mod(Xor(Pow2(Pow2(i)), 2), x)) == 1
  }

  method Irreducible(x: Pol) returns (r: bool)
    ensures r <==> BenOr(x)
  {
    hide Mod, Xor, GCD, Pow2;
    WordDeg(x);
    // Go rounds the half of degree -1 to 0.
    var half := if x == 0 then 0 else Deg(x) / 2;
    for i := 1 to half + 1
      invariant forall j: nat :: 1 <= j < i ==> GCD(x, Mod(Xor(Pow2(Pow2(j)), 2), x)) == 1
    {
      var q := Qp(i, x);
      if GCD(x, q.value) != 1 { return false; }
    }
    r := true;
  }

  // The test is right: for every polynomial that is not constant it says whether it is irreducible.
  lemma {:induction false} BenOrIsIrreducible(x: nat)
    requires Deg(x) >= 1
    ensures BenOr(x) <==> FiniteField.Irreducible(x)
  {
    if FiniteField.Irreducible(x) {
      forall i: nat | 1 <= i <= Deg(x) / 2 ensures GCD(x, Mod(Xor(Pow2(Pow2(i)), 2), x)) == 1 {
        IrreduciblePasses(x, i);
      }
    } else {
      ReducibleFails(x);
    }
  }

  lemma {:induction false} IrreduciblePasses(x: nat, i: nat)
    requires FiniteField.Irreducible(x) && 1 <= i < Deg(x)
    ensures GCD(x, Mod(Xor(Pow2(Pow2(i)), 2), x)) == 1
  {
    hide Mod, Xor, GCD, Shl;
    var h := Mod(Xor(Pow2(Pow2(i)), 2), x);
    var u, v := GCDBezout(x, h);
    DivisorOfIrreducible(GCD(x, h), x);
    if GCD(x, h) == x {
      // x divides X^(2^i) + X
      DividesMod(x, h);
      ModTwice(Xor(Pow2(Pow2(i)), 2), x);
      ModAdd(Pow2(Pow2(i)), 2, x);
      XorCancel(Mod(Pow2(Pow2(i)), x), Mod(2, x));
      OwnPower(x);
    }
  }

  lemma {:induction false} ReducibleFails(x: nat)
    requires Deg(x) >= 1 && !FiniteField.Irreducible(x)
    ensures !BenOr(x)
  {
    hide Mod, Xor, GCD, Mul, Shl;
    var f := SmallFactor(x);
    var i := Deg(f);
    var big := Xor(Pow2(Pow2(i)), 2);
    OwnPower(f);
    ModAdd(Pow2(Pow2(i)), 2, f);
    XorCancel(Mod(Pow2(Pow2(i)), f), Mod(2, f));
    DividesMod(f, big);
    DividesRemainder(f, big, x);
    GCDGreatest(x, Mod(big, x), f);
    DividesMod(f, 1);
    OneNonzero(f);
  }

  // A common divisor of x and big divides the remainder of big by x.
  lemma {:induction false} DividesRemainder(f: nat, big: nat, x: nat)
    requires x > 0 && Divides(f, big) && Divides(f, x)
    ensures Divides(f, Mod(big, x))
  {
    hide Mod, Div, Xor, Mul;
    DivModExact(big, x);
    DividesMul(f, x, Div(big, x));
    DividesAdd(f, Mul(Div(big, x), x), big);
    XorCancel(Mod(big, x), Mul(Div(big, x), x));
    XorCancel(Mul(Div(big, x), x), Mod(big, x));
  }

  // The test answers whether x is irreducible just when x is not constant: constants pass although they are not.
  lemma {:induction false} BenOrExactly(x: nat)
    ensures (BenOr(x) <==> FiniteField.Irreducible(x)) <==> Deg(x) >= 1
  {
    if Deg(x) >= 1 { BenOrIsIrreducible(x); }
  }
}
