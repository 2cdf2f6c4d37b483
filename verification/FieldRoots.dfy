/** Roots over a residue field, and the least power of two that fixes X. */
module FieldRoots {
  import opened Words
  import opened Polynomials
  import opened Residues
  import opened FiniteField

  lemma {:induction false} TimesAdd(a: nat, b: nat, c: nat, f: nat)
    requires f > 0
    ensures Times(Xor(a, b), c, f) == Xor(Times(a, c, f), Times(b, c, f))
    ensures Times(c, Xor(a, b), f) == Xor(Times(c, a, f), Times(c, b, f))
  {
    hide Mod, Mul, Xor;
    MulAddLeft(a, b, c);
    MulAddRight(c, a, b);
    ModAdd(Mul(a, c), Mul(b, c), f);
    ModAdd(Mul(c, a), Mul(c, b), f);
  }

  // ----- polynomials over the field, coefficients from the constant term up

  function Eval(c: seq<nat>, t: nat, f: nat): nat
    requires f > 0
  {
    if c == [] then 0 else Xor(Mod(c[0], f), Times(t, Eval(c[1..], t, f), f))
  }

  // The quotient by (T + r).
  function Quot(c: seq<nat>, r: nat, f: nat): (q: seq<nat>)
    requires f > 0
    ensures |q| == if c == [] then 0 else |c| - 1
  {
    if |c| <= 1 then [] else [Eval(c[1..], r, f)] + Quot(c[1..], r, f)
  }

  lemma {:induction false} ZeroReduced(f: nat)
    requires f > 0
    ensures Mod(0, f) == 0
  {
  }

  lemma {:induction false} EvalReduced(c: seq<nat>, t: nat, f: nat)
    requires f > 0
    ensures Mod(Eval(c, t, f), f) == Eval(c, t, f)
  {
    ZeroReduced(f);
    if c != [] {
      ModTwice(c[0], f);
      var m := Mul(t, Eval(c[1..], t, f));
      ModTwice(m, f);
      ModAdd(Mod(c[0], f), Mod(m, f), f);
    }
  }

  lemma {:induction false} TimesZero(a: nat, f: nat)
    requires f > 0
    ensures Times(a, 0, f) == 0
  {
    MulZeroOne(a);
    ZeroReduced(f);
  }

  // p(t) = (t + r) q(t) + p(r)
  lemma {:induction false} Synthetic(c: seq<nat>, r: nat, t: nat, f: nat)
    requires f > 0 && c != []
    ensures Eval(c, t, f) == Xor(Times(Xor(t, r), Eval(Quot(c, r, f), t, f), f), Eval(c, r, f))
    decreases |c|
  {
    hide Mod, Times, Xor;
    var rest, c0 := c[1..], Mod(c[0], f);
    if rest == [] {
      TimesZero(t, f);
      TimesZero(r, f);
      TimesZero(Xor(t, r), f);
      XorGroup(Eval(c, r, f), 0, 0);
    } else {
      Synthetic(rest, r, t, f);
      var s, p, q := Xor(t, r), Eval(rest, r, f), Eval(Quot(rest, r, f), t, f);
      assert Quot(c, r, f)[0] == p && Quot(c, r, f)[1..] == Quot(rest, r, f);
      EvalReduced(rest, r, f);
      SyntheticStep(c0, s, t, r, p, q, f);
    }
  }

  // c0 + t (s q + p) = s (p + t q) + (c0 + r p), for s = t + r
  lemma {:induction false} SyntheticStep(c0: nat, s: nat, t: nat, r: nat, p: nat, q: nat, f: nat)
    requires f > 0 && s == Xor(t, r)
    ensures Xor(c0, Times(t, Xor(Times(s, q, f), p), f))
      == Xor(Times(s, Xor(p, Times(t, q, f)), f), Xor(c0, Times(r, p, f)))
  {
    hide Times, Xor;
    TimesAdd(Times(s, q, f), p, t, f);
    TimesAdd(p, Times(t, q, f), s, f);
    TimesAdd(t, r, p, f);
    TimesLaws(t, s, q, f);
    TimesLaws(s, t, q, f);
    var stq, tp, rp := Times(t, Times(s, q, f), f), Times(t, p, f), Times(r, p, f);
    XorAll(c0, tp, rp, stq);
  }

  // Adding rp twice changes nothing.
  lemma {:induction false} XorAll(c0: nat, tp: nat, rp: nat, stq: nat)
    ensures Xor(c0, Xor(stq, tp)) == Xor(Xor(Xor(tp, rp), stq), Xor(c0, rp))
  {
    hide Xor;
    var l, r := Xor(c0, Xor(stq, tp)), Xor(Xor(Xor(tp, rp), stq), Xor(c0, rp));
    forall k: nat ensures Bit(l, k) == Bit(r, k) {
      BitXor(c0, Xor(stq, tp), k);
      BitXor(stq, tp, k);
      BitXor(Xor(Xor(tp, rp), stq), Xor(c0, rp), k);
      BitXor(Xor(tp, rp), stq, k);
      BitXor(tp, rp, k);
      BitXor(c0, rp, k);
    }
    SameBits(l, r);
  }

  lemma {:induction false} QuotLast(c: seq<nat>, r: nat, f: nat)
    requires f > 0 && |c| >= 2
    ensures Mod(Quot(c, r, f)[|c| - 2], f) == Mod(c[|c| - 1], f)
    decreases |c|
  {
    hide Mod, Times, Xor;
    var rest := c[1..];
    if |c| == 2 {
      assert rest[1..] == [] && Eval(rest[1..], r, f) == 0;
      TimesZero(r, f);
      XorGroup(Mod(rest[0], f), 0, 0);
      ModTwice(rest[0], f);
    } else {
      QuotLast(rest, r, f);
    }
  }

  // Over a field a polynomial has no more roots than its degree.
  lemma {:induction false} RootBound(c: seq<nat>, roots: set<nat>, f: nat)
    requires Irreducible(f) && c != [] && Mod(c[|c| - 1], f) != 0
    requires forall t :: t in roots ==> t < Pow2(Deg(f)) && Eval(c, t, f) == 0
    ensures |roots| <= |c| - 1
    decreases |c|
  {
    hide Mod, Times, Xor, Eval, Quot;
    if roots != {} {
      var r :| r in roots;
      if |c| == 1 {
        ConstantNoRoot(c, r, f);
      } else {
        var q := Quot(c, r, f);
        QuotLast(c, r, f);
        forall t | t in roots - {r} ensures Eval(q, t, f) == 0 {
          Synthetic(c, r, t, f);
          XorGroup(Times(Xor(t, r), Eval(q, t, f), f), 0, 0);
          RootsApart(t, r, Eval(q, t, f), f);
          EvalReduced(q, t, f);
        }
        RootBound(q, roots - {r}, f);
      }
    }
  }

  lemma {:induction false} ConstantNoRoot(c: seq<nat>, r: nat, f: nat)
    requires f > 0 && |c| == 1 && Mod(c[0], f) != 0
    ensures Eval(c, r, f) != 0
  {
    TimesZero(r, f);
    XorGroup(Mod(c[0], f), 0, 0);
  }

  lemma {:induction false} RootsApart(t: nat, r: nat, v: nat, f: nat)
    requires Irreducible(f) && t != r && t < Pow2(Deg(f)) && r < Pow2(Deg(f)) && Times(Xor(t, r), v, f) == 0
    ensures Mod(v, f) == 0
  {
    hide Mod, Mul, Xor;
    Prime(f, Xor(t, r), v);
    DegPow2(t, Deg(f));
    DegPow2(r, Deg(f));
    DegXorBound(t, r, Deg(f));
    ModSmall(Xor(t, r), f);
    XorCancel(t, r);
  }

  // ----- the polynomial T^m + T

  function Zeros(k: nat): seq<nat> {
    seq(k, _ => 0)
  }

  lemma {:induction false} EvalMonomial(k: nat, t: nat, f: nat)
    requires f > 0
    ensures Eval(Zeros(k) + [1], t, f) == Power(t, k, f)
  {
    hide Mod, Times, Xor;
    var c := Zeros(k) + [1];
    ZeroReduced(f);
    if k == 0 {
      TimesZero(t, f);
      XorGroup(Mod(1, f), 0, 0);
    } else {
      assert c[1..] == Zeros(k - 1) + [1];
      EvalMonomial(k - 1, t, f);
      XorGroup(Power(t, k, f), 0, 0);
    }
  }

  function Trinomial(m: nat): seq<nat>
    requires m >= 2
  {
    [0, 1] + Zeros(m - 2) + [1]
  }

  lemma {:induction false} EvalTrinomial(m: nat, t: nat, f: nat)
    requires f > 0 && m >= 2
    ensures Eval(Trinomial(m), t, f) == Xor(Mod(t, f), Power(t, m, f))
  {
    hide Mod, Times, Xor;
    var c, tail := Trinomial(m), Zeros(m - 2) + [1];
    assert c[1..][1..] == tail;
    EvalMonomial(m - 2, t, f);
    assert Eval(c[1..], t, f) == Xor(Mod(1, f), Power(t, m - 1, f));
    TimesAdd(Mod(1, f), Power(t, m - 1, f), t, f);
    OneTimesAny(t, f);
    ZeroReduced(f);
    XorGroup(Eval(c, t, f), 0, 0);
    XorGroup(Times(t, Eval(c[1..], t, f), f), 0, 0);
  }

  // ----- repeated squaring

  // a raised to the 2^i.
  function Frobenius(a: nat, i: nat, f: nat): nat
    requires f > 0
  {
    if i == 0 then Mod(a, f) else Times(Frobenius(a, i - 1, f), Frobenius(a, i - 1, f), f)
  }

  lemma {:induction false} PowerAdd(a: nat, m: nat, n: nat, f: nat)
    requires f > 0
    ensures Power(a, m + n, f) == Times(Power(a, m, f), Power(a, n, f), f)
  {
    hide Mod, Times;
    if m == 0 {
      OneTimesAny(Power(a, n, f), f);
      PowerReduced(a, n, f);
    } else {
      PowerAdd(a, m - 1, n, f);
      TimesLaws(a, Power(a, m - 1, f), Power(a, n, f), f);
    }
  }

  lemma {:induction false} FrobeniusIsPower(a: nat, i: nat, f: nat)
    requires f > 0
    ensures Frobenius(a, i, f) == Power(a, Pow2(i), f)
  {
    hide Mod, Times;
    if i == 0 {
      assert Power(a, 1, f) == Times(a, Power(a, 0, f), f);
      OneTimesAny(a, f);
    } else {
      FrobeniusIsPower(a, i - 1, f);
      PowerAdd(a, Pow2(i - 1), Pow2(i - 1), f);
    }
  }

  // Squaring is additive in characteristic 2, and multiplicative.
  lemma {:induction false} FrobeniusHom(a: nat, b: nat, i: nat, f: nat)
    requires f > 0
    ensures Frobenius(Xor(a, b), i, f) == Xor(Frobenius(a, i, f), Frobenius(b, i, f))
    ensures Frobenius(Mul(a, b), i, f) == Times(Frobenius(a, i, f), Frobenius(b, i, f), f)
  {
    hide Mod, Mul, Times, Xor;
    if i == 0 {
      ModAdd(a, b, f);
      ModMulBoth(a, b, f);
    } else {
      FrobeniusHom(a, b, i - 1, f);
      var x, y := Frobenius(a, i - 1, f), Frobenius(b, i - 1, f);
      Exchange(x, y, x, y, f);
      TimesAdd(x, y, Xor(x, y), f);
      TimesAdd(x, y, x, f);
      TimesAdd(x, y, y, f);
      TimesLaws(x, y, 0, f);
      XorSquares(Times(x, x, f), Times(x, y, f), Times(y, y, f));
    }
  }

  lemma {:induction false} ModMulBoth(a: nat, b: nat, f: nat)
    requires f > 0
    ensures Times(Mod(a, f), Mod(b, f), f) == Mod(Mul(a, b), f)
  {
    ModMul(a, b, f);
    ModMul(a, Mod(b, f), f);
  }

  // x^2 + xy + xy + y^2
  lemma {:induction false} XorSquares(xx: nat, xy: nat, yy: nat)
    ensures Xor(Xor(xx, xy), Xor(xy, yy)) == Xor(xx, yy)
  {
    XorGroup(xx, xy, Xor(xy, yy));
    XorGroup(xy, xy, yy);
    XorGroup(yy, 0, 0);
  }

  // If X is its own 2^i-th power, so is everything.
  lemma {:induction false} AllFixed(a: nat, i: nat, f: nat)
    requires f > 0 && Frobenius(2, i, f) == Mod(2, f)
    ensures Frobenius(a, i, f) == Mod(a, f)
    decreases a
  {
    hide Mod, Mul, Times, Xor;
    BitsFixed(i, f);
    if a >= 2 {
      var low, high := a % 2, a / 2;
      AllFixed(high, i, f);
      BitLowXor(low, high);
      MulZeroOne(high);
      MulDouble(1, high);
      FrobeniusHom(low, Mul(2, high), i, f);
      FrobeniusHom(2, high, i, f);
      ModMulBoth(2, high, f);
      ModAdd(low, Mul(2, high), f);
    }
  }

  lemma {:induction false} BitsFixed(i: nat, f: nat)
    requires f > 0
    ensures Frobenius(0, i, f) == Mod(0, f) && Frobenius(1, i, f) == Mod(1, f)
  {
    hide Mod, Times;
    ZeroReduced(f);
    if i > 0 {
      BitsFixed(i - 1, f);
      TimesZero(0, f);
      OneTimes(f);
    }
  }

  lemma {:induction false} Pow2Grows(i: nat, n: nat)
    requires i < n
    ensures Pow2(i) < Pow2(n)
    decreases n
  {
    if i > 0 { Pow2Grows(i - 1, n - 1); } else if n > 1 { Pow2Grows(0, n - 1); }
  }

  // Modulo an irreducible polynomial of degree d, X is its own 2^i-th power for i = d but for no i from 1 below d.
  lemma {:induction false} OwnPower(f: nat)
    requires Irreducible(f)
    ensures Mod(Pow2(Pow2(Deg(f))), f) == Mod(2, f)
    ensures forall i :: 1 <= i < Deg(f) ==> Mod(Pow2(Pow2(i)), f) != Mod(2, f)
  {
    hide Mod, Shl;
    Fermat(2, f);
    PowerOfX(Pow2(Deg(f)), f);
    forall i | 1 <= i < Deg(f) ensures Mod(Pow2(Pow2(i)), f) != Mod(2, f) {
      PowerOfX(Pow2(i), f);
      FrobeniusIsPower(2, i, f);
      if Frobenius(2, i, f) == Mod(2, f) { TooManyRoots(i, f); }
    }
  }

  lemma {:induction false} TooManyRoots(i: nat, f: nat)
    requires Irreducible(f) && Frobenius(2, i, f) == Mod(2, f) && 1 <= i
    ensures Deg(f) <= i
  {
    hide Mod, Times, Xor, Eval;
    var m := Pow2(i);
    Pow2Grows(0, i);
    var roots := Below(Pow2(Deg(f)));
    forall t | t in roots ensures Eval(Trinomial(m), t, f) == 0 {
      AllFixed(t, i, f);
      FrobeniusIsPower(t, i, f);
      EvalTrinomial(m, t, f);
      XorGroup(Mod(t, f), 0, 0);
    }
    OneNonzero(f);
    RootBound(Trinomial(m), roots, f);
    if i < Deg(f) { Pow2Grows(i, Deg(f)); }
  }
}
