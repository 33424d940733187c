/** Polynomials over a field of characteristic two, as NTL's GF2EX is used in libOPRF/Hashing/Hints.cpp:
    evaluation, products, polynomials from roots, and interpolation. */
module Polynomials {
  import opened Sequences

  /** The field operations; GF2E has characteristic two, so subtraction is addition. */
  datatype Field<!F(!new)> = Field(zero: F, one: F, add: (F, F) -> F, mul: (F, F) -> F, inv: F -> F)

  ghost predicate AddLaw<F(!new)>(k: Field<F>, a: F, b: F, c: F) {
    && k.add(a, b) == k.add(b, a)
    && k.add(k.add(a, b), c) == k.add(a, k.add(b, c))
    && k.add(a, k.zero) == a && k.add(a, a) == k.zero
  }

  ghost predicate MulLaw<F(!new)>(k: Field<F>, a: F, b: F, c: F) {
    && k.mul(a, b) == k.mul(b, a)
    && k.mul(k.mul(a, b), c) == k.mul(a, k.mul(b, c))
    && k.mul(a, k.one) == a
    && k.mul(a, k.add(b, c)) == k.add(k.mul(a, b), k.mul(a, c))
    && (a != k.zero ==> k.mul(a, k.inv(a)) == k.one)
  }

  ghost predicate IsField<F(!new)>(k: Field<F>) {
    k.zero != k.one && (forall a, b, c :: AddLaw(k, a, b, c)) && (forall a, b, c :: MulLaw(k, a, b, c))
  }

  lemma MulZero<F(!new)>(k: Field<F>, a: F)
    requires IsField(k)
    ensures k.mul(a, k.zero) == k.zero && k.mul(k.zero, a) == k.zero
  {
    var z := k.mul(a, k.zero);
    assert MulLaw(k, a, k.zero, k.zero) && AddLaw(k, k.zero, k.zero, k.zero) && AddLaw(k, z, z, z);
  }

  lemma AddInterchange<F(!new)>(k: Field<F>, a: F, b: F, c: F, d: F)
    requires IsField(k)
    ensures k.add(k.add(a, b), k.add(c, d)) == k.add(k.add(a, c), k.add(b, d))
  {
    assert AddLaw(k, a, b, k.add(c, d)) && AddLaw(k, b, c, d) && AddLaw(k, c, b, d) && AddLaw(k, a, c, k.add(b, d));
  }

  lemma NoZeroDivisors<F(!new)>(k: Field<F>, a: F, b: F)
    requires IsField(k) && a != k.zero && b != k.zero
    ensures k.mul(a, b) != k.zero
  {
    var c := k.inv(a);
    assert k.mul(c, k.mul(a, b)) == b by {
      assert MulLaw(k, a, c, c) && MulLaw(k, c, a, b) && MulLaw(k, b, k.one, k.one);
    }
    MulZero(k, c);
  }

  lemma AddNonzero<F(!new)>(k: Field<F>, a: F, b: F)
    requires IsField(k) && a != b
    ensures k.add(a, b) != k.zero
  {
    assert k.add(k.add(a, b), b) == a by {
      assert AddLaw(k, a, b, b) && AddLaw(k, b, b, b) && AddLaw(k, a, k.zero, k.zero);
    }
    assert k.add(k.zero, b) == b by {
      assert AddLaw(k, k.zero, b, b) && AddLaw(k, b, k.zero, b);
    }
  }

  // ----- polynomials, constant coefficient first -----

  type Poly<F> = seq<F>

  function Eval<F(!new)>(k: Field<F>, p: Poly<F>, x: F): F {
    if p == [] then k.zero else k.add(p[0], k.mul(x, Eval(k, p[1..], x)))
  }

  function Add<F(!new)>(k: Field<F>, p: Poly<F>, q: Poly<F>): (r: Poly<F>)
    ensures |r| == if |p| < |q| then |q| else |p|
  {
    if p == [] then q
    else if q == [] then p
    else [k.add(p[0], q[0])] + Add(k, p[1..], q[1..])
  }

  function Scale<F(!new)>(k: Field<F>, c: F, p: Poly<F>): (r: Poly<F>)
    ensures |r| == |p|
  {
    if p == [] then [] else [k.mul(c, p[0])] + Scale(k, c, p[1..])
  }

  function Mul<F(!new)>(k: Field<F>, p: Poly<F>, q: Poly<F>): (r: Poly<F>)
    ensures q != [] ==> |r| == if p == [] then 0 else |p| + |q| - 1
  {
    if p == [] then [] else
    Add(k, Scale(k, p[0], q), [k.zero] + Mul(k, p[1..], q))
  }

  lemma {:induction false} EvalAdd<F(!new)>(k: Field<F>, p: Poly<F>, q: Poly<F>, x: F)
    requires IsField(k)
    ensures Eval(k, Add(k, p, q), x) == k.add(Eval(k, p, x), Eval(k, q, x))
  {
    if p == [] {
      assert AddLaw(k, k.zero, Eval(k, q, x), k.zero) && AddLaw(k, Eval(k, q, x), k.zero, k.zero);
    } else if q == [] {
      assert AddLaw(k, Eval(k, p, x), k.zero, k.zero);
    } else {
      EvalAdd(k, p[1..], q[1..], x);
      var s, t := Eval(k, p[1..], x), Eval(k, q[1..], x);
      var r := Add(k, p, q);
      assert r[0] == k.add(p[0], q[0]) && r[1..] == Add(k, p[1..], q[1..]);
      assert MulLaw(k, x, s, t);
      AddInterchange(k, p[0], q[0], k.mul(x, s), k.mul(x, t));
    }
  }

  lemma {:induction false} EvalScale<F(!new)>(k: Field<F>, c: F, p: Poly<F>, x: F)
    requires IsField(k)
    ensures Eval(k, Scale(k, c, p), x) == k.mul(c, Eval(k, p, x))
  {
    if p == [] {
      MulZero(k, c);
    } else {
      EvalScale(k, c, p[1..], x);
      var s := Eval(k, p[1..], x);
      assert Scale(k, c, p)[1..] == Scale(k, c, p[1..]);
      assert MulLaw(k, c, p[0], k.mul(x, s)) && MulLaw(k, x, c, s) && MulLaw(k, c, x, s);
    }
  }

  lemma EvalShift<F(!new)>(k: Field<F>, p: Poly<F>, x: F)
    requires IsField(k)
    ensures Eval(k, [k.zero] + p, x) == k.mul(x, Eval(k, p, x))
  {
    var v := k.mul(x, Eval(k, p, x));
    assert ([k.zero] + p)[1..] == p;
    assert AddLaw(k, k.zero, v, v) && AddLaw(k, v, k.zero, v);
  }

  lemma {:induction false} EvalMul<F(!new)>(k: Field<F>, p: Poly<F>, q: Poly<F>, x: F)
    requires IsField(k)
    ensures Eval(k, Mul(k, p, q), x) == k.mul(Eval(k, p, x), Eval(k, q, x))
  {
    var b := Eval(k, q, x);
    if p == [] {
      MulZero(k, b);
    } else {
      var a := Eval(k, p[1..], x);
      EvalMul(k, p[1..], q, x);
      EvalScale(k, p[0], q, x);
      EvalShift(k, Mul(k, p[1..], q), x);
      EvalAdd(k, Scale(k, p[0], q), [k.zero] + Mul(k, p[1..], q), x);
      var xa := k.mul(x, a);
      assert MulLaw(k, x, a, b) && MulLaw(k, b, p[0], xa) && MulLaw(k, p[0], b, b) && MulLaw(k, xa, b, b);
      assert MulLaw(k, k.add(p[0], xa), b, b);
    }
  }

  /** NTL::BuildFromRoots: the product of X - x over the list. */
  function FromRoots<F(!new)>(k: Field<F>, xs: seq<F>): (r: Poly<F>)
    ensures |r| == |xs| + 1
  {
    if xs == [] then [k.one] else
    Mul(k, [xs[|xs| - 1], k.one], FromRoots(k, xs[..|xs| - 1]))
  }

  lemma EvalRootStep<F(!new)>(k: Field<F>, r: F, x: F)
    requires IsField(k)
    ensures Eval(k, [r, k.one], x) == k.add(r, x)
  {
    assert [r, k.one][1..] == [k.one] && [k.one][1..] == [];
    MulZero(k, x);
    assert AddLaw(k, k.one, k.zero, k.zero) && MulLaw(k, x, k.one, k.one);
    assert Eval(k, [], x) == k.zero;
    assert Eval(k, [k.one], x) == k.one;
  }

  /** The product vanishes exactly at the roots. */
  lemma {:induction false} RootsVanish<F(!new)>(k: Field<F>, xs: seq<F>, x: F)
    requires IsField(k)
    ensures Eval(k, FromRoots(k, xs), x) == k.zero <==> x in xs
  {
    hide Mul, Add, Scale;
    if xs == [] {
      assert [k.one][1..] == [];
      assert Eval(k, [], x) == k.zero;
      MulZero(k, x);
      assert AddLaw(k, k.one, k.zero, k.zero);
    } else {
      var n := |xs| - 1;
      var rest := FromRoots(k, xs[..n]);
      RootsVanish(k, xs[..n], x);
      EvalMul(k, [xs[n], k.one], rest, x);
      EvalRootStep(k, xs[n], x);
      var v := Eval(k, rest, x);
      assert x in xs <==> x in xs[..n] || x == xs[n];
      if x == xs[n] {
        assert AddLaw(k, x, x, x);
        MulZero(k, v);
      } else if x in xs[..n] {
        MulZero(k, k.add(xs[n], x));
      } else {
        AddNonzero(k, xs[n], x);
        NoZeroDivisors(k, k.add(xs[n], x), v);
      }
    }
  }

  /** Interpolation by adding one point at a time. */
  function Interpolate<F(!new)>(k: Field<F>, xs: seq<F>, ys: seq<F>): (p: Poly<F>)
    requires |xs| == |ys|
    ensures |p| == |xs|
  {
    if xs == [] then [] else
    var n := |xs| - 1;
    var p := Interpolate(k, xs[..n], ys[..n]);
    var m := FromRoots(k, xs[..n]);
    var c := k.mul(k.add(ys[n], Eval(k, p, xs[n])), k.inv(Eval(k, m, xs[n])));
    Add(k, p, Scale(k, c, m))
  }

  /** The interpolation polynomial has one coefficient a point and takes the prescribed values. */
  lemma {:induction false} Interpolates<F(!new)>(k: Field<F>, xs: seq<F>, ys: seq<F>, i: nat)
    requires IsField(k) && |xs| == |ys| && NoDup(xs) && i < |xs|
    ensures Eval(k, Interpolate(k, xs, ys), xs[i]) == ys[i]
  {
    var n := |xs| - 1;
    var p := Interpolate(k, xs[..n], ys[..n]);
    var m := FromRoots(k, xs[..n]);
    var v := Eval(k, m, xs[n]);
    var c := k.mul(k.add(ys[n], Eval(k, p, xs[n])), k.inv(v));
    EvalAdd(k, p, Scale(k, c, m), xs[i]);
    EvalScale(k, c, m, xs[i]);
    RootsVanish(k, xs[..n], xs[i]);
    if i < n {
      assert xs[..n][i] == xs[i];
      Interpolates(k, xs[..n], ys[..n], i);
      MulZero(k, c);
      assert AddLaw(k, ys[i], k.zero, k.zero);
    } else {
      LastPoint(k, Eval(k, p, xs[n]), ys[n], v);
    }
  }

  lemma LastPoint<F(!new)>(k: Field<F>, old_: F, y: F, v: F)
    requires IsField(k) && v != k.zero
    ensures k.add(old_, k.mul(k.mul(k.add(y, old_), k.inv(v)), v)) == y
  {
    var d := k.add(y, old_);
    assert MulLaw(k, d, k.inv(v), v) && MulLaw(k, k.inv(v), v, v) && MulLaw(k, v, k.inv(v), v) && MulLaw(k, d, k.one, v);
    assert AddLaw(k, old_, d, d) && AddLaw(k, y, old_, old_) && AddLaw(k, old_, old_, old_) && AddLaw(k, y, k.zero, k.zero);
  }

  // ----- the interpolation polynomial is the only one -----

  /** The quotient of p by X - r. */
  function Quotient<F(!new)>(k: Field<F>, p: Poly<F>, r: F): (q: Poly<F>)
    ensures |q| == if p == [] then 0 else |p| - 1
  {
    if |p| <= 1 then [] else [Eval(k, p[1..], r)] + Quotient(k, p[1..], r)
  }

  /** a + x*(v + (x + r)*w) == (a + r*v) + (x + r)*(v + x*w) */
  lemma DivideStep<F(!new)>(k: Field<F>, a: F, x: F, r: F, v: F, w: F)
    requires IsField(k)
    ensures k.add(a, k.mul(x, k.add(v, k.mul(k.add(x, r), w))))
         == k.add(k.add(a, k.mul(r, v)), k.mul(k.add(x, r), k.add(v, k.mul(x, w))))
  {
    var s := k.add(x, r);
    var xv, rv, sxw := k.mul(x, v), k.mul(r, v), k.mul(s, k.mul(x, w));
    assert k.mul(x, k.add(v, k.mul(s, w))) == k.add(xv, sxw) by {
      assert MulLaw(k, x, v, k.mul(s, w)) && MulLaw(k, x, s, w) && MulLaw(k, s, x, w);
    }
    assert k.mul(s, k.add(v, k.mul(x, w))) == k.add(k.add(xv, rv), sxw) by {
      assert MulLaw(k, s, v, k.mul(x, w)) && MulLaw(k, s, v, v) && MulLaw(k, v, x, r) && MulLaw(k, v, x, x) && MulLaw(k, v, r, r);
    }
    assert k.add(k.add(a, rv), k.add(k.add(xv, rv), sxw)) == k.add(a, k.add(xv, sxw)) by {
      assert AddLaw(k, xv, rv, rv);
      assert AddLaw(k, rv, xv, sxw) && AddLaw(k, rv, rv, k.add(xv, sxw)) && AddLaw(k, a, rv, k.add(rv, k.add(xv, sxw)));
      assert AddLaw(k, k.zero, k.add(xv, sxw), k.zero) && AddLaw(k, k.add(xv, sxw), k.zero, k.zero);
    }
  }

  /** p(x) == p(r) + (x - r) * quotient(x) */
  lemma {:induction false} Divides<F(!new)>(k: Field<F>, p: Poly<F>, r: F, x: F)
    requires IsField(k)
    ensures Eval(k, p, x) == k.add(Eval(k, p, r), k.mul(k.add(x, r), Eval(k, Quotient(k, p, r), x)))
  {
    if |p| <= 1 {
      MulZero(k, k.add(x, r));
      MulZero(k, x);
      MulZero(k, r);
      assert Eval(k, [], x) == Eval(k, [], r) == k.zero;
      assert AddLaw(k, Eval(k, p, r), k.zero, k.zero);
    } else {
      Divides(k, p[1..], r, x);
      var q := Quotient(k, p, r);
      assert q[1..] == Quotient(k, p[1..], r);
      DivideStep(k, p[0], x, r, Eval(k, p[1..], r), Eval(k, q[1..], x));
    }
  }

  ghost predicate AllZero<F(!new)>(k: Field<F>, p: Poly<F>) {
    forall i :: 0 <= i < |p| ==> p[i] == k.zero
  }

  lemma {:induction false} ZeroQuotient<F(!new)>(k: Field<F>, p: Poly<F>, r: F)
    requires IsField(k) && Eval(k, p, r) == k.zero && AllZero(k, Quotient(k, p, r))
    ensures AllZero(k, p)
  {
    if p != [] {
      var q := Quotient(k, p, r);
      if |p| > 1 {
        assert q[0] == k.zero && q[1..] == Quotient(k, p[1..], r);
        ZeroQuotient(k, p[1..], r);
      }
      assert Eval(k, p[1..], r) == k.zero;
      MulZero(k, r);
      assert AddLaw(k, p[0], k.zero, k.zero);
      assert p == [p[0]] + p[1..];
    }
  }

  /** A polynomial with at least as many roots as coefficients is zero. */
  lemma {:induction false} TooManyRoots<F(!new)>(k: Field<F>, p: Poly<F>, xs: seq<F>)
    requires IsField(k) && NoDup(xs) && |p| <= |xs|
    requires forall i :: 0 <= i < |xs| ==> Eval(k, p, xs[i]) == k.zero
    ensures AllZero(k, p)
    decreases |p|
  {
    if p != [] {
      var n := |xs| - 1;
      var r := xs[n];
      var q := Quotient(k, p, r);
      forall i | 0 <= i < n ensures Eval(k, q, xs[..n][i]) == k.zero {
        Divides(k, p, r, xs[i]);
        AddNonzero(k, xs[i], r);
        var v := k.mul(k.add(xs[i], r), Eval(k, q, xs[i]));
        assert AddLaw(k, k.zero, v, v) && AddLaw(k, v, k.zero, v);
        if Eval(k, q, xs[i]) != k.zero {
          NoZeroDivisors(k, k.add(xs[i], r), Eval(k, q, xs[i]));
        }
      }
      TooManyRoots(k, q, xs[..n]);
      ZeroQuotient(k, p, r);
    }
  }

  lemma {:induction false} AddAt<F(!new)>(k: Field<F>, p: Poly<F>, q: Poly<F>, i: nat)
    requires |p| == |q| && i < |p|
    ensures Add(k, p, q)[i] == k.add(p[i], q[i])
  {
    if i > 0 {
      AddAt(k, p[1..], q[1..], i - 1);
    }
  }

  /** Two polynomials with n coefficients that agree at n points are equal. */
  lemma AgreeingIsEqual<F(!new)>(k: Field<F>, p: Poly<F>, q: Poly<F>, xs: seq<F>)
    requires IsField(k) && NoDup(xs) && |p| == |q| <= |xs|
    requires forall i :: 0 <= i < |xs| ==> Eval(k, p, xs[i]) == Eval(k, q, xs[i])
    ensures p == q
  {
    var d := Add(k, p, q);
    forall i | 0 <= i < |xs| ensures Eval(k, d, xs[i]) == k.zero {
      var v := Eval(k, p, xs[i]);
      EvalAdd(k, p, q, xs[i]);
      assert AddLaw(k, v, v, v);
    }
    TooManyRoots(k, d, xs);
    forall i | 0 <= i < |p| ensures p[i] == q[i] {
      AddAt(k, p, q, i);
      if p[i] != q[i] {
        AddNonzero(k, p[i], q[i]);
      }
    }
  }

  /** Whatever the algorithm, a polynomial with one coefficient a point that takes the prescribed values
      is the interpolation polynomial. */
  lemma InterpolationIsUnique<F(!new)>(k: Field<F>, xs: seq<F>, ys: seq<F>, p: Poly<F>)
    requires IsField(k) && |xs| == |ys| == |p| && NoDup(xs)
    requires forall i :: 0 <= i < |xs| ==> Eval(k, p, xs[i]) == ys[i]
    ensures p == Interpolate(k, xs, ys)
  {
    forall i: nat | i < |xs| ensures Eval(k, p, xs[i]) == Eval(k, Interpolate(k, xs, ys), xs[i]) {
      Interpolates(k, xs, ys, i);
    }
    AgreeingIsEqual(k, p, Interpolate(k, xs, ys), xs);
  }

  // ----- NTL's normal form -----

  /** NTL drops leading zero coefficients, so |result| = deg + 1. */
  function Normalize<F(==,!new)>(k: Field<F>, p: Poly<F>): (r: Poly<F>)
    ensures |r| <= |p| && r == p[..|r|]
    ensures |r| == |p| <==> p == [] || p[|p| - 1] != k.zero
  {
    if p != [] && p[|p| - 1] == k.zero then Normalize(k, p[..|p| - 1]) else p
  }

  lemma {:induction false} EvalPad<F(!new)>(k: Field<F>, p: Poly<F>, x: F)
    requires IsField(k)
    ensures Eval(k, p + [k.zero], x) == Eval(k, p, x)
  {
    if p == [] {
      assert [k.zero][1..] == [];
      MulZero(k, x);
      assert AddLaw(k, k.zero, k.zero, k.zero);
      assert Eval(k, [], x) == k.zero;
      assert [] + [k.zero] == [k.zero];
    } else {
      EvalPad(k, p[1..], x);
      assert (p + [k.zero])[1..] == p[1..] + [k.zero];
    }
  }

  lemma {:induction false} EvalNormalize<F(!new)>(k: Field<F>, p: Poly<F>, x: F)
    requires IsField(k)
    ensures Eval(k, Normalize(k, p), x) == Eval(k, p, x)
  {
    if p != [] && p[|p| - 1] == k.zero {
      var q := p[..|p| - 1];
      assert p == q + [k.zero];
      EvalPad(k, q, x);
      EvalNormalize(k, q, x);
    }
  }

  /** Coefficients followed by zeros describe the same polynomial. */
  lemma {:induction false} EvalZeros<F(!new)>(k: Field<F>, p: Poly<F>, n: nat, x: F)
    requires IsField(k)
    ensures Eval(k, p + seq(n, _ => k.zero), x) == Eval(k, p, x)
  {
    if n == 0 {
      assert p + seq(n, _ => k.zero) == p;
    } else {
      EvalZeros(k, p, n - 1, x);
      EvalPad(k, p + seq(n - 1, _ => k.zero), x);
      assert p + seq(n, _ => k.zero) == p + seq(n - 1, _ => k.zero) + [k.zero];
    }
  }

  /** NTL::SetCoeff: gaps below the index become zero, and the result is in normal form. */
  function SetCoeff<F(==,!new)>(k: Field<F>, p: Poly<F>, i: nat, e: F): Poly<F> {
    if i < |p| then Normalize(k, p[i := e])
    else if e == k.zero then p
    else p + seq(i - |p|, _ => k.zero) + [e]
  }

  lemma {:induction false} NormalizePads<F(!new)>(k: Field<F>, p: Poly<F>)
    ensures p == Normalize(k, p) + seq(|p| - |Normalize(k, p)|, _ => k.zero)
  {
    if p != [] && p[|p| - 1] == k.zero {
      NormalizePads(k, p[..|p| - 1]);
      assert p == p[..|p| - 1] + [k.zero];
    }
  }

  /** Setting coefficients 0, 1, 2, ... in order builds the normal form of the list. */
  lemma SetCoeffAppends<F(!new)>(k: Field<F>, p: Poly<F>, e: F)
    ensures SetCoeff(k, Normalize(k, p), |p|, e) == Normalize(k, p + [e])
  {
    NormalizePads(k, p);
    assert (p + [e])[..|p|] == p;
  }

  // ----- the padded polynomial of getBlkCoefficients -----

  /** interpolation + dummy * product of roots */
  function WithDummy<F(!new)>(k: Field<F>, xs: seq<F>, ys: seq<F>, dummy: Poly<F>): Poly<F>
    requires |xs| == |ys|
  {
    Add(k, Interpolate(k, xs, ys), Mul(k, dummy, FromRoots(k, xs)))
  }

  /** Adding a multiple of the root product changes no prescribed value, and the polynomial has at
      most `degree` coefficients when the dummy factor has at most degree - |xs|. */
  lemma WithDummyInterpolates<F(!new)>(k: Field<F>, xs: seq<F>, ys: seq<F>, dummy: Poly<F>, degree: nat)
    requires IsField(k) && |xs| == |ys| && NoDup(xs) && |xs| + |dummy| <= degree
    ensures |WithDummy(k, xs, ys, dummy)| == |xs| + |dummy| <= degree
    ensures forall i :: 0 <= i < |xs| ==> Eval(k, WithDummy(k, xs, ys, dummy), xs[i]) == ys[i]
  {
    forall i: nat | i < |xs| ensures Eval(k, WithDummy(k, xs, ys, dummy), xs[i]) == ys[i] {
      Interpolates(k, xs, ys, i);
      EvalAdd(k, Interpolate(k, xs, ys), Mul(k, dummy, FromRoots(k, xs)), xs[i]);
      EvalMul(k, dummy, FromRoots(k, xs), xs[i]);
      RootsVanish(k, xs, xs[i]);
      MulZero(k, Eval(k, dummy, xs[i]));
      assert AddLaw(k, ys[i], k.zero, k.zero);
    }
  }

  ghost function Leading<F(!new)>(p: Poly<F>): F
    requires p != []
  {
    p[|p| - 1]
  }

  lemma {:induction false} LeadingAdd<F(!new)>(k: Field<F>, p: Poly<F>, q: Poly<F>)
    requires |p| < |q|
    ensures Leading(Add(k, p, q)) == Leading(q)
  {
    if p != [] {
      LeadingAdd(k, p[1..], q[1..]);
    }
  }

  lemma {:induction false} LeadingScale<F(!new)>(k: Field<F>, c: F, p: Poly<F>)
    requires p != []
    ensures Leading(Scale(k, c, p)) == k.mul(c, Leading(p))
  {
    if |p| > 1 {
      LeadingScale(k, c, p[1..]);
    }
  }

  lemma AddShorter<F(!new)>(k: Field<F>, p: Poly<F>, q: Poly<F>)
    requires |p| > 1 && |q| == 1
    ensures Leading(Add(k, p, q)) == Leading(p)
  {
    assert Add(k, p[1..], q[1..]) == p[1..];
  }

  lemma LeadingMulConstant<F(!new)>(k: Field<F>, c: F, q: Poly<F>)
    requires IsField(k) && q != [] && Leading(q) == k.one
    ensures Leading(Mul(k, [c], q)) == c
  {
    assert [c][1..] == [] && Mul(k, [], q) == [];
    LeadingScale(k, c, q);
    assert MulLaw(k, c, k.one, k.one);
    if |q| > 1 {
      hide Scale;
      AddShorter(k, Scale(k, c, q), [k.zero]);
    } else {
      assert AddLaw(k, c, k.zero, k.zero);
    }
  }

  /** A product with a polynomial whose leading coefficient is one keeps the leading coefficient. */
  lemma {:induction false} LeadingMul<F(!new)>(k: Field<F>, p: Poly<F>, q: Poly<F>)
    requires IsField(k) && p != [] && q != [] && Leading(q) == k.one
    ensures Leading(Mul(k, p, q)) == Leading(p)
  {
    hide IsField, Add, Scale;
    if |p| == 1 {
      assert p == [p[0]];
      LeadingMulConstant(k, p[0], q);
    } else {
      LeadingMul(k, p[1..], q);
      LeadingAdd(k, Scale(k, p[0], q), [k.zero] + Mul(k, p[1..], q));
    }
  }

  lemma {:induction false} FromRootsMonic<F(!new)>(k: Field<F>, xs: seq<F>)
    requires IsField(k)
    ensures Leading(FromRoots(k, xs)) == k.one
  {
    if xs != [] {
      var n := |xs| - 1;
      FromRootsMonic(k, xs[..n]);
      LeadingMul(k, [xs[n], k.one], FromRoots(k, xs[..n]));
    }
  }

  /** The leading coefficient of the padded polynomial is that of the dummy factor, or that of the
      interpolation polynomial when there is no room for a dummy factor. */
  lemma LeadingWithDummy<F(!new)>(k: Field<F>, xs: seq<F>, ys: seq<F>, dummy: Poly<F>)
    requires IsField(k) && |xs| == |ys| && 0 < |xs| + |dummy|
    ensures WithDummy(k, xs, ys, dummy) != []
    ensures Leading(WithDummy(k, xs, ys, dummy))
         == if dummy == [] then Leading(Interpolate(k, xs, ys)) else Leading(dummy)
  {
    if dummy != [] {
      FromRootsMonic(k, xs);
      LeadingMul(k, dummy, FromRoots(k, xs));
      LeadingAdd(k, Interpolate(k, xs, ys), Mul(k, dummy, FromRoots(k, xs)));
    }
  }
}
