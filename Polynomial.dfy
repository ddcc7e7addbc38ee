/** Polynomials as numpy's poly1d holds them: a sequence of real
    coefficients, highest degree first, so that [a, b, c] is a*x^2 + b*x + c.
    The empty sequence is the zero polynomial. */
module Polynomial {

  /** p(x) by Horner's scheme over the coefficients, highest first. */
  function Eval(p: seq<real>, x: real): real
  {
    Horner(p, |p|, x)
  }

  /** Horner's scheme over the first n coefficients of p. */
  function Horner(p: seq<real>, n: nat, x: real): real
    requires n <= |p|
  {
    if n == 0 then 0.0 else Horner(p, n - 1, x) * x + p[n - 1]
  }

  function Pow(x: real, k: nat): real
  {
    if k == 0 then 1.0 else x * Pow(x, k - 1)
  }

  /** k!, as the real number the k-th Taylor coefficient is divided by. */
  function Fact(k: nat): (r: real)
    ensures r >= 1.0
  {
    if k == 0 then 1.0 else k as real * Fact(k - 1)
  }

  /** Reference meaning of a coefficient sequence: the sum of
      p[i] * x^(|p| - 1 - i). */
  function PowerSum(p: seq<real>, x: real): real
  {
    if |p| == 0 then 0.0 else p[0] * Pow(x, |p| - 1) + PowerSum(p[1..], x)
  }

  /** First derivative, as numpy's polyder computes it: the leading |p| - 1
      coefficients, the one of degree d multiplied by d; a constant has the
      zero polynomial as derivative. */
  function Deriv(p: seq<real>): (d: seq<real>)
    ensures |d| == if |p| == 0 then 0 else |p| - 1
  {
    if |p| == 0 then []
    else seq(|p| - 1, i requires 0 <= i < |p| - 1 => p[i] * (|p| - 1 - i) as real)
  }

  /** The k-th derivative, one differentiation after another. */
  function DerivN(p: seq<real>, k: nat): (d: seq<real>)
    ensures |d| == if |p| <= k then 0 else |p| - k
    decreases k
  {
    if k == 0 then p else DerivN(Deriv(p), k - 1)
  }

  /** The i-th Taylor coefficient of p about a: p^(i)(a) / i!. */
  function TaylorTerm(p: seq<real>, a: real, i: nat): real
  {
    Eval(DerivN(p, i), a) / Fact(i)
  }

  /** The first n Taylor coefficients of p about a, in increasing order. */
  function TaylorCoefficients(p: seq<real>, a: real, n: nat): (t: seq<real>)
    ensures |t| == n
    ensures forall i :: 0 <= i < n ==> t[i] == TaylorTerm(p, a, i)
  {
    seq(n, i requires 0 <= i < n => TaylorTerm(p, a, i))
  }

  /** Sum of t[i] * h^i over an ascending coefficient sequence t, by
      Horner's scheme from the constant term up. */
  function AscendingEval(t: seq<real>, h: real): real
  {
    if |t| == 0 then 0.0 else t[0] + h * AscendingEval(t[1..], h)
  }

  /** Pointwise sum of two coefficient sequences of the same length. */
  function Add(a: seq<real>, b: seq<real>): (s: seq<real>)
    requires |a| == |b|
    ensures |s| == |a|
  {
    seq(|a|, i requires 0 <= i < |a| => a[i] + b[i])
  }

  /** Every coefficient multiplied by k. */
  function Scale(k: real, a: seq<real>): (s: seq<real>)
    ensures |s| == |a|
  {
    seq(|a|, i requires 0 <= i < |a| => k * a[i])
  }

  /** The falling factorial d (d-1) ... (d-k+1). */
  function Falling(d: nat, k: nat): real
  {
    if k == 0 then 1.0 else if d == 0 then 0.0 else d as real * Falling(d - 1, k - 1)
  }

  // ---------------------------------------------------------------------
  // Evaluation

  /** Horner's scheme only looks at the coefficients it has consumed. */
  lemma {:induction false} HornerPrefix(p: seq<real>, q: seq<real>, n: nat, x: real)
    requires n <= |p| && n <= |q| && p[..n] == q[..n]
    ensures Horner(p, n, x) == Horner(q, n, x)
    decreases n
  {
    if n > 0 {
      assert p[n - 1] == p[..n][n - 1] == q[n - 1];
      assert p[..n - 1] == p[..n][..n - 1];
      assert q[..n - 1] == q[..n][..n - 1];
      HornerPrefix(p, q, n - 1, x);
    }
  }

  /** One Horner step: appending a coefficient c gives x * p(x) + c. */
  lemma {:induction false} EvalSnoc(p: seq<real>, c: real, x: real)
    ensures Eval(p + [c], x) == Eval(p, x) * x + c
  {
    var q := p + [c];
    assert q[..|p|] == p[..|p|];
    HornerPrefix(q, p, |p|, x);
  }

  lemma {:induction false} PowerSumSnoc(p: seq<real>, c: real, x: real)
    ensures PowerSum(p + [c], x) == PowerSum(p, x) * x + c
    decreases |p|
  {
    if |p| == 0 {
      assert PowerSum([c], x) == c * Pow(x, 0) + PowerSum([], x);
    } else {
      var m := Pow(x, |p| - 1);
      assert (p + [c])[1..] == p[1..] + [c];
      PowerSumSnoc(p[1..], c, x);
      assert PowerSum(p + [c], x) == p[0] * (x * m) + (PowerSum(p[1..], x) * x + c);
      MulAssoc(p[0], x, m);
    }
  }

  /** Horner's scheme computes the power sum of the coefficients. */
  lemma {:induction false} EvalIsPowerSum(p: seq<real>, x: real)
    ensures Eval(p, x) == PowerSum(p, x)
    decreases |p|
  {
    if |p| > 0 {
      var q, c := p[..|p| - 1], p[|p| - 1];
      assert p == q + [c];
      EvalIsPowerSum(q, x);
      PowerSumSnoc(q, c, x);
      EvalSnoc(q, c, x);
    }
  }

  /** Appending a zero coefficient multiplies the polynomial by x. */
  lemma {:induction false} EvalTimesX(p: seq<real>, x: real)
    ensures Eval(p + [0.0], x) == x * Eval(p, x)
  {
    EvalSnoc(p, 0.0, x);
  }

  lemma {:induction false} HornerAdd(a: seq<real>, b: seq<real>, n: nat, x: real)
    requires |a| == |b| && n <= |a|
    ensures Horner(Add(a, b), n, x) == Horner(a, n, x) + Horner(b, n, x)
    decreases n
  {
    if n > 0 {
      HornerAdd(a, b, n - 1, x);
    }
  }

  /** Evaluation is additive. */
  lemma {:induction false} EvalAdd(a: seq<real>, b: seq<real>, x: real)
    requires |a| == |b|
    ensures Eval(Add(a, b), x) == Eval(a, x) + Eval(b, x)
  {
    HornerAdd(a, b, |a|, x);
  }

  lemma MulAssoc(x: real, y: real, z: real)
    ensures (x * y) * z == x * (y * z)
  {
  }

  // ---------------------------------------------------------------------
  // Derivatives

  /** Differentiation is additive. */
  lemma {:induction false} DerivAdd(a: seq<real>, b: seq<real>)
    requires |a| == |b|
    ensures Deriv(Add(a, b)) == Add(Deriv(a), Deriv(b))
  {
    if |a| > 0 {
      forall i | 0 <= i < |a| - 1
        ensures Deriv(Add(a, b))[i] == Add(Deriv(a), Deriv(b))[i]
      {
        var m := (|a| - 1 - i) as real;
        assert (a[i] + b[i]) * m == a[i] * m + b[i] * m;
      }
    }
  }

  lemma {:induction false} DerivNAdd(a: seq<real>, b: seq<real>, k: nat)
    requires |a| == |b|
    ensures DerivN(Add(a, b), k) == Add(DerivN(a, k), DerivN(b, k))
    decreases k
  {
    if k > 0 {
      DerivAdd(a, b);
      DerivNAdd(Deriv(a), Deriv(b), k - 1);
    }
  }

  lemma {:induction false} DerivNOfEmpty(k: nat)
    ensures DerivN([], k) == []
    decreases k
  {
    if k > 0 {
      DerivNOfEmpty(k - 1);
    }
  }

  /** The product rule for x * p(x) + c, whose coefficients are p + [c]:
      (x p + c)' = x p' + p, coefficient by coefficient. */
  lemma {:induction false} DerivSnoc(p: seq<real>, c: real)
    requires |p| >= 1
    ensures Deriv(p + [c]) == Add(Deriv(p) + [0.0], p)
  {
    var q, s := p + [c], Deriv(p) + [0.0];
    forall i | 0 <= i < |p|
      ensures Deriv(q)[i] == Add(s, p)[i]
    {
      var m := (|p| - 1 - i) as real;
      assert Deriv(q)[i] == p[i] * (m + 1.0);
      assert p[i] * (m + 1.0) == p[i] * m + p[i];
    }
  }

  lemma DerivNUnfold(p: seq<real>, k: nat)
    requires k >= 1
    ensures DerivN(p, k) == DerivN(Deriv(p), k - 1)
  {
  }

  lemma {:induction false} AddScaleStep(u: seq<real>, v: seq<real>, k: nat)
    requires |u| == |v| && k >= 1
    ensures Add(Add(u, Scale((k - 1) as real, v)), v) == Add(u, Scale(k as real, v))
  {
    var l, r := Add(Add(u, Scale((k - 1) as real, v)), v), Add(u, Scale(k as real, v));
    forall i | 0 <= i < |u| ensures l[i] == r[i] {
      assert (k - 1) as real * v[i] + v[i] == k as real * v[i];
    }
  }

  lemma {:induction false} ScaleOne(v: seq<real>)
    ensures Scale(1.0, v) == v
  {
    assert forall i :: 0 <= i < |v| ==> Scale(1.0, v)[i] == v[i];
  }

  /** Leibniz's rule for the k-th derivative of x * p(x) + c, coefficient by
      coefficient: (x p + c)^(k) = x p^(k) + k p^(k-1). */
  lemma {:induction false} LeibnizCoefficients(p: seq<real>, c: real, k: nat)
    requires 1 <= k <= |p|
    ensures DerivN(p + [c], k) == Add(DerivN(p, k) + [0.0], Scale(k as real, DerivN(p, k - 1)))
    decreases k
  {
    DerivSnoc(p, c);
    DerivNUnfold(p + [c], k);
    DerivNUnfold(p, k);
    if k == 1 {
      ScaleOne(p);
    } else {
      var s := Deriv(p) + [0.0];
      DerivNAdd(s, p, k - 1);
      LeibnizCoefficients(Deriv(p), 0.0, k - 1);
      DerivNUnfold(p, k - 1);
      AddScaleStep(DerivN(p, k) + [0.0], DerivN(p, k - 1), k);
    }
  }

  lemma {:induction false} HornerScale(k: real, u: seq<real>, n: nat, x: real)
    requires n <= |u|
    ensures Horner(Scale(k, u), n, x) == k * Horner(u, n, x)
    decreases n
  {
    if n > 0 {
      HornerScale(k, u, n - 1, x);
      var e := Horner(u, n - 1, x);
      assert (k * e) * x + k * u[n - 1] == k * (e * x + u[n - 1]);
    }
  }

  // ---------------------------------------------------------------------
  // Taylor expansion

  lemma FactStep(k: nat)
    requires k >= 1
    ensures Fact(k) == k as real * Fact(k - 1) && Fact(k - 1) > 0.0
  {
  }

  /** 1 / k!. */
  function Recip(k: nat): real
  {
    1.0 / Fact(k)
  }

  lemma RecipStep(k: nat)
    requires k >= 1
    ensures Recip(k - 1) == k as real * Recip(k)
  {
    FactStep(k);
    var f, g, r := Fact(k), Fact(k - 1), k as real;
    assert r * (1.0 / (r * g)) == 1.0 / g;
  }

  /** The k-th derivative divided through by k!, coefficient by
      coefficient. */
  function DividedDeriv(p: seq<real>, k: nat): (d: seq<real>)
    ensures |d| == |DerivN(p, k)|
  {
    Scale(Recip(k), DerivN(p, k))
  }

  /** The k-th Taylor coefficient is the divided k-th derivative
      evaluated at a. */
  lemma {:induction false} TaylorTermAsDivided(p: seq<real>, a: real, k: nat)
    ensures TaylorTerm(p, a, k) == Eval(DividedDeriv(p, k), a)
  {
    var u := DerivN(p, k);
    HornerScale(Recip(k), u, |u|, a);
  }

  lemma {:induction false} ScaleLeibniz(r: real, r0: real, k: real, u: seq<real>, v: seq<real>)
    requires |u| == |v| && r0 == k * r
    ensures Scale(r, Add(u, Scale(k, v))) == Add(Scale(r, u), Scale(r0, v))
  {
    var l, m := Scale(r, Add(u, Scale(k, v))), Add(Scale(r, u), Scale(r0, v));
    forall j | 0 <= j < |u| ensures l[j] == m[j] {
      assert r * (u[j] + k * v[j]) == r * u[j] + (k * r) * v[j];
    }
  }

  lemma {:induction false} ScaleSnocZero(r: real, u: seq<real>)
    ensures Scale(r, u + [0.0]) == Scale(r, u) + [0.0]
  {
    var l, m := Scale(r, u + [0.0]), Scale(r, u) + [0.0];
    forall j | 0 <= j < |l| ensures l[j] == m[j] {
      if j == |u| {
        assert r * 0.0 == 0.0;
      }
    }
  }

  /** Leibniz's rule divided through by k!: the divided derivatives of
      x p + c are x times those of p plus those of one order less. */
  lemma {:induction false} DividedLeibniz(p: seq<real>, c: real, k: nat)
    requires 1 <= k <= |p|
    ensures DividedDeriv(p + [c], k) == Add(DividedDeriv(p, k) + [0.0], DividedDeriv(p, k - 1))
  {
    LeibnizCoefficients(p, c, k);
    RecipStep(k);
    ScaleLeibniz(Recip(k), Recip(k - 1), k as real, DerivN(p, k) + [0.0], DerivN(p, k - 1));
    ScaleSnocZero(Recip(k), DerivN(p, k));
  }

  /** The Taylor coefficients of x p + c about a, from those of p. */
  lemma {:induction false} TaylorTermSnoc(p: seq<real>, c: real, a: real, k: nat)
    requires k >= 1
    ensures TaylorTerm(p + [c], a, k) == a * TaylorTerm(p, a, k) + TaylorTerm(p, a, k - 1)
  {
    if k <= |p| {
      TaylorTermSnocWithin(p, c, a, k);
    } else {
      TaylorTermBeyondDegree(p + [c], a, k);
      TaylorTermBeyondDegree(p, a, k);
      TaylorTermBeyondDegree(p, a, k - 1);
    }
  }

  lemma {:induction false} TaylorTermSnocWithin(p: seq<real>, c: real, a: real, k: nat)
    requires 1 <= k <= |p|
    ensures TaylorTerm(p + [c], a, k) == a * TaylorTerm(p, a, k) + TaylorTerm(p, a, k - 1)
  {
    TaylorTermAsDivided(p + [c], a, k);
    TaylorTermAsDivided(p, a, k);
    TaylorTermAsDivided(p, a, k - 1);
    DividedLeibniz(p, c, k);
    var u, v := DividedDeriv(p, k), DividedDeriv(p, k - 1);
    EvalAdd(u + [0.0], v, a);
    EvalTimesX(u, a);
  }

  lemma {:induction false} AscendingEvalAdd(u: seq<real>, v: seq<real>, h: real)
    requires |u| == |v|
    ensures AscendingEval(Add(u, v), h) == AscendingEval(u, h) + AscendingEval(v, h)
    decreases |u|
  {
    if |u| > 0 {
      assert Add(u, v)[1..] == Add(u[1..], v[1..]);
      AscendingEvalAdd(u[1..], v[1..], h);
    }
  }

  lemma {:induction false} AscendingEvalScale(k: real, u: seq<real>, h: real)
    ensures AscendingEval(Scale(k, u), h) == k * AscendingEval(u, h)
    decreases |u|
  {
    if |u| > 0 {
      forall i | 0 <= i < |u| - 1 ensures Scale(k, u)[1..][i] == Scale(k, u[1..])[i] {
        assert u[1..][i] == u[i + 1];
      }
      assert Scale(k, u)[1..] == Scale(k, u[1..]);
      AscendingEvalScale(k, u[1..], h);
      var e := AscendingEval(u[1..], h);
      assert k * u[0] + h * (k * e) == k * (u[0] + h * e);
    }
  }

  /** Prepending a constant term shifts every other term up one power. */
  lemma AscendingEvalCons(c: real, u: seq<real>, h: real)
    ensures AscendingEval([c] + u, h) == c + h * AscendingEval(u, h)
  {
    assert ([c] + u)[1..] == u;
  }

  lemma {:induction false} TaylorTermOfEmpty(a: real, i: nat)
    ensures TaylorTerm([], a, i) == 0.0
  {
    DerivNOfEmpty(i);
  }

  lemma {:induction false} AscendingEvalOfZeros(t: seq<real>, h: real)
    requires forall i :: 0 <= i < |t| ==> t[i] == 0.0
    ensures AscendingEval(t, h) == 0.0
    decreases |t|
  {
    if |t| > 0 {
      AscendingEvalOfZeros(t[1..], h);
    }
  }

  /** The Taylor coefficients of x p + c about a, from those of p:
      a times them, plus c followed by them shifted up one place. */
  lemma {:induction false} TaylorCoefficientsSnoc(p: seq<real>, c: real, a: real, n: nat)
    requires n >= 1
    ensures TaylorCoefficients(p + [c], a, n)
         == Add(Scale(a, TaylorCoefficients(p, a, n)), [c] + TaylorCoefficients(p, a, n - 1))
  {
    var t, s, s' := TaylorCoefficients(p + [c], a, n), TaylorCoefficients(p, a, n),
                    TaylorCoefficients(p, a, n - 1);
    var r := Add(Scale(a, s), [c] + s');
    forall i | 0 <= i < n ensures t[i] == r[i] {
      TaylorTermSnocAt(p, c, a, i);
      CombinationAt(s, s', a, c, i);
    }
  }

  lemma CombinationAt(s: seq<real>, s': seq<real>, a: real, c: real, i: nat)
    requires |s| == |s'| + 1 && i < |s|
    ensures Add(Scale(a, s), [c] + s')[i] == a * s[i] + (if i == 0 then c else s'[i - 1])
  {
  }

  /** TaylorTermSnoc extended to the constant term. */
  lemma {:induction false} TaylorTermSnocAt(p: seq<real>, c: real, a: real, i: nat)
    ensures TaylorTerm(p + [c], a, i)
         == a * TaylorTerm(p, a, i) + (if i == 0 then c else TaylorTerm(p, a, i - 1))
  {
    if i == 0 {
      EvalSnoc(p, c, a);
      assert TaylorTerm(p + [c], a, 0) == Eval(p + [c], a);
      assert TaylorTerm(p, a, 0) == Eval(p, a);
    } else {
      TaylorTermSnoc(p, c, a, i);
    }
  }

  /** Evaluating a Scale(a, s) + ([c] + s') combination term by term. */
  lemma {:induction false} AscendingEvalCombination(s: seq<real>, s': seq<real>, a: real, c: real, h: real)
    requires |s| == |s'| + 1
    ensures AscendingEval(Add(Scale(a, s), [c] + s'), h)
         == a * AscendingEval(s, h) + c + h * AscendingEval(s', h)
  {
    AscendingEvalAdd(Scale(a, s), [c] + s', h);
    AscendingEvalScale(a, s, h);
    AscendingEvalCons(c, s', h);
  }

  /** The Taylor sum of x p + c, from those of p. */
  lemma {:induction false} TaylorSumSnoc(p: seq<real>, c: real, a: real, h: real, n: nat)
    requires n >= 1
    ensures AscendingEval(TaylorCoefficients(p + [c], a, n), h)
         == a * AscendingEval(TaylorCoefficients(p, a, n), h) + c
            + h * AscendingEval(TaylorCoefficients(p, a, n - 1), h)
  {
    TaylorCoefficientsSnoc(p, c, a, n);
    AscendingEvalCombination(TaylorCoefficients(p, a, n), TaylorCoefficients(p, a, n - 1), a, c, h);
  }

  lemma TaylorArith(u: real, a: real, c: real, h: real)
    ensures a * u + c + h * u == u * (a + h) + c
  {
  }

  /** Taylor's theorem for polynomials: the first n >= |p| Taylor
      coefficients of p about a give back p moved by a:
      sum of TaylorTerm(p, a, i) * h^i == p(a + h). */
  lemma {:induction false} TaylorExpansion(p: seq<real>, a: real, h: real, n: nat)
    requires n >= |p|
    ensures AscendingEval(TaylorCoefficients(p, a, n), h) == Eval(p, a + h)
    decreases |p|
  {
    var t := TaylorCoefficients(p, a, n);
    if |p| == 0 {
      forall i | 0 <= i < n ensures t[i] == 0.0 {
        TaylorTermOfEmpty(a, i);
      }
      AscendingEvalOfZeros(t, h);
    } else {
      var q, c := p[..|p| - 1], p[|p| - 1];
      assert p == q + [c];
      TaylorSumSnoc(q, c, a, h, n);
      TaylorExpansion(q, a, h, n);
      TaylorExpansion(q, a, h, n - 1);
      EvalSnoc(q, c, a + h);
      TaylorArith(Eval(q, a + h), a, c, h);
    }
  }

  /** The leading coefficient of the k-th derivative: p[0] times the
      falling factorial d (d-1) ... (d-k+1) of the degree d. */
  lemma {:induction false} DerivNLeading(p: seq<real>, k: nat)
    requires k < |p|
    ensures DerivN(p, k)[0] == p[0] * Falling(|p| - 1, k)
    decreases k
  {
    if k > 0 {
      var d := |p| - 1;
      DerivNLeading(Deriv(p), k - 1);
      assert Deriv(p)[0] == p[0] * d as real;
      MulAssoc(p[0], d as real, Falling(d - 1, k - 1));
    }
  }

  lemma {:induction false} FallingSelf(d: nat)
    ensures Falling(d, d) == Fact(d)
  {
    if d > 0 {
      FallingSelf(d - 1);
      FactStep(d);
    }
  }

  /** The Taylor coefficient of the top degree is the leading coefficient,
      wherever the expansion is made. */
  lemma {:induction false} LeadingTaylorTerm(p: seq<real>, a: real)
    requires |p| >= 1
    ensures TaylorTerm(p, a, |p| - 1) == p[0]
  {
    var d := |p| - 1;
    DerivNLeading(p, d);
    FallingSelf(d);
    var e := DerivN(p, d);
    assert Eval(e, a) == e[0] by {
      assert Horner(e, 0, a) == 0.0;
    }
  }

  /** Taylor coefficients beyond the degree vanish. */
  lemma {:induction false} TaylorTermBeyondDegree(p: seq<real>, a: real, i: nat)
    requires i >= |p|
    ensures TaylorTerm(p, a, i) == 0.0
  {
    assert DerivN(p, i) == [];
  }

  // ---------------------------------------------------------------------
  // Leading zero coefficients

  /** A leading zero coefficient does not change the value. */
  lemma {:induction false} EvalLeadingZero(q: seq<real>, x: real)
    ensures Eval([0.0] + q, x) == Eval(q, x)
    decreases |q|
  {
    if |q| == 0 {
      assert [0.0] + q == [] + [0.0];
      EvalSnoc([], 0.0, x);
    } else {
      var r, c := q[..|q| - 1], q[|q| - 1];
      assert q == r + [c];
      assert [0.0] + q == ([0.0] + r) + [c];
      EvalSnoc([0.0] + r, c, x);
      EvalSnoc(r, c, x);
      EvalLeadingZero(r, x);
    }
  }

  /** Differentiation keeps a leading zero in front. */
  lemma DerivLeadingZero(q: seq<real>)
    requires |q| >= 1
    ensures Deriv([0.0] + q) == [0.0] + Deriv(q)
  {
    var l, r := Deriv([0.0] + q), [0.0] + Deriv(q);
    forall i | 0 <= i < |l| ensures l[i] == r[i] {
      if i > 0 {
        assert ([0.0] + q)[i] == q[i - 1];
      }
    }
  }

  /** A leading zero changes no derivative's value. */
  lemma {:induction false} DerivNLeadingZero(q: seq<real>, k: nat, a: real)
    ensures Eval(DerivN([0.0] + q, k), a) == Eval(DerivN(q, k), a)
    decreases k
  {
    if k == 0 {
      EvalLeadingZero(q, a);
    } else if |q| == 0 {
      assert DerivN([0.0] + q, k) == [] && DerivN(q, k) == [];
    } else {
      DerivLeadingZero(q);
      DerivNLeadingZero(Deriv(q), k - 1, a);
    }
  }

  /** m zero coefficients. */
  function Zeros(m: nat): (s: seq<real>)
    ensures |s| == m
  {
    seq(m, i => 0.0)
  }

  /** A prefix of zero coefficients changes no derivative's value. */
  lemma {:induction false} DerivNZeroPrefix(w: seq<real>, m: nat, k: nat, a: real)
    ensures Eval(DerivN(Zeros(m) + w, k), a) == Eval(DerivN(w, k), a)
  {
    if m > 0 {
      var v := Zeros(m - 1) + w;
      assert Zeros(m) + w == [0.0] + v by {
        assert Zeros(m) == [0.0] + Zeros(m - 1);
      }
      DerivNLeadingZero(v, k, a);
      DerivNZeroPrefix(w, m - 1, k, a);
    } else {
      assert Zeros(m) + w == w;
    }
  }

  /** Leading zero coefficients, such as those of a fit of higher order
      than the data need, change no Taylor coefficient. */
  lemma TaylorTermLeadingZeros(z: seq<real>, m: nat, a: real, i: nat)
    requires m <= |z|
    requires forall j :: 0 <= j < m ==> z[j] == 0.0
    ensures TaylorTerm(z, a, i) == TaylorTerm(z[m..], a, i)
  {
    assert z == Zeros(m) + z[m..] by {
      assert z[..m] == Zeros(m);
      assert z == z[..m] + z[m..];
    }
    DerivNZeroPrefix(z[m..], m, i, a);
  }
}
