/** The minimum search of polfit: pick the sample with the lowest energy,
    shift the positions so that it sits at the origin, keep the real
    stationary points of the fitted polynomial that lie inside the sampled
    range, and expand the polynomial in a Taylor series about the first of
    them. */
module Fit {
  import opened Polynomial

  /** A root of the derivative, as the complex number re + im i. */
  datatype Root = Root(re: real, im: real)

  /** A root counts as real when its imaginary part is below this. */
  const ImagTolerance: real := 0.00000001

  /** How far (in Bohr) outside the sampled positions a stationary point
      may lie and still be accepted. */
  const DomainPadding: real := 0.1

  /** Number of Taylor coefficients computed: orders 0 to 6. */
  const TaylorCount: nat := 7

  function Abs(r: real): real
  {
    if r < 0.0 then -r else r
  }

  /** numpy's argmin: the index of the first occurrence of the smallest
      value. */
  function FirstArgMin(y: seq<real>): (k: nat)
    requires |y| > 0
    ensures k < |y|
    ensures forall i :: 0 <= i < |y| ==> y[k] <= y[i]
    ensures forall i :: 0 <= i < k ==> y[k] < y[i]
  {
    if |y| == 1 then 0
    else
      var k := FirstArgMin(y[..|y| - 1]);
      assert forall i :: 0 <= i < |y| - 1 ==> y[..|y| - 1][i] == y[i];
      if y[|y| - 1] < y[k] then |y| - 1 else k
  }

  /** Python's min over a non-empty sequence. */
  function SeqMin(s: seq<real>): (m: real)
    requires |s| > 0
    ensures m in s
    ensures forall i :: 0 <= i < |s| ==> m <= s[i]
  {
    if |s| == 1 then s[0]
    else
      var m := SeqMin(s[..|s| - 1]);
      assert forall i :: 0 <= i < |s| - 1 ==> s[..|s| - 1][i] == s[i];
      if s[|s| - 1] < m then s[|s| - 1] else m
  }

  /** Python's max over a non-empty sequence. */
  function SeqMax(s: seq<real>): (m: real)
    requires |s| > 0
    ensures m in s
    ensures forall i :: 0 <= i < |s| ==> s[i] <= m
  {
    if |s| == 1 then s[0]
    else
      var m := SeqMax(s[..|s| - 1]);
      assert forall i :: 0 <= i < |s| - 1 ==> s[..|s| - 1][i] == s[i];
      if m < s[|s| - 1] then s[|s| - 1] else m
  }

  /** The positions measured from xref. */
  function Shift(x: seq<real>, xref: real): (s: seq<real>)
    ensures |s| == |x|
    ensures forall i :: 0 <= i < |x| ==> s[i] + xref == x[i]
  {
    seq(|x|, i requires 0 <= i < |x| => x[i] - xref)
  }

  /** A root is a critical point when it is real to within ImagTolerance
      and its real part lies strictly between lo and hi. */
  predicate IsCriticalPoint(r: Root, lo: real, hi: real)
  {
    Abs(r.im) < ImagTolerance && lo < r.re < hi
  }

  /** The real parts of the roots that are critical points, in the order
      the roots are listed. */
  function CriticalPoints(roots: seq<Root>, lo: real, hi: real): (cp: seq<real>)
    ensures |cp| <= |roots|
    ensures forall i :: 0 <= i < |cp| ==> lo < cp[i] < hi
  {
    if |roots| == 0 then []
    else
      (if IsCriticalPoint(roots[0], lo, hi) then [roots[0].re] else [])
      + CriticalPoints(roots[1..], lo, hi)
  }

  /** The lower and upper bounds of the accepted range for samples x
      shifted by xref. */
  function Window(x: seq<real>, xref: real): (w: (real, real))
    requires |x| > 0
    ensures w.0 < w.1
  {
    var s := Shift(x, xref);
    assert SeqMin(s) <= s[0] <= SeqMax(s);
    (SeqMin(s) - DomainPadding, SeqMax(s) + DomainPadding)
  }

  /** The seven coefficients returned when no minimum is found. */
  function Fallback(): (pt: seq<real>)
    ensures |pt| == TaylorCount
    ensures forall i :: 0 <= i < |pt| ==> pt[i] == 0.0
  {
    seq(TaylorCount, i => 0.0)
  }

  /** polfit, given the least-squares coefficients z of the polynomial fitted
      to the shifted samples and the roots of its derivative. found is false
      exactly where the source reports that no minimum was found. */
  method Polfit(x: seq<real>, y: seq<real>, z: seq<real>, roots: seq<Root>)
    returns (p: seq<real>, xref: real, re: real, pt: seq<real>, found: bool)
    requires |x| == |y| > 0
    ensures p == z
    ensures xref == x[FirstArgMin(y)]
    ensures var w := Window(x, xref);
            var cp := CriticalPoints(roots, w.0, w.1);
            && (found <==> |cp| > 0)
            && (!found ==> re == xref && pt == Fallback())
            && (found ==> re == xref + cp[0] && pt == TaylorCoefficients(z, cp[0], TaylorCount))
  {
    xref := x[FirstArgMin(y)];
    var xshift := Shift(x, xref);
    p := z;
    var xmin := SeqMin(xshift) - DomainPadding;
    var xmax := SeqMax(xshift) + DomainPadding;
    var critPoints := CriticalPoints(roots, xmin, xmax);
    if |critPoints| == 0 {
      found := false;
      re := xref;
      pt := Fallback();
    } else {
      found := true;
      var dx := critPoints[0];
      re := xref + dx;
      pt := [];
      var i := 0;
      while i < TaylorCount
        invariant 0 <= i <= TaylorCount
        invariant |pt| == i
        invariant forall j :: 0 <= j < i ==> pt[j] == TaylorTerm(p, dx, j)
      {
        var pi := Eval(DerivN(p, i), dx) / Fact(i);
        pt := pt + [pi];
        i := i + 1;
      }
    }
  }

  // ---------------------------------------------------------------------
  // The critical-point filter

  /** Filtering a concatenation filters each part: the survivors keep the
      relative order of the roots. */
  lemma {:induction false} CriticalPointsAppend(a: seq<Root>, b: seq<Root>, lo: real, hi: real)
    ensures CriticalPoints(a + b, lo, hi) == CriticalPoints(a, lo, hi) + CriticalPoints(b, lo, hi)
    decreases |a|
  {
    if |a| > 0 {
      assert (a + b)[1..] == a[1..] + b;
      CriticalPointsAppend(a[1..], b, lo, hi);
    } else {
      assert a + b == b;
    }
  }

  /** A value is accepted exactly when some listed root passes the filter
      and has it as real part. */
  lemma {:induction false} CriticalPointsMembership(roots: seq<Root>, lo: real, hi: real, v: real)
    ensures v in CriticalPoints(roots, lo, hi)
        <==> exists j :: 0 <= j < |roots| && IsCriticalPoint(roots[j], lo, hi) && roots[j].re == v
    decreases |roots|
  {
    if |roots| > 0 {
      CriticalPointsMembership(roots[1..], lo, hi, v);
      if exists j :: 0 <= j < |roots| && IsCriticalPoint(roots[j], lo, hi) && roots[j].re == v {
        var j :| 0 <= j < |roots| && IsCriticalPoint(roots[j], lo, hi) && roots[j].re == v;
        if j > 0 {
          assert roots[1..][j - 1] == roots[j];
        }
      }
      if v in CriticalPoints(roots[1..], lo, hi) {
        var j :| 0 <= j < |roots| - 1 && IsCriticalPoint(roots[1..][j], lo, hi) && roots[1..][j].re == v;
        assert roots[j + 1] == roots[1..][j];
      }
    }
  }

  /** The first accepted value belongs to the first root that passes the
      filter: every root before it is rejected. */
  lemma {:induction false} FirstCriticalPoint(roots: seq<Root>, lo: real, hi: real)
    requires |CriticalPoints(roots, lo, hi)| > 0
    ensures exists j :: 0 <= j < |roots| && IsCriticalPoint(roots[j], lo, hi)
                        && roots[j].re == CriticalPoints(roots, lo, hi)[0]
                        && forall i :: 0 <= i < j ==> !IsCriticalPoint(roots[i], lo, hi)
    decreases |roots|
  {
    if !IsCriticalPoint(roots[0], lo, hi) {
      FirstCriticalPoint(roots[1..], lo, hi);
      var j :| 0 <= j < |roots| - 1 && IsCriticalPoint(roots[1..][j], lo, hi)
               && roots[1..][j].re == CriticalPoints(roots[1..], lo, hi)[0]
               && forall i :: 0 <= i < j ==> !IsCriticalPoint(roots[1..][i], lo, hi);
      assert roots[j + 1] == roots[1..][j];
      forall i | 0 <= i < j + 1 ensures !IsCriticalPoint(roots[i], lo, hi) {
        if i > 0 {
          assert roots[i] == roots[1..][i - 1];
        }
      }
    }
  }

  /** No minimum is found exactly when no root passes the filter. */
  lemma {:induction false} NoCriticalPoints(roots: seq<Root>, lo: real, hi: real)
    ensures |CriticalPoints(roots, lo, hi)| == 0
        <==> forall j :: 0 <= j < |roots| ==> !IsCriticalPoint(roots[j], lo, hi)
  {
    if |CriticalPoints(roots, lo, hi)| > 0 {
      FirstCriticalPoint(roots, lo, hi);
    } else {
      forall j | 0 <= j < |roots| ensures !IsCriticalPoint(roots[j], lo, hi) {
        CriticalPointsMembership(roots, lo, hi, roots[j].re);
      }
    }
  }

  // ---------------------------------------------------------------------
  // The accepted range

  /** The accepted range of shifted positions is the sampled range
      [min x, max x] moved by -xref and padded by DomainPadding on each
      side. */
  lemma {:induction false} WindowOfSamples(x: seq<real>, xref: real)
    requires |x| > 0
    ensures Window(x, xref).0 == SeqMin(x) - xref - DomainPadding
    ensures Window(x, xref).1 == SeqMax(x) - xref + DomainPadding
  {
    var s := Shift(x, xref);
    var i :| 0 <= i < |s| && s[i] == SeqMin(s);
    var j :| 0 <= j < |x| && x[j] == SeqMin(x);
    assert SeqMin(s) <= s[j] && SeqMin(x) <= x[i];
    var k :| 0 <= k < |s| && s[k] == SeqMax(s);
    var l :| 0 <= l < |x| && x[l] == SeqMax(x);
    assert SeqMax(s) >= s[l] && SeqMax(x) >= x[k];
  }

  /** The sample with the lowest energy lies inside the accepted range, at
      shifted position 0. */
  lemma {:induction false} ReferenceInsideWindow(x: seq<real>, y: seq<real>)
    requires |x| == |y| > 0
    ensures var xref := x[FirstArgMin(y)];
            Window(x, xref).0 < 0.0 < Window(x, xref).1
  {
    var k := FirstArgMin(y);
    var s := Shift(x, x[k]);
    assert s[k] == 0.0;
  }

  // ---------------------------------------------------------------------
  // The Taylor coefficients at the minimum

  /** The constant Taylor coefficient is the fitted energy at the minimum,
      which lies at re - xref in the shifted frame of the fit. */
  lemma {:induction false} EnergyAtMinimum(z: seq<real>, xref: real, re: real)
    ensures TaylorCoefficients(z, re - xref, TaylorCount)[0] == Eval(z, re - xref)
  {
    assert DerivN(z, 0) == z;
  }

  /** For a fit of degree at most 6 the seven coefficients describe the
      whole fitted curve: summing pt[i] h^i gives the fit at dx + h. */
  lemma {:induction false} TaylorCoefficientsReproduceFit(z: seq<real>, dx: real, h: real)
    requires |z| <= TaylorCount
    ensures AscendingEval(TaylorCoefficients(z, dx, TaylorCount), h) == Eval(z, dx + h)
  {
    TaylorExpansion(z, dx, h, TaylorCount);
  }

  /** Coefficients above the degree of the fit are zero, and the one of the
      degree itself is the leading coefficient of the fit. */
  lemma {:induction false} TaylorCoefficientsOfDegree(z: seq<real>, dx: real)
    requires 1 <= |z| <= TaylorCount
    ensures var pt := TaylorCoefficients(z, dx, TaylorCount);
            && pt[|z| - 1] == z[0]
            && forall i :: |z| <= i < TaylorCount ==> pt[i] == 0.0
  {
    LeadingTaylorTerm(z, dx);
    forall i | |z| <= i < TaylorCount
      ensures TaylorCoefficients(z, dx, TaylorCount)[i] == 0.0
    {
      TaylorTermBeyondDegree(z, dx, i);
    }
  }
}
