/** The Dunham analysis of a diatomic: spectroscopic constants from the
    equilibrium bond length re, the Taylor coefficients pt of the fitted
    potential about re and the reduced mass mu. */
module Dunham {
  import opened Polynomial
  import opened Fit

  /** Hartree to wavenumbers (cm^-1). */
  const ToCm: real := 219474.63067
  /** Hartree to electronvolts. */
  const ToEv: real := 27.2113839
  /** Angstrom to Bohr. */
  const ToBohr: real := 1.88973
  /** Bohr to Angstrom. */
  const ToAngstrom: real := 0.5291761
  /** Atomic mass units to electron masses. */
  const ForceMass: real := 1822.88853

  /** The eight constants, in the order the analysis returns them. */
  datatype Constants = Constants(ee: real, be: real, ae: real, we: real,
                                 wexe: real, weye: real, de: real, d0: real)

  /** What the analysis needs of its inputs: seven coefficients, a
      non-zero curvature pt[2], a non-zero bond length and a positive mass
      (the analysis divides by all three), and root, the non-negative square
      root of 2 |pt[2]| / (mu ForceMass) that the harmonic frequency is
      built from. */
  predicate Inputs(re: real, pt: seq<real>, mu: real, root: real)
  {
    && |pt| >= 7
    && pt[2] != 0.0
    && re != 0.0
    && mu > 0.0
    && root >= 0.0
    && root * root == 2.0 * Abs(pt[2]) / (mu * ForceMass)
  }

  /** The normalised derivatives pt[i + 3] / pt[2] * re^(i + 1), i = 0..3. */
  function Normalised(pt: seq<real>, re: real): (npt: seq<real>)
    requires |pt| >= 7 && pt[2] != 0.0
    ensures |npt| == 4
  {
    seq(4, i requires 0 <= i < 4 => pt[i + 3] / pt[2] * Pow(re, i + 1))
  }

  /** The normalised derivatives, appended one at a time. */
  method NormalisedDerivatives(pt: seq<real>, re: real) returns (npt: seq<real>)
    requires |pt| >= 7 && pt[2] != 0.0
    ensures |npt| == 4
    ensures npt == Normalised(pt, re)
  {
    npt := [];
    var i := 0;
    while i < 4
      invariant 0 <= i <= 4
      invariant |npt| == i
      invariant forall j :: 0 <= j < i ==> npt[j] == Normalised(pt, re)[j]
    {
      var npi := pt[i + 3] / pt[2] * Pow(re, i + 1);
      npt := npt + [npi];
      i := i + 1;
    }
  }

  /** The rotational constant Be = ToCm / (2 an re^2), an the mass in
      electron masses. */
  function RotationalConstant(an: real, re: real): real
    requires an > 0.0 && re != 0.0
  {
    0.5 * ToCm / (an * (re * re))
  }

  /** The vibration-rotation coupling Ae. */
  function Coupling(be: real, we: real, npt: seq<real>): real
    requires we > 0.0 && |npt| == 4
  {
    -6.0 * (be * be) * (1.0 + npt[0]) / we
  }

  /** The first anharmonicity Wexe. */
  function Anharmonicity(be: real, npt: seq<real>): real
    requires |npt| == 4
  {
    -1.5 * (npt[1] - 1.25 * (npt[0] * npt[0])) * be
  }

  /** The second anharmonicity Weye. */
  function SecondAnharmonicity(be: real, we: real, npt: seq<real>): real
    requires we > 0.0 && |npt| == 4
  {
    0.5 * (10.0 * npt[3] - 35.0 * npt[0] * npt[2] - 8.5 * (npt[1] * npt[1])
           + 56.125 * npt[1] * (npt[0] * npt[0]) - 22.03125 * (npt[0] * npt[0] * npt[0] * npt[0]))
    * (be * be) / we
  }

  /** The constants as the analysis defines them, with the anharmonic
      corrections switched on by n > 5 and the dissociation energies by a
      non-zero emax. */
  function Analysis(re: real, pt: seq<real>, mu: real, root: real, n: int, emax: real): (c: Constants)
    requires Inputs(re, pt, mu, root)
    ensures c.ee == pt[0]
    ensures c.be > 0.0
    ensures c.we > 0.0
    ensures n <= 5 ==> c.wexe == 0.0 && c.weye == 0.0
    ensures emax == 0.0 ==> c.de == 0.0 && c.d0 == 0.0
    ensures emax != 0.0 ==> (c.de > 0.0 <==> emax > pt[0])
  {
    RootPositive(pt, mu, root);
    var an := mu * ForceMass;
    var ee := pt[0];
    var be := RotationalConstant(an, re);
    var we := ToCm * root;
    var npt := Normalised(pt, re);
    var ae := Coupling(be, we, npt);
    var wexe := if n > 5 then Anharmonicity(be, npt) else 0.0;
    var weye := if n > 5 then SecondAnharmonicity(be, we, npt) else 0.0;
    assert an * (re * re) > 0.0;
    assert (emax - ee) * ToEv > 0.0 <==> emax > ee;
    var de := if emax != 0.0 then (emax - ee) * ToEv else 0.0;
    var d0 := if emax != 0.0 then de - 0.5 * (we - 0.5 * wexe) * ToEv / ToCm else 0.0;
    Constants(ee, be, ae, we, wexe, weye, de, d0)
  }

  /** dunham: the straight-line formulas around the loop that builds the
      normalised derivatives. */
  method Dunham(re: real, pt: seq<real>, mu: real, root: real, n: int, emax: real)
    returns (c: Constants)
    requires Inputs(re, pt, mu, root)
    ensures c == Analysis(re, pt, mu, root, n, emax)
  {
    RootPositive(pt, mu, root);
    var an := mu * ForceMass;
    var ee := pt[0];
    var be := RotationalConstant(an, re);
    var we := ToCm * root;
    var npt := NormalisedDerivatives(pt, re);
    var ae := Coupling(be, we, npt);
    var wexe := 0.0;
    var weye := 0.0;
    if n > 5 {
      wexe := Anharmonicity(be, npt);
      weye := SecondAnharmonicity(be, we, npt);
    }
    var de := 0.0;
    var d0 := 0.0;
    if emax != 0.0 {
      de := (emax - ee) * ToEv;
      d0 := de - 0.5 * (we - 0.5 * wexe) * ToEv / ToCm;
    }
    c := Constants(ee, be, ae, we, wexe, weye, de, d0);
  }

  // ---------------------------------------------------------------------
  // Properties of the constants

  /** A non-zero curvature gives a strictly positive square root. */
  lemma RootPositive(pt: seq<real>, mu: real, root: real)
    requires |pt| >= 7 && pt[2] != 0.0 && mu > 0.0
    requires root >= 0.0 && root * root == 2.0 * Abs(pt[2]) / (mu * ForceMass)
    ensures root > 0.0
  {
    assert mu * ForceMass > 0.0;
    assert 2.0 * Abs(pt[2]) / (mu * ForceMass) > 0.0;
    assert root * root > 0.0;
    assert root != 0.0 by {
      assert 0.0 * 0.0 == 0.0;
    }
  }

  /** Each normalised derivative times the curvature gives back the
      coefficient it was built from, scaled by a power of re. */
  lemma {:induction false} NormalisedScaled(pt: seq<real>, re: real, i: nat)
    requires |pt| >= 7 && pt[2] != 0.0 && i < 4
    ensures Normalised(pt, re)[i] * pt[2] == pt[i + 3] * Pow(re, i + 1)
  {
    var q, w := pt[i + 3] / pt[2], Pow(re, i + 1);
    assert q * pt[2] == pt[i + 3];
    assert (q * w) * pt[2] == (q * pt[2]) * w;
  }

  /** The rotational constant determines the bond length:
      re^2 = ToCm / (2 mu ForceMass Be). */
  lemma BondLengthFromRotationalConstant(re: real, pt: seq<real>, mu: real, root: real, n: int, emax: real)
    requires Inputs(re, pt, mu, root)
    ensures var c := Analysis(re, pt, mu, root, n, emax);
            re * re == 0.5 * ToCm / (mu * ForceMass * c.be)
  {
    var an, r2 := mu * ForceMass, re * re;
    var be := 0.5 * ToCm / (an * r2);
    assert an * r2 > 0.0;
    assert be * (an * r2) == 0.5 * ToCm;
    assert r2 * (an * be) == 0.5 * ToCm;
  }

  /** The harmonic frequency squared is ToCm^2 2 |pt[2]| / (mu ForceMass):
      the curvature of the potential over the mass. */
  lemma HarmonicFrequency(re: real, pt: seq<real>, mu: real, root: real, n: int, emax: real)
    requires Inputs(re, pt, mu, root)
    ensures var c := Analysis(re, pt, mu, root, n, emax);
            c.we * c.we == ToCm * ToCm * (2.0 * Abs(pt[2]) / (mu * ForceMass))
  {
    var w := ToCm * root;
    assert w * w == ToCm * ToCm * (root * root);
  }

  /** With the dissociation energies switched on, the zero-point energy
      lies below the well depth whenever We exceeds Wexe / 2, which always
      holds with the anharmonic corrections switched off. */
  lemma ZeroPointBelowWellDepth(re: real, pt: seq<real>, mu: real, root: real, n: int, emax: real)
    requires Inputs(re, pt, mu, root) && emax != 0.0
    ensures var c := Analysis(re, pt, mu, root, n, emax);
            (n <= 5 || c.wexe < 2.0 * c.we) ==> c.d0 < c.de
  {
    var c := Analysis(re, pt, mu, root, n, emax);
    if n <= 5 || c.wexe < 2.0 * c.we {
      var z := 0.5 * (c.we - 0.5 * c.wexe);
      assert z > 0.0;
      assert z * ToEv / ToCm > 0.0;
    }
  }

  /** A quadratic fit carries no anharmonicity: when every coefficient of
      the fit above degree 2 is zero, the normalised derivatives at any
      expansion point dx vanish, so do Wexe and Weye, and Ae is
      -6 Be^2 / We. */
  lemma HarmonicFit(z: seq<real>, dx: real, re: real, mu: real, root: real, n: int, emax: real)
    requires forall i :: 0 <= i < |z| - 3 ==> z[i] == 0.0
    requires Inputs(re, TaylorCoefficients(z, dx, TaylorCount), mu, root)
    ensures var pt := TaylorCoefficients(z, dx, TaylorCount);
            var c := Analysis(re, pt, mu, root, n, emax);
            && Normalised(pt, re) == [0.0, 0.0, 0.0, 0.0]
            && c.wexe == 0.0 && c.weye == 0.0
            && c.ae == -6.0 * (c.be * c.be) / c.we
  {
    var pt := TaylorCoefficients(z, dx, TaylorCount);
    var m := if |z| > 3 then |z| - 3 else 0;
    forall i | 3 <= i < TaylorCount ensures pt[i] == 0.0 {
      TaylorTermLeadingZeros(z, m, dx, i);
      TaylorTermBeyondDegree(z[m..], dx, i);
    }
    var npt := Normalised(pt, re);
    forall i | 0 <= i < 4 ensures npt[i] == 0.0 {
      assert pt[i + 3] == 0.0;
      assert pt[i + 3] / pt[2] == 0.0;
    }
  }

  /** The coefficients polfit returns when it finds no minimum have zero
      curvature, so they cannot be passed on to the analysis. */
  lemma FallbackHasNoCurvature(re: real, mu: real, root: real)
    ensures !Inputs(re, Fallback(), mu, root)
  {
    assert Fallback()[2] == 0.0;
  }
}
