# polfit in Dafny

A model of the numerical core of `polfit.py`. This script fits a polynomial
to a diatomic potential-energy curve, locates the minimum, and derives
spectroscopic constants from the fit by a Dunham analysis. The model has
four modules:

- `Polynomial` holds polynomials as numpy's `poly1d` does: real
  coefficients, highest degree first.
  - It defines Horner evaluation, the derivative as `polyder` computes
    it, repeated derivatives, factorials and the Taylor coefficients
    `p^(i)(a) / i!`.
  - It proves Taylor's theorem for polynomials: the Taylor coefficients
    about `a` reproduce `p(a + h)`.
  - It proves that leading zero coefficients change no Taylor
    coefficient.
- `Fit` models `polfit`:
  - the reference sample `xref` is the first sample of lowest energy;
  - the positions are shifted to it;
  - the derivative's roots are filtered to the real ones strictly inside
    the padded sampled range;
  - with no survivor, the result is `re = xref` and seven zero
    coefficients;
  - otherwise the first survivor `dx` gives `re = xref + dx`, and a loop
    builds the seven Taylor coefficients about `dx`.
- `Dunham` models `dunham`:
  - a loop builds the four normalised derivatives;
  - the closed-form constants `Ee, Be, Ae, We, Wexe, Weye, De, D0` follow,
    with the anharmonic terms gated by `n > 5` and the dissociation
    energies by `Emax != 0`.
- `InputFile` models `read_input_file` over lines already split into
  tokens:
  - the header gives the column names;
  - every data row with at least as many entries as there are names adds
    its first entry to `x` and the next ones to the energy columns `ys`.

The least-squares coefficients `z` that `np.polyfit` returns are inputs to
`Fit.Polfit`, and so are the roots of the derivative that
`poly1d.deriv().r` returns, each as a `(re, im)` pair. The square root in
`We` is an input `root` of `Dunham.Dunham`, constrained by its defining
property: `root >= 0` and `root * root == 2 |pt[2]| / An`. The message
printed when no minimum is found is the output `found` of `Fit.Polfit`.

## Model

| member | source | states |
|---|---|---|
| Fit.FirstArgMin | polfit.py:16 | The index holds the least energy, and every earlier sample is strictly higher, so ties go to the first occurrence, as `np.argmin` does. |
| Fit.Shift | polfit.py:17 | Each shifted position plus `xref` gives back the original position. |
| Fit.SeqMin | polfit.py:24 | The minimum is one of the values and bounds all of them from below. |
| Fit.SeqMax | polfit.py:25 | The maximum is one of the values and bounds all of them from above. |
| Fit.Window | polfit.py:24-25 | The accepted range of shifted positions is never empty. |
| Fit.WindowOfSamples | polfit.py:24-25 | The accepted range is the sampled range moved by `-xref` and padded by 0.1 on each side. |
| Fit.ReferenceInsideWindow | polfit.py:16-25 | The reference sample sits at shifted position 0, strictly inside the accepted range. |
| Fit.CriticalPoints | polfit.py:26 | There are no more survivors than roots, and every survivor lies strictly between the bounds. |
| Fit.CriticalPointsAppend | polfit.py:26 | The filter distributes over concatenation, so survivors keep the order in which the roots are listed. |
| Fit.CriticalPointsMembership | polfit.py:26 | A value survives if and only if some listed root passes `IsCriticalPoint` (polfit.py:26): imaginary part below 1e-8 in magnitude and real part, equal to the value, strictly inside the bounds. |
| Fit.FirstCriticalPoint | polfit.py:26-34 | The chosen `dx` is the real part of the first root that passes the filter, and every root listed before it fails the filter. |
| Fit.NoCriticalPoints | polfit.py:26-27 | The no-minimum branch is taken if and only if every root fails the filter. |
| Fit.Fallback | polfit.py:31 | The fallback is seven coefficients, all zero. |
| Fit.Polfit | polfit.py:13-45 | The fit is returned as the coefficient sequence `z` (up to `poly1d`'s trimming of leading zeros, which changes no value), and `xref` is the position of the first lowest-energy sample. `found` holds exactly when a root survives. Without a survivor, `re == xref` and `pt` is seven zeros. Otherwise `re == xref + dx` for the first survivor `dx`, and `pt[i]` is the i-th derivative of the fit at `dx` over `i!`, for `i` in 0..6. |
| Fit.EnergyAtMinimum | polfit.py:34-40 | `pt[0]` is the fitted energy at the minimum `re - xref` of the shifted frame. |
| Fit.TaylorCoefficientsReproduceFit | polfit.py:37-41 | For a fit of degree at most 6, the sum of `pt[i] h^i` equals the fit at `dx + h` for every `h`. |
| Fit.TaylorCoefficientsOfDegree | polfit.py:37-41 | The coefficient of the fit's degree equals its leading coefficient, and all higher coefficients are zero. |
| Polynomial.Fact | polfit.py:40 | `i!` is at least 1, so the division never fails. |
| Polynomial.Deriv | polfit.py:26 | The derivative has one coefficient fewer, and a constant has the zero polynomial as derivative. |
| Polynomial.DerivN | polfit.py:40 | The k-th derivative has `k` fewer coefficients, and none once `k` reaches the length. |
| Polynomial.TaylorCoefficients | polfit.py:38-41 | There are `n` coefficients, and the i-th is `TaylorTerm(p, a, i)`: the i-th derivative `p.deriv(i)` evaluated at `a`, divided by `i!` (polfit.py:40). |
| Polynomial.EvalIsPowerSum | polfit.py:21 | `Eval`, the call of a `poly1d` (polfit.py:21, 40), is Horner evaluation. It equals the reference meaning of the coefficients, the sum of `p[i] x^(deg - i)`. |
| Polynomial.EvalAdd | polfit.py:21 | Evaluation is additive in the coefficients. |
| Polynomial.DerivNAdd | polfit.py:40 | Every derivative is linear in the coefficients. |
| Polynomial.DerivSnoc | polfit.py:40 | The derivative of `x p + c` is `x p' + p`, the product rule on coefficients. |
| Polynomial.LeibnizCoefficients | polfit.py:40 | The k-th derivative of `x p + c` is `x p^(k) + k p^(k-1)`. |
| Polynomial.TaylorTermSnoc | polfit.py:40 | The k-th Taylor coefficient of `x p + c` about `a` is `a` times that of `p` plus the (k-1)-th of `p`. |
| Polynomial.TaylorExpansion | polfit.py:37-41 | Taylor's theorem: the first `n >= |p|` Taylor coefficients of `p` about `a`, summed against powers of `h`, give `p(a + h)`. |
| Polynomial.LeadingTaylorTerm | polfit.py:40 | The Taylor coefficient of the top degree is the leading coefficient, whatever the expansion point. |
| Polynomial.TaylorTermBeyondDegree | polfit.py:40 | Taylor coefficients above the degree are zero. |
| Polynomial.EvalLeadingZero | polfit.py:21 | A leading zero coefficient does not change the value. |
| Polynomial.TaylorTermLeadingZeros | polfit.py:20-40 | Leading zero coefficients of a higher-order fit change no Taylor coefficient. |
| Dunham.Normalised | polfit.py:57-60 | There are exactly four normalised derivatives. |
| Dunham.NormalisedDerivatives | polfit.py:57-60 | The loop returns exactly the four values `pt[i+3] / pt[2] * re^(i+1)`. |
| Dunham.NormalisedScaled | polfit.py:59 | Each normalised derivative times `pt[2]` gives back `pt[i+3] re^(i+1)`. |
| Dunham.Analysis | polfit.py:47-79 | The formulas are `RotationalConstant` (polfit.py:53), `Coupling` (polfit.py:63), `Anharmonicity` (polfit.py:69) and `SecondAnharmonicity` (polfit.py:70). `Ee == pt[0]`, `Be > 0` and `We > 0`. With `n <= 5`, `Wexe` and `Weye` are 0. With `Emax == 0`, `De` and `D0` are 0. With `Emax != 0`, `De > 0` exactly when `Emax > Ee`. |
| Dunham.Dunham | polfit.py:47-79 | The straight-line code with its `npt` loop computes exactly the constants of `Analysis`. |
| Dunham.RootPositive | polfit.py:54 | A non-zero curvature gives a strictly positive square root, so `We` can be divided by. |
| Dunham.BondLengthFromRotationalConstant | polfit.py:53 | `Be` determines the bond length: `re^2 = 0.5 TO_CM / (An Be)`. |
| Dunham.HarmonicFrequency | polfit.py:54 | `We^2 = TO_CM^2 2 |pt[2]| / An`. |
| Dunham.ZeroPointBelowWellDepth | polfit.py:75-77 | With `Emax != 0`, `D0 < De` whenever `n <= 5` or `Wexe < 2 We`. |
| Dunham.HarmonicFit | polfit.py:57-70 | When the fit is quadratic (all coefficients above degree 2 zero, at any order), the normalised derivatives are zero, so `Wexe` and `Weye` are 0 and `Ae = -6 Be^2 / We`. |
| Dunham.FallbackHasNoCurvature | polfit.py:59 | The seven zeros of the no-minimum branch violate the analysis's requirement `pt[2] != 0`. |
| InputFile.KeptRows | polfit.py:110 | Only rows with at least `ncols` entries are kept. |
| InputFile.Column | polfit.py:111-113 | A column has one entry per row. |
| InputFile.ReadInputFile | polfit.py:95-117 | `names` is the header. With at most one name, `x` and `ys` stay empty. Otherwise `x` is the first column of the kept rows, and `ys` holds `ncols - 1` columns, the c-th being column `c + 1` of the kept rows, each as long as `x`. |
| InputFile.ColumnSnoc | polfit.py:111-113 | Appending a row appends its entry to each column. |
| InputFile.KeptRowsAppend | polfit.py:108-110 | Row filtering distributes over concatenation, so input order is preserved. |
| InputFile.KeptRowsMembership | polfit.py:110 | A row is kept if and only if it occurs in the input with at least `ncols` entries. |
| InputFile.ColumnsRebuildRows | polfit.py:110-113 | `x[i]` followed by `ys[0][i]` .. `ys[ncols-2][i]` is the first `ncols` entries of the i-th kept row, so extra entries are ignored. |

## Left out

- `np.polyfit` least squares and the root finding of `poly1d.deriv().r`
  (polfit.py:20, 26) are library numerics. Their results are inputs, and
  the order `n` of `polfit` is carried only by the length of `z`.
- Floating point: all values are mathematical reals, so rounding, overflow,
  `inf` and `nan` are not modelled. Accuracy of the fit is not addressed.
- `np.sqrt` (polfit.py:54) is the input `root`, constrained by its defining
  property.
- Dunham.Dunham: requires `pt[2] != 0`, `re != 0` and `mu > 0`. The source
  divides by these unguarded, and the model does not follow it into
  division by zero.
- Fit.Polfit: requires at least one sample with as many positions as
  energies. `np.argmin` and `min` fail on empty input.
- Opening the file and converting tokens with `float()` (polfit.py:101-109)
  are I/O. Rows arrive already tokenised and converted, so the failure on a
  non-numeric token is not modelled.
- The printed messages (polfit.py:28, 115) are not modelled. The first is
  the output `found`; the second has no counterpart.
- `plot_polfit` (polfit.py:81-93) is presentation.
- The script body (polfit.py:120-174) is not modelled: argument parsing,
  Angstrom scaling, table rendering and the loop over columns.
  - It calls `dunham(re, pt, mu)` with the default gates `n = 6` and
    `Emax = 0`.
  - After "MINIMUM NOT FOUND" it passes the seven zeros to `dunham`.
    Because they are Python floats, `pt[3] / pt[2]` (polfit.py:59) raises
    ZeroDivisionError and the run stops. `Dunham.FallbackHasNoCurvature`
    states the clash.
- The conversion factors `TO_BOHR` and `TO_ANGSTROM` are declared but used
  only by the script body.
- Fit.Polfit: reports a missing minimum only through `found == false`,
  with `re == xref` and seven zeros, as the program does. There are no
  typed error results.
- Fit.Polfit: returns the coefficients `z` as given. `np.poly1d(z)`
  (polfit.py:21) trims leading zero coefficients and turns an all-zero `z`
  into `[0.0]`. The values do not change: `Polynomial.EvalLeadingZero`
  proves that for evaluation, and `Polynomial.TaylorTermLeadingZeros` for
  every Taylor coefficient.
