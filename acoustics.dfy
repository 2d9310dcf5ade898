/** Acoustic unit conversions: Sabine's mean free path, the reflection
    coefficient of an absorption coefficient, and the per-band conversion
    of a material's six absorption coefficients. */
module Acoustics {
  import opened RealArith

  /** The number of octave bands a material carries. */
  const Bands := 6

  /** `sqrt` is a square root on the non-negative reals; the platform's
      `sqrt` enters the model only through this property. */
  ghost predicate IsSqrt(sqrt: real -> real)
  {
    forall x: real {:trigger sqrt(x)} :: x >= 0.0 ==> sqrt(x) >= 0.0 && sqrt(x) * sqrt(x) == x
  }

  /** A non-negative square root is unique. */
  lemma SquareRootUnique(r: real, s: real)
    requires r >= 0.0 && s >= 0.0 && r * r == s * s
    ensures r == s
  {
    assert (r - s) * (r + s) == r * r - s * s;
    ZeroProduct(r - s, r + s);
  }

  /** `4 V / S`. */
  function MeanFreePath(totalVolume: real, totalSurface: real): (l: real)
    requires totalSurface != 0.0
    ensures l * totalSurface == 4.0 * totalVolume
  {
    4.0 * (totalVolume / totalSurface)
  }

  /** `sqrt(1 - alpha)`: the pressure reflection coefficient of a surface
      whose energy absorption coefficient is `alpha`. */
  function AlphaToBeta(sqrt: real -> real, alpha: real): (beta: real)
    requires IsSqrt(sqrt) && alpha <= 1.0
    ensures beta >= 0.0 && beta * beta == 1.0 - alpha
  {
    sqrt(1.0 - alpha)
  }

  /** A surface that absorbs nothing reflects everything, one that absorbs
      everything reflects nothing, and absorption coefficients in `[0, 1]`
      give reflection coefficients in `[0, 1]`. */
  lemma AlphaToBetaRange(sqrt: real -> real, alpha: real)
    requires IsSqrt(sqrt) && 0.0 <= alpha <= 1.0
    ensures 0.0 <= AlphaToBeta(sqrt, alpha) <= 1.0
    ensures alpha == 0.0 ==> AlphaToBeta(sqrt, alpha) == 1.0
    ensures alpha == 1.0 ==> AlphaToBeta(sqrt, alpha) == 0.0
  {
    var beta := AlphaToBeta(sqrt, alpha);
    if beta > 1.0 {
      MulPos(beta - 1.0, beta + 1.0);
    }
    if alpha == 0.0 {
      SquareRootUnique(beta, 1.0);
    }
    if alpha == 1.0 {
      SquareRootUnique(beta, 0.0);
    }
  }

  /** More absorption means less reflection. */
  lemma AlphaToBetaAntitone(sqrt: real -> real, a1: real, a2: real)
    requires IsSqrt(sqrt) && a1 <= a2 <= 1.0
    ensures AlphaToBeta(sqrt, a1) >= AlphaToBeta(sqrt, a2)
  {
    SquaresOrdered(AlphaToBeta(sqrt, a1), AlphaToBeta(sqrt, a2), a1, a2);
  }

  lemma SquaresOrdered(b1: real, b2: real, a1: real, a2: real)
    requires b1 >= 0.0 && b2 >= 0.0 && b1 * b1 == 1.0 - a1 && b2 * b2 == 1.0 - a2 && a1 <= a2
    ensures b1 >= b2
  {
    if b1 < b2 {
      MulPos(b2 - b1, b2 + b1);
    }
  }

  /** A named material with one absorption coefficient per octave band. */
  class Material {
    var materialLabel: string
    var alphaCoefficients: seq<real>

    constructor (labelText: string, alphas: seq<real>)
      requires |alphas| == Bands
      ensures materialLabel == labelText && alphaCoefficients == alphas
    {
      materialLabel := labelText;
      alphaCoefficients := alphas;
    }

    /** Copies the coefficients and converts each one in place. */
    method GetBetaCoefficients(sqrt: real -> real) returns (beta: seq<real>)
      requires IsSqrt(sqrt) && |alphaCoefficients| == Bands
      requires forall b :: 0 <= b < Bands ==> alphaCoefficients[b] <= 1.0
      ensures |beta| == Bands
      ensures forall b :: 0 <= b < Bands ==> beta[b] == AlphaToBeta(sqrt, alphaCoefficients[b])
    {
      var coeffs := new real[Bands];
      for b := 0 to Bands
        invariant forall m :: 0 <= m < b ==> coeffs[m] == alphaCoefficients[m]
      {
        coeffs[b] := alphaCoefficients[b];
      }
      for b := 0 to Bands
        invariant forall m :: 0 <= m < b ==> coeffs[m] == AlphaToBeta(sqrt, alphaCoefficients[m])
        invariant forall m :: b <= m < Bands ==> coeffs[m] == alphaCoefficients[m]
      {
        coeffs[b] := sqrt(1.0 - coeffs[b]);
      }
      beta := coeffs[..];
    }
  }

  /** The built-in material table, by name and coefficients. */
  const Catalogue: seq<(string, seq<real>)> := [
    ("Floor", [0.087307, 0.08230, 0.144615, 0.20076, 0.24653, 0.26692]),
    ("Fabric", [0.02999, 0.119999, 0.150000, 0.270000, 0.370000, 0.419999]),
    ("Fabric", [0.7999, 0.69999, 0.300999, 0.129999, 0.1929999, 0.1949999]),
    ("Carpet", [0.01, 0.02, 0.06, 0.15000, 0.25, 0.449999]),
    ("Wall_Treatments", [0.35, 0.35, 0.25, 0.16, 0.25, 0.3568]),
    ("Wall_Treatments", [0.37307, 0.39230, 0.444615, 0.20076, 0.24653, 0.26692]),
    ("Wall_Treatments", [0.47307, 0.4230, 0.644615, 0.50076, 0.24653, 0.256692]),
    ("Default", [0.01, 0.01, 0.03, 0.02, 0.027, 0.027]),
    ("Default", [0.02, 0.02, 0.02, 0.020, 0.0327, 0.0527]),
    ("Default", [0.02, 0.03, 0.032, 0.0310, 0.04127, 0.07127]),
    ("Default", [0.2, 0.2, 0.15, 0.11, 0.157, 0.36727])
  ]

  /** Every catalogue entry is a valid material: six coefficients in `[0, 1]`,
      so its reflection coefficients exist and lie in `[0, 1]`. */
  lemma CatalogueIsPhysical(sqrt: real -> real, m: nat, b: nat)
    requires IsSqrt(sqrt) && m < |Catalogue| && b < Bands
    ensures |Catalogue[m].1| == Bands && 0.0 <= Catalogue[m].1[b] <= 1.0
    ensures 0.0 <= AlphaToBeta(sqrt, Catalogue[m].1[b]) <= 1.0
  {
    AlphaToBetaRange(sqrt, Catalogue[m].1[b]);
  }
}
