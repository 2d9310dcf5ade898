/**
 * The per-face absorption aggregator (unda/classifier/calculate_absorption.py).
 *
 * Classified patch records (one row of `results.csv` each) are filtered by
 * confidence, grouped by face in a fixed order, truncated to `T` tiles,
 * padded with fully reflective tiles (absorption 1.0), averaged with
 * `np.average`-style weights and clipped into [0.001, 0.9].  The resulting
 * 6x6 matrix replaces `conf['IR']['SurfaceAbsorption']`.
 */
module Absorption {
  import opened Wrappers
  import opened RealArith
  import opened Decimal

  /** The fixed face order of the output matrix (line 5). */
  const Walls: seq<string> := ["leftWall", "rightWall", "ceiling", "floor", "backWall", "frontWall"]

  /** Octave bands per row: the six trailing CSV columns 125 .. 4000 Hz. */
  const Bands: nat := 6

  /** Rows must be strictly more confident than this to be used (line 14). */
  const ConfidenceThreshold: real := 0.70

  /** Bounds of `np.clip` (line 38). */
  const ClipLow: real := 0.001
  const ClipHigh: real := 0.9

  /** The padding tile: fully reflective in every band (line 27). */
  const Ones: seq<real> := [1.0, 1.0, 1.0, 1.0, 1.0, 1.0]

  /** One row of the classifier's result table. */
  datatype PatchRecord = PatchRecord(
    patchName: string,
    face: string,
    predictedLabel: string,
    confidence: real,
    coeffs: seq<real>)

  /** A configuration value as `json.load` produces it. */
  datatype Json =
    | JNull
    | JBool(b: bool)
    | JInt(i: int)
    | JReal(r: real)
    | JStr(s: string)
    | JArray(items: seq<Json>)
    | JObject(fields: map<string, Json>)

  /** The ways the script stops with an exception. */
  datatype AbsorptionError =
    | MissingResolution  // KeyError/TypeError/ValueError reading MarchingCubesResolution
    | NegativeTiles      // np.ones with a negative dimension (ValueError)
    | ZeroTiles          // `k / tiles_per_wall` with zero tiles (ZeroDivisionError)
    | MissingIRSection   // conf['IR'] absent or not an object

  /** Every row carries exactly six band coefficients (`iloc[:, -6:]`). */
  predicate WellFormedTable(rows: seq<PatchRecord>)
  {
    forall i :: 0 <= i < |rows| ==> |rows[i].coeffs| == Bands
  }

  predicate AllRowsHaveBands(tiles: seq<seq<real>>)
  {
    forall i :: 0 <= i < |tiles| ==> |tiles[i]| == Bands
  }

  // ---------------------------------------------------------------------
  // Filtering and grouping (lines 14, 22-25)
  // ---------------------------------------------------------------------

  /** `results.loc[results['Confidence'] > threshold]`, keeping file order. */
  function Confident(rows: seq<PatchRecord>, threshold: real): (kept: seq<PatchRecord>)
    ensures |kept| <= |rows|
    ensures forall r :: r in kept <==> r in rows && r.confidence > threshold
    ensures WellFormedTable(rows) ==> WellFormedTable(kept)
  {
    if rows == [] then []
    else
      var rest := Confident(rows[1..], threshold);
      assert forall r :: r in rows <==> r == rows[0] || r in rows[1..];
      if rows[0].confidence > threshold then [rows[0]] + rest else rest
  }

  /** `patches.loc[patches['Face'] == wall].iloc[:, -6:]`: the coefficient
      rows of one face, in file order. */
  function FacePatches(rows: seq<PatchRecord>, wall: string): (tiles: seq<seq<real>>)
    ensures |tiles| <= |rows|
    ensures WellFormedTable(rows) ==> AllRowsHaveBands(tiles)
    ensures forall r :: r in rows && r.face == wall ==> r.coeffs in tiles
    ensures forall c :: c in tiles ==> exists r :: r in rows && r.face == wall && r.coeffs == c
  {
    if rows == [] then []
    else
      var rest := FacePatches(rows[1..], wall);
      assert forall r :: r in rows <==> r == rows[0] || r in rows[1..];
      if rows[0].face == wall then [rows[0].coeffs] + rest else rest
  }

  /** One row contributes its coefficients exactly when it lies on `wall`;
      with `FacePatchesConcat` this fixes the order of the rows kept. */
  lemma FacePatchesSingle(r: PatchRecord, wall: string)
    ensures FacePatches([r], wall) == if r.face == wall then [r.coeffs] else []
  {
    assert [r][1..] == [];
  }

  /** `wall_patches[:tiles]` when there are more rows than tiles (lines 24-25). */
  function Truncate(tiles: seq<seq<real>>, t: nat): (kept: seq<seq<real>>)
    ensures |kept| == if |tiles| > t then t else |tiles|
    ensures kept <= tiles
  {
    if |tiles| > t then tiles[..t] else tiles
  }

  /** The rows of `wall` that reach the average. */
  function Bucket(patches: seq<PatchRecord>, wall: string, t: nat): seq<seq<real>>
  {
    Truncate(FacePatches(patches, wall), t)
  }

  // ---------------------------------------------------------------------
  // Sums and the weighted average of np.average (lines 27-33)
  // ---------------------------------------------------------------------

  function Sum(w: seq<real>): real
  {
    if w == [] then 0.0 else w[0] + Sum(w[1..])
  }

  /** Column `b` summed over the rows. */
  function BandSum(tiles: seq<seq<real>>, b: nat): real
    requires forall i :: 0 <= i < |tiles| ==> b < |tiles[i]|
  {
    if tiles == [] then 0.0 else tiles[0][b] + BandSum(tiles[1..], b)
  }

  /** Column `b` summed with one weight per row. */
  function WeightedBandSum(tiles: seq<seq<real>>, weights: seq<real>, b: nat): real
    requires |tiles| == |weights|
    requires forall i :: 0 <= i < |tiles| ==> b < |tiles[i]|
  {
    if tiles == [] then 0.0
    else weights[0] * tiles[0][b] + WeightedBandSum(tiles[1..], weights[1..], b)
  }

  /** `np.average(tiles, 0, weights)`: per band, the weighted sum divided by
      the sum of the weights. */
  function Average(tiles: seq<seq<real>>, weights: seq<real>): (avg: seq<real>)
    requires |tiles| == |weights| && AllRowsHaveBands(tiles)
    requires Sum(weights) != 0.0
    ensures |avg| == Bands
  {
    seq(Bands, b requires 0 <= b < Bands => WeightedBandSum(tiles, weights, b) / Sum(weights))
  }

  /** `n` copies of `x`. */
  function Repeat<X>(n: nat, x: X): (r: seq<X>)
    ensures |r| == n && forall i :: 0 <= i < n ==> r[i] == x
  {
    if n == 0 then [] else [x] + Repeat(n - 1, x)
  }

  /** `wall_tiles`: the kept rows followed by all-ones padding up to `t` rows. */
  function PadTiles(bucket: seq<seq<real>>, t: nat): (tiles: seq<seq<real>>)
    requires |bucket| <= t
    ensures |tiles| == t
  {
    bucket + Repeat(t - |bucket|, Ones)
  }

  /** `weights`: `k/t` for the `k` real rows, `(t-k)/t` for each padding row. */
  function Weights(k: nat, t: nat): (w: seq<real>)
    requires 1 <= t && k <= t
    ensures |w| == t
  {
    var K, T := k as real, t as real;
    Repeat(k, K / T) + Repeat(t - k, (T - K) / T)
  }

  /** The row the script writes for `wall` before clipping (line 33). */
  function FaceRow(patches: seq<PatchRecord>, wall: string, t: nat): (row: seq<real>)
    requires WellFormedTable(patches) && t >= 1
    ensures |row| == Bands
  {
    var bucket := Bucket(patches, wall, t);
    var k := |bucket|;
    WeightSumPositive(k, t);
    PaddedRowsHaveBands(bucket, t);
    Average(PadTiles(bucket, t), Weights(k, t))
  }

  /** `out` before clipping: one row per wall in the fixed order. */
  function AbsorptionMatrix(patches: seq<PatchRecord>, t: nat): (m: seq<seq<real>>)
    requires WellFormedTable(patches) && t >= 1
    ensures |m| == |Walls| && AllRowsHaveBands(m)
  {
    seq(|Walls|, i requires 0 <= i < |Walls| => FaceRow(patches, Walls[i], t))
  }

  // ---------------------------------------------------------------------
  // Clipping (line 38)
  // ---------------------------------------------------------------------

  /** Distance between two reals. */
  function Dist(x: real, y: real): real
  {
    if x < y then y - x else x - y
  }

  /** `np.clip(x, 0.001, 0.9)`: the point of [0.001, 0.9] nearest to `x`. */
  function Clip(x: real): (c: real)
    ensures ClipLow <= c <= ClipHigh
    ensures ClipLow <= x <= ClipHigh ==> c == x
    ensures forall y :: ClipLow <= y <= ClipHigh ==> Dist(c, x) <= Dist(y, x)
  {
    if x < ClipLow then ClipLow else if x > ClipHigh then ClipHigh else x
  }

  /** A row clipped entry by entry: every entry lands in [0.001, 0.9], and
      a row already in range comes back unchanged. */
  function ClipRow(row: seq<real>): (r: seq<real>)
    ensures |r| == |row|
    ensures forall b :: 0 <= b < |row| ==> r[b] == Clip(row[b])
    ensures forall b :: 0 <= b < |r| ==> ClipLow <= r[b] <= ClipHigh
    ensures (forall b :: 0 <= b < |row| ==> ClipLow <= row[b] <= ClipHigh) ==> r == row
  {
    seq(|row|, b requires 0 <= b < |row| => Clip(row[b]))
  }

  /** The matrix clipped row by row: the shape is kept, every entry lands in
      [0.001, 0.9], and a matrix already in range comes back unchanged. */
  function ClipMatrix(m: seq<seq<real>>): (c: seq<seq<real>>)
    ensures |c| == |m|
    ensures forall i :: 0 <= i < |m| ==> c[i] == ClipRow(m[i])
    ensures forall i :: 0 <= i < |m| ==> |c[i]| == |m[i]|
    ensures forall i, b :: 0 <= i < |c| && 0 <= b < |c[i]| ==> ClipLow <= c[i][b] <= ClipHigh
    ensures (forall i, b :: 0 <= i < |m| && 0 <= b < |m[i]| ==> ClipLow <= m[i][b] <= ClipHigh) ==> c == m
  {
    seq(|m|, i requires 0 <= i < |m| => ClipRow(m[i]))
  }

  /** Clipping twice equals clipping once, entry by entry. */
  lemma ClipMatrixIdempotent(m: seq<seq<real>>)
    ensures ClipMatrix(ClipMatrix(m)) == ClipMatrix(m)
  {
  }

  /** The whole computation on the result table, as a value. */
  function SurfaceMatrix(results: seq<PatchRecord>, t: nat): (m: seq<seq<real>>)
    requires WellFormedTable(results) && t >= 1
    ensures |m| == |Walls| && AllRowsHaveBands(m)
    ensures forall i, b :: 0 <= i < |m| && 0 <= b < Bands ==> ClipLow <= m[i][b] <= ClipHigh
  {
    ClipMatrix(AbsorptionMatrix(Confident(results, ConfidenceThreshold), t))
  }

  // ---------------------------------------------------------------------
  // Arithmetic of the padded average
  // ---------------------------------------------------------------------

  lemma {:induction false} SumConcat(a: seq<real>, b: seq<real>)
    ensures Sum(a + b) == Sum(a) + Sum(b)
  {
    if a == [] {
      assert a + b == b;
    } else {
      assert (a + b)[1..] == a[1..] + b;
      SumConcat(a[1..], b);
    }
  }

  lemma {:induction false} SumConst(n: nat, c: real)
    ensures Sum(Repeat(n, c)) == n as real * c
  {
    if n > 0 {
      assert Repeat(n, c)[1..] == Repeat(n - 1, c);
      SumConst(n - 1, c);
    }
  }

  lemma {:induction false} WeightedBandSumConcat(t1: seq<seq<real>>, w1: seq<real>, t2: seq<seq<real>>, w2: seq<real>, b: nat)
    requires |t1| == |w1| && |t2| == |w2|
    requires forall i :: 0 <= i < |t1| ==> b < |t1[i]|
    requires forall i :: 0 <= i < |t2| ==> b < |t2[i]|
    ensures forall i :: 0 <= i < |t1 + t2| ==> b < |(t1 + t2)[i]|
    ensures WeightedBandSum(t1 + t2, w1 + w2, b) == WeightedBandSum(t1, w1, b) + WeightedBandSum(t2, w2, b)
  {
    if t1 == [] {
      assert t1 + t2 == t2 && w1 + w2 == w2;
    } else {
      assert (t1 + t2)[1..] == t1[1..] + t2;
      assert (w1 + w2)[1..] == w1[1..] + w2;
      WeightedBandSumConcat(t1[1..], w1[1..], t2, w2, b);
    }
  }

  /** With one weight for every row, the weighted sum is that weight times the plain sum. */
  lemma {:induction false} WeightedBandSumUniform(tiles: seq<seq<real>>, c: real, b: nat)
    requires forall i :: 0 <= i < |tiles| ==> b < |tiles[i]|
    ensures WeightedBandSum(tiles, Repeat(|tiles|, c), b) == c * BandSum(tiles, b)
  {
    if tiles != [] {
      assert Repeat(|tiles|, c)[1..] == Repeat(|tiles| - 1, c);
      WeightedBandSumUniform(tiles[1..], c, b);
    }
  }

  /** Two blocks of rows with their weights: `a * s + c * n`. */
  function Mixed(a: real, s: real, c: real, n: real): real
  {
    a * s + c * n
  }

  lemma SumTwoBlocks(k: nat, n: nat, a: real, b: real)
    ensures Sum(Repeat(k, a) + Repeat(n, b)) == k as real * a + n as real * b
  {
    SumConcat(Repeat(k, a), Repeat(n, b));
    SumConst(k, a);
    SumConst(n, b);
  }

  lemma PaddedRowsHaveBands(bucket: seq<seq<real>>, t: nat)
    requires |bucket| <= t && AllRowsHaveBands(bucket)
    ensures AllRowsHaveBands(PadTiles(bucket, t))
  {
  }

  lemma SquaresOfPositive(k: real, t: real)
    requires 0.0 < k <= t
    ensures k * k > 0.0 && (t - k) * (t - k) >= 0.0
  {
    MulPos(k, k);
    SquareNonNeg(t - k);
  }

  /** `k^2 + (t-k)^2` is positive whenever `t >= 1`. */
  lemma DenominatorPositive(k: real, t: real)
    requires 0.0 <= k <= t && t >= 1.0
    ensures k * k + (t - k) * (t - k) > 0.0
  {
    if k > 0.0 {
      SquaresOfPositive(k, t);
    } else {
      MulPos(t, t);
    }
  }

  /** The arithmetic of the weight total: `k*(k/t) + (t-k)*((t-k)/t)`. */
  lemma WeightTotal(k: real, t: real)
    requires 0.0 <= k <= t && t >= 1.0
    ensures k * (k / t) + (t - k) * ((t - k) / t) == (k * k + (t - k) * (t - k)) / t
    ensures (k * k + (t - k) * (t - k)) / t > 0.0
  {
    MulDiv(k, k, t);
    MulDiv(t - k, t - k, t);
    DivAdd(k * k, (t - k) * (t - k), t);
    DenominatorPositive(k, t);
    DivPos(k * k + (t - k) * (t - k), t);
  }

  /** The arithmetic of the weighted band sum: `(k/t)*s + ((t-k)/t)*(t-k)`. */
  lemma NumeratorTotal(k: real, t: real, s: real)
    requires t != 0.0
    ensures (k / t) * s + ((t - k) / t) * (t - k) == (k * s + (t - k) * (t - k)) / t
  {
    MulDiv(s, k, t);
    MulDiv(t - k, t - k, t);
    DivAdd(k * s, (t - k) * (t - k), t);
  }

  /** The numerator of the closed form: `k*s + (t-k)^2`. */
  function Numerator(k: nat, t: nat, s: real): real
  {
    k as real * s + (t as real - k as real) * (t as real - k as real)
  }

  /** The denominator of the closed form: `k^2 + (t-k)^2`, never zero. */
  function Denominator(k: nat, t: nat): (d: real)
    requires k <= t && t >= 1
    ensures d > 0.0
  {
    DenominatorPositive(k as real, t as real);
    k as real * k as real + (t as real - k as real) * (t as real - k as real)
  }

  /** The closed form of a face row: with `k` kept rows whose band
      coefficients sum to `s`, the padded weighted average is
      `(k*s + (t-k)^2) / (k^2 + (t-k)^2)`. */
  function Blend(k: nat, t: nat, s: real): real
    requires k <= t && t >= 1
  {
    Numerator(k, t, s) / Denominator(k, t)
  }

  /** `Blend` written out over `k` and `t` as reals. */
  lemma BlendExpanded(k: nat, t: nat, s: real)
    requires k <= t && t >= 1
    ensures k as real * k as real + (t as real - k as real) * (t as real - k as real) > 0.0
    ensures Blend(k, t, s)
         == (k as real * s + (t as real - k as real) * (t as real - k as real))
          / (k as real * k as real + (t as real - k as real) * (t as real - k as real))
  {
    DivCongruence(Numerator(k, t, s), Denominator(k, t),
                  k as real * s + (t as real - k as real) * (t as real - k as real),
                  k as real * k as real + (t as real - k as real) * (t as real - k as real));
  }

  lemma WeightTotalNat(k: nat, t: nat)
    requires 1 <= t && k <= t
    ensures k as real * (k as real / t as real) + (t - k) as real * ((t as real - k as real) / t as real)
         == Denominator(k, t) / t as real
    ensures Denominator(k, t) / t as real > 0.0
  {
    assert (t - k) as real == t as real - k as real;
    WeightTotal(k as real, t as real);
  }

  /** The weights sum to `(k^2 + (t-k)^2) / t`, which is never zero for `t >= 1`. */
  lemma WeightSumPositive(k: nat, t: nat)
    requires 1 <= t && k <= t
    ensures Sum(Weights(k, t)) == Denominator(k, t) / t as real
    ensures Sum(Weights(k, t)) > 0.0
  {
    SumTwoBlocks(k, t - k, k as real / t as real, (t as real - k as real) / t as real);
    WeightTotalNat(k, t);
    EqChain(Sum(Weights(k, t)),
            k as real * (k as real / t as real) + (t - k) as real * ((t as real - k as real) / t as real),
            Denominator(k, t) / t as real);
  }

  /** Kept rows weighted by `a` followed by `n` rows of ones weighted by `c`. */
  lemma TwoBlockWeightedSum(bucket: seq<seq<real>>, n: nat, a: real, c: real, b: nat)
    requires b < Bands && AllRowsHaveBands(bucket)
    ensures AllRowsHaveBands(bucket + Repeat(n, Ones))
    ensures WeightedBandSum(bucket + Repeat(n, Ones), Repeat(|bucket|, a) + Repeat(n, c), b)
         == Mixed(a, BandSum(bucket, b), c, n as real)
  {
    WeightedBandSumConcat(bucket, Repeat(|bucket|, a), Repeat(n, Ones), Repeat(n, c), b);
    WeightedBandSumUniform(bucket, a, b);
    PaddingWeightedSum(n, c, b);
  }

  /** `n` rows of ones, each weighted by `c`, sum to `c * n` in every band. */
  lemma {:induction false} PaddingWeightedSum(n: nat, c: real, b: nat)
    requires b < Bands
    ensures WeightedBandSum(Repeat(n, Ones), Repeat(n, c), b) == c * n as real
  {
    if n > 0 {
      assert Repeat(n, Ones)[1..] == Repeat(n - 1, Ones);
      assert Repeat(n, c)[1..] == Repeat(n - 1, c);
      PaddingWeightedSum(n - 1, c, b);
    }
  }

  lemma NumeratorTotalAt(k: nat, t: nat, s: real, a: real, c: real, n: real)
    requires 1 <= t && k <= t
    requires a == k as real / t as real
    requires c == (t as real - k as real) / t as real
    requires n == t as real - k as real
    ensures Mixed(a, s, c, n) == Numerator(k, t, s) / t as real
  {
    NumeratorTotal(k as real, t as real, s);
  }

  lemma PaddedWeightedSumAt(bucket: seq<seq<real>>, t: nat, b: nat, a: real, c: real, n: real)
    requires |bucket| <= t && t >= 1 && b < Bands && AllRowsHaveBands(bucket)
    requires a == |bucket| as real / t as real
    requires c == (t as real - |bucket| as real) / t as real
    requires n == t as real - |bucket| as real
    ensures AllRowsHaveBands(PadTiles(bucket, t))
    ensures WeightedBandSum(PadTiles(bucket, t), Weights(|bucket|, t), b) == Mixed(a, BandSum(bucket, b), c, n)
  {
    var k := |bucket|;
    assert Weights(k, t) == Repeat(k, a) + Repeat(t - k, c);
    TwoBlockWeightedSum(bucket, t - k, a, c, b);
    assert (t - k) as real == n;
  }

  lemma PaddedWeightedSumWith(bucket: seq<seq<real>>, t: nat, b: nat, a: real, c: real, n: real)
    requires |bucket| <= t && t >= 1 && b < Bands && AllRowsHaveBands(bucket)
    requires AllRowsHaveBands(PadTiles(bucket, t))
    requires a == |bucket| as real / t as real
    requires c == (t as real - |bucket| as real) / t as real
    requires n == t as real - |bucket| as real
    ensures WeightedBandSum(PadTiles(bucket, t), Weights(|bucket|, t), b)
        == Numerator(|bucket|, t, BandSum(bucket, b)) / t as real
  {
    PaddedWeightedSumAt(bucket, t, b, a, c, n);
    NumeratorTotalAt(|bucket|, t, BandSum(bucket, b), a, c, n);
    EqChain(WeightedBandSum(PadTiles(bucket, t), Weights(|bucket|, t), b), Mixed(a, BandSum(bucket, b), c, n),
            Numerator(|bucket|, t, BandSum(bucket, b)) / t as real);
  }

  /** The weighted column sum of the padded tiles is the numerator of the
      closed form over `t`. */
  lemma PaddedWeightedSum(bucket: seq<seq<real>>, t: nat, b: nat)
    requires |bucket| <= t && t >= 1 && b < Bands && AllRowsHaveBands(bucket)
    requires AllRowsHaveBands(PadTiles(bucket, t))
    ensures WeightedBandSum(PadTiles(bucket, t), Weights(|bucket|, t), b)
        == Numerator(|bucket|, t, BandSum(bucket, b)) / t as real
  {
    PaddedWeightedSumWith(bucket, t, b, |bucket| as real / t as real, (t as real - |bucket| as real) / t as real,
                          t as real - |bucket| as real);
  }

  lemma QuotientOfScaled(x: real, y: real, num: real, den: real, t: real)
    requires t != 0.0 && den != 0.0
    requires x == num / t && y == den / t
    ensures y != 0.0 && x / y == num / den
  {
    DivByCommon(num, den, t);
  }

  lemma PaddedAverageBand(bucket: seq<seq<real>>, t: nat, b: nat)
    requires |bucket| <= t && t >= 1 && b < Bands && AllRowsHaveBands(bucket)
    ensures AllRowsHaveBands(PadTiles(bucket, t))
    ensures Sum(Weights(|bucket|, t)) > 0.0
    ensures Average(PadTiles(bucket, t), Weights(|bucket|, t))[b] == Blend(|bucket|, t, BandSum(bucket, b))
  {
    PaddedRowsHaveBands(bucket, t);
    PaddedWeightedSum(bucket, t, b);
    WeightSumPositive(|bucket|, t);
    QuotientOfScaled(WeightedBandSum(PadTiles(bucket, t), Weights(|bucket|, t), b), Sum(Weights(|bucket|, t)),
                     Numerator(|bucket|, t, BandSum(bucket, b)), Denominator(|bucket|, t), t as real);
  }

  /** Every band of a face row follows the closed form of `Blend`. */
  lemma FaceRowClosedForm(patches: seq<PatchRecord>, wall: string, t: nat, b: nat)
    requires WellFormedTable(patches) && t >= 1 && b < Bands
    ensures var bucket := Bucket(patches, wall, t);
      AllRowsHaveBands(bucket) &&
      FaceRow(patches, wall, t)[b] == Blend(|bucket|, t, BandSum(bucket, b))
  {
    PaddedAverageBand(Bucket(patches, wall, t), t, b);
  }

  // ---------------------------------------------------------------------
  // The closed form over the reals, `k` and `t` as real numbers
  // ---------------------------------------------------------------------

  lemma NoRowsForm(k: real, t: real, s: real)
    requires k == 0.0 && t >= 1.0
    ensures (k * s + (t - k) * (t - k)) / (k * k + (t - k) * (t - k)) == 1.0
  {
    MulPos(t, t);
    SelfQuotient(t * t);
  }

  lemma FullRowsForm(k: real, t: real, s: real)
    requires k == t && t >= 1.0
    ensures (k * s + (t - k) * (t - k)) / (k * k + (t - k) * (t - k)) == s / t
  {
    assert t * t > 0.0 by { MulPos(t, t); }
    assert (t * s) * t == s * (t * t);
    CrossMultiply(t * s, t * t, s, t);
  }

  lemma ConvexForm(k: real, t: real, s: real)
    requires 1.0 <= k <= t
    ensures var lambda := (k * k) / (k * k + (t - k) * (t - k));
      0.0 < lambda <= 1.0 &&
      (k * s + (t - k) * (t - k)) / (k * k + (t - k) * (t - k)) == lambda * (s / k) + (1.0 - lambda) * 1.0
  {
    var kk := k * k;
    var rr := (t - k) * (t - k);
    MulPos(k, k);
    SquareNonNeg(t - k);
    var den := kk + rr;
    var lambda := kk / den;
    assert 0.0 < lambda <= 1.0 by { DivPos(kk, den); DivWithinUnit(kk, den); }
    assert 1.0 - lambda == rr / den by { DivAdd(kk, rr, den); SelfQuotient(den); }
    assert (s / k) * kk == k * s by {
      DivMul(s, k);
      assert (s / k) * (k * k) == ((s / k) * k) * k;
    }
    assert lambda * (s / k) == (k * s) / den by {
      MulDiv(s / k, kk, den);
    }
    DivAdd(k * s, rr, den);
  }

  lemma WithinUnitForm(k: real, t: real, s: real)
    requires 0.0 <= k <= t && t >= 1.0
    requires 0.0 <= s <= k
    ensures k * k + (t - k) * (t - k) > 0.0
    ensures 0.0 <= (k * s + (t - k) * (t - k)) / (k * k + (t - k) * (t - k)) <= 1.0
  {
    DenominatorPositive(k, t);
    assert 0.0 <= k * s <= k * k by { MulLe(k, s, k); MulNonNeg(k, s); }
    assert (t - k) * (t - k) >= 0.0 by { SquareNonNeg(t - k); }
    DivWithinUnit(k * s + (t - k) * (t - k), k * k + (t - k) * (t - k));
  }

  lemma ProductZeroIff(k: real, t: real, m: real)
    ensures k * (t - k) * ((2.0 * k - t) * (m - 1.0)) == 0.0 <==> (k == 0.0 || k == t || 2.0 * k == t || m == 1.0)
  {
    ZeroProduct(k * (t - k), (2.0 * k - t) * (m - 1.0));
    ZeroProduct(k, t - k);
    ZeroProduct(2.0 * k - t, m - 1.0);
  }

  /** Cross-multiplied, the two blends differ by `k(t-k)(2k-t)(m-1)`. */
  lemma GapIff(k: real, t: real, m: real)
    ensures (k * (k * m) + (t - k) * (t - k)) * t == (k * m + (t - k)) * (k * k + (t - k) * (t - k))
        <==> k * (t - k) * ((2.0 * k - t) * (m - 1.0)) == 0.0
  {
  }

  lemma CrossIff(k: real, t: real, m: real)
    requires 1.0 <= k <= t
    requires k * k + (t - k) * (t - k) > 0.0
    ensures (k * (k * m) + (t - k) * (t - k)) / (k * k + (t - k) * (t - k)) == (k * m + (t - k)) / t
        <==> k * (t - k) * ((2.0 * k - t) * (m - 1.0)) == 0.0
  {
    CrossMultiply(k * (k * m) + (t - k) * (t - k), k * k + (t - k) * (t - k), k * m + (t - k), t);
    GapIff(k, t, m);
  }

  lemma LinearForm(k: real, t: real, m: real)
    requires t != 0.0
    ensures k / t * m + (t - k) / t == (k * m + (t - k)) / t
  {
    MulDiv(m, k, t);
    DivAdd(k * m, t - k, t);
  }

  lemma LinearGapForm(k: real, t: real, m: real)
    requires 1.0 <= k <= t
    ensures k * k + (t - k) * (t - k) > 0.0
    ensures (k * (k * m) + (t - k) * (t - k)) / (k * k + (t - k) * (t - k)) == k / t * m + (t - k) / t
        <==> (k == t || 2.0 * k == t || m == 1.0)
  {
    DenominatorPositive(k, t);
    LinearForm(k, t, m);
    CrossIff(k, t, m);
    ProductZeroIff(k, t, m);
  }

  // ---------------------------------------------------------------------
  // What the closed form promises
  // ---------------------------------------------------------------------

  /** A face with no confident row is all ones before clipping. */
  lemma EmptyFaceIsReflective(patches: seq<PatchRecord>, wall: string, t: nat)
    requires WellFormedTable(patches) && t >= 1
    requires |Bucket(patches, wall, t)| == 0
    ensures FaceRow(patches, wall, t) == Ones
  {
    forall b | 0 <= b < Bands
      ensures FaceRow(patches, wall, t)[b] == 1.0
    {
      var bucket := Bucket(patches, wall, t);
      FaceRowClosedForm(patches, wall, t, b);
      BlendExpanded(|bucket|, t, BandSum(bucket, b));
      NoRowsForm(|bucket| as real, t as real, BandSum(bucket, b));
    }
  }

  /** After clipping, a face with no confident row reads 0.9 in every band. */
  lemma EmptyFaceClipsToUpperBound(patches: seq<PatchRecord>, wall: string, t: nat)
    requires WellFormedTable(patches) && t >= 1
    requires |Bucket(patches, wall, t)| == 0
    ensures ClipRow(FaceRow(patches, wall, t)) == Repeat(Bands, ClipHigh)
  {
    EmptyFaceIsReflective(patches, wall, t);
  }

  /** A face with exactly `t` kept rows gets the plain per-band mean. */
  lemma FullFaceIsPlainMean(patches: seq<PatchRecord>, wall: string, t: nat, b: nat)
    requires WellFormedTable(patches) && t >= 1 && b < Bands
    requires |Bucket(patches, wall, t)| == t
    ensures AllRowsHaveBands(Bucket(patches, wall, t))
    ensures FaceRow(patches, wall, t)[b] == BandSum(Bucket(patches, wall, t), b) / t as real
  {
    var bucket := Bucket(patches, wall, t);
    FaceRowClosedForm(patches, wall, t, b);
    BlendExpanded(|bucket|, t, BandSum(bucket, b));
    FullRowsForm(|bucket| as real, t as real, BandSum(bucket, b));
  }

  /** With `k >= 1` kept rows of mean `m = s/k`, the row is the convex
      combination `lambda*m + (1-lambda)*1`, `lambda = k^2 / (k^2 + (t-k)^2)`. */
  lemma FaceRowIsConvexCombination(k: nat, t: nat, s: real)
    requires 1 <= k <= t
    ensures var K, T := k as real, t as real;
      var lambda := (K * K) / (K * K + (T - K) * (T - K));
      0.0 < lambda <= 1.0 &&
      Blend(k, t, s) == lambda * (s / K) + (1.0 - lambda) * 1.0
  {
    BlendExpanded(k, t, s);
    ConvexForm(k as real, t as real, s);
    EqChain(Blend(k, t, s),
            (k as real * s + (t as real - k as real) * (t as real - k as real))
              / (k as real * k as real + (t as real - k as real) * (t as real - k as real)),
            (k as real * k as real) / (k as real * k as real + (t as real - k as real) * (t as real - k as real)) * (s / k as real)
              + (1.0 - (k as real * k as real) / (k as real * k as real + (t as real - k as real) * (t as real - k as real))) * 1.0);
  }

  /** If the kept band coefficients are non-negative and sum to at most `k`
      (each at most 1), the entry lies in [0, 1]: padding only pulls it
      towards 1. */
  lemma FaceRowWithinUnit(k: nat, t: nat, s: real)
    requires 1 <= t && k <= t
    requires 0.0 <= s <= k as real
    ensures 0.0 <= Blend(k, t, s) <= 1.0
  {
    BlendExpanded(k, t, s);
    WithinUnitForm(k as real, t as real, s);
  }

  /** The code does not compute the linear blend `(k/t)*m + (t-k)/t`: for
      `k >= 1` the two agree only when `k = t`, `2k = t` or the mean is 1. */
  lemma BlendVersusLinearBlend(k: nat, t: nat, m: real)
    requires 1 <= k <= t
    ensures Blend(k, t, k as real * m) == k as real / t as real * m + (t as real - k as real) / t as real
        <==> (k == t || 2 * k == t || m == 1.0)
  {
    BlendExpanded(k, t, k as real * m);
    LinearGapForm(k as real, t as real, m);
  }

  /** One kept row of 0.1 out of three tiles gives 0.82, where the linear
      blend would give 0.7. */
  lemma BlendExample()
    ensures Blend(1, 3, 0.1) == 0.82
    ensures 1.0 / 3.0 * 0.1 + 2.0 / 3.0 == 0.7
  {
  }

  // ---------------------------------------------------------------------
  // Which rows can influence which face
  // ---------------------------------------------------------------------

  lemma {:induction false} ConfidentConcat(a: seq<PatchRecord>, b: seq<PatchRecord>, threshold: real)
    ensures Confident(a + b, threshold) == Confident(a, threshold) + Confident(b, threshold)
  {
    if a == [] {
      assert a + b == b;
    } else {
      assert (a + b)[0] == a[0] && (a + b)[1..] == a[1..] + b;
      ConfidentConcat(a[1..], b, threshold);
      var head, rest := [a[0]], Confident(a[1..], threshold);
      assert head + (rest + Confident(b, threshold)) == (head + rest) + Confident(b, threshold);
    }
  }

  lemma {:induction false} FacePatchesConcat(a: seq<PatchRecord>, b: seq<PatchRecord>, wall: string)
    ensures FacePatches(a + b, wall) == FacePatches(a, wall) + FacePatches(b, wall)
  {
    if a == [] {
      assert a + b == b;
    } else {
      assert (a + b)[0] == a[0] && (a + b)[1..] == a[1..] + b;
      FacePatchesConcat(a[1..], b, wall);
      var head, rest := [a[0].coeffs], FacePatches(a[1..], wall);
      assert head + (rest + FacePatches(b, wall)) == (head + rest) + FacePatches(b, wall);
    }
  }

  /** Raising the threshold never adds a row to any face's bucket. */
  lemma {:induction false} ThresholdMonotone(rows: seq<PatchRecord>, lo: real, hi: real, wall: string)
    requires lo <= hi
    ensures |FacePatches(Confident(rows, hi), wall)| <= |FacePatches(Confident(rows, lo), wall)|
  {
    if rows != [] {
      ThresholdMonotone(rows[1..], lo, hi, wall);
      ConfidentConcat([rows[0]], rows[1..], lo);
      ConfidentConcat([rows[0]], rows[1..], hi);
      FacePatchesConcat(Confident([rows[0]], lo), Confident(rows[1..], lo), wall);
      FacePatchesConcat(Confident([rows[0]], hi), Confident(rows[1..], hi), wall);
      assert [rows[0]] + rows[1..] == rows;
    }
  }

  /** When the rows before some position already hold `t` confident rows of
      a face, the face's bucket is exactly those first `t` rows. */
  lemma BucketOfFilledPrefix(pre: seq<PatchRecord>, rest: seq<PatchRecord>, wall: string, t: nat)
    requires |FacePatches(Confident(pre, ConfidenceThreshold), wall)| >= t
    ensures Bucket(Confident(pre + rest, ConfidenceThreshold), wall, t)
         == FacePatches(Confident(pre, ConfidenceThreshold), wall)[..t]
  {
    var thr := ConfidenceThreshold;
    ConfidentConcat(pre, rest, thr);
    FacePatchesConcat(Confident(pre, thr), Confident(rest, thr), wall);
    var a := FacePatches(Confident(pre, thr), wall);
    var b := FacePatches(Confident(rest, thr), wall);
    assert (a + b)[..t] == a[..t];
  }

  /** Once the first rows already give a face its `t` tiles, any row after
      them can change without changing that face's output row. */
  lemma LaterRowIrrelevant(pre: seq<PatchRecord>, x: PatchRecord, y: PatchRecord, post: seq<PatchRecord>, t: nat, i: nat)
    requires WellFormedTable(pre + [x] + post) && WellFormedTable(pre + [y] + post) && t >= 1
    requires i < |Walls|
    requires |FacePatches(Confident(pre, ConfidenceThreshold), Walls[i])| >= t
    ensures SurfaceMatrix(pre + [x] + post, t)[i] == SurfaceMatrix(pre + [y] + post, t)[i]
  {
    assert pre + [x] + post == pre + ([x] + post);
    assert pre + [y] + post == pre + ([y] + post);
    BucketOfFilledPrefix(pre, [x] + post, Walls[i], t);
    BucketOfFilledPrefix(pre, [y] + post, Walls[i], t);
  }

  lemma DropRowWellFormed(pre: seq<PatchRecord>, r: PatchRecord, post: seq<PatchRecord>)
    requires WellFormedTable(pre + [r] + post)
    ensures WellFormedTable(pre + post)
  {
    var whole := pre + [r] + post;
    forall i | 0 <= i < |pre + post|
      ensures |(pre + post)[i].coeffs| == Bands
    {
      if i < |pre| {
        assert (pre + post)[i] == whole[i];
      } else {
        assert (pre + post)[i] == whole[i + 1];
      }
    }
  }

  lemma ConfidentOfThree(pre: seq<PatchRecord>, r: PatchRecord, post: seq<PatchRecord>, threshold: real)
    ensures Confident(pre + [r] + post, threshold)
         == Confident(pre, threshold) + Confident([r], threshold) + Confident(post, threshold)
  {
    ConfidentConcat(pre + [r], post, threshold);
    ConfidentConcat(pre, [r], threshold);
  }

  lemma FacePatchesOfThree(a: seq<PatchRecord>, c: seq<PatchRecord>, d: seq<PatchRecord>, w: string)
    requires FacePatches(c, w) == []
    ensures FacePatches(a + c + d, w) == FacePatches(a + d, w)
  {
    FacePatchesConcat(a + c, d, w);
    FacePatchesConcat(a, c, w);
    FacePatchesConcat(a, d, w);
  }

  lemma OtherFaceRowHasNoPatches(r: PatchRecord, threshold: real, w: string)
    requires r.face != w
    ensures FacePatches(Confident([r], threshold), w) == []
  {
  }

  /** A row of another face contributes nothing to a face's rows. */
  lemma DropOtherFaceRow(pre: seq<PatchRecord>, r: PatchRecord, post: seq<PatchRecord>, w: string)
    requires r.face != w
    ensures FacePatches(Confident(pre + [r] + post, ConfidenceThreshold), w)
         == FacePatches(Confident(pre + post, ConfidenceThreshold), w)
  {
    ConfidentOfThree(pre, r, post, ConfidenceThreshold);
    ConfidentConcat(pre, post, ConfidenceThreshold);
    OtherFaceRowHasNoPatches(r, ConfidenceThreshold, w);
    FacePatchesOfThree(Confident(pre, ConfidenceThreshold), Confident([r], ConfidenceThreshold),
                       Confident(post, ConfidenceThreshold), w);
  }

  /** The matrix depends on the rows only through the six buckets. */
  lemma SameBucketsSameMatrix(p1: seq<PatchRecord>, p2: seq<PatchRecord>, t: nat)
    requires WellFormedTable(p1) && WellFormedTable(p2) && t >= 1
    requires forall i :: 0 <= i < |Walls| ==> Bucket(p1, Walls[i], t) == Bucket(p2, Walls[i], t)
    ensures AbsorptionMatrix(p1, t) == AbsorptionMatrix(p2, t)
  {
    forall i | 0 <= i < |Walls|
      ensures FaceRow(p1, Walls[i], t) == FaceRow(p2, Walls[i], t)
    {
    }
  }

  /** Rows whose face is none of the six walls change no row of the output. */
  lemma NonWallRowIrrelevant(pre: seq<PatchRecord>, r: PatchRecord, post: seq<PatchRecord>, t: nat)
    requires WellFormedTable(pre + [r] + post) && t >= 1
    requires r.face !in Walls
    ensures WellFormedTable(pre + post)
    ensures SurfaceMatrix(pre + [r] + post, t) == SurfaceMatrix(pre + post, t)
  {
    DropRowWellFormed(pre, r, post);
    forall i | 0 <= i < |Walls|
      ensures FacePatches(Confident(pre + [r] + post, ConfidenceThreshold), Walls[i])
           == FacePatches(Confident(pre + post, ConfidenceThreshold), Walls[i])
    {
      DropOtherFaceRow(pre, r, post, Walls[i]);
    }
    SameBucketsSameMatrix(Confident(pre + [r] + post, ConfidenceThreshold), Confident(pre + post, ConfidenceThreshold), t);
  }

  // ---------------------------------------------------------------------
  // The script itself: the loop over walls (lines 21-33), the clip
  // (line 38) and the configuration update (lines 9, 39)
  // ---------------------------------------------------------------------

  /** Lines 29-31: `weights` starts at zero, the first `k` entries become
      `k/t` and the rest `(t-k)/t`. */
  method FillWeights(k: nat, tilesPerWall: nat) returns (weights: array<real>)
    requires 1 <= tilesPerWall && k <= tilesPerWall
    ensures fresh(weights) && weights[..] == Weights(k, tilesPerWall)
  {
    weights := new real[tilesPerWall];
    var kept := k as real / tilesPerWall as real;
    var padded := (tilesPerWall as real - k as real) / tilesPerWall as real;
    for j := 0 to k
      invariant forall m :: 0 <= m < j ==> weights[m] == kept
    {
      weights[j] := kept;
    }
    for j := k to tilesPerWall
      invariant forall m :: 0 <= m < k ==> weights[m] == kept
      invariant forall m :: k <= m < j ==> weights[m] == padded
    {
      weights[j] := padded;
    }
    assert weights[..] == Repeat(k, kept) + Repeat(tilesPerWall - k, padded);
  }

  /** Lines 27 and 32: `wall_tiles` starts as all ones and its first rows
      are overwritten by the kept patches. */
  method FillTiles(wallPatches: seq<seq<real>>, tilesPerWall: nat) returns (wallTiles: array<seq<real>>)
    requires |wallPatches| <= tilesPerWall
    ensures fresh(wallTiles) && wallTiles[..] == PadTiles(wallPatches, tilesPerWall)
  {
    wallTiles := new seq<real>[tilesPerWall];
    for j := 0 to tilesPerWall
      invariant forall m :: 0 <= m < j ==> wallTiles[m] == Ones
    {
      wallTiles[j] := Ones;
    }
    var k := |wallPatches|;
    for j := 0 to k
      invariant forall m :: 0 <= m < j ==> wallTiles[m] == wallPatches[m]
      invariant forall m :: k <= m < tilesPerWall ==> wallTiles[m] == Ones
    {
      wallTiles[j] := wallPatches[j];
    }
    assert wallTiles[..] == wallPatches + Repeat(tilesPerWall - k, Ones);
  }

  /** One pass of the loop body (lines 22-33). */
  method WallRow(patches: seq<PatchRecord>, wall: string, tilesPerWall: nat) returns (row: seq<real>)
    requires WellFormedTable(patches) && tilesPerWall >= 1
    ensures row == FaceRow(patches, wall, tilesPerWall)
  {
    var wallPatches := FacePatches(patches, wall);
    if |wallPatches| > tilesPerWall {
      wallPatches := wallPatches[..tilesPerWall];
    }
    assert wallPatches == Bucket(patches, wall, tilesPerWall);
    var wallTiles := FillTiles(wallPatches, tilesPerWall);
    var weights := FillWeights(|wallPatches|, tilesPerWall);
    WeightSumPositive(|wallPatches|, tilesPerWall);
    PaddedRowsHaveBands(wallPatches, tilesPerWall);
    row := Average(wallTiles[..], weights[..]);
  }

  /** Lines 13-38: filter, the loop over the six walls into `out`, clip. */
  method SurfaceAbsorption(results: seq<PatchRecord>, tilesPerWall: nat) returns (out: seq<seq<real>>)
    requires WellFormedTable(results) && tilesPerWall >= 1
    ensures out == SurfaceMatrix(results, tilesPerWall)
  {
    var patches := Confident(results, ConfidenceThreshold);
    var rows := new seq<real>[|Walls|](_ => Repeat(Bands, 0.0));
    for i := 0 to |Walls|
      invariant forall m :: 0 <= m < i ==> rows[m] == FaceRow(patches, Walls[m], tilesPerWall)
    {
      rows[i] := WallRow(patches, Walls[i], tilesPerWall);
    }
    assert rows[..] == AbsorptionMatrix(patches, tilesPerWall);
    out := ClipMatrix(rows[..]);
  }

  // ---------------------------------------------------------------------
  // `int()` of the configured resolution (line 9)
  // ---------------------------------------------------------------------

  /** The ASCII whitespace `int()` strips from both ends of a string. */
  predicate IsSpace(ch: char)
  {
    ch == ' ' || ch == '\t' || ch == '\n' || ch == '\r' || ch == '\U{000B}' || ch == '\U{000C}'
  }

  predicate AllSpaces(s: string)
  {
    forall q :: 0 <= q < |s| ==> IsSpace(s[q])
  }

  /** `s` without its leading whitespace. */
  function TrimLeft(s: string): (t: string)
    ensures |t| <= |s| && t == s[|s| - |t|..]
    ensures AllSpaces(s[..|s| - |t|])
    ensures t == [] || !IsSpace(t[0])
  {
    if s != [] && IsSpace(s[0]) then
      var t := TrimLeft(s[1..]);
      assert s[1..][..|s| - 1 - |t|] == s[1..|s| - |t|];
      assert forall q :: 1 <= q < |s| - |t| ==> s[q] == s[1..|s| - |t|][q - 1];
      t
    else s
  }

  /** `s` without its trailing whitespace. */
  function TrimRight(s: string): (t: string)
    ensures |t| <= |s| && t == s[..|t|]
    ensures AllSpaces(s[|t|..])
    ensures t == [] || !IsSpace(t[|t| - 1])
  {
    if s != [] && IsSpace(s[|s| - 1]) then
      var t := TrimRight(s[..|s| - 1]);
      assert forall q :: 0 <= q < |s| - |t| - 1 ==> s[|t|..][q] == s[..|s| - 1][|t|..][q];
      assert s[|t|..][|s| - |t| - 1] == s[|s| - 1];
      t
    else s
  }

  function Strip(s: string): string
  {
    TrimRight(TrimLeft(s))
  }

  /** The body of a decimal integer literal, `digit ('_'? digit)*`:
      digits, with single underscores allowed between two digits. */
  predicate IsDigitGroups(s: string)
    decreases |s|
  {
    && |s| >= 1 && IsDigit(s[0])
    && (|s| == 1 || IsDigitGroups(s[1..]) || (|s| >= 3 && s[1] == '_' && IsDigitGroups(s[2..])))
  }

  /** A literal body holds only digits and underscores, and ends in a digit. */
  lemma {:induction false} GroupsChars(s: string)
    requires IsDigitGroups(s)
    ensures forall q :: 0 <= q < |s| ==> IsDigit(s[q]) || s[q] == '_'
    ensures IsDigit(s[|s| - 1])
    decreases |s|
  {
    if |s| > 1 {
      if IsDigitGroups(s[1..]) {
        GroupsChars(s[1..]);
        assert forall q :: 1 <= q < |s| ==> s[q] == s[1..][q - 1];
      } else {
        GroupsChars(s[2..]);
        assert forall q :: 2 <= q < |s| ==> s[q] == s[2..][q - 2];
      }
    }
  }

  function DropUnderscores(s: string): (d: string)
    requires forall q :: 0 <= q < |s| ==> IsDigit(s[q]) || s[q] == '_'
    ensures forall q :: 0 <= q < |d| ==> IsDigit(d[q])
  {
    if s == [] then [] else (if s[0] == '_' then [] else [s[0]]) + DropUnderscores(s[1..])
  }

  function GroupsValue(s: string): nat
    requires IsDigitGroups(s)
  {
    GroupsChars(s);
    ParseDecimal(DropUnderscores(s))
  }

  predicate IsSign(ch: char)
  {
    ch == '+' || ch == '-'
  }

  /** A stripped literal: an optional sign, then digit groups. A negative
      value needs a leading minus, and a leading minus never gives a
      positive value. */
  function ParseSigned(t: string): (r: Option<int>)
    ensures r.Some? ==> t != [] && IsDigit(t[|t| - 1])
    ensures r.Some? && r.value < 0 ==> t[0] == '-'
    ensures r.Some? && t[0] == '-' ==> r.value <= 0
  {
    if t != [] && IsSign(t[0]) then
      if IsDigitGroups(t[1..]) then
        GroupsChars(t[1..]);
        var v: int := GroupsValue(t[1..]);
        Some(if t[0] == '-' then -v else v)
      else None
    else if IsDigitGroups(t) then
      GroupsChars(t);
      Some(GroupsValue(t))
    else None
  }

  /** `int(s)` for a string: whitespace stripped from both ends, an
      optional sign, then digit groups; any other string raises
      `ValueError`, which is `None` here. */
  function ParseIntLiteral(s: string): (r: Option<int>)
    ensures r.Some? ==> exists i, j :: 0 <= i < j <= |s| && AllSpaces(s[..i]) && AllSpaces(s[j..]) && ParseSigned(s[i..j]) == r
  {
    var left := TrimLeft(s);
    var t := TrimRight(left);
    StripBounds(s, left, t);
    ParseSigned(t)
  }

  /** Where the stripped literal sits in `s`: after `i` spaces and before
      spaces only. */
  lemma {:induction false} StripBounds(s: string, left: string, t: string)
    requires left == TrimLeft(s) && t == TrimRight(left)
    ensures var i := |s| - |left|;
            i + |t| <= |s| && t == s[i..i + |t|] && AllSpaces(s[..i]) && AllSpaces(s[i + |t|..])
  {
    var i := |s| - |left|;
    assert left == s[i..];
    assert t == left[..|t|];
    assert s[i + |t|..] == left[|t|..];
  }

  /** `str(n)`: an optional minus sign and the digits of `|n|`. */
  function IntToString(n: int): (s: string)
    ensures s != [] && !IsSpace(s[0]) && !IsSpace(s[|s| - 1])
  {
    if n < 0 then "-" + NatToString(-n) else NatToString(n)
  }

  lemma {:induction false} DropUnderscoresOfDigits(s: string)
    requires forall q :: 0 <= q < |s| ==> IsDigit(s[q])
    ensures DropUnderscores(s) == s
  {
    if s != [] {
      DropUnderscoresOfDigits(s[1..]);
    }
  }

  lemma {:induction false} TrimLeftSpaces(pre: string, x: string)
    requires AllSpaces(pre) && x != [] && !IsSpace(x[0])
    ensures TrimLeft(pre + x) == x
  {
    if pre != [] {
      assert (pre + x)[1..] == pre[1..] + x;
      TrimLeftSpaces(pre[1..], x);
    } else {
      assert pre + x == x;
    }
  }

  lemma {:induction false} TrimRightSpaces(x: string, post: string)
    requires AllSpaces(post) && x != [] && !IsSpace(x[|x| - 1])
    ensures TrimRight(x + post) == x
  {
    if post != [] {
      assert (x + post)[..|x + post| - 1] == x + post[..|post| - 1];
      TrimRightSpaces(x, post[..|post| - 1]);
    } else {
      assert x + post == x;
    }
  }

  lemma {:induction false} StripPadded(pre: string, x: string, post: string)
    requires AllSpaces(pre) && AllSpaces(post)
    requires x != [] && !IsSpace(x[0]) && !IsSpace(x[|x| - 1])
    ensures Strip(pre + x + post) == x
  {
    TrimLeftSpaces(pre, x + post);
    assert pre + x + post == pre + (x + post);
    TrimRightSpaces(x, post);
  }

  /** A plain run of digits is a literal body worth its decimal reading. */
  lemma {:induction false} DigitsAreGroups(d: string)
    requires |d| >= 1 && forall q :: 0 <= q < |d| ==> IsDigit(d[q])
    ensures IsDigitGroups(d) && GroupsValue(d) == ParseDecimal(d)
    decreases |d|
  {
    if |d| > 1 {
      DigitsAreGroups(d[1..]);
    }
    DropUnderscoresOfDigits(d);
  }

  /** A run of digits, bare or after a minus sign, reads as its value. */
  lemma {:induction false} ParseSignedDigits(d: string)
    requires |d| >= 1 && forall q :: 0 <= q < |d| ==> IsDigit(d[q])
    ensures ParseSigned(d) == Some(ParseDecimal(d))
    ensures ParseSigned("-" + d) == Some(0 - ParseDecimal(d) as int)
  {
    DigitsAreGroups(d);
    var v := GroupsValue(d);
    assert v == ParseDecimal(d);
    UnsignedGroups(d);
    assert ParseSigned(d) == Some(v as int);
    NegatedGroups(d);
    assert ParseSigned("-" + d) == Some(0 - v as int);
  }

  lemma {:induction false} UnsignedGroups(d: string)
    requires IsDigitGroups(d)
    ensures ParseSigned(d) == Some(GroupsValue(d))
  {
    assert !IsSign(d[0]);
  }

  lemma {:induction false} NegatedGroups(d: string)
    requires IsDigitGroups(d)
    ensures ParseSigned("-" + d) == Some(0 - GroupsValue(d) as int)
  {
    var t := "-" + d;
    assert t[0] == '-' && t[1..] == d;
  }

  lemma {:induction false} PlusGroups(d: string)
    requires IsDigitGroups(d)
    ensures ParseSigned("+" + d) == Some(GroupsValue(d))
  {
    var t := "+" + d;
    assert t[0] == '+' && t[1..] == d;
  }

  lemma {:induction false} ParseSignedIntToString(n: int)
    ensures ParseSigned(IntToString(n)) == Some(n)
  {
    var m: nat := if n < 0 then -n else n;
    ParseSignedDigits(NatToString(m));
    ParseNatToString(m);
  }

  /** `int(str(n))` is `n`, also with whitespace around the digits: the
      resolution may be written as a number or as a string. */
  lemma {:induction false} IntLiteralPadded(pre: string, n: int, post: string)
    requires AllSpaces(pre) && AllSpaces(post)
    ensures ParseIntLiteral(pre + IntToString(n) + post) == Some(n)
  {
    StripPadded(pre, IntToString(n), post);
    ParseSignedIntToString(n);
  }

  /** A literal with no whitespace at its ends is read as it stands. */
  lemma {:induction false} ParseIntLiteralBare(x: string)
    requires x != [] && !IsSpace(x[0]) && !IsSpace(x[|x| - 1])
    ensures ParseIntLiteral(x) == ParseSigned(x)
  {
    StripPadded("", x, "");
    assert "" + x + "" == x;
  }

  /** `int()` accepts underscores between digits. */
  lemma IntLiteralUnderscore()
    ensures ParseIntLiteral("1_2") == Some(12)
  {
    ParseIntLiteralBare("1_2");
    assert IsDigitGroups("1_2") by { assert "1_2"[2..] == "2"; }
    assert DropUnderscores("1_2") == "12" by {
      assert "1_2"[1..] == "_2" && "_2"[1..] == "2" && "2"[1..] == "";
    }
    assert ParseDecimal("12") == 12 by {
      assert "12"[..1] == "1" && "1"[..0] == "";
    }
  }

  /** `int()` accepts a sign and surrounding whitespace. */
  lemma IntLiteralSigned()
    ensures ParseIntLiteral(" +12 ") == Some(12)
  {
    var d := "12";
    StripPadded(" ", "+" + d, " ");
    assert " " + ("+" + d) + " " == " +12 ";
    DigitsAreGroups(d);
    PlusGroups(d);
    assert ParseDecimal(d) == 12 by {
      assert d[..1] == "1" && "1"[..0] == "";
    }
  }

  /** `int()` rejects a doubled underscore. */
  lemma IntLiteralDoubleUnderscore()
    ensures ParseIntLiteral("1__2") == None
  {
    var t := "1__2";
    ParseIntLiteralBare(t);
    assert !IsSign(t[0]);
    assert !IsDigitGroups(t[1..]) by { assert t[1..][0] == '_'; }
    assert !IsDigitGroups(t[2..]) by { assert t[2..][0] == '_'; }
  }

  /** `int()` rejects a decimal point. */
  lemma IntLiteralDecimalPoint()
    ensures ParseIntLiteral("12.0") == None
  {
    var t := "12.0";
    ParseIntLiteralBare(t);
    assert !IsSign(t[0]) && t[1] != '_';
    var u := t[1..];
    assert u[1] == '.';
    assert !IsDigitGroups(u[1..]) by { assert u[1..][0] == '.'; }
    assert !IsDigitGroups(u);
  }

  /** `int()` rejects a string of whitespace only. */
  lemma IntLiteralBlank()
    ensures ParseIntLiteral("  ") == None
  {
    assert "  "[1..] == " ";
    assert " "[1..] == "";
    assert TrimLeft("  ") == [];
  }

  /** `int(x)` on a value `json.load` produced: numbers truncate toward
      zero, booleans count as 0/1, strings are read as integer literals;
      `None`, lists and objects raise. */
  function IntOfJson(v: Json): (r: Option<int>)
    ensures v.JInt? ==> r == Some(v.i)
    ensures v.JBool? ==> r == Some(if v.b then 1 else 0)
    ensures v.JReal? ==> r.Some? && -1.0 < v.r - r.value as real < 1.0
    ensures v.JReal? && v.r >= 0.0 ==> r == Some(v.r.Floor)
    ensures v.JStr? ==> r == ParseIntLiteral(v.s)
    ensures v.JNull? || v.JArray? || v.JObject? ==> r == None
  {
    match v
    case JInt(i) => Some(i)
    case JBool(b) => Some(if b then 1 else 0)
    case JReal(x) => Some(if x >= 0.0 then x.Floor else -((-x).Floor))
    case JStr(s) => ParseIntLiteral(s)
    case _ => None
  }

  /** `conf['GeometryReduction']['MarchingCubesResolution']` as an int (line 9). */
  function Resolution(conf: map<string, Json>): (r: Option<int>)
    ensures r.Some? ==> "GeometryReduction" in conf && conf["GeometryReduction"].JObject?
  {
    if "GeometryReduction" in conf && conf["GeometryReduction"].JObject?
       && "MarchingCubesResolution" in conf["GeometryReduction"].fields
    then IntOfJson(conf["GeometryReduction"].fields["MarchingCubesResolution"])
    else None
  }

  /** A resolution written as the number `n` or as a string holding
      `n` is read as `n`. */
  lemma {:induction false} ResolutionNumberOrString(conf: map<string, Json>, pre: string, n: int, post: string)
    requires "GeometryReduction" in conf && conf["GeometryReduction"].JObject?
    requires "MarchingCubesResolution" in conf["GeometryReduction"].fields
    requires AllSpaces(pre) && AllSpaces(post)
    requires conf["GeometryReduction"].fields["MarchingCubesResolution"] in {JInt(n), JStr(pre + IntToString(n) + post)}
    ensures Resolution(conf) == Some(n)
  {
    IntLiteralPadded(pre, n, post);
  }

  /** `out.tolist()` as JSON. */
  function MatrixJson(m: seq<seq<real>>): (j: Json)
    ensures j.JArray? && |j.items| == |m|
    ensures forall i :: 0 <= i < |m| ==> j.items[i].JArray? && |j.items[i].items| == |m[i]|
    ensures forall i, b :: 0 <= i < |m| && 0 <= b < |m[i]| ==> j.items[i].items[b] == JReal(m[i][b])
  {
    JArray(seq(|m|, i requires 0 <= i < |m| => JArray(seq(|m[i]|, b requires 0 <= b < |m[i]| => JReal(m[i][b])))))
  }

  /** The whole script, with the files as values: the parsed configuration
      and the result table in; the configuration to write back, or the
      exception that stops the script, out. */
  method CalculateAbsorption(conf: map<string, Json>, results: seq<PatchRecord>)
      returns (r: Result<map<string, Json>, AbsorptionError>)
    requires WellFormedTable(results)
    ensures Resolution(conf).None? ==> r == Err(MissingResolution)
    ensures Resolution(conf).Some? && Resolution(conf).value < 0 ==> r == Err(NegativeTiles)
    ensures Resolution(conf) == Some(0) ==> r == Err(ZeroTiles)
    ensures Resolution(conf).Some? && Resolution(conf).value >= 1 ==>
      if "IR" in conf && conf["IR"].JObject? then
        r.Ok? &&
        r.value.Keys == conf.Keys &&
        (forall key :: key in conf && key != "IR" ==> r.value[key] == conf[key]) &&
        r.value["IR"] == JObject(conf["IR"].fields["SurfaceAbsorption" := MatrixJson(SurfaceMatrix(results, Resolution(conf).value))])
      else r == Err(MissingIRSection)
  {
    var resolution := Resolution(conf);
    if resolution.None? {
      return Err(MissingResolution);
    }
    var tilesPerWall := resolution.value;
    if tilesPerWall < 0 {
      return Err(NegativeTiles);
    }
    if tilesPerWall == 0 {
      return Err(ZeroTiles);
    }
    var out := SurfaceAbsorption(results, tilesPerWall);
    if !("IR" in conf && conf["IR"].JObject?) {
      return Err(MissingIRSection);
    }
    var ir := conf["IR"].fields["SurfaceAbsorption" := MatrixJson(out)];
    r := Ok(conf["IR" := JObject(ir)]);
  }
}
