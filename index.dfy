/** Row-major index arithmetic shared by the lattices, pixel buffers,
    interleaved audio and the voxel field. */
module RowMajor {

  /** A multiple of a positive `b` strictly between `-b` and `b` is zero. */
  lemma SmallMultiple(x: int, b: int)
    requires b > 0 && -b < x * b < b
    ensures x == 0
  {
  }

  /** Euclidean division recovers the row and the column of `q*b + r`. */
  lemma DivModRowMajor(q: int, r: int, b: int)
    requires b > 0 && 0 <= r < b
    ensures (q * b + r) / b == q && (q * b + r) % b == r
  {
    var n := q * b + r;
    var d := n / b;
    assert n == d * b + n % b;
    assert (q - d) * b == q * b - d * b;
    SmallMultiple(q - d, b);
  }

  /** Two-level index `row * width + column`. */
  function Index2(row: int, column: int, width: int): int
  {
    row * width + column
  }

  lemma Index2Bounds(row: nat, column: nat, width: nat, height: nat)
    requires row < height && column < width
    ensures 0 <= Index2(row, column, width) < height * width
  {
    assert row * width + column < (row + 1) * width;
    assert (row + 1) * width <= height * width;
  }

  lemma Index2Decode(row: nat, column: nat, width: nat)
    requires column < width
    ensures Index2(row, column, width) / width == row
    ensures Index2(row, column, width) % width == column
  {
    DivModRowMajor(row, column, width);
  }

  lemma Index2Injective(r1: nat, c1: nat, r2: nat, c2: nat, width: nat)
    requires c1 < width && c2 < width
    requires Index2(r1, c1, width) == Index2(r2, c2, width)
    ensures r1 == r2 && c1 == c2
  {
    Index2Decode(r1, c1, width);
    Index2Decode(r2, c2, width);
  }

  /** Every flat index below `height * width` is some `(row, column)`. */
  lemma Index2Cover(n: nat, width: nat, height: nat)
    requires n < height * width
    ensures width > 0 && n / width < height && n % width < width
    ensures Index2(n / width, n % width, width) == n
  {
    assert width > 0;
    Index2Decode(n / width, n % width, width);
  }
}
