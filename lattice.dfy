/** Three-dimensional lattices stored row-major in one flat buffer, and
    the cube lattice of sample positions centred on a point. */
module Lattice {
  import opened Geometry
  import opened RowMajor

  /** An `(i, j, k)` lattice index. */
  datatype Index3 = Index3(i: nat, j: nat, k: nat)

  predicate InBounds(ijk: Index3, sizeX: nat, sizeY: nat, sizeZ: nat)
  {
    ijk.i < sizeX && ijk.j < sizeY && ijk.k < sizeZ
  }

  /** `i * sizeY * sizeZ + j * sizeZ + k`. */
  function LinearIndex(ijk: Index3, sizeY: nat, sizeZ: nat): nat
  {
    ijk.i * sizeY * sizeZ + ijk.j * sizeZ + ijk.k
  }

  /** The flat position of `(i, j, k)` is a two-level row-major index:
      row `i * sizeY + j` of width `sizeZ`. */
  lemma LinearIndexNested(ijk: Index3, sizeY: nat, sizeZ: nat)
    ensures LinearIndex(ijk, sizeY, sizeZ) == Index2(Index2(ijk.i, ijk.j, sizeY), ijk.k, sizeZ)
  {
    assert (ijk.i * sizeY + ijk.j) * sizeZ == ijk.i * sizeY * sizeZ + ijk.j * sizeZ;
  }

  /** An in-range index lands inside the buffer. */
  lemma LinearIndexBounds(ijk: Index3, sizeX: nat, sizeY: nat, sizeZ: nat)
    requires InBounds(ijk, sizeX, sizeY, sizeZ)
    ensures LinearIndex(ijk, sizeY, sizeZ) < sizeX * sizeY * sizeZ
  {
    LinearIndexNested(ijk, sizeY, sizeZ);
    Index2Bounds(ijk.i, ijk.j, sizeY, sizeX);
    Index2Bounds(Index2(ijk.i, ijk.j, sizeY), ijk.k, sizeZ, sizeX * sizeY);
  }

  /** The `(i, j, k)` a flat position stands for. */
  function Decompose(n: nat, sizeY: nat, sizeZ: nat): Index3
  {
    if sizeY == 0 || sizeZ == 0 then Index3(0, 0, 0)
    else Index3(n / sizeZ / sizeY, n / sizeZ % sizeY, n % sizeZ)
  }

  /** The flat index determines the lattice index. */
  lemma DecomposeLinear(ijk: Index3, sizeX: nat, sizeY: nat, sizeZ: nat)
    requires InBounds(ijk, sizeX, sizeY, sizeZ)
    ensures Decompose(LinearIndex(ijk, sizeY, sizeZ), sizeY, sizeZ) == ijk
  {
    LinearIndexNested(ijk, sizeY, sizeZ);
    Index2Decode(Index2(ijk.i, ijk.j, sizeY), ijk.k, sizeZ);
    Index2Decode(ijk.i, ijk.j, sizeY);
  }

  lemma LinearIndexInjective(a: Index3, b: Index3, sizeX: nat, sizeY: nat, sizeZ: nat)
    requires InBounds(a, sizeX, sizeY, sizeZ) && InBounds(b, sizeX, sizeY, sizeZ)
    requires LinearIndex(a, sizeY, sizeZ) == LinearIndex(b, sizeY, sizeZ)
    ensures a == b
  {
    DecomposeLinear(a, sizeX, sizeY, sizeZ);
    DecomposeLinear(b, sizeX, sizeY, sizeZ);
  }

  /** Every position of the buffer is some in-range lattice index. */
  lemma DecomposeCovers(n: nat, sizeX: nat, sizeY: nat, sizeZ: nat)
    requires n < sizeX * sizeY * sizeZ
    ensures InBounds(Decompose(n, sizeY, sizeZ), sizeX, sizeY, sizeZ)
    ensures LinearIndex(Decompose(n, sizeY, sizeZ), sizeY, sizeZ) == n
  {
    Index2Cover(n, sizeZ, sizeX * sizeY);
    Index2Cover(n / sizeZ, sizeY, sizeX);
    LinearIndexNested(Decompose(n, sizeY, sizeZ), sizeY, sizeZ);
  }

  /** Only the flat position of `ijk` decodes to `ijk`. */
  lemma DecodesOnlyFrom(n: nat, ijk: Index3, sizeX: nat, sizeY: nat, sizeZ: nat)
    requires n < sizeX * sizeY * sizeZ && InBounds(ijk, sizeX, sizeY, sizeZ)
    requires Decompose(n, sizeY, sizeZ) == ijk
    ensures n == LinearIndex(ijk, sizeY, sizeZ)
  {
    DecomposeCovers(n, sizeX, sizeY, sizeZ);
  }

  /** Stepping `k` past its last value moves to the next `j`, and stepping
      `j` past its last value to the next `i`. */
  lemma NextLinear(i: nat, j: nat, sizeY: nat, sizeZ: nat)
    ensures LinearIndex(Index3(i, j, sizeZ), sizeY, sizeZ) == LinearIndex(Index3(i, j + 1, 0), sizeY, sizeZ)
    ensures LinearIndex(Index3(i, sizeY, 0), sizeY, sizeZ) == LinearIndex(Index3(i + 1, 0, 0), sizeY, sizeZ)
  {
    assert (i + 1) * sizeY * sizeZ == i * sizeY * sizeZ + sizeY * sizeZ;
  }

  /** A lattice of values stored row-major: `k` fastest, then `j`, then
      `i`. */
  class Lattice3D<T> {
    const sizeX: nat
    const sizeY: nat
    const sizeZ: nat
    var data: seq<T>

    predicate Valid()
      reads this
    {
      |data| == sizeX * sizeY * sizeZ
    }

    /** A lattice of `sizeX * sizeY * sizeZ` copies of `fill`. */
    constructor (x: nat, y: nat, z: nat, fill: T)
      ensures sizeX == x && sizeY == y && sizeZ == z && Valid()
      ensures forall n :: 0 <= n < |data| ==> data[n] == fill
    {
      sizeX, sizeY, sizeZ := x, y, z;
      data := seq(x * y * z, _ => fill);
    }

    function ToLinearIndex(ijk: Index3): nat
    {
      LinearIndex(ijk, sizeY, sizeZ)
    }

    /** The element at a flat position. */
    function At(linearIndex: nat): T
      reads this
      requires linearIndex < |data|
    {
      data[linearIndex]
    }

    /** The element at a lattice index. */
    function AtIndex(ijk: Index3): T
      reads this
      requires Valid() && InBounds(ijk, sizeX, sizeY, sizeZ)
    {
      LinearIndexBounds(ijk, sizeX, sizeY, sizeZ);
      data[ToLinearIndex(ijk)]
    }

    function GetValue(i: nat, j: nat, k: nat): T
      reads this
      requires Valid() && InBounds(Index3(i, j, k), sizeX, sizeY, sizeZ)
    {
      AtIndex(Index3(i, j, k))
    }

    /** Assignment through the reference `getValue(i, j, k)` returns. */
    method SetValue(i: nat, j: nat, k: nat, value: T)
      requires Valid() && InBounds(Index3(i, j, k), sizeX, sizeY, sizeZ)
      modifies this
      ensures Valid() && ToLinearIndex(Index3(i, j, k)) < |old(data)|
      ensures data == old(data)[ToLinearIndex(Index3(i, j, k)) := value]
    {
      LinearIndexBounds(Index3(i, j, k), sizeX, sizeY, sizeZ);
      data := data[ToLinearIndex(Index3(i, j, k)) := value];
    }
  }

  /** `getValue(i, j, k)`, `operator[]` on `{i, j, k}` and `operator[]` on
      the flat index all address the same element, and setting one
      element leaves every other one as it was. */
  lemma SameElement<T>(lattice: Lattice3D<T>, ijk: Index3, other: Index3, value: T)
    requires lattice.Valid() && InBounds(ijk, lattice.sizeX, lattice.sizeY, lattice.sizeZ)
    requires InBounds(other, lattice.sizeX, lattice.sizeY, lattice.sizeZ) && other != ijk
    ensures lattice.ToLinearIndex(ijk) < |lattice.data|
    ensures lattice.GetValue(ijk.i, ijk.j, ijk.k) == lattice.AtIndex(ijk) == lattice.At(lattice.ToLinearIndex(ijk))
    ensures lattice.ToLinearIndex(other) < |lattice.data|
    ensures lattice.data[lattice.ToLinearIndex(ijk) := value][lattice.ToLinearIndex(other)] == lattice.AtIndex(other)
  {
    LinearIndexBounds(ijk, lattice.sizeX, lattice.sizeY, lattice.sizeZ);
    LinearIndexBounds(other, lattice.sizeX, lattice.sizeY, lattice.sizeZ);
    if lattice.ToLinearIndex(ijk) == lattice.ToLinearIndex(other) {
      LinearIndexInjective(ijk, other, lattice.sizeX, lattice.sizeY, lattice.sizeZ);
    }
  }

  // ---------------------------------------------------------------------
  // The cube lattice of sample positions
  // ---------------------------------------------------------------------

  /** Coordinate `index` along an axis of `size` points: `index *
      spacing` shifted so the middle of the axis sits on `centre`. */
  function LatticeCoordinate(index: nat, spacing: real, size: nat, centre: real): real
  {
    Offset(index, spacing, CentreAdjust(spacing, size, centre))
  }

  /** Where index 0 sits so that the middle of `size` points is `centre`. */
  function CentreAdjust(spacing: real, size: nat, centre: real): real
  {
    -spacing * (size as real - 1.0) / 2.0 + centre
  }

  function Offset(index: nat, spacing: real, adjust: real): real
  {
    index as real * spacing + adjust
  }

  function LatticePoint(ijk: Index3, spacing: real, sizeX: nat, sizeY: nat, sizeZ: nat, centre: Point): Point
  {
    Point(LatticeCoordinate(ijk.i, spacing, sizeX, centre.x),
          LatticeCoordinate(ijk.j, spacing, sizeY, centre.y),
          LatticeCoordinate(ijk.k, spacing, sizeZ, centre.z))
  }

  /** Mirror points along an axis average to the centre, and neighbours
      are `spacing` apart. */
  lemma LatticeSymmetric(index: nat, spacing: real, size: nat, centre: real)
    requires index < size
    ensures LatticeCoordinate(index, spacing, size, centre) + LatticeCoordinate(size - 1 - index, spacing, size, centre) == 2.0 * centre
    ensures LatticeCoordinate(index + 1, spacing, size, centre) - LatticeCoordinate(index, spacing, size, centre) == spacing
  {
    Distribute(index as real, (size - 1 - index) as real, spacing);
    assert index as real + (size - 1 - index) as real == size as real - 1.0;
    Distribute(index as real, 1.0, spacing);
  }

  lemma Distribute(a: real, b: real, s: real)
    ensures a * s + b * s == (a + b) * s
  {
  }

  /** Fills one `k` row of the lattice with its sample positions. */
  method FillLatticeRow(lattice: Lattice3D<Point>, spacing: real, centre: Point, i: nat, j: nat)
    requires lattice.Valid() && i < lattice.sizeX && j < lattice.sizeY
    requires forall n :: 0 <= n < LinearIndex(Index3(i, j, 0), lattice.sizeY, lattice.sizeZ) && n < |lattice.data| ==>
      lattice.data[n] == LatticePoint(Decompose(n, lattice.sizeY, lattice.sizeZ), spacing, lattice.sizeX, lattice.sizeY, lattice.sizeZ, centre)
    modifies lattice
    ensures lattice.Valid()
    ensures forall n :: 0 <= n < LinearIndex(Index3(i, j + 1, 0), lattice.sizeY, lattice.sizeZ) && n < |lattice.data| ==>
      lattice.data[n] == LatticePoint(Decompose(n, lattice.sizeY, lattice.sizeZ), spacing, lattice.sizeX, lattice.sizeY, lattice.sizeZ, centre)
  {
    var centreAdjustX := CentreAdjust(spacing, lattice.sizeX, centre.x);
    var centreAdjustY := CentreAdjust(spacing, lattice.sizeY, centre.y);
    var centreAdjustZ := CentreAdjust(spacing, lattice.sizeZ, centre.z);
    for k := 0 to lattice.sizeZ
      invariant lattice.Valid()
      invariant forall n :: 0 <= n < LinearIndex(Index3(i, j, k), lattice.sizeY, lattice.sizeZ) && n < |lattice.data| ==>
        lattice.data[n] == LatticePoint(Decompose(n, lattice.sizeY, lattice.sizeZ), spacing, lattice.sizeX, lattice.sizeY, lattice.sizeZ, centre)
    {
      DecomposeLinear(Index3(i, j, k), lattice.sizeX, lattice.sizeY, lattice.sizeZ);
      lattice.SetValue(i, j, k, Point(Offset(i, spacing, centreAdjustX), Offset(j, spacing, centreAdjustY),
                                      Offset(k, spacing, centreAdjustZ)));
      assert lattice.data[LinearIndex(Index3(i, j, k), lattice.sizeY, lattice.sizeZ)]
        == LatticePoint(Index3(i, j, k), spacing, lattice.sizeX, lattice.sizeY, lattice.sizeZ, centre);
      assert LinearIndex(Index3(i, j, k + 1), lattice.sizeY, lattice.sizeZ) == LinearIndex(Index3(i, j, k), lattice.sizeY, lattice.sizeZ) + 1;
    }
    NextLinear(i, j, lattice.sizeY, lattice.sizeZ);
  }

  /** Overwrites every element with its sample position. */
  method ComputeLatticeVertices(lattice: Lattice3D<Point>, spacing: real, centre: Point)
    requires lattice.Valid()
    modifies lattice
    ensures lattice.Valid()
    ensures forall n :: 0 <= n < |lattice.data| ==>
      lattice.data[n] == LatticePoint(Decompose(n, lattice.sizeY, lattice.sizeZ), spacing, lattice.sizeX, lattice.sizeY, lattice.sizeZ, centre)
  {
    for i := 0 to lattice.sizeX
      invariant lattice.Valid()
      invariant forall n :: 0 <= n < LinearIndex(Index3(i, 0, 0), lattice.sizeY, lattice.sizeZ) && n < |lattice.data| ==>
        lattice.data[n] == LatticePoint(Decompose(n, lattice.sizeY, lattice.sizeZ), spacing, lattice.sizeX, lattice.sizeY, lattice.sizeZ, centre)
    {
      for j := 0 to lattice.sizeY
        invariant lattice.Valid()
        invariant forall n :: 0 <= n < LinearIndex(Index3(i, j, 0), lattice.sizeY, lattice.sizeZ) && n < |lattice.data| ==>
          lattice.data[n] == LatticePoint(Decompose(n, lattice.sizeY, lattice.sizeZ), spacing, lattice.sizeX, lattice.sizeY, lattice.sizeZ, centre)
      {
        FillLatticeRow(lattice, spacing, centre, i, j);
      }
      NextLinear(i, lattice.sizeY, lattice.sizeY, lattice.sizeZ);
    }
    assert LinearIndex(Index3(lattice.sizeX, 0, 0), lattice.sizeY, lattice.sizeZ) == |lattice.data|;
  }

  /** A cube lattice: `sizeX * sizeY * sizeZ` sample positions `spacing`
      apart around `centre`. */
  method NewCubeLattice(spacing: real, centre: Point, sizeX: nat, sizeY: nat, sizeZ: nat) returns (lattice: Lattice3D<Point>)
    ensures fresh(lattice) && lattice.Valid() && |lattice.data| == sizeX * sizeY * sizeZ
    ensures lattice.sizeX == sizeX && lattice.sizeY == sizeY && lattice.sizeZ == sizeZ
    ensures forall ijk :: InBounds(ijk, sizeX, sizeY, sizeZ) ==>
      lattice.AtIndex(ijk) == LatticePoint(ijk, spacing, sizeX, sizeY, sizeZ, centre)
  {
    lattice := new Lattice3D(sizeX, sizeY, sizeZ, Point(0.0, 0.0, 0.0));
    ComputeLatticeVertices(lattice, spacing, centre);
    forall ijk | InBounds(ijk, sizeX, sizeY, sizeZ)
      ensures lattice.AtIndex(ijk) == LatticePoint(ijk, spacing, sizeX, sizeY, sizeZ, centre)
    {
      LinearIndexBounds(ijk, sizeX, sizeY, sizeZ);
      DecomposeLinear(ijk, sizeX, sizeY, sizeZ);
    }
  }
}
