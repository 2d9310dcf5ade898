/** The height-map voxel field: a 30 x 30 x 30 grid of occupancy values
    built from a grey-scale image, one column per sampled pixel. */
module Terrain {
  import opened Geometry
  import opened RowMajor

  /** Edge length of the voxel cube in every direction. */
  const Side := 30

  /** Number of voxels, `30 * 30 * 30`. */
  const Voxels := 27000

  /** `floor((i / 30) * extent)` for a non-negative sample position,
      written as integer division. */
  function SurfaceCoordinate(i: nat, extent: nat): nat
  {
    (i * extent) / Side
  }

  /** The image index the column `(i, j)` samples: the x coordinate
      times the image width plus the z coordinate. */
  function SampleIndex(i: nat, j: nat, width: nat, height: nat): nat
  {
    SurfaceCoordinate(i, width) * width + SurfaceCoordinate(j, height)
  }

  /** Every column samples a pixel inside the image. The source reads the
      image without a check, so this is what it demands of the image. */
  predicate ImageCovers(image: seq<Byte>, width: nat, height: nat)
  {
    forall i: nat, j: nat {:trigger SampleIndex(i, j, width, height)} ::
      i < Side && j < Side ==> SampleIndex(i, j, width, height) < |image|
  }

  /** The column height `(grey / 255) * 0.2`. */
  function HeightValue(grey: Byte): real
  {
    (grey as real / 255.0) * 0.2
  }

  /** Occupancy of level `k` of a column whose pixel is `grey`:
      1.0 when `heightValue * 30 >= k`, else 0.0. */
  function Level(grey: Byte, k: nat): real
  {
    if HeightValue(grey) * (Side as real) >= k as real then 1.0 else 0.0
  }

  /** The value of voxel `(i, j, k)`: level `k` of column `(i, j)`. */
  function Voxel(image: seq<Byte>, width: nat, height: nat, i: nat, j: nat, k: nat): real
    requires ImageCovers(image, width, height) && i < Side && j < Side
  {
    Level(image[SampleIndex(i, j, width, height)], k)
  }

  /** The flat position of voxel `(i, j, k)`: `i * 900 + k * 30 + j`. */
  function VoxelIndex(i: nat, j: nat, k: nat): nat
  {
    Index2(i, Index2(k, j, Side), Side * Side)
  }

  /** The voxel stored at flat position `n`. */
  function FieldAt(image: seq<Byte>, width: nat, height: nat, n: nat): real
    requires ImageCovers(image, width, height) && n < Voxels
  {
    Voxel(image, width, height, n / 900, n % 900 % Side, n % 900 / Side)
  }

  /** A square (or taller than wide) image of `width * height` pixels is
      covered by the sampling pattern. */
  lemma CoveredWhenNotWider(image: seq<Byte>, width: nat, height: nat)
    requires 0 < width <= height && |image| == width * height
    ensures ImageCovers(image, width, height)
  {
    forall i: nat, j: nat | i < Side && j < Side
      ensures SampleIndex(i, j, width, height) < |image|
    {
      CoordinateBelow(i, width);
      CoordinateBelow(j, height);
      PixelInside(SurfaceCoordinate(i, width), SurfaceCoordinate(j, height), width, height);
    }
  }

  lemma PixelInside(x: nat, z: nat, width: nat, height: nat)
    requires x < width <= height && z < height
    ensures x * width + z < width * height
  {
    assert x * width <= (width - 1) * width;
    assert (width - 1) * width <= (width - 1) * height;
    assert (width - 1) * height + height == width * height;
  }

  lemma CoordinateBelow(i: nat, extent: nat)
    requires i < Side && extent > 0
    ensures SurfaceCoordinate(i, extent) < extent
  {
    assert i * extent < Side * extent;
  }

  /** Every voxel value is 0.0 or 1.0. */
  lemma VoxelIsOccupancy(grey: Byte, k: nat)
    ensures Level(grey, k) == 0.0 || Level(grey, k) == 1.0
  {
  }

  /** Each column is a solid stack: an empty level has only empty levels
      above it. */
  lemma ColumnIsStack(grey: Byte, k: nat, above: nat)
    requires k <= above && Level(grey, k) == 0.0
    ensures Level(grey, above) == 0.0
  {
  }

  /** The ground level is always filled, and nothing above level 6 ever
      is, because the column height never exceeds 0.2. */
  lemma GroundAndCeiling(grey: Byte, k: nat)
    ensures Level(grey, 0) == 1.0
    ensures k >= 7 ==> Level(grey, k) == 0.0
  {
    assert HeightValue(grey) * (Side as real) <= 6.0;
  }

  /** The flat index of an in-range voxel is in range, and the flat
      index determines the voxel, so the fill writes every entry once. */
  lemma VoxelIndexDecode(i: nat, j: nat, k: nat)
    requires i < Side && j < Side && k < Side
    ensures VoxelIndex(i, j, k) < Voxels
    ensures VoxelIndex(i, j, k) / 900 == i
    ensures VoxelIndex(i, j, k) % 900 / Side == k
    ensures VoxelIndex(i, j, k) % 900 % Side == j
  {
    Index2Bounds(k, j, Side, Side);
    Index2Bounds(i, Index2(k, j, Side), Side * Side, Side);
    Index2Decode(i, Index2(k, j, Side), Side * Side);
    Index2Decode(k, j, Side);
  }

  lemma VoxelIndexInjective(i1: nat, j1: nat, k1: nat, i2: nat, j2: nat, k2: nat)
    requires i1 < Side && j1 < Side && k1 < Side
    requires i2 < Side && j2 < Side && k2 < Side
    requires VoxelIndex(i1, j1, k1) == VoxelIndex(i2, j2, k2)
    ensures i1 == i2 && j1 == j2 && k1 == k2
  {
    VoxelIndexDecode(i1, j1, k1);
    VoxelIndexDecode(i2, j2, k2);
  }

  /** Every flat position is the index of some voxel. */
  lemma VoxelIndexCover(n: nat)
    requires n < Voxels
    ensures n / 900 < Side && n % 900 / Side < Side && n % 900 % Side < Side
    ensures VoxelIndex(n / 900, n % 900 % Side, n % 900 / Side) == n
  {
    Index2Cover(n, Side * Side, Side);
    Index2Cover(n % 900, Side, Side);
  }

  /** Writes one column: levels `0 .. 29` of `(i, j)`. */
  method FillColumn(field: array<real>, image: seq<Byte>, width: nat, height: nat, i: nat, j: nat)
    requires field.Length == Voxels && ImageCovers(image, width, height)
    requires i < Side && j < Side
    modifies field
    ensures forall k :: 0 <= k < Side ==> field[VoxelIndex(i, j, k)] == Voxel(image, width, height, i, j, k)
    ensures forall n :: 0 <= n < Voxels && (n / 900 != i || n % 900 % Side != j) ==> field[n] == old(field[n])
  {
    var heightValue := HeightValue(image[SampleIndex(i, j, width, height)]);
    for k := 0 to Side
      invariant forall m :: 0 <= m < k ==> field[VoxelIndex(i, j, m)] == Voxel(image, width, height, i, j, m)
      invariant forall n :: 0 <= n < Voxels && (n / 900 != i || n % 900 % Side != j) ==> field[n] == old(field[n])
    {
      VoxelIndexDecode(i, j, k);
      forall m | 0 <= m < k
        ensures VoxelIndex(i, j, m) != VoxelIndex(i, j, k)
      {
        VoxelIndexDecode(i, j, m);
      }
      field[VoxelIndex(i, j, k)] := if heightValue * (Side as real) >= k as real then 1.0 else 0.0;
    }
  }

  /** Builds the voxel field of a height map. */
  method HeightMapTerrain(image: seq<Byte>, width: nat, height: nat) returns (field: array<real>)
    requires ImageCovers(image, width, height)
    ensures fresh(field) && field.Length == Voxels
    ensures forall n :: 0 <= n < Voxels ==> field[n] == FieldAt(image, width, height, n)
  {
    field := new real[Voxels](_ => 0.0);
    for i := 0 to Side
      invariant forall n :: 0 <= n < Voxels && n / 900 < i ==> field[n] == FieldAt(image, width, height, n)
    {
      for j := 0 to Side
        invariant forall n :: 0 <= n < Voxels && n / 900 < i ==> field[n] == FieldAt(image, width, height, n)
        invariant forall n :: 0 <= n < Voxels && n / 900 == i && n % 900 % Side < j ==> field[n] == FieldAt(image, width, height, n)
      {
        FillColumn(field, image, width, height, i, j);
        forall n | 0 <= n < Voxels && n / 900 == i && n % 900 % Side == j
          ensures field[n] == FieldAt(image, width, height, n)
        {
          VoxelIndexCover(n);
        }
      }
    }
  }

  /** Read back by coordinates, the field holds `Voxel(i, j, k)`. */
  lemma FieldAtVoxel(image: seq<Byte>, width: nat, height: nat, i: nat, j: nat, k: nat)
    requires ImageCovers(image, width, height)
    requires i < Side && j < Side && k < Side
    ensures FieldAt(image, width, height, VoxelIndex(i, j, k)) == Voxel(image, width, height, i, j, k)
  {
    VoxelIndexDecode(i, j, k);
  }
}
