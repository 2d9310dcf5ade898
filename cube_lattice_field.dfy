/** The fixed-size marching-cubes template: a scalar field of `float`
    values over a cube lattice of sample positions, polygonised cell by
    cell into a flat vertex list. Unlike the vector-backed mesher, a
    corner counts as inside when its value is strictly BELOW the iso
    level, and the corner numbering runs with `z` reversed. */
module CubeLatticeField {
  import opened Geometry
  import opened RealArith
  import opened Lattice
  import opened Polygonise
  import VectorMarchingCubes

  // ---------------------------------------------------------------------
  // Cell corners
  // ---------------------------------------------------------------------

  /** Lattice index of corner `vertexIndex` of cell `(i, j, k)`: corners
      0-3 on the `j` side, 4-7 on the `j + 1` side, corner 0 at
      `(i, j, k + 1)`; anything else maps to `(0, 0, 0)`. */
  function CornerIndex(vertexIndex: nat, i: nat, j: nat, k: nat): Index3
  {
    if vertexIndex == 0 then Index3(i, j, k + 1)
    else if vertexIndex == 1 then Index3(i + 1, j, k + 1)
    else if vertexIndex == 2 then Index3(i + 1, j, k)
    else if vertexIndex == 3 then Index3(i, j, k)
    else if vertexIndex == 4 then Index3(i, j + 1, k + 1)
    else if vertexIndex == 5 then Index3(i + 1, j + 1, k + 1)
    else if vertexIndex == 6 then Index3(i + 1, j + 1, k)
    else if vertexIndex == 7 then Index3(i, j + 1, k)
    else Index3(0, 0, 0)
  }

  /** The eight corners are eight distinct points of
      `{i, i+1} x {j, j+1} x {k, k+1}`, the first four with `j`, the last
      four with `j + 1`. */
  lemma CornersOfCell(c: nat, d: nat, i: nat, j: nat, k: nat)
    requires c < 8 && d < 8
    ensures i <= CornerIndex(c, i, j, k).i <= i + 1
    ensures j <= CornerIndex(c, i, j, k).j <= j + 1
    ensures k <= CornerIndex(c, i, j, k).k <= k + 1
    ensures CornerIndex(c, i, j, k).j == (if c < 4 then j else j + 1)
    ensures c != d ==> CornerIndex(c, i, j, k) != CornerIndex(d, i, j, k)
  {
  }

  /** Corner `c` here is corner `c` of the vector-backed mesher mirrored
      in `z` across the middle of the cell: same `i` and `j`, `k` and
      `k + 1` swapped. */
  lemma CornersMirrored(c: nat, i: nat, j: nat, k: nat)
    requires c < 8
    ensures CornerIndex(c, i, j, k).i == VectorMarchingCubes.CornerIndex(c, i, j, k).i
    ensures CornerIndex(c, i, j, k).j == VectorMarchingCubes.CornerIndex(c, i, j, k).j
    ensures CornerIndex(c, i, j, k).k + VectorMarchingCubes.CornerIndex(c, i, j, k).k == 2 * k + 1
  {
  }

  lemma CornerOutOfRange(c: nat, i: nat, j: nat, k: nat)
    requires c >= 8
    ensures CornerIndex(c, i, j, k) == Index3(0, 0, 0)
  {
  }

  // ---------------------------------------------------------------------
  // The field and its lattice
  // ---------------------------------------------------------------------

  /** The lookup tables, the lattice size, the scalar field and the
      sample positions, the last two stored row-major. */
  datatype ScalarField = ScalarField(tables: Tables, sizeX: nat, sizeY: nat, sizeZ: nat, field: seq<real>, points: seq<Point>)

  /** Every axis has at least one point, so that `size - 1` cells per
      axis is a natural number. */
  predicate ValidField(f: ScalarField)
  {
    WellFormedTables(f.tables) && f.sizeX > 0 && f.sizeY > 0 && f.sizeZ > 0
    && |f.field| == f.sizeX * f.sizeY * f.sizeZ && |f.points| == f.sizeX * f.sizeY * f.sizeZ
  }

  /** Cells per axis: one fewer than lattice points. */
  function Cells(size: nat): nat
    requires size > 0
  {
    size - 1
  }

  predicate CellInField(f: ScalarField, cell: Index3)
  {
    cell.i + 1 < f.sizeX && cell.j + 1 < f.sizeY && cell.k + 1 < f.sizeZ
  }

  lemma CornerInLattice(c: nat, cell: Index3, sizeX: nat, sizeY: nat, sizeZ: nat)
    requires c < 8 && cell.i + 1 < sizeX && cell.j + 1 < sizeY && cell.k + 1 < sizeZ
    ensures InBounds(CornerIndex(c, cell.i, cell.j, cell.k), sizeX, sizeY, sizeZ)
    ensures LinearIndex(CornerIndex(c, cell.i, cell.j, cell.k), sizeY, sizeZ) < sizeX * sizeY * sizeZ
  {
    CornersOfCell(c, c, cell.i, cell.j, cell.k);
    LinearIndexBounds(CornerIndex(c, cell.i, cell.j, cell.k), sizeX, sizeY, sizeZ);
  }

  /** The sample position of lattice point `ijk`. */
  function PointAt(f: ScalarField, ijk: Index3): Point
    requires ValidField(f) && InBounds(ijk, f.sizeX, f.sizeY, f.sizeZ)
  {
    LinearIndexBounds(ijk, f.sizeX, f.sizeY, f.sizeZ);
    f.points[LinearIndex(ijk, f.sizeY, f.sizeZ)]
  }

  /** A field over a fresh cube lattice: `sizeX * sizeY * sizeZ` sample
      positions `spacing` apart around `centre`. */
  method NewScalarField(tables: Tables, spacing: real, centre: Point, sizeX: nat, sizeY: nat, sizeZ: nat, field: seq<real>)
    returns (f: ScalarField)
    requires WellFormedTables(tables) && sizeX > 0 && sizeY > 0 && sizeZ > 0 && |field| == sizeX * sizeY * sizeZ
    ensures ValidField(f) && f.tables == tables && f.field == field
    ensures f.sizeX == sizeX && f.sizeY == sizeY && f.sizeZ == sizeZ
    ensures forall ijk :: InBounds(ijk, sizeX, sizeY, sizeZ) ==>
      PointAt(f, ijk) == LatticePoint(ijk, spacing, sizeX, sizeY, sizeZ, centre)
  {
    var lattice := NewCubeLattice(spacing, centre, sizeX, sizeY, sizeZ);
    f := ScalarField(tables, sizeX, sizeY, sizeZ, field, lattice.data);
    forall ijk | InBounds(ijk, sizeX, sizeY, sizeZ)
      ensures PointAt(f, ijk) == LatticePoint(ijk, spacing, sizeX, sizeY, sizeZ, centre)
    {
      assert lattice.AtIndex(ijk) == LatticePoint(ijk, spacing, sizeX, sizeY, sizeZ, centre);
    }
  }

  /** The field the template starts with when none is given: all zero. */
  method NewZeroScalarField(tables: Tables, spacing: real, centre: Point, sizeX: nat, sizeY: nat, sizeZ: nat)
    returns (f: ScalarField)
    requires WellFormedTables(tables) && sizeX > 0 && sizeY > 0 && sizeZ > 0
    ensures ValidField(f) && f.tables == tables
    ensures f.sizeX == sizeX && f.sizeY == sizeY && f.sizeZ == sizeZ
    ensures forall n :: 0 <= n < |f.field| ==> f.field[n] == 0.0
    ensures forall ijk :: InBounds(ijk, sizeX, sizeY, sizeZ) ==>
      PointAt(f, ijk) == LatticePoint(ijk, spacing, sizeX, sizeY, sizeZ, centre)
  {
    f := NewScalarField(tables, spacing, centre, sizeX, sizeY, sizeZ, seq(sizeX * sizeY * sizeZ, _ => 0.0));
  }

  // ---------------------------------------------------------------------
  // One cell
  // ---------------------------------------------------------------------

  function CornerValues(f: ScalarField, cell: Index3): (values: seq<real>)
    requires ValidField(f) && CellInField(f, cell)
    ensures |values| == 8
  {
    seq(8, c requires 0 <= c < 8 =>
      CornerInLattice(c, cell, f.sizeX, f.sizeY, f.sizeZ);
      f.field[LinearIndex(CornerIndex(c, cell.i, cell.j, cell.k), f.sizeY, f.sizeZ)])
  }

  function CornerPoints(f: ScalarField, cell: Index3): (points: seq<Point>)
    requires ValidField(f) && CellInField(f, cell)
    ensures |points| == 8
  {
    seq(8, c requires 0 <= c < 8 =>
      CornerInLattice(c, cell, f.sizeX, f.sizeY, f.sizeZ);
      f.points[LinearIndex(CornerIndex(c, cell.i, cell.j, cell.k), f.sizeY, f.sizeZ)])
  }

  /** Corner `c` counts as inside when its value is below the iso level. */
  function InsideCorners(f: ScalarField, isoLevel: real, cell: Index3): (inside: seq<bool>)
    requires ValidField(f) && CellInField(f, cell)
    ensures |inside| == 8
  {
    var values := CornerValues(f, cell);
    seq(8, c requires 0 <= c < 8 => values[c] < isoLevel)
  }

  function CellCubeIndex(f: ScalarField, isoLevel: real, cell: Index3): bv8
    requires ValidField(f) && CellInField(f, cell)
  {
    CubeIndexOf(InsideCorners(f, isoLevel, cell))
  }

  /** Bit `c` of a cell's cube index is set exactly when corner `c`'s
      value is strictly below the iso level. */
  lemma CellCubeIndexBits(f: ScalarField, isoLevel: real, cell: Index3, c: nat)
    requires ValidField(f) && CellInField(f, cell) && c < 8
    ensures BitSet(CellCubeIndex(f, isoLevel, cell), c) <==> CornerValues(f, cell)[c] < isoLevel
  {
    CubeIndexBits(InsideCorners(f, isoLevel, cell));
  }

  function CellTrianglesAt(f: ScalarField, isoLevel: real, cell: Index3): seq<Triangle>
    requires ValidField(f) && CellInField(f, cell)
  {
    CellTriangles(f.tables, isoLevel, CellCubeIndex(f, isoLevel, cell), CornerPoints(f, cell), CornerValues(f, cell))
  }

  /** Polygonises cell `(x, y, z)`: writes its triangles into the first
      slots of `triangleResult` and returns how many there are, none when
      `edgeTable` has no cut edge for the cell's cube index. */
  method PolygoniseCell(f: ScalarField, x: nat, y: nat, z: nat, isoLevel: real, triangleResult: array<Triangle>)
    returns (ntriang: nat)
    requires ValidField(f) && CellInField(f, Index3(x, y, z)) && triangleResult.Length == 5
    modifies triangleResult
    ensures ntriang <= 5 && triangleResult[..ntriang] == CellTrianglesAt(f, isoLevel, Index3(x, y, z))
    ensures f.tables.edgeTable[CellCubeIndex(f, isoLevel, Index3(x, y, z)) as int] == 0 ==> ntriang == 0
  {
    var cell := Index3(x, y, z);
    var values := CornerValues(f, cell);
    var cubeIndex := CubeIndex(seq(8, c requires 0 <= c < 8 => values[c] < isoLevel));
    if f.tables.edgeTable[cubeIndex as int] == 0 {
      return 0;
    }
    var vertlist := VertList(f.tables.edgeTable[cubeIndex as int], isoLevel, CornerPoints(f, cell), values);
    ntriang := CollectTriangles(f.tables.triTable[cubeIndex as int], vertlist, triangleResult);
  }

  // ---------------------------------------------------------------------
  // The vertex data
  // ---------------------------------------------------------------------

  /** The texture coordinate of cell `index` along an axis of `size`
      points: `index / (size - 1)`, in `[0, 1)` for every cell. */
  function TexCoord(index: nat, size: nat): (t: real)
    requires index + 1 < size
    ensures 0.0 <= t < 1.0
  {
    QuotientBelowOne(index as real, (size - 1) as real);
    index as real / (size - 1) as real
  }

  lemma QuotientBelowOne(a: real, b: real)
    requires 0.0 <= a < b
    ensures 0.0 <= a / b < 1.0
  {
    DivWithinUnit(a, b);
    if a / b == 1.0 {
      DivMul(a, b);
    }
  }

  /** The vertices one cell contributes: three per triangle, with `u`
      from the cell's `i` and `v` from its `k`. */
  function CellVerticesFn(f: ScalarField, isoLevel: real, normal: Triangle -> Point): Index3 -> seq<Vertex>
  {
    cell => if ValidField(f) && CellInField(f, cell)
            then MeshVertices(CellTrianglesAt(f, isoLevel, cell), TexCoord(cell.i, f.sizeX), TexCoord(cell.k, f.sizeZ), normal)
            else []
  }

  function CellTrianglesFn(f: ScalarField, isoLevel: real): Index3 -> seq<Triangle>
  {
    cell => if ValidField(f) && CellInField(f, cell) then CellTrianglesAt(f, isoLevel, cell) else []
  }

  /** Every cell of the field, in the order of the triple loop. */
  function AllCells(f: ScalarField): seq<Index3>
    requires ValidField(f)
  {
    BlockCells(Cells(f.sizeX), 0, Cells(f.sizeY), Cells(f.sizeZ))
  }

  /** The vertex list the template builds: each cell's vertices in turn. */
  function VertexData(f: ScalarField, isoLevel: real, normal: Triangle -> Point): seq<Vertex>
    requires ValidField(f)
  {
    VectorMarchingCubes.Concatenated(CellVerticesFn(f, isoLevel, normal), AllCells(f))
  }

  /** The triangles of every cell, in the same order. */
  function FieldTriangles(f: ScalarField, isoLevel: real): seq<Triangle>
    requires ValidField(f)
  {
    VectorMarchingCubes.Concatenated(CellTrianglesFn(f, isoLevel), AllCells(f))
  }

  /** When every cell gives three outputs of `h` per output of `t`, so do
      the cells together. */
  lemma {:induction false} ThreePerTriangle<A, B>(h: Index3 -> seq<A>, t: Index3 -> seq<B>, cells: seq<Index3>)
    requires forall q :: 0 <= q < |cells| ==> |h(cells[q])| == 3 * |t(cells[q])|
    ensures |VectorMarchingCubes.Concatenated(h, cells)| == 3 * |VectorMarchingCubes.Concatenated(t, cells)|
  {
    if cells != [] {
      var init, last := cells[..|cells| - 1], cells[|cells| - 1];
      assert cells == init + [last];
      ThreePerTriangle(h, t, init);
      VectorMarchingCubes.ConcatenatedAppend(h, init, [last]);
      VectorMarchingCubes.ConcatenatedAppend(t, init, [last]);
      VectorMarchingCubes.ConcatenatedSingle(h, last);
      VectorMarchingCubes.ConcatenatedSingle(t, last);
    }
  }

  /** When every output of every cell satisfies `P`, so does every
      output of the cells together. */
  lemma {:induction false} EveryOutput<A>(h: Index3 -> seq<A>, P: A -> bool, cells: seq<Index3>)
    requires forall q, x :: 0 <= q < |cells| && x in h(cells[q]) ==> P(x)
    ensures forall x :: x in VectorMarchingCubes.Concatenated(h, cells) ==> P(x)
  {
    if cells != [] {
      var init, last := cells[..|cells| - 1], cells[|cells| - 1];
      assert cells == init + [last];
      EveryOutput(h, P, init);
      VectorMarchingCubes.ConcatenatedAppend(h, init, [last]);
      VectorMarchingCubes.ConcatenatedSingle(h, last);
    }
  }

  /** Every vertex of a meshed triangle list carries the texture
      coordinates it was meshed with. */
  lemma {:induction false} MeshTexCoords(ts: seq<Triangle>, u: real, v: real, normal: Triangle -> Point)
    ensures forall x :: x in MeshVertices(ts, u, v, normal) ==> x.u == u && x.v == v
  {
    if ts != [] {
      MeshTexCoords(ts[..|ts| - 1], u, v, normal);
    }
  }

  predicate TexCoordsInUnit(x: Vertex)
  {
    0.0 <= x.u < 1.0 && 0.0 <= x.v < 1.0
  }

  /** One cell's vertices: three per triangle, each with `u` and `v` in
      `[0, 1)`. */
  lemma CellVertices(f: ScalarField, isoLevel: real, normal: Triangle -> Point, cell: Index3)
    ensures |CellVerticesFn(f, isoLevel, normal)(cell)| == 3 * |CellTrianglesFn(f, isoLevel)(cell)|
    ensures forall x :: x in CellVerticesFn(f, isoLevel, normal)(cell) ==> TexCoordsInUnit(x)
  {
    if ValidField(f) && CellInField(f, cell) {
      MeshTexCoords(CellTrianglesAt(f, isoLevel, cell), TexCoord(cell.i, f.sizeX), TexCoord(cell.k, f.sizeZ), normal);
    }
  }

  /** The vertex list holds three vertices per triangle, so its length is
      a multiple of 3, and every vertex has `u` and `v` in `[0, 1)`. */
  lemma VertexDataShape(f: ScalarField, isoLevel: real, normal: Triangle -> Point)
    requires ValidField(f)
    ensures |VertexData(f, isoLevel, normal)| == 3 * |FieldTriangles(f, isoLevel)|
    ensures |VertexData(f, isoLevel, normal)| % 3 == 0
    ensures forall x :: x in VertexData(f, isoLevel, normal) ==> TexCoordsInUnit(x)
  {
    var h, t, cells := CellVerticesFn(f, isoLevel, normal), CellTrianglesFn(f, isoLevel), AllCells(f);
    forall q | 0 <= q < |cells|
      ensures |h(cells[q])| == 3 * |t(cells[q])|
      ensures forall x :: x in h(cells[q]) ==> TexCoordsInUnit(x)
    {
      CellVertices(f, isoLevel, normal, cells[q]);
    }
    ThreePerTriangle(h, t, cells);
    EveryOutput(h, TexCoordsInUnit, cells);
  }

  /** Every cell the triple loop visits lies in the field. */
  lemma AllCellsInField(f: ScalarField, q: nat)
    requires ValidField(f) && q < |AllCells(f)|
    ensures CellInField(f, AllCells(f)[q])
  {
    BlockCellsMembers(Cells(f.sizeX), 0, Cells(f.sizeY), Cells(f.sizeZ), AllCells(f)[q]);
  }

  /** Polygonises one cell and appends three vertices per triangle. */
  method MarchCell(f: ScalarField, isoLevel: real, normal: Triangle -> Point, x: nat, y: nat, z: nat, u: real,
                   triangleResult: array<Triangle>, vertices: seq<Vertex>) returns (out: seq<Vertex>)
    requires ValidField(f) && CellInField(f, Index3(x, y, z)) && triangleResult.Length == 5
    requires u == TexCoord(x, f.sizeX)
    modifies triangleResult
    ensures out == vertices + VectorMarchingCubes.Concatenated(CellVerticesFn(f, isoLevel, normal), [Index3(x, y, z)])
  {
    var v := TexCoord(z, f.sizeZ);
    var numTris := PolygoniseCell(f, x, y, z, isoLevel, triangleResult);
    out := AppendVertices(vertices, triangleResult[..numTris], u, v, normal);
    VectorMarchingCubes.ConcatenatedSingle(CellVerticesFn(f, isoLevel, normal), Index3(x, y, z));
  }

  /** One pass of the `k` loop: cell `(x, y, z)` after cells
      `(x, y, 0) .. (x, y, z - 1)`. */
  method MarchNextCell(f: ScalarField, isoLevel: real, normal: Triangle -> Point, x: nat, y: nat, z: nat, u: real,
                       triangleResult: array<Triangle>, vertices: seq<Vertex>, ghost vertices0: seq<Vertex>)
    returns (out: seq<Vertex>)
    requires ValidField(f) && CellInField(f, Index3(x, y, z)) && triangleResult.Length == 5
    requires u == TexCoord(x, f.sizeX)
    requires vertices == vertices0 + VectorMarchingCubes.Concatenated(CellVerticesFn(f, isoLevel, normal), RowCells(x, y, z))
    modifies triangleResult
    ensures out == vertices0 + VectorMarchingCubes.Concatenated(CellVerticesFn(f, isoLevel, normal), RowCells(x, y, z + 1))
  {
    out := MarchCell(f, isoLevel, normal, x, y, z, u, triangleResult, vertices);
    RowCellsSnoc(x, y, z);
    VectorMarchingCubes.MarchStep(CellVerticesFn(f, isoLevel, normal), RowCells(x, y, z), [Index3(x, y, z)], RowCells(x, y, z + 1),
                                  vertices0, vertices, out);
  }

  /** The `k` loop: cells `(x, y, 0) .. (x, y, sizeZ - 2)`. */
  method MarchRow(f: ScalarField, isoLevel: real, normal: Triangle -> Point, x: nat, y: nat, u: real,
                  triangleResult: array<Triangle>, vertices: seq<Vertex>) returns (out: seq<Vertex>)
    requires ValidField(f) && x < Cells(f.sizeX) && y < Cells(f.sizeY) && triangleResult.Length == 5
    requires u == TexCoord(x, f.sizeX)
    modifies triangleResult
    ensures out == vertices + VectorMarchingCubes.Concatenated(CellVerticesFn(f, isoLevel, normal), RowCells(x, y, Cells(f.sizeZ)))
  {
    out := vertices;
    for z := 0 to Cells(f.sizeZ)
      invariant out == vertices + VectorMarchingCubes.Concatenated(CellVerticesFn(f, isoLevel, normal), RowCells(x, y, z))
    {
      out := MarchNextCell(f, isoLevel, normal, x, y, z, u, triangleResult, out, vertices);
    }
  }

  /** One pass of the `j` loop: row `y` of slice `x` after rows
      `0 .. y - 1`. */
  method MarchNextRow(f: ScalarField, isoLevel: real, normal: Triangle -> Point, x: nat, y: nat, u: real,
                      triangleResult: array<Triangle>, vertices: seq<Vertex>, ghost vertices0: seq<Vertex>)
    returns (out: seq<Vertex>)
    requires ValidField(f) && x < Cells(f.sizeX) && y < Cells(f.sizeY) && triangleResult.Length == 5
    requires u == TexCoord(x, f.sizeX)
    requires vertices == vertices0
      + VectorMarchingCubes.Concatenated(CellVerticesFn(f, isoLevel, normal), SliceCells(x, 0, y, Cells(f.sizeZ)))
    modifies triangleResult
    ensures out == vertices0
      + VectorMarchingCubes.Concatenated(CellVerticesFn(f, isoLevel, normal), SliceCells(x, 0, y + 1, Cells(f.sizeZ)))
  {
    out := MarchRow(f, isoLevel, normal, x, y, u, triangleResult, vertices);
    SliceCellsSnoc(x, 0, y, Cells(f.sizeZ));
    VectorMarchingCubes.MarchStep(CellVerticesFn(f, isoLevel, normal), SliceCells(x, 0, y, Cells(f.sizeZ)),
                                  RowCells(x, y, Cells(f.sizeZ)), SliceCells(x, 0, y + 1, Cells(f.sizeZ)), vertices0, vertices, out);
  }

  /** The `j` loop: every row of slice `x`, with `u` fixed for the slice. */
  method MarchSlice(f: ScalarField, isoLevel: real, normal: Triangle -> Point, x: nat,
                    triangleResult: array<Triangle>, vertices: seq<Vertex>) returns (out: seq<Vertex>)
    requires ValidField(f) && x < Cells(f.sizeX) && triangleResult.Length == 5
    modifies triangleResult
    ensures out == vertices
      + VectorMarchingCubes.Concatenated(CellVerticesFn(f, isoLevel, normal), SliceCells(x, 0, Cells(f.sizeY), Cells(f.sizeZ)))
  {
    var u := TexCoord(x, f.sizeX);
    out := vertices;
    SliceCellsEmpty(x, 0, 0, Cells(f.sizeZ));
    for y := 0 to Cells(f.sizeY)
      invariant out == vertices
        + VectorMarchingCubes.Concatenated(CellVerticesFn(f, isoLevel, normal), SliceCells(x, 0, y, Cells(f.sizeZ)))
    {
      out := MarchNextRow(f, isoLevel, normal, x, y, u, triangleResult, out, vertices);
    }
  }

  /** One pass of the `i` loop: slice `x` after slices `0 .. x - 1`. */
  method MarchNextSlice(f: ScalarField, isoLevel: real, normal: Triangle -> Point, x: nat,
                        triangleResult: array<Triangle>, vertices: seq<Vertex>) returns (out: seq<Vertex>)
    requires ValidField(f) && x < Cells(f.sizeX) && triangleResult.Length == 5
    requires vertices == VectorMarchingCubes.Concatenated(CellVerticesFn(f, isoLevel, normal),
                                                          BlockCells(x, 0, Cells(f.sizeY), Cells(f.sizeZ)))
    modifies triangleResult
    ensures out == VectorMarchingCubes.Concatenated(CellVerticesFn(f, isoLevel, normal),
                                                    BlockCells(x + 1, 0, Cells(f.sizeY), Cells(f.sizeZ)))
  {
    out := MarchSlice(f, isoLevel, normal, x, triangleResult, vertices);
    VectorMarchingCubes.MarchStep(CellVerticesFn(f, isoLevel, normal), BlockCells(x, 0, Cells(f.sizeY), Cells(f.sizeZ)),
                                  SliceCells(x, 0, Cells(f.sizeY), Cells(f.sizeZ)), BlockCells(x + 1, 0, Cells(f.sizeY), Cells(f.sizeZ)),
                                  [], vertices, out);
  }

  /** Polygonises every cell, slice by slice and row by row, and returns
      the vertices of all triangles: three per triangle, each with the
      triangle's normal and the cell's texture coordinates. */
  method ComputeVertexData(f: ScalarField, isoLevel: real, normal: Triangle -> Point) returns (vertices: seq<Vertex>)
    requires ValidField(f)
    ensures vertices == VertexData(f, isoLevel, normal)
    ensures |vertices| == 3 * |FieldTriangles(f, isoLevel)|
    ensures forall x :: x in vertices ==> TexCoordsInUnit(x)
  {
    var trianglesAfterPolygonisation := new Triangle[5];
    vertices := [];
    for x := 0 to Cells(f.sizeX)
      invariant vertices == VectorMarchingCubes.Concatenated(CellVerticesFn(f, isoLevel, normal),
                                                             BlockCells(x, 0, Cells(f.sizeY), Cells(f.sizeZ)))
    {
      vertices := MarchNextSlice(f, isoLevel, normal, x, trianglesAfterPolygonisation, vertices);
    }
    VertexDataShape(f, isoLevel, normal);
  }
}
