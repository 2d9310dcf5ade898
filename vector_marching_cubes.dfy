/** The vector-backed marching-cubes mesher: a cubic scalar field sampled
    from a model's meshes, each cell polygonised against an iso level, an
    image patch requested for cells whose inside corners form one face,
    and the vertex buffer the triangles are appended to. */
module VectorMarchingCubes {
  import opened Geometry
  import opened Wrappers
  import opened Lattice
  import opened Polygonise
  import opened Decimal

  /** A scalar-field sample. `position` is never assigned by the mesher;
      `mesh` is the index of the model mesh the sample lies in. */
  datatype Cell = Cell(position: Point, value: real, mesh: Option<nat>)

  const DefaultCell: Cell := Cell(Origin, 0.0, None)

  // ---------------------------------------------------------------------
  // The orthographic camera used to render a patch
  // ---------------------------------------------------------------------

  class CellRenderer {
    var left: real
    var right: real
    var bottom: real
    var top: real
    var zNear: real
    var zFar: real
    var position: Point
    var target: Point
    const up: Point

    constructor ()
      ensures left == 0.0 && right == 0.0 && bottom == 0.0 && top == 0.0 && zNear == 0.0 && zFar == 0.0
      ensures position == Origin && target == Point(1.0, 1.0, 1.0) && up == Point(0.0, 1.0, 0.0)
    {
      left, right, bottom, top, zNear, zFar := 0.0, 0.0, 0.0, 0.0, 0.0, 0.0;
      position, target, up := Origin, Point(1.0, 1.0, 1.0), Point(0.0, 1.0, 0.0);
    }

    /** Sets the view volume; the far-plane argument is discarded, so
        `zFar` keeps its value. */
    method SetOrthoVolume(newLeft: real, newRight: real, newBottom: real, newTop: real, newZNear: real, newZFar: real)
      modifies this
      ensures left == newLeft && right == newRight && bottom == newBottom && top == newTop && zNear == newZNear
      ensures zFar == old(zFar) && position == old(position) && target == old(target)
    {
      left, right, bottom, top, zNear := newLeft, newRight, newBottom, newTop, newZNear;
    }

    method SetCameraTarget(newTarget: Point)
      modifies this
      ensures target == newTarget && position == old(position)
      ensures left == old(left) && right == old(right) && bottom == old(bottom) && top == old(top)
      ensures zNear == old(zNear) && zFar == old(zFar)
    {
      target := newTarget;
    }

    method SetCameraPosition(newPosition: Point)
      modifies this
      ensures position == newPosition && target == old(target)
      ensures left == old(left) && right == old(right) && bottom == old(bottom) && top == old(top)
      ensures zNear == old(zNear) && zFar == old(zFar)
    {
      position := newPosition;
    }
  }

  // ---------------------------------------------------------------------
  // Cell corners
  // ---------------------------------------------------------------------

  /** Lattice index of corner `vertexIndex` of cell `(i, j, k)`: corners
      0-3 on the `j` side, 4-7 on the `j + 1` side; anything else maps to
      `(0, 0, 0)`. */
  function CornerIndex(vertexIndex: nat, i: nat, j: nat, k: nat): Index3
  {
    if vertexIndex == 0 then Index3(i, j, k)
    else if vertexIndex == 1 then Index3(i + 1, j, k)
    else if vertexIndex == 2 then Index3(i + 1, j, k + 1)
    else if vertexIndex == 3 then Index3(i, j, k + 1)
    else if vertexIndex == 4 then Index3(i, j + 1, k)
    else if vertexIndex == 5 then Index3(i + 1, j + 1, k)
    else if vertexIndex == 6 then Index3(i + 1, j + 1, k + 1)
    else if vertexIndex == 7 then Index3(i, j + 1, k + 1)
    else Index3(0, 0, 0)
  }

  /** The eight corners are eight distinct points of
      `{i, i+1} x {j, j+1} x {k, k+1}`, the first four with `j`, the last
      four with `j + 1`. */
  lemma CornersOfCell(c: nat, d: nat, i: nat, j: nat, k: nat)
    requires c < 8 && d < 8
    ensures i <= CornerIndex(c, i, j, k).i <= i + 1
    ensures j <= CornerIndex(c, i, j, k).j <= j + 1
    ensures k <= CornerIndex(c, i, j, k).k <= k + 1
    ensures CornerIndex(c, i, j, k).j == (if c < 4 then j else j + 1)
    ensures c != d ==> CornerIndex(c, i, j, k) != CornerIndex(d, i, j, k)
  {
  }

  lemma CornerOutOfRange(c: nat, i: nat, j: nat, k: nat)
    requires c >= 8
    ensures CornerIndex(c, i, j, k) == Index3(0, 0, 0)
  {
  }

  /** Each of the 12 edges joins two corners one lattice step apart. */
  lemma EdgesAreCellEdges(e: nat, i: nat, j: nat, k: nat)
    requires e < 12
    ensures EdgeStart(e) < 8 && EdgeEnd(e) < 8
    ensures var a, b := CornerIndex(EdgeStart(e), i, j, k), CornerIndex(EdgeEnd(e), i, j, k);
      (a.i - b.i) * (a.i - b.i) + (a.j - b.j) * (a.j - b.j) + (a.k - b.k) * (a.k - b.k) == 1
  {
    EdgeEndsInCube(e);
    if e < 6 {
      if e < 3 { assert e == 0 || e == 1 || e == 2; } else { assert e == 3 || e == 4 || e == 5; }
    } else {
      if e < 9 { assert e == 6 || e == 7 || e == 8; } else { assert e == 9 || e == 10 || e == 11; }
    }
  }

  lemma CornerInLattice(c: nat, i: nat, j: nat, k: nat, size: nat)
    requires c < 8 && i + 1 < size && j + 1 < size && k + 1 < size
    ensures InBounds(CornerIndex(c, i, j, k), size, size, size)
    ensures LinearIndex(CornerIndex(c, i, j, k), size, size) < size * size * size
  {
    CornersOfCell(c, c, i, j, k);
    LinearIndexBounds(CornerIndex(c, i, j, k), size, size, size);
  }

  // ---------------------------------------------------------------------
  // Face patches
  // ---------------------------------------------------------------------

  datatype Face = PositiveX | NegativeX | PositiveY | NegativeY | PositiveZ | NegativeZ

  /** The cube indices that request a patch: the four corners of one side
      of the cell inside, the other four outside. */
  const PositiveYMask: bv8 := NearBottomLeft + NearBottomRight + FarBottomLeft + FarBottomRight
  const NegativeYMask: bv8 := NearTopRight + NearTopLeft + FarTopRight + FarTopLeft
  const NegativeXMask: bv8 := NearBottomLeft + NearTopLeft + FarBottomLeft + FarTopLeft
  const PositiveXMask: bv8 := NearBottomRight + NearTopRight + FarBottomRight + FarTopRight
  const PositiveZMask: bv8 := NearBottomLeft + NearBottomRight + NearTopRight + NearTopLeft
  const NegativeZMask: bv8 := FarBottomLeft + FarBottomRight + FarTopRight + FarTopLeft

  /** The six masks are pairwise distinct. */
  lemma FaceMasksDistinct()
    ensures PositiveYMask == 51 && NegativeYMask == 204 && NegativeXMask == 153
    ensures PositiveXMask == 102 && PositiveZMask == 15 && NegativeZMask == 240
  {
  }

  /** Each mask selects exactly the four corners of one side of the cell:
      the corners sharing one coordinate. */
  lemma FaceMaskCorners(c: nat, i: nat, j: nat, k: nat)
    requires c < 8
    ensures BitSet(PositiveYMask, c) <==> CornerIndex(c, i, j, k).k == k
    ensures BitSet(NegativeYMask, c) <==> CornerIndex(c, i, j, k).k == k + 1
    ensures BitSet(NegativeXMask, c) <==> CornerIndex(c, i, j, k).i == i
    ensures BitSet(PositiveXMask, c) <==> CornerIndex(c, i, j, k).i == i + 1
    ensures BitSet(PositiveZMask, c) <==> CornerIndex(c, i, j, k).j == j
    ensures BitSet(NegativeZMask, c) <==> CornerIndex(c, i, j, k).j == j + 1
  {
    if c < 4 {
      if c < 2 { assert c == 0 || c == 1; } else { assert c == 2 || c == 3; }
    } else {
      if c < 6 { assert c == 4 || c == 5; } else { assert c == 6 || c == 7; }
    }
  }

  /** The patches a cell with cube index `cubeIndex` requests, in the order
      the six tests are made. */
  function PatchesFor(cubeIndex: bv8): seq<Face>
  {
    (if cubeIndex == PositiveYMask then [PositiveY] else [])
    + (if cubeIndex == NegativeYMask then [NegativeY] else [])
    + (if cubeIndex == NegativeXMask then [NegativeX] else [])
    + (if cubeIndex == PositiveXMask then [PositiveX] else [])
    + (if cubeIndex == PositiveZMask then [PositiveZ] else [])
    + (if cubeIndex == NegativeZMask then [NegativeZ] else [])
  }

  /** A cell requests at most one patch, and one exactly when its cube
      index is one of the six masks. */
  lemma AtMostOnePatch(cubeIndex: bv8)
    ensures |PatchesFor(cubeIndex)| <= 1
    ensures |PatchesFor(cubeIndex)| == 1 <==>
      cubeIndex in {PositiveYMask, NegativeYMask, NegativeXMask, PositiveXMask, PositiveZMask, NegativeZMask}
  {
    FaceMasksDistinct();
  }

  /** The file-name stem of each face's patch. */
  function FacePrefix(face: Face): string
  {
    match face
    case PositiveX => "rightWall_"
    case NegativeX => "leftWall_"
    case PositiveY => "ceiling_"
    case NegativeY => "floor_"
    case PositiveZ => "frontWall_"
    case NegativeZ => "backWall_"
  }

  function FaceDirection(face: Face): Point
  {
    match face
    case PositiveX => Point(1.0, 0.0, 0.0)
    case NegativeX => Point(-1.0, 0.0, 0.0)
    case PositiveY => Point(0.0, 1.0, 0.0)
    case NegativeY => Point(0.0, -1.0, 0.0)
    case PositiveZ => Point(0.0, 0.0, 1.0)
    case NegativeZ => Point(0.0, 0.0, -1.0)
  }

  const PatchDirectory: string := "output/patches/"
  const PatchExtension: string := "_.png"

  /** The name of the patch written with counter value `counter`. */
  function PatchFileName(face: Face, counter: nat): string
  {
    PatchDirectory + FacePrefix(face) + NatToString(counter) + PatchExtension
  }

  /** The digits at the end of a string. */
  function TrailingDigits(s: string): (d: string)
    ensures forall q :: 0 <= q < |d| ==> IsDigit(d[q])
  {
    if s == [] || !IsDigit(s[|s| - 1]) then [] else TrailingDigits(s[..|s| - 1]) + [s[|s| - 1]]
  }

  lemma {:induction false} TrailingDigitsAfter(p: string, d: string)
    requires p != [] && !IsDigit(p[|p| - 1])
    requires forall q :: 0 <= q < |d| ==> IsDigit(d[q])
    ensures TrailingDigits(p + d) == d
  {
    if d == [] {
      assert p + d == p;
    } else {
      var s := p + d;
      assert s[..|s| - 1] == p + d[..|d| - 1];
      TrailingDigitsAfter(p, d[..|d| - 1]);
      assert d == d[..|d| - 1] + [d[|d| - 1]];
    }
  }

  /** The counter value a patch file name carries. */
  function PatchCounter(name: string): nat
  {
    if |name| < |PatchExtension| then 0 else ParseDecimal(TrailingDigits(name[..|name| - |PatchExtension|]))
  }

  /** The counter can be read back from the name. */
  lemma PatchCounterOfName(face: Face, counter: nat)
    ensures PatchCounter(PatchFileName(face, counter)) == counter
  {
    var stem := PatchDirectory + FacePrefix(face);
    var name := PatchFileName(face, counter);
    assert name == stem + NatToString(counter) + PatchExtension;
    assert name[..|name| - |PatchExtension|] == stem + NatToString(counter);
    assert stem[|stem| - 1] == '_';
    TrailingDigitsAfter(stem, NatToString(counter));
    ParseNatToString(counter);
  }

  /** Patches written with different counter values get different names,
      whatever their faces. */
  lemma PatchFileNamesDistinct(face1: Face, counter1: nat, face2: Face, counter2: nat)
    requires counter1 != counter2
    ensures PatchFileName(face1, counter1) != PatchFileName(face2, counter2)
  {
    PatchCounterOfName(face1, counter1);
    PatchCounterOfName(face2, counter2);
  }

  // ---------------------------------------------------------------------
  // Per-cell specification over a snapshot of the lattices
  // ---------------------------------------------------------------------

  /** The state polygonisation reads: tables, lattice size, the scalar
      field and the lattice points. */
  datatype Grid = Grid(tables: Tables, size: nat, field: seq<Cell>, points: seq<Point>)

  predicate ValidGrid(g: Grid)
  {
    WellFormedTables(g.tables) && |g.field| == g.size * g.size * g.size && |g.points| == g.size * g.size * g.size
  }

  predicate CellInGrid(g: Grid, cell: Index3)
  {
    cell.i + 1 < g.size && cell.j + 1 < g.size && cell.k + 1 < g.size
  }

  function CornerValues(g: Grid, cell: Index3): (values: seq<real>)
    requires ValidGrid(g) && CellInGrid(g, cell)
    ensures |values| == 8
  {
    seq(8, c requires 0 <= c < 8 =>
      CornerInLattice(c, cell.i, cell.j, cell.k, g.size);
      g.field[LinearIndex(CornerIndex(c, cell.i, cell.j, cell.k), g.size, g.size)].value)
  }

  function CornerPoints(g: Grid, cell: Index3): (points: seq<Point>)
    requires ValidGrid(g) && CellInGrid(g, cell)
    ensures |points| == 8
  {
    seq(8, c requires 0 <= c < 8 =>
      CornerInLattice(c, cell.i, cell.j, cell.k, g.size);
      g.points[LinearIndex(CornerIndex(c, cell.i, cell.j, cell.k), g.size, g.size)])
  }

  /** Corner `c` counts as inside when its value exceeds the iso level. */
  function InsideCorners(g: Grid, isoLevel: real, cell: Index3): (inside: seq<bool>)
    requires ValidGrid(g) && CellInGrid(g, cell)
    ensures |inside| == 8
  {
    var values := CornerValues(g, cell);
    seq(8, c requires 0 <= c < 8 => values[c] > isoLevel)
  }

  function CellCubeIndex(g: Grid, isoLevel: real, cell: Index3): bv8
    requires ValidGrid(g) && CellInGrid(g, cell)
  {
    CubeIndexOf(InsideCorners(g, isoLevel, cell))
  }

  /** Bit `c` of a cell's cube index is set exactly when corner `c`'s
      value is strictly above the iso level. */
  lemma CellCubeIndexBits(g: Grid, isoLevel: real, cell: Index3, c: nat)
    requires ValidGrid(g) && CellInGrid(g, cell) && c < 8
    ensures BitSet(CellCubeIndex(g, isoLevel, cell), c) <==> CornerValues(g, cell)[c] > isoLevel
  {
    CubeIndexBits(InsideCorners(g, isoLevel, cell));
  }

  function CellTrianglesAt(g: Grid, isoLevel: real, cell: Index3): (ts: seq<Triangle>)
    requires ValidGrid(g) && CellInGrid(g, cell)
    ensures |ts| <= 5
    ensures g.tables.edgeTable[CellCubeIndex(g, isoLevel, cell) as int] == 0 ==> ts == []
  {
    CellTriangles(g.tables, isoLevel, CellCubeIndex(g, isoLevel, cell), CornerPoints(g, cell), CornerValues(g, cell))
  }

  /** The patches a cell requests: none when patches are off or the cell
      is entirely inside or outside. */
  function CellPatches(g: Grid, isoLevel: real, generatePatches: bool, cell: Index3): (faces: seq<Face>)
    requires ValidGrid(g) && CellInGrid(g, cell)
    ensures |faces| <= 1
    ensures g.tables.edgeTable[CellCubeIndex(g, isoLevel, cell) as int] == 0 ==> faces == []
    ensures !generatePatches ==> faces == []
    ensures |faces| == 1 ==>
      CellCubeIndex(g, isoLevel, cell) in {PositiveYMask, NegativeYMask, NegativeXMask, PositiveXMask, PositiveZMask, NegativeZMask}
  {
    var cubeIndex := CellCubeIndex(g, isoLevel, cell);
    AtMostOnePatch(cubeIndex);
    if g.tables.edgeTable[cubeIndex as int] == 0 || !generatePatches then [] else PatchesFor(cubeIndex)
  }

  /** Texture coordinates the vector mesher gives every vertex. */
  const MeshU: real := 0.5
  const MeshV: real := 0.5

  predicate CellsInGrid(g: Grid, cells: seq<Index3>)
  {
    forall q :: 0 <= q < |cells| ==> CellInGrid(g, cells[q])
  }

  lemma CellsInGridAppend(g: Grid, a: seq<Index3>, b: seq<Index3>)
    requires CellsInGrid(g, a) && CellsInGrid(g, b)
    ensures CellsInGrid(g, a + b)
  {
    forall q | 0 <= q < |a + b|
      ensures CellInGrid(g, (a + b)[q])
    {
      if q >= |a| {
        assert (a + b)[q] == b[q - |a|];
      }
    }
  }

  // Outputs of a sequence of cells, for any per-cell function

  /** The outputs of `cells`, cell after cell. */
  function Concatenated<U>(f: Index3 -> seq<U>, cells: seq<Index3>): seq<U>
  {
    Flatten(MapSeq(f, cells))
  }

  lemma ConcatenatedAppend<U>(f: Index3 -> seq<U>, a: seq<Index3>, b: seq<Index3>)
    ensures Concatenated(f, a + b) == Concatenated(f, a) + Concatenated(f, b)
  {
    MapSeqAppend(f, a, b);
    FlattenAppend(MapSeq(f, a), MapSeq(f, b));
  }

  lemma ConcatenatedSingle<U>(f: Index3 -> seq<U>, cell: Index3)
    ensures Concatenated(f, [cell]) == f(cell)
  {
    assert MapSeq(f, [cell]) == [f(cell)];
    FlattenSingle(f(cell));
  }

  /** Meshing cell by cell is meshing the concatenated triangles. */
  lemma {:induction false} ConcatenatedMesh(f: Index3 -> seq<Triangle>, h: Index3 -> seq<Vertex>,
                                            normal: Triangle -> Point, cells: seq<Index3>)
    requires forall q :: 0 <= q < |cells| ==> h(cells[q]) == MeshVertices(f(cells[q]), MeshU, MeshV, normal)
    ensures Concatenated(h, cells) == MeshVertices(Concatenated(f, cells), MeshU, MeshV, normal)
  {
    if cells != [] {
      var init, last := cells[..|cells| - 1], cells[|cells| - 1];
      assert cells == init + [last];
      ConcatenatedMesh(f, h, normal, init);
      ConcatenatedSingle(f, last);
      ConcatenatedSingle(h, last);
      ConcatenatedAppend(f, init, [last]);
      ConcatenatedAppend(h, init, [last]);
      MeshVerticesAppend(Concatenated(f, init), f(last), MeshU, MeshV, normal);
    }
  }

  /** The loop step: having emitted the outputs of `done` and then those
      of `more`, the buffer holds the outputs of `next == done + more`. */
  lemma MarchStep<U>(f: Index3 -> seq<U>, done: seq<Index3>, more: seq<Index3>, next: seq<Index3>,
                     out0: seq<U>, out1: seq<U>, out2: seq<U>)
    requires next == done + more
    requires out1 == out0 + Concatenated(f, done) && out2 == out1 + Concatenated(f, more)
    ensures out2 == out0 + Concatenated(f, next)
  {
    ConcatenatedAppend(f, done, more);
    ConcatAssociative(out0, Concatenated(f, done), Concatenated(f, more));
  }

  // The grid's own per-cell functions

  /** The triangles of one cell, as a function of the cell. */
  function CellTrianglesFn(g: Grid, isoLevel: real): Index3 -> seq<Triangle>
  {
    cell => if ValidGrid(g) && CellInGrid(g, cell) then CellTrianglesAt(g, isoLevel, cell) else []
  }

  /** The vertices one cell appends, as a function of the cell. */
  function CellVerticesFn(g: Grid, isoLevel: real, normal: Triangle -> Point): Index3 -> seq<Vertex>
  {
    cell => if ValidGrid(g) && CellInGrid(g, cell) then MeshVertices(CellTrianglesAt(g, isoLevel, cell), MeshU, MeshV, normal) else []
  }

  /** The patch requests of one cell, as a function of the cell. */
  function CellPatchesFn(g: Grid, isoLevel: real, generatePatches: bool): Index3 -> seq<Face>
  {
    cell => if ValidGrid(g) && CellInGrid(g, cell) then CellPatches(g, isoLevel, generatePatches, cell) else []
  }

  /** The triangles produced for a sequence of cells, in order. */
  function TrianglesOf(g: Grid, isoLevel: real, cells: seq<Index3>): seq<Triangle>
    requires ValidGrid(g) && CellsInGrid(g, cells)
  {
    Concatenated(CellTrianglesFn(g, isoLevel), cells)
  }

  /** The vertices appended for a sequence of cells: three per triangle. */
  function VerticesOf(g: Grid, isoLevel: real, normal: Triangle -> Point, cells: seq<Index3>): (vs: seq<Vertex>)
    requires ValidGrid(g) && CellsInGrid(g, cells)
    ensures |vs| == 3 * |TrianglesOf(g, isoLevel, cells)|
  {
    MeshVertices(TrianglesOf(g, isoLevel, cells), MeshU, MeshV, normal)
  }

  /** The patches requested for a sequence of cells, in order. */
  function PatchesOf(g: Grid, isoLevel: real, generatePatches: bool, cells: seq<Index3>): seq<Face>
    requires ValidGrid(g) && CellsInGrid(g, cells)
  {
    Concatenated(CellPatchesFn(g, isoLevel, generatePatches), cells)
  }

  /** Appending each cell's vertices in turn appends the vertices of the
      concatenated triangles. */
  lemma GridVertices(g: Grid, isoLevel: real, normal: Triangle -> Point, cells: seq<Index3>)
    requires ValidGrid(g) && CellsInGrid(g, cells)
    ensures Concatenated(CellVerticesFn(g, isoLevel, normal), cells) == VerticesOf(g, isoLevel, normal, cells)
  {
    ConcatenatedMesh(CellTrianglesFn(g, isoLevel), CellVerticesFn(g, isoLevel, normal), normal, cells);
  }

  /** `h` and `p` give each cell's vertices and patch requests. The
      quantifiers fire only on the grid's own per-cell functions. */
  ghost predicate Represents(g: Grid, isoLevel: real, generatePatches: bool, normal: Triangle -> Point,
                             h: Index3 -> seq<Vertex>, p: Index3 -> seq<Face>)
    requires ValidGrid(g)
  {
    (forall cell {:trigger CellTrianglesAt(g, isoLevel, cell)} :: CellInGrid(g, cell) ==>
        h(cell) == MeshVertices(CellTrianglesAt(g, isoLevel, cell), MeshU, MeshV, normal))
    && (forall cell {:trigger CellPatches(g, isoLevel, generatePatches, cell)} :: CellInGrid(g, cell) ==>
          p(cell) == CellPatches(g, isoLevel, generatePatches, cell))
  }

  lemma GridRepresents(g: Grid, isoLevel: real, generatePatches: bool, normal: Triangle -> Point)
    requires ValidGrid(g)
    ensures Represents(g, isoLevel, generatePatches, normal, CellVerticesFn(g, isoLevel, normal),
                       CellPatchesFn(g, isoLevel, generatePatches))
  {
  }

  /** Each cell contributes at most five triangles and at most one patch. */
  lemma OutputBounds(g: Grid, isoLevel: real, generatePatches: bool, cells: seq<Index3>)
    requires ValidGrid(g) && CellsInGrid(g, cells)
    ensures |TrianglesOf(g, isoLevel, cells)| <= 5 * |cells|
    ensures |PatchesOf(g, isoLevel, generatePatches, cells)| <= |cells|
  {
    var ts, ps := MapSeq(CellTrianglesFn(g, isoLevel), cells), MapSeq(CellPatchesFn(g, isoLevel, generatePatches), cells);
    forall q | 0 <= q < |cells|
      ensures |ts[q]| <= 5 && |ps[q]| <= 1
    {
      MapSeqAt(CellTrianglesFn(g, isoLevel), cells, q);
      MapSeqAt(CellPatchesFn(g, isoLevel, generatePatches), cells, q);
    }
    FlattenBound(ts, 5);
    FlattenBound(ps, 1);
  }

  /** With patches off, no cell requests one. */
  lemma NoPatchesWhenOff(g: Grid, isoLevel: real, cells: seq<Index3>)
    requires ValidGrid(g) && CellsInGrid(g, cells)
    ensures PatchesOf(g, isoLevel, false, cells) == []
  {
    var ps := MapSeq(CellPatchesFn(g, isoLevel, false), cells);
    forall q | 0 <= q < |cells|
      ensures ps[q] == []
    {
      MapSeqAt(CellPatchesFn(g, isoLevel, false), cells, q);
    }
    FlattenBound(ps, 0);
  }

  /** Marching over `a` and then over `b` is marching over `a + b`. */
  lemma CellsAppend(g: Grid, isoLevel: real, normal: Triangle -> Point, generatePatches: bool, a: seq<Index3>, b: seq<Index3>)
    requires ValidGrid(g) && CellsInGrid(g, a) && CellsInGrid(g, b)
    ensures CellsInGrid(g, a + b)
    ensures TrianglesOf(g, isoLevel, a + b) == TrianglesOf(g, isoLevel, a) + TrianglesOf(g, isoLevel, b)
    ensures VerticesOf(g, isoLevel, normal, a + b) == VerticesOf(g, isoLevel, normal, a) + VerticesOf(g, isoLevel, normal, b)
    ensures PatchesOf(g, isoLevel, generatePatches, a + b)
      == PatchesOf(g, isoLevel, generatePatches, a) + PatchesOf(g, isoLevel, generatePatches, b)
  {
    CellsInGridAppend(g, a, b);
    ConcatenatedAppend(CellTrianglesFn(g, isoLevel), a, b);
    MeshVerticesAppend(TrianglesOf(g, isoLevel, a), TrianglesOf(g, isoLevel, b), MeshU, MeshV, normal);
    ConcatenatedAppend(CellPatchesFn(g, isoLevel, generatePatches), a, b);
  }

  /** Marching a single cell gives that cell's triangles and patches. */
  lemma OneCell(g: Grid, isoLevel: real, normal: Triangle -> Point, generatePatches: bool, cell: Index3)
    requires ValidGrid(g) && CellInGrid(g, cell)
    ensures CellsInGrid(g, [cell])
    ensures TrianglesOf(g, isoLevel, [cell]) == CellTrianglesAt(g, isoLevel, cell)
    ensures PatchesOf(g, isoLevel, generatePatches, [cell]) == CellPatches(g, isoLevel, generatePatches, cell)
  {
    ConcatenatedSingle(CellTrianglesFn(g, isoLevel), cell);
    ConcatenatedSingle(CellPatchesFn(g, isoLevel, generatePatches), cell);
  }

  /** Cells per axis: one fewer than lattice points. */
  function CellsPerAxis(size: nat): nat
  {
    if size == 0 then 0 else size - 1
  }

  /** Every cell the triple loop visits lies in the grid. */
  lemma BlockInGrid(g: Grid, iEnd: nat, jStart: nat, jEnd: nat)
    requires iEnd == 0 || jEnd <= CellsPerAxis(g.size)
    requires iEnd <= CellsPerAxis(g.size)
    ensures CellsInGrid(g, BlockCells(iEnd, jStart, jEnd, CellsPerAxis(g.size)))
  {
    var cells := BlockCells(iEnd, jStart, jEnd, CellsPerAxis(g.size));
    forall q | 0 <= q < |cells|
      ensures CellInGrid(g, cells[q])
    {
      BlockCellsMembers(iEnd, jStart, jEnd, CellsPerAxis(g.size), cells[q]);
    }
  }

  // ---------------------------------------------------------------------
  // Sampling the field from the model's meshes
  // ---------------------------------------------------------------------

  /** An axis-aligned box. */
  datatype Aabb = Aabb(min: Point, max: Point)

  /** Coordinate of lattice index `index` mapped onto `[-1, 1]`. */
  function SampleCoordinate(index: nat, size: nat): real
    requires size > 0
  {
    (index as real / size as real) * 2.0 - 1.0
  }

  /** The box between sample `(x, y, z)` and sample `(x+1, y+1, z+1)`. */
  function SampleCube(cell: Index3, size: nat): Aabb
    requires size > 0
  {
    Aabb(Point(SampleCoordinate(cell.i, size), SampleCoordinate(cell.j, size), SampleCoordinate(cell.k, size)),
         Point(SampleCoordinate(cell.i + 1, size), SampleCoordinate(cell.j + 1, size), SampleCoordinate(cell.k + 1, size)))
  }

  /** The first of meshes `from .. meshCount - 1` whose box collides with
      `cube`. */
  function FirstCollision(cube: Aabb, meshCount: nat, collides: (Aabb, nat) -> bool, from: nat): Option<nat>
    decreases meshCount - from
  {
    if from >= meshCount then None
    else if collides(cube, from) then Some(from)
    else FirstCollision(cube, meshCount, collides, from + 1)
  }

  /** `FirstCollision` finds the lowest colliding mesh, and `None` means
      no mesh collides. */
  lemma {:induction false} FirstCollisionSpec(cube: Aabb, meshCount: nat, collides: (Aabb, nat) -> bool, from: nat)
    ensures FirstCollision(cube, meshCount, collides, from).Some? ==>
      var m := FirstCollision(cube, meshCount, collides, from).value;
      from <= m < meshCount && collides(cube, m) && forall q :: from <= q < m ==> !collides(cube, q)
    ensures FirstCollision(cube, meshCount, collides, from).None? <==>
      forall q :: from <= q < meshCount ==> !collides(cube, q)
    decreases meshCount - from
  {
    if from < meshCount && !collides(cube, from) {
      FirstCollisionSpec(cube, meshCount, collides, from + 1);
    }
  }

  /** A cell after sampling: value 1 and the first colliding mesh, or
      value 0 and no mesh; with no meshes at all the mesh is left as it
      was. */
  function SampledCell(cell: Cell, cube: Aabb, meshCount: nat, collides: (Aabb, nat) -> bool): Cell
  {
    match FirstCollision(cube, meshCount, collides, 0)
    case Some(m) => cell.(value := 1.0, mesh := Some(m))
    case None => cell.(value := 0.0, mesh := if meshCount == 0 then cell.mesh else None)
  }

  /** The loop over the model's meshes for one cell. */
  method SampleCell(cell: Cell, cube: Aabb, meshCount: nat, collides: (Aabb, nat) -> bool) returns (sampled: Cell)
    ensures sampled == SampledCell(cell, cube, meshCount, collides)
  {
    var fieldValue := 0.0;
    var mesh := cell.mesh;
    var m := 0;
    while m < meshCount
      invariant m <= meshCount && fieldValue == 0.0
      invariant mesh == if m == 0 then cell.mesh else None
      invariant FirstCollision(cube, meshCount, collides, 0) == FirstCollision(cube, meshCount, collides, m)
      decreases meshCount - m
    {
      if collides(cube, m) {
        fieldValue := 1.0;
        mesh := Some(m);
        break;
      } else {
        mesh := None;
        fieldValue := 0.0;
      }
      m := m + 1;
    }
    sampled := cell.(value := fieldValue, mesh := mesh);
  }

  /** Cells the sampling loops have reached before `(x, y, z)`, over rows
      `yStart .. yEnd - 1`. */
  predicate Sampled(cell: Index3, x: nat, y: nat, z: nat, yStart: nat, yEnd: nat)
  {
    yStart <= cell.j < yEnd
    && (cell.i < x || (cell.i == x && (cell.j < y || (cell.j == y && cell.k < z))))
  }

  /** The field after the sampling loops have reached `(x, y, z)`. */
  predicate FieldAfter(field: seq<Cell>, original: seq<Cell>, size: nat, meshCount: nat, collides: (Aabb, nat) -> bool,
                       x: nat, y: nat, z: nat, yStart: nat, yEnd: nat)
    requires size > 0 && |field| == |original|
  {
    forall n :: 0 <= n < |field| ==>
      field[n] == if Sampled(Decompose(n, size, size), x, y, z, yStart, yEnd)
                  then SampledCell(original[n], SampleCube(Decompose(n, size, size), size), meshCount, collides)
                  else original[n]
  }

  /** Before cell `(x, y, z)` is sampled the field still holds the
      original cell there, and sampling it extends the sampled region by
      exactly that cell. */
  lemma SampleNext(field: seq<Cell>, original: seq<Cell>, size: nat, meshCount: nat, collides: (Aabb, nat) -> bool,
                   x: nat, y: nat, z: nat, yStart: nat, yEnd: nat)
    requires size > 0 && |field| == |original| == size * size * size
    requires x < size && yStart <= y < yEnd && y < size && z < size
    requires FieldAfter(field, original, size, meshCount, collides, x, y, z, yStart, yEnd)
    ensures LinearIndex(Index3(x, y, z), size, size) < |field|
    ensures field[LinearIndex(Index3(x, y, z), size, size)] == original[LinearIndex(Index3(x, y, z), size, size)]
    ensures FieldAfter(field[LinearIndex(Index3(x, y, z), size, size) :=
                         SampledCell(original[LinearIndex(Index3(x, y, z), size, size)], SampleCube(Index3(x, y, z), size),
                                     meshCount, collides)],
                       original, size, meshCount, collides, x, y, z + 1, yStart, yEnd)
  {
    var cell := Index3(x, y, z);
    var n0 := LinearIndex(cell, size, size);
    LinearIndexBounds(cell, size, size, size);
    DecomposeLinear(cell, size, size, size);
    var after := field[n0 := SampledCell(original[n0], SampleCube(cell, size), meshCount, collides)];
    forall n | 0 <= n < |after|
      ensures after[n] == if Sampled(Decompose(n, size, size), x, y, z + 1, yStart, yEnd)
                          then SampledCell(original[n], SampleCube(Decompose(n, size, size), size), meshCount, collides)
                          else original[n]
    {
      if n != n0 && Decompose(n, size, size) == cell {
        DecodesOnlyFrom(n, cell, size, size, size);
      }
    }
  }

  /** A finished row: every `k` of the lattice is below `size`, so row `y`
      done is row `y + 1` not yet begun. */
  lemma RowSampled(field: seq<Cell>, original: seq<Cell>, size: nat, meshCount: nat, collides: (Aabb, nat) -> bool,
                   x: nat, y: nat, yStart: nat, yEnd: nat)
    requires size > 0 && |field| == |original|
    requires FieldAfter(field, original, size, meshCount, collides, x, y, size, yStart, yEnd)
    ensures FieldAfter(field, original, size, meshCount, collides, x, y + 1, 0, yStart, yEnd)
  {
    forall n | 0 <= n < |field|
      ensures Sampled(Decompose(n, size, size), x, y, size, yStart, yEnd)
              == Sampled(Decompose(n, size, size), x, y + 1, 0, yStart, yEnd)
    {
      assert Decompose(n, size, size).k < size;
    }
  }

  /** A finished slice: once the row index has reached `yEnd`, slice `x`
      done is slice `x + 1` not yet begun. */
  lemma SliceSampled(field: seq<Cell>, original: seq<Cell>, size: nat, meshCount: nat, collides: (Aabb, nat) -> bool,
                     x: nat, y: nat, yStart: nat, yEnd: nat)
    requires size > 0 && |field| == |original| && yEnd <= y
    requires FieldAfter(field, original, size, meshCount, collides, x, y, 0, yStart, yEnd)
    ensures FieldAfter(field, original, size, meshCount, collides, x + 1, yStart, 0, yStart, yEnd)
  {
    forall n | 0 <= n < |field|
      ensures Sampled(Decompose(n, size, size), x, y, 0, yStart, yEnd)
              == Sampled(Decompose(n, size, size), x + 1, yStart, 0, yStart, yEnd)
    {
    }
  }

  /** Once every slice is done, an in-range cell has been sampled exactly
      when its row lies in `yStart .. yEnd - 1`. */
  lemma FieldSampled(field: seq<Cell>, original: seq<Cell>, size: nat, meshCount: nat, collides: (Aabb, nat) -> bool,
                     yStart: nat, yEnd: nat, ijk: Index3)
    requires size > 0 && |field| == |original| == size * size * size && InBounds(ijk, size, size, size)
    requires FieldAfter(field, original, size, meshCount, collides, size, yStart, 0, yStart, yEnd)
    ensures LinearIndex(ijk, size, size) < |field|
    ensures field[LinearIndex(ijk, size, size)]
            == if yStart <= ijk.j < yEnd
               then SampledCell(original[LinearIndex(ijk, size, size)], SampleCube(ijk, size), meshCount, collides)
               else original[LinearIndex(ijk, size, size)]
  {
    LinearIndexBounds(ijk, size, size, size);
    DecomposeLinear(ijk, size, size, size);
  }

  /** The innermost loop of the sampling: cells `(x, y, 0) .. (x, y, size - 1)`. */
  method SampleRow(field: Lattice3D<Cell>, size: nat, x: nat, y: nat, yStart: nat, yEnd: nat, meshCount: nat,
                   collides: (Aabb, nat) -> bool, ghost original: seq<Cell>)
    requires field.Valid() && field.sizeX == size && field.sizeY == size && field.sizeZ == size && size > 0
    requires x < size && yStart <= y < yEnd <= size && |original| == |field.data|
    requires FieldAfter(field.data, original, size, meshCount, collides, x, y, 0, yStart, yEnd)
    modifies field
    ensures field.Valid() && |field.data| == |original|
    ensures FieldAfter(field.data, original, size, meshCount, collides, x, y + 1, 0, yStart, yEnd)
  {
    var z := 0;
    while z < field.sizeZ
      invariant z <= size && field.Valid() && |field.data| == |original|
      invariant FieldAfter(field.data, original, size, meshCount, collides, x, y, z, yStart, yEnd)
    {
      SampleNext(field.data, original, size, meshCount, collides, x, y, z, yStart, yEnd);
      var fieldCell := field.GetValue(x, y, z);
      var sampled := SampleCell(fieldCell, SampleCube(Index3(x, y, z), size), meshCount, collides);
      field.SetValue(x, y, z, sampled);
      z := z + 1;
    }
    RowSampled(field.data, original, size, meshCount, collides, x, y, yStart, yEnd);
  }

  /** The middle loop of the sampling: rows `yStart .. yEnd - 1` of slice `x`. */
  method SampleSlice(field: Lattice3D<Cell>, size: nat, x: nat, yStart: nat, yEnd: nat, meshCount: nat,
                     collides: (Aabb, nat) -> bool, ghost original: seq<Cell>)
    requires field.Valid() && field.sizeX == size && field.sizeY == size && field.sizeZ == size && size > 0
    requires x < size && yEnd <= size && |original| == |field.data|
    requires FieldAfter(field.data, original, size, meshCount, collides, x, yStart, 0, yStart, yEnd)
    modifies field
    ensures field.Valid() && |field.data| == |original|
    ensures FieldAfter(field.data, original, size, meshCount, collides, x + 1, yStart, 0, yStart, yEnd)
  {
    var y := yStart;
    while y < yEnd
      invariant yStart <= y && field.Valid() && |field.data| == |original|
      invariant FieldAfter(field.data, original, size, meshCount, collides, x, y, 0, yStart, yEnd)
    {
      SampleRow(field, size, x, y, yStart, yEnd, meshCount, collides, original);
      y := y + 1;
    }
    SliceSampled(field.data, original, size, meshCount, collides, x, y, yStart, yEnd);
  }

  /** The outer loop of the sampling: every slice of the field. */
  method SampleBlock(field: Lattice3D<Cell>, size: nat, yStart: nat, yEnd: nat, meshCount: nat,
                     collides: (Aabb, nat) -> bool)
    requires field.Valid() && field.sizeX == size && field.sizeY == size && field.sizeZ == size && size > 0
    requires yEnd <= size
    modifies field
    ensures field.Valid()
    ensures FieldAfter(field.data, old(field.data), size, meshCount, collides, size, yStart, 0, yStart, yEnd)
  {
    for x := 0 to field.sizeX
      invariant field.Valid() && |field.data| == |old(field.data)|
      invariant FieldAfter(field.data, old(field.data), size, meshCount, collides, x, yStart, 0, yStart, yEnd)
    {
      SampleSlice(field, size, x, yStart, yEnd, meshCount, collides, old(field.data));
    }
  }

  // ---------------------------------------------------------------------
  // The mesher
  // ---------------------------------------------------------------------

  /** 2^64 - 1, the value `x - 1` takes for `x == 0` in `size_t`. */
  const SizeMax: nat := 0xFFFF_FFFF_FFFF_FFFF

  function PreviousIndex(index: nat): nat
  {
    if index == 0 then SizeMax else index - 1
  }

  /** Sample point of lattice index `index` scaled by the grid spacing. */
  function PatchCoordinate(index: nat, resolution: nat, gridSpacing: real): real
    requires resolution > 0
  {
    SampleCoordinate(index, resolution) * gridSpacing
  }

  /** Where the camera sits to render the patch of `face` for cell
      `(x, y, z)`: on the previous sample plane for a positive face, on
      the next one for a negative face. */
  function CameraPosition(face: Face, x: nat, y: nat, z: nat, resolution: nat, gridSpacing: real): Point
    requires resolution > 0
  {
    var previous := Point(PatchCoordinate(PreviousIndex(x), resolution, gridSpacing),
      PatchCoordinate(PreviousIndex(y), resolution, gridSpacing), PatchCoordinate(PreviousIndex(z), resolution, gridSpacing));
    var sample := Point(PatchCoordinate(x, resolution, gridSpacing),
      PatchCoordinate(y, resolution, gridSpacing), PatchCoordinate(z, resolution, gridSpacing));
    var next := Point(PatchCoordinate(x + 1, resolution, gridSpacing),
      PatchCoordinate(y + 1, resolution, gridSpacing), PatchCoordinate(z + 1, resolution, gridSpacing));
    match face
    case PositiveX => sample.(x := previous.x)
    case NegativeX => sample.(x := next.x)
    case PositiveY => sample.(y := previous.y)
    case NegativeY => sample.(y := next.y)
    case PositiveZ => sample.(z := previous.z)
    case NegativeZ => sample.(z := next.z)
  }

  class MarchingCubes {
    const nThreads: int
    const resolution: nat
    const gridSpacing: real
    const tables: Tables
    const scalarField: Lattice3D<Cell>
    const cubeLattice: Lattice3D<Point>
    const cellRenderer: CellRenderer
    var vertices: seq<Vertex>
    var generatePatches: bool
    var scale: real
    var nPatches: nat
    /** The faces and file names of the patches requested so far. */
    ghost var patchFaces: seq<Face>
    ghost var patchFiles: seq<string>

    ghost predicate Valid()
      reads this, scalarField, cubeLattice
    {
      scalarField.Valid() && cubeLattice.Valid()
      && scalarField.sizeX == resolution && scalarField.sizeY == resolution && scalarField.sizeZ == resolution
      && cubeLattice.sizeX == resolution && cubeLattice.sizeY == resolution && cubeLattice.sizeZ == resolution
      && WellFormedTables(tables)
      && |patchFaces| == nPatches && |patchFiles| == nPatches
      && forall m :: 0 <= m < nPatches ==> patchFiles[m] == PatchFileName(patchFaces[m], m)
    }

    /** The snapshot of the state polygonisation reads. */
    function Snapshot(): Grid
      reads scalarField, cubeLattice
    {
      Grid(tables, resolution, scalarField.data, cubeLattice.data)
    }

    lemma SnapshotValid()
      requires Valid()
      ensures ValidGrid(Snapshot())
    {
    }

    /** A `resolution`-cubed field of default cells, a cube lattice of the
        same size around `centre`, no vertices, patches on. The requested
        thread count is kept as given. */
    constructor (res: nat, threads: int, spacing: real, centre: Point, mcTables: Tables)
      requires WellFormedTables(mcTables)
      ensures Valid() && fresh(scalarField) && fresh(cubeLattice) && fresh(cellRenderer)
      ensures resolution == res && nThreads == threads && gridSpacing == spacing && tables == mcTables
      ensures forall n :: 0 <= n < |scalarField.data| ==> scalarField.data[n] == DefaultCell
      ensures forall ijk :: InBounds(ijk, res, res, res) ==>
        cubeLattice.AtIndex(ijk) == LatticePoint(ijk, spacing, res, res, res, centre)
      ensures vertices == [] && generatePatches && scale == 0.0 && nPatches == 0
    {
      nThreads := threads;
      resolution := res;
      gridSpacing := spacing;
      tables := mcTables;
      scalarField := new Lattice3D(res, res, res, DefaultCell);
      var lattice := NewCubeLattice(spacing, centre, res, res, res);
      cubeLattice := lattice;
      cellRenderer := new CellRenderer();
      vertices := [];
      generatePatches := true;
      scale := 0.0;
      nPatches := 0;
      patchFaces := [];
      patchFiles := [];
    }

    method SetGeneratePatches(doGeneratePatches: bool)
      requires Valid()
      modifies this
      ensures Valid() && generatePatches == doGeneratePatches
      ensures vertices == old(vertices) && nPatches == old(nPatches) && scale == old(scale)
      ensures patchFaces == old(patchFaces) && patchFiles == old(patchFiles)
    {
      generatePatches := doGeneratePatches;
    }

    /** Points the patch camera for `face` at cell `(x, y, z)` and returns
        the file the patch is written to: the face's stem and the patch
        counter, which goes up by one. */
    method CellImagePatch(x: nat, y: nat, z: nat, face: Face) returns (filename: string)
      requires Valid() && resolution > 0
      modifies this, cellRenderer
      ensures Valid()
      ensures filename == PatchFileName(face, old(nPatches))
      ensures nPatches == old(nPatches) + 1
      ensures patchFaces == old(patchFaces) + [face] && patchFiles == old(patchFiles) + [filename]
      ensures vertices == old(vertices) && generatePatches == old(generatePatches) && scale == old(scale)
      ensures cellRenderer.position == CameraPosition(face, x, y, z, resolution, gridSpacing) && cellRenderer.target == FaceDirection(face)
      ensures cellRenderer.left == PatchCoordinate(PreviousIndex(x), resolution, gridSpacing) && cellRenderer.right == PatchCoordinate(x + 1, resolution, gridSpacing)
      ensures cellRenderer.bottom == PatchCoordinate(PreviousIndex(y), resolution, gridSpacing) && cellRenderer.top == PatchCoordinate(y + 1, resolution, gridSpacing)
      ensures cellRenderer.zNear == -1.0 && cellRenderer.zFar == old(cellRenderer.zFar)
    {
      var previous := Point(PatchCoordinate(PreviousIndex(x), resolution, gridSpacing),
        PatchCoordinate(PreviousIndex(y), resolution, gridSpacing), PatchCoordinate(PreviousIndex(z), resolution, gridSpacing));
      var next := Point(PatchCoordinate(x + 1, resolution, gridSpacing),
        PatchCoordinate(y + 1, resolution, gridSpacing), PatchCoordinate(z + 1, resolution, gridSpacing));
      var position := CameraPosition(face, x, y, z, resolution, gridSpacing);
      var direction := FaceDirection(face);
      filename := PatchFileName(face, nPatches);
      patchFaces := patchFaces + [face];
      patchFiles := patchFiles + [filename];
      nPatches := nPatches + 1;
      cellRenderer.SetCameraPosition(position);
      cellRenderer.SetCameraTarget(direction);
      cellRenderer.SetOrthoVolume(previous.x, next.x, previous.y, next.y, -1.0, 100.0);
    }

    /** Polygonises cell `(x, y, z)`: the cube index from the corners
        strictly above the iso level, no triangles and no patch when the
        cell has no cut edge, otherwise at most one patch request and the
        triangles its `triTable` row lists, written to the first slots of
        `triangleResult`. */
    method PolygoniseCell(x: nat, y: nat, z: nat, isoLevel: real, triangleResult: array<Triangle>) returns (numTris: nat)
      requires Valid() && CellInGrid(Snapshot(), Index3(x, y, z)) && triangleResult.Length == 5
      modifies this, cellRenderer, triangleResult
      ensures Valid() && Snapshot() == old(Snapshot())
      ensures ValidGrid(Snapshot()) && numTris <= triangleResult.Length
      ensures triangleResult[..numTris] == CellTrianglesAt(Snapshot(), isoLevel, Index3(x, y, z))
      ensures patchFaces == old(patchFaces) + CellPatches(Snapshot(), isoLevel, generatePatches, Index3(x, y, z))
      ensures vertices == old(vertices) && generatePatches == old(generatePatches) && scale == old(scale)
    {
      var g := Snapshot();
      var cell := Index3(x, y, z);
      var values := CornerValues(g, cell);
      var cubeIndex := CubeIndex(seq(8, c requires 0 <= c < 8 => values[c] > isoLevel));
      if tables.edgeTable[cubeIndex as int] == 0 {
        return 0;
      }
      if generatePatches {
        ApplyPatchMasks(x, y, z, cubeIndex);
      }
      var vertlist := VertList(tables.edgeTable[cubeIndex as int], isoLevel, CornerPoints(g, cell), values);
      numTris := CollectTriangles(tables.triTable[cubeIndex as int], vertlist, triangleResult);
    }

    /** The six patch tests, made one after the other. */
    method ApplyPatchMasks(x: nat, y: nat, z: nat, cubeIndex: bv8)
      requires Valid() && resolution > 0
      modifies this, cellRenderer
      ensures Valid()
      ensures patchFaces == old(patchFaces) + PatchesFor(cubeIndex)
      ensures vertices == old(vertices) && generatePatches == old(generatePatches) && scale == old(scale)
    {
      var filename;
      if cubeIndex == PositiveYMask { filename := CellImagePatch(x, y, z, PositiveY); }
      if cubeIndex == NegativeYMask { filename := CellImagePatch(x, y, z, NegativeY); }
      if cubeIndex == NegativeXMask { filename := CellImagePatch(x, y, z, NegativeX); }
      if cubeIndex == PositiveXMask { filename := CellImagePatch(x, y, z, PositiveX); }
      if cubeIndex == PositiveZMask { filename := CellImagePatch(x, y, z, PositiveZ); }
      if cubeIndex == NegativeZMask { filename := CellImagePatch(x, y, z, NegativeZ); }
    }

    /** Polygonises one cell and appends three vertices per triangle. */
    method MarchCell(isoLevel: real, x: nat, y: nat, z: nat, normal: Triangle -> Point, triangleResult: array<Triangle>,
                     ghost g: Grid, ghost h: Index3 -> seq<Vertex>, ghost p: Index3 -> seq<Face>)
      requires Valid() && CellInGrid(g, Index3(x, y, z)) && triangleResult.Length == 5
      requires Snapshot() == g && ValidGrid(g) && Represents(g, isoLevel, generatePatches, normal, h, p)
      modifies this, cellRenderer, triangleResult
      ensures Valid() && Snapshot() == g
      ensures vertices == old(vertices) + Concatenated(h, [Index3(x, y, z)])
      ensures patchFaces == old(patchFaces) + Concatenated(p, [Index3(x, y, z)])
      ensures generatePatches == old(generatePatches) && scale == old(scale)
    {
      var numTris := PolygoniseCell(x, y, z, isoLevel, triangleResult);
      vertices := AppendVertices(vertices, triangleResult[..numTris], MeshU, MeshV, normal);
      ConcatenatedSingle(h, Index3(x, y, z));
      ConcatenatedSingle(p, Index3(x, y, z));
    }

    /** Marches the cells `(x, y, 0) .. (x, y, resolution - 2)`. */
    method MarchRow(isoLevel: real, x: nat, y: nat, normal: Triangle -> Point, triangleResult: array<Triangle>,
                    ghost g: Grid, ghost h: Index3 -> seq<Vertex>, ghost p: Index3 -> seq<Face>)
      requires Valid() && x < CellsPerAxis(resolution) && y < CellsPerAxis(resolution) && triangleResult.Length == 5
      requires Snapshot() == g && ValidGrid(g) && Represents(g, isoLevel, generatePatches, normal, h, p)
      modifies this, cellRenderer, triangleResult
      ensures Valid() && Snapshot() == g
      ensures vertices == old(vertices) + Concatenated(h, RowCells(x, y, CellsPerAxis(resolution)))
      ensures patchFaces == old(patchFaces) + Concatenated(p, RowCells(x, y, CellsPerAxis(resolution)))
      ensures generatePatches == old(generatePatches) && scale == old(scale)
    {
      var kEnd := resolution - 1;
      for z := 0 to kEnd
        invariant Valid() && Snapshot() == g
        invariant vertices == old(vertices) + Concatenated(h, RowCells(x, y, z))
        invariant patchFaces == old(patchFaces) + Concatenated(p, RowCells(x, y, z))
        invariant generatePatches == old(generatePatches) && scale == old(scale)
      {
        MarchNextCell(isoLevel, x, y, z, normal, triangleResult, g, h, p, old(vertices), old(patchFaces));
      }
    }

    /** One pass of the row loop: cell `(x, y, z)` appended after cells
        `(x, y, 0) .. (x, y, z - 1)`. */
    method MarchNextCell(isoLevel: real, x: nat, y: nat, z: nat, normal: Triangle -> Point, triangleResult: array<Triangle>,
                         ghost g: Grid, ghost h: Index3 -> seq<Vertex>, ghost p: Index3 -> seq<Face>,
                         ghost vertices0: seq<Vertex>, ghost faces0: seq<Face>)
      requires Valid() && CellInGrid(g, Index3(x, y, z)) && triangleResult.Length == 5
      requires Snapshot() == g && ValidGrid(g) && Represents(g, isoLevel, generatePatches, normal, h, p)
      requires vertices == vertices0 + Concatenated(h, RowCells(x, y, z))
      requires patchFaces == faces0 + Concatenated(p, RowCells(x, y, z))
      modifies this, cellRenderer, triangleResult
      ensures Valid() && Snapshot() == g
      ensures vertices == vertices0 + Concatenated(h, RowCells(x, y, z + 1))
      ensures patchFaces == faces0 + Concatenated(p, RowCells(x, y, z + 1))
      ensures generatePatches == old(generatePatches) && scale == old(scale)
    {
      ghost var vertices1, faces1 := vertices, patchFaces;
      MarchCell(isoLevel, x, y, z, normal, triangleResult, g, h, p);
      RowCellsSnoc(x, y, z);
      MarchStep(h, RowCells(x, y, z), [Index3(x, y, z)], RowCells(x, y, z + 1), vertices0, vertices1, vertices);
      MarchStep(p, RowCells(x, y, z), [Index3(x, y, z)], RowCells(x, y, z + 1), faces0, faces1, patchFaces);
    }

    /** Marches rows `yStart .. yEnd - 1` of slice `x`. */
    method MarchSlice(isoLevel: real, x: nat, yStart: nat, yEnd: nat, normal: Triangle -> Point, triangleResult: array<Triangle>,
                      ghost g: Grid, ghost h: Index3 -> seq<Vertex>, ghost p: Index3 -> seq<Face>)
      requires Valid() && x < CellsPerAxis(resolution) && yEnd <= CellsPerAxis(resolution) && triangleResult.Length == 5
      requires Snapshot() == g && ValidGrid(g) && Represents(g, isoLevel, generatePatches, normal, h, p)
      modifies this, cellRenderer, triangleResult
      ensures Valid() && Snapshot() == g
      ensures vertices == old(vertices) + Concatenated(h, SliceCells(x, yStart, yEnd, CellsPerAxis(resolution)))
      ensures patchFaces == old(patchFaces) + Concatenated(p, SliceCells(x, yStart, yEnd, CellsPerAxis(resolution)))
      ensures generatePatches == old(generatePatches) && scale == old(scale)
    {
      var kEnd := CellsPerAxis(resolution);
      SliceCellsEmpty(x, yStart, yStart, kEnd);
      if yStart < yEnd {
        for y := yStart to yEnd
          invariant Valid() && Snapshot() == g
          invariant vertices == old(vertices) + Concatenated(h, SliceCells(x, yStart, y, kEnd))
          invariant patchFaces == old(patchFaces) + Concatenated(p, SliceCells(x, yStart, y, kEnd))
          invariant generatePatches == old(generatePatches) && scale == old(scale)
        {
          MarchNextRow(isoLevel, x, yStart, y, normal, triangleResult, g, h, p, old(vertices), old(patchFaces));
        }
      } else {
        SliceCellsEmpty(x, yStart, yEnd, kEnd);
      }
    }

    /** One pass of the slice loop: row `y` of slice `x` appended after
        rows `yStart .. y - 1`. */
    method MarchNextRow(isoLevel: real, x: nat, yStart: nat, y: nat, normal: Triangle -> Point, triangleResult: array<Triangle>,
                        ghost g: Grid, ghost h: Index3 -> seq<Vertex>, ghost p: Index3 -> seq<Face>,
                        ghost vertices0: seq<Vertex>, ghost faces0: seq<Face>)
      requires Valid() && x < CellsPerAxis(resolution) && yStart <= y < CellsPerAxis(resolution) && triangleResult.Length == 5
      requires Snapshot() == g && ValidGrid(g) && Represents(g, isoLevel, generatePatches, normal, h, p)
      requires vertices == vertices0 + Concatenated(h, SliceCells(x, yStart, y, CellsPerAxis(resolution)))
      requires patchFaces == faces0 + Concatenated(p, SliceCells(x, yStart, y, CellsPerAxis(resolution)))
      modifies this, cellRenderer, triangleResult
      ensures Valid() && Snapshot() == g
      ensures vertices == vertices0 + Concatenated(h, SliceCells(x, yStart, y + 1, CellsPerAxis(resolution)))
      ensures patchFaces == faces0 + Concatenated(p, SliceCells(x, yStart, y + 1, CellsPerAxis(resolution)))
      ensures generatePatches == old(generatePatches) && scale == old(scale)
    {
      var kEnd := CellsPerAxis(resolution);
      ghost var vertices1, faces1 := vertices, patchFaces;
      MarchRow(isoLevel, x, y, normal, triangleResult, g, h, p);
      SliceCellsSnoc(x, yStart, y, kEnd);
      MarchStep(h, SliceCells(x, yStart, y, kEnd), RowCells(x, y, kEnd), SliceCells(x, yStart, y + 1, kEnd),
                vertices0, vertices1, vertices);
      MarchStep(p, SliceCells(x, yStart, y, kEnd), RowCells(x, y, kEnd), SliceCells(x, yStart, y + 1, kEnd),
                faces0, faces1, patchFaces);
    }

    /** Marches every cell `(i, j, k)` with `i, k < resolution - 1` and
        `indexStart <= j < indexEnd`, slice by slice, row by row,
        appending each cell's vertices and requesting its patches. */
    method MarchingCubesWorker(isoLevel: real, indexStart: nat, indexEnd: nat, normal: Triangle -> Point,
                               ghost g: Grid, ghost h: Index3 -> seq<Vertex>, ghost p: Index3 -> seq<Face>)
      requires Valid() && (CellsPerAxis(resolution) == 0 || indexEnd <= CellsPerAxis(resolution))
      requires Snapshot() == g && ValidGrid(g) && Represents(g, isoLevel, generatePatches, normal, h, p)
      modifies this, cellRenderer
      ensures Valid() && Snapshot() == g
      ensures vertices == old(vertices)
        + Concatenated(h, BlockCells(CellsPerAxis(resolution), indexStart, indexEnd, CellsPerAxis(resolution)))
      ensures patchFaces == old(patchFaces)
        + Concatenated(p, BlockCells(CellsPerAxis(resolution), indexStart, indexEnd, CellsPerAxis(resolution)))
      ensures generatePatches == old(generatePatches) && scale == old(scale)
    {
      var triangleResult := new Triangle[5];
      MarchBlock(isoLevel, indexStart, indexEnd, normal, triangleResult, g, h, p);
    }

    /** The worker's triple loop, slice by slice. */
    method MarchBlock(isoLevel: real, indexStart: nat, indexEnd: nat, normal: Triangle -> Point, triangleResult: array<Triangle>,
                      ghost g: Grid, ghost h: Index3 -> seq<Vertex>, ghost p: Index3 -> seq<Face>)
      requires Valid() && (CellsPerAxis(resolution) == 0 || indexEnd <= CellsPerAxis(resolution)) && triangleResult.Length == 5
      requires Snapshot() == g && ValidGrid(g) && Represents(g, isoLevel, generatePatches, normal, h, p)
      modifies this, cellRenderer, triangleResult
      ensures Valid() && Snapshot() == g
      ensures vertices == old(vertices)
        + Concatenated(h, BlockCells(CellsPerAxis(resolution), indexStart, indexEnd, CellsPerAxis(resolution)))
      ensures patchFaces == old(patchFaces)
        + Concatenated(p, BlockCells(CellsPerAxis(resolution), indexStart, indexEnd, CellsPerAxis(resolution)))
      ensures generatePatches == old(generatePatches) && scale == old(scale)
    {
      var cells := CellsPerAxis(resolution);
      for x := 0 to cells
        invariant Valid() && Snapshot() == g
        invariant vertices == old(vertices) + Concatenated(h, BlockCells(x, indexStart, indexEnd, cells))
        invariant patchFaces == old(patchFaces) + Concatenated(p, BlockCells(x, indexStart, indexEnd, cells))
        invariant generatePatches == old(generatePatches) && scale == old(scale)
      {
        MarchNextSlice(isoLevel, x, indexStart, indexEnd, normal, triangleResult, g, h, p, old(vertices), old(patchFaces));
      }
    }

    /** One pass of the worker's loop: slice `x` appended after slices
        `0 .. x - 1`. */
    method MarchNextSlice(isoLevel: real, x: nat, yStart: nat, yEnd: nat, normal: Triangle -> Point, triangleResult: array<Triangle>,
                          ghost g: Grid, ghost h: Index3 -> seq<Vertex>, ghost p: Index3 -> seq<Face>,
                          ghost vertices0: seq<Vertex>, ghost faces0: seq<Face>)
      requires Valid() && x < CellsPerAxis(resolution) && yEnd <= CellsPerAxis(resolution) && triangleResult.Length == 5
      requires Snapshot() == g && ValidGrid(g) && Represents(g, isoLevel, generatePatches, normal, h, p)
      requires vertices == vertices0 + Concatenated(h, BlockCells(x, yStart, yEnd, CellsPerAxis(resolution)))
      requires patchFaces == faces0 + Concatenated(p, BlockCells(x, yStart, yEnd, CellsPerAxis(resolution)))
      modifies this, cellRenderer, triangleResult
      ensures Valid() && Snapshot() == g
      ensures vertices == vertices0 + Concatenated(h, BlockCells(x + 1, yStart, yEnd, CellsPerAxis(resolution)))
      ensures patchFaces == faces0 + Concatenated(p, BlockCells(x + 1, yStart, yEnd, CellsPerAxis(resolution)))
      ensures generatePatches == old(generatePatches) && scale == old(scale)
    {
      var cells := CellsPerAxis(resolution);
      ghost var vertices1, faces1 := vertices, patchFaces;
      MarchSlice(isoLevel, x, yStart, yEnd, normal, triangleResult, g, h, p);
      MarchStep(h, BlockCells(x, yStart, yEnd, cells), SliceCells(x, yStart, yEnd, cells),
                BlockCells(x + 1, yStart, yEnd, cells), vertices0, vertices1, vertices);
      MarchStep(p, BlockCells(x, yStart, yEnd, cells), SliceCells(x, yStart, yEnd, cells),
                BlockCells(x + 1, yStart, yEnd, cells), faces0, faces1, patchFaces);
    }

    /** Marches the whole grid: every cell of the lattice once, the last
        slice index `resolution - 1` taken in `size_t` (so 2^64 - 1 when
        the resolution is 0). */
    method ComputeMarchingCubes(isoLevel: real, normal: Triangle -> Point)
      requires Valid()
      modifies this, cellRenderer
      ensures Valid() && Snapshot() == old(Snapshot()) && ValidGrid(Snapshot())
      ensures CellsInGrid(Snapshot(), AllCells())
      ensures vertices == old(vertices) + VerticesOf(Snapshot(), isoLevel, normal, AllCells())
      ensures patchFaces == old(patchFaces) + PatchesOf(Snapshot(), isoLevel, generatePatches, AllCells())
      ensures generatePatches == old(generatePatches) && scale == old(scale)
    {
      var indexEnd := if resolution == 0 then SizeMax else resolution - 1;
      ghost var g := Snapshot();
      GridRepresents(g, isoLevel, generatePatches, normal);
      MarchingCubesWorker(isoLevel, 0, indexEnd, normal, g, CellVerticesFn(g, isoLevel, normal),
                          CellPatchesFn(g, isoLevel, generatePatches));
      BlockInGrid(g, CellsPerAxis(resolution), 0, CellsPerAxis(resolution));
      GridVertices(g, isoLevel, normal, AllCells());
    }

    /** Samples the field rows `indexStart .. indexEnd - 1` of every slice
        against the model's `meshCount` meshes; `collides(cube, m)` is the
        box test of a sample cube against mesh `m`. With a resolution of
        0 there are no cells and the loops do nothing. */
    method ScalarFieldFromMeshWorker(indexStart: nat, indexEnd: nat, meshCount: nat, collides: (Aabb, nat) -> bool)
      requires Valid() && indexEnd <= resolution
      modifies scalarField
      ensures Valid()
      ensures forall ijk :: InBounds(ijk, resolution, resolution, resolution) ==>
        scalarField.AtIndex(ijk)
          == if indexStart <= ijk.j < indexEnd
             then SampledCell(old(scalarField.AtIndex(ijk)), SampleCube(ijk, resolution), meshCount, collides)
             else old(scalarField.AtIndex(ijk))
    {
      if resolution > 0 {
        SampleBlock(scalarField, resolution, indexStart, indexEnd, meshCount, collides);
        forall ijk | InBounds(ijk, resolution, resolution, resolution)
          ensures scalarField.AtIndex(ijk)
            == if indexStart <= ijk.j < indexEnd
               then SampledCell(old(scalarField.AtIndex(ijk)), SampleCube(ijk, resolution), meshCount, collides)
               else old(scalarField.AtIndex(ijk))
        {
          FieldSampled(scalarField.data, old(scalarField.data), resolution, meshCount, collides, indexStart, indexEnd, ijk);
        }
      }
    }

    /** Records the model's scale and samples the whole field from the
        model's meshes. */
    method ComputeScalarField(modelScale: real, meshCount: nat, collides: (Aabb, nat) -> bool)
      requires Valid()
      modifies this, scalarField
      ensures Valid() && scale == modelScale
      ensures vertices == old(vertices) && generatePatches == old(generatePatches)
      ensures nPatches == old(nPatches) && patchFaces == old(patchFaces)
      ensures forall ijk :: InBounds(ijk, resolution, resolution, resolution) ==>
        scalarField.AtIndex(ijk) == SampledCell(old(scalarField.AtIndex(ijk)), SampleCube(ijk, resolution), meshCount, collides)
    {
      scale := modelScale;
      ScalarFieldFromMeshWorker(0, resolution, meshCount, collides);
    }

    /** The cells of the grid in marching order. */
    function AllCells(): seq<Index3>
    {
      BlockCells(CellsPerAxis(resolution), 0, CellsPerAxis(resolution), CellsPerAxis(resolution))
    }
  }
}
