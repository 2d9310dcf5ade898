/** The per-cell steps of the marching-cubes algorithm shared by the
    vector-backed implementation and the fixed-size template one: the
    lookup tables, the 8-bit cube index, the edge interpolation and the
    walk over a `triTable` row. */
module Polygonise {
  import opened Geometry
  import opened RealArith
  import opened Lattice

  // ---------------------------------------------------------------------
  // Lookup tables
  // ---------------------------------------------------------------------

  /** The two marching-cubes lookup tables, indexed by the cube index:
      bit `e` of `edgeTable[c]` is set when edge `e` is cut, and
      `triTable[c]` lists cut edges three per triangle, closed by -1.
      Their 256 entries are not part of this model. */
  datatype Tables = Tables(edgeTable: seq<bv16>, triTable: seq<seq<int>>)

  /** What the walk over a `triTable` row relies on: 16 entries, each an
      edge number or -1, the last one -1, and a triangle that starts is
      complete. Triangle `m` occupies entries `3m`, `3m+1`, `3m+2`. */
  predicate WellFormedRow(row: seq<int>)
  {
    |row| == 16 && row[15] == -1
    && (forall t :: 0 <= t < 16 ==> -1 <= row[t] < 12)
    && (forall m :: 0 <= m < 5 && row[3 * m] != -1 ==> row[3 * m + 1] != -1 && row[3 * m + 2] != -1)
  }

  predicate WellFormedTables(tables: Tables)
  {
    |tables.edgeTable| == 256 && |tables.triTable| == 256
    && forall c :: 0 <= c < 256 ==> WellFormedRow(tables.triTable[c])
  }

  datatype Triangle = Triangle(a: Point, b: Point, c: Point)

  /** The number of triangles a row lists from triangle `m` on: the
      triples before the -1 terminator. */
  function TriangleCount(row: seq<int>, m: nat): (n: nat)
    requires WellFormedRow(row) && m <= 5
    ensures m + n <= 5
    decreases 5 - m
  {
    if row[3 * m] == -1 then 0 else TriangleCount(row, m + 1) + 1
  }

  /** `TriangleCount` counts exactly the triples before the first -1 at
      a triple boundary: those triples hold edge numbers, and the entry
      after them is the terminator. */
  lemma {:induction false} TriangleCountIsTerminator(row: seq<int>, m: nat)
    requires WellFormedRow(row) && m <= 5
    ensures row[3 * (m + TriangleCount(row, m))] == -1
    ensures forall q :: m <= q < m + TriangleCount(row, m) ==>
      0 <= row[3 * q] < 12 && 0 <= row[3 * q + 1] < 12 && 0 <= row[3 * q + 2] < 12
    decreases 5 - m
  {
    if row[3 * m] != -1 {
      TriangleCountIsTerminator(row, m + 1);
    }
  }

  /** The triangles a row lists from triangle `m` on, each corner taken
      from `vertlist` at the edge number the row gives. */
  function TrianglesFrom(row: seq<int>, vertlist: seq<Point>, m: nat): (ts: seq<Triangle>)
    requires WellFormedRow(row) && |vertlist| == 12 && m <= 5
    ensures |ts| == TriangleCount(row, m)
    decreases 5 - m
  {
    if row[3 * m] == -1 then []
    else [Triangle(vertlist[row[3 * m]], vertlist[row[3 * m + 1]], vertlist[row[3 * m + 2]])] + TrianglesFrom(row, vertlist, m + 1)
  }

  /** Triangle `q` of a row is made of the `vertlist` entries the row
      names at positions `3q`, `3q+1` and `3q+2`. */
  lemma {:induction false} TrianglesFromAt(row: seq<int>, vertlist: seq<Point>, m: nat, q: nat)
    requires WellFormedRow(row) && |vertlist| == 12 && m <= 5 && m <= q < m + TriangleCount(row, m)
    ensures q < 5
    ensures 0 <= row[3 * q] < 12 && 0 <= row[3 * q + 1] < 12 && 0 <= row[3 * q + 2] < 12
    ensures TrianglesFrom(row, vertlist, m)[q - m]
      == Triangle(vertlist[row[3 * q]], vertlist[row[3 * q + 1]], vertlist[row[3 * q + 2]])
    decreases 5 - m
  {
    TriangleCountIsTerminator(row, m);
    if q > m {
      TrianglesFromAt(row, vertlist, m + 1, q);
    }
  }

  /** One step of the walk: entry `t = 3m` starts a triangle. */
  lemma TriangleStep(row: seq<int>, vertlist: seq<Point>, m: nat, t: nat)
    requires WellFormedRow(row) && |vertlist| == 12 && m <= 5 && t == 3 * m && row[t] != -1
    ensures m < 5 && 0 <= row[t] < 12 && 0 <= row[t + 1] < 12 && 0 <= row[t + 2] < 12
    ensures TriangleCount(row, m) == TriangleCount(row, m + 1) + 1
    ensures TrianglesFrom(row, vertlist, m)
      == [Triangle(vertlist[row[t]], vertlist[row[t + 1]], vertlist[row[t + 2]])] + TrianglesFrom(row, vertlist, m + 1)
  {
  }

  /** Writes `triangleResult[n]`, viewed as a prefix growing by one. */
  method PlaceTriangle(triangleResult: array<Triangle>, n: nat, triangle: Triangle)
    requires n < triangleResult.Length
    modifies triangleResult
    ensures triangleResult[..n + 1] == old(triangleResult[..n]) + [triangle]
  {
    triangleResult[n] := triangle;
    assert triangleResult[..n + 1] == triangleResult[..n] + [triangle];
  }

  lemma PrefixGrows<T>(done: seq<T>, x: T, rest: seq<T>, whole: seq<T>)
    requires done + ([x] + rest) == whole
    ensures (done + [x]) + rest == whole
  {
  }

  /** One pass of the loop below: the triple at `t = 3 * ntriang` becomes
      triangle `ntriang`, and the written prefix still lines up with the
      row's triangle list. */
  method CollectOne(row: seq<int>, vertlist: seq<Point>, triangleResult: array<Triangle>, ntriang: nat, t: nat)
    requires WellFormedRow(row) && |vertlist| == 12 && triangleResult.Length == 5
    requires ntriang <= 5 && t == 3 * ntriang && row[t] != -1
    requires triangleResult[..ntriang] + TrianglesFrom(row, vertlist, ntriang) == TrianglesFrom(row, vertlist, 0)
    modifies triangleResult
    ensures ntriang < 5 && TriangleCount(row, ntriang) == TriangleCount(row, ntriang + 1) + 1
    ensures triangleResult[..ntriang + 1] + TrianglesFrom(row, vertlist, ntriang + 1) == TrianglesFrom(row, vertlist, 0)
  {
    TriangleStep(row, vertlist, ntriang, t);
    ghost var done := triangleResult[..ntriang];
    ghost var rest := TrianglesFrom(row, vertlist, ntriang + 1);
    var triangle := Triangle(vertlist[row[t]], vertlist[row[t + 1]], vertlist[row[t + 2]]);
    PlaceTriangle(triangleResult, ntriang, triangle);
    PrefixGrows(done, triangle, rest, TrianglesFrom(row, vertlist, 0));
  }

  /** The loop over a `triTable` row, `t` stepping by 3 until it meets
      -1: writes the listed triangles into the first slots of
      `triangleResult` and returns how many there are. */
  method CollectTriangles(row: seq<int>, vertlist: seq<Point>, triangleResult: array<Triangle>) returns (ntriang: nat)
    requires WellFormedRow(row) && |vertlist| == 12 && triangleResult.Length == 5
    modifies triangleResult
    ensures ntriang == TriangleCount(row, 0) && ntriang <= 5
    ensures triangleResult[..ntriang] == TrianglesFrom(row, vertlist, 0)
  {
    ntriang := 0;
    var t := 0;
    while row[t] != -1
      invariant t == 3 * ntriang && ntriang <= 5
      invariant ntriang + TriangleCount(row, ntriang) == TriangleCount(row, 0)
      invariant triangleResult[..ntriang] + TrianglesFrom(row, vertlist, ntriang) == TrianglesFrom(row, vertlist, 0)
      decreases 5 - ntriang
    {
      CollectOne(row, vertlist, triangleResult, ntriang, t);
      t := t + 3;
      ntriang := ntriang + 1;
    }
    CollectDone(row, vertlist, triangleResult[..], ntriang);
  }

  lemma CollectDone(row: seq<int>, vertlist: seq<Point>, written: seq<Triangle>, ntriang: nat)
    requires WellFormedRow(row) && |vertlist| == 12 && |written| == 5 && ntriang <= 5 && row[3 * ntriang] == -1
    requires written[..ntriang] + TrianglesFrom(row, vertlist, ntriang) == TrianglesFrom(row, vertlist, 0)
    ensures TriangleCount(row, ntriang) == 0
    ensures written[..ntriang] == TrianglesFrom(row, vertlist, 0)
  {
    assert TrianglesFrom(row, vertlist, ntriang) == [];
  }

  // ---------------------------------------------------------------------
  // The cube index
  // ---------------------------------------------------------------------

  /** The `Corner` bits, one per cube corner 0..7. */
  const NearBottomLeft: bv8 := 1
  const NearBottomRight: bv8 := 2
  const NearTopRight: bv8 := 4
  const NearTopLeft: bv8 := 8
  const FarBottomLeft: bv8 := 16
  const FarBottomRight: bv8 := 32
  const FarTopRight: bv8 := 64
  const FarTopLeft: bv8 := 128

  function CornerBit(c: nat): bv8
    requires c < 8
  {
    [NearBottomLeft, NearBottomRight, NearTopRight, NearTopLeft, FarBottomLeft, FarBottomRight, FarTopRight, FarTopLeft][c]
  }

  /** The corner values are the eight single bits, pairwise distinct. */
  lemma CornerBitsSingle(c: nat, d: nat)
    requires c < 8 && d < 8
    ensures CornerBit(c) == (1 as bv8) << c
    ensures c != d ==> CornerBit(c) & CornerBit(d) == 0
  {
  }

  predicate BitSet(x: bv8, c: nat)
    requires c < 8
  {
    x & ((1 as bv8) << c) != 0
  }

  function Bit(inside: bool, mask: bv8): bv8
  {
    if inside then mask else 0
  }

  /** The cube index of a cell whose corner `c` is inside the surface
      exactly when `inside[c]`. */
  function CubeIndexOf(inside: seq<bool>): bv8
    requires |inside| == 8
  {
    Bit(inside[0], NearBottomLeft) | Bit(inside[1], NearBottomRight) | Bit(inside[2], NearTopRight) | Bit(inside[3], NearTopLeft)
    | Bit(inside[4], FarBottomLeft) | Bit(inside[5], FarBottomRight) | Bit(inside[6], FarTopRight) | Bit(inside[7], FarTopLeft)
  }

  /** Bit `c` of the cube index is set exactly when corner `c` is inside,
      so the index determines which corners are inside. */
  lemma CubeIndexBits(inside: seq<bool>)
    requires |inside| == 8
    ensures forall c :: 0 <= c < 8 ==> (BitSet(CubeIndexOf(inside), c) <==> inside[c])
  {
    forall c | 0 <= c < 8
      ensures BitSet(CubeIndexOf(inside), c) <==> inside[c]
    {
      CubeIndexBit(inside, c);
    }
  }

  lemma CubeIndexBit(inside: seq<bool>, c: nat)
    requires |inside| == 8 && c < 8
    ensures BitSet(CubeIndexOf(inside), c) <==> inside[c]
  {
    var x := CubeIndexOf(inside);
    if c < 4 {
      if c == 0 { assert BitSet(x, 0) <==> inside[0]; }
      else if c == 1 { assert BitSet(x, 1) <==> inside[1]; }
      else if c == 2 { assert BitSet(x, 2) <==> inside[2]; }
      else { assert BitSet(x, 3) <==> inside[3]; }
    } else {
      if c == 4 { assert BitSet(x, 4) <==> inside[4]; }
      else if c == 5 { assert BitSet(x, 5) <==> inside[5]; }
      else if c == 6 { assert BitSet(x, 6) <==> inside[6]; }
      else { assert BitSet(x, 7) <==> inside[7]; }
    }
  }

  lemma CubeIndexInjective(a: seq<bool>, b: seq<bool>)
    requires |a| == 8 && |b| == 8 && CubeIndexOf(a) == CubeIndexOf(b)
    ensures a == b
  {
    CubeIndexBits(a);
    CubeIndexBits(b);
    assert forall c :: 0 <= c < 8 ==> a[c] == b[c];
  }

  /** Builds the cube index with one `|=` per inside corner. */
  method CubeIndex(inside: seq<bool>) returns (cubeIndex: bv8)
    requires |inside| == 8
    ensures cubeIndex == CubeIndexOf(inside)
    ensures forall c :: 0 <= c < 8 ==> (BitSet(cubeIndex, c) <==> inside[c])
  {
    cubeIndex := 0;
    if inside[0] { cubeIndex := cubeIndex | NearBottomLeft; }
    if inside[1] { cubeIndex := cubeIndex | NearBottomRight; }
    if inside[2] { cubeIndex := cubeIndex | NearTopRight; }
    if inside[3] { cubeIndex := cubeIndex | NearTopLeft; }
    if inside[4] { cubeIndex := cubeIndex | FarBottomLeft; }
    if inside[5] { cubeIndex := cubeIndex | FarBottomRight; }
    if inside[6] { cubeIndex := cubeIndex | FarTopRight; }
    if inside[7] { cubeIndex := cubeIndex | FarTopLeft; }
    CubeIndexBits(inside);
  }

  // ---------------------------------------------------------------------
  // Cut edges and their vertices
  // ---------------------------------------------------------------------

  /** The corners edge `e` joins: the four near edges, the four far edges,
      then the four near-to-far edges. */
  function EdgeStart(e: nat): nat
    requires e < 12
  {
    [0, 1, 2, 3, 4, 5, 6, 7, 0, 1, 2, 3][e]
  }

  function EdgeEnd(e: nat): nat
    requires e < 12
  {
    [1, 2, 3, 0, 5, 6, 7, 4, 4, 5, 6, 7][e]
  }

  lemma EdgeEndsInCube(e: nat)
    requires e < 12
    ensures EdgeStart(e) < 8 && EdgeEnd(e) < 8 && EdgeStart(e) != EdgeEnd(e)
  {
    if e < 6 {
      if e < 3 { assert e == 0 || e == 1 || e == 2; } else { assert e == 3 || e == 4 || e == 5; }
    } else {
      if e < 9 { assert e == 6 || e == 7 || e == 8; } else { assert e == 9 || e == 10 || e == 11; }
    }
  }

  /** Whether `edgeTable` entry `entry` marks edge `e` as cut. */
  predicate EdgeCut(entry: bv16, e: nat)
    requires e < 12
  {
    entry & ((1 as bv16) << e) != 0
  }

  lemma NoEdgeCut(entry: bv16, e: nat)
    requires e < 12 && entry == 0
    ensures !EdgeCut(entry, e)
  {
  }

  const Epsilon: real := 0.00001

  /** The point where the surface crosses the edge from `p1` (value `v1`)
      to `p2` (value `v2`): an end point when the iso level is within
      `Epsilon` of its value or the two values are within `Epsilon` of
      each other, the linear interpolation otherwise. */
  function InterpolateVertex(isoLevel: real, p1: Point, p2: Point, v1: real, v2: real): Point
  {
    if Abs(isoLevel - v1) < Epsilon then p1
    else if Abs(isoLevel - v2) < Epsilon then p2
    else if Abs(v1 - v2) < Epsilon then p1
    else
      var mu := (isoLevel - v1) / (v2 - v1);
      Point(p1.x + mu * (p2.x - p1.x), p1.y + mu * (p2.y - p1.y), p1.z + mu * (p2.z - p1.z))
  }

  /** The fraction of the way from `p1` to `p2` the crossing lies at. */
  function Weight(isoLevel: real, v1: real, v2: real): real
  {
    if Abs(isoLevel - v1) < Epsilon then 0.0
    else if Abs(isoLevel - v2) < Epsilon then 1.0
    else if Abs(v1 - v2) < Epsilon then 0.0
    else (isoLevel - v1) / (v2 - v1)
  }

  /** The point a fraction `w` of the way along a segment. */
  function Lerp(p1: Point, p2: Point, w: real): Point
  {
    Point(p1.x + w * (p2.x - p1.x), p1.y + w * (p2.y - p1.y), p1.z + w * (p2.z - p1.z))
  }

  /** The interpolated vertex always lies on the line through the edge,
      at the weight `Weight` gives. */
  lemma InterpolateIsLerp(isoLevel: real, p1: Point, p2: Point, v1: real, v2: real)
    ensures InterpolateVertex(isoLevel, p1, p2, v1, v2) == Lerp(p1, p2, Weight(isoLevel, v1, v2))
  {
  }

  /** When the iso level lies between the two corner values, the weight is
      in `[0, 1]`: the vertex lies on the edge itself. */
  lemma WeightInUnit(isoLevel: real, v1: real, v2: real)
    requires v1 <= isoLevel <= v2 || v2 <= isoLevel <= v1
    ensures 0.0 <= Weight(isoLevel, v1, v2) <= 1.0
  {
    if !(Abs(isoLevel - v1) < Epsilon) && !(Abs(isoLevel - v2) < Epsilon) && !(Abs(v1 - v2) < Epsilon) {
      if v1 < v2 {
        DivWithinUnit(isoLevel - v1, v2 - v1);
      } else {
        DivWithinUnit(v1 - isoLevel, v1 - v2);
        NegateQuotient(isoLevel - v1, v2 - v1);
      }
    }
  }

  lemma NegateQuotient(a: real, b: real)
    requires b != 0.0
    ensures a / b == (-a) / (-b)
  {
  }

  /** Unless the two corner values are within `Epsilon` of each other, the
      field interpolated linearly along the edge meets the iso level at
      the weight, up to `Epsilon`: exactly when it interpolates. */
  lemma WeightReachesIsoLevel(isoLevel: real, v1: real, v2: real)
    requires Abs(v1 - v2) >= Epsilon
    ensures Abs(v1 + Weight(isoLevel, v1, v2) * (v2 - v1) - isoLevel) < Epsilon
    ensures Abs(isoLevel - v1) >= Epsilon && Abs(isoLevel - v2) >= Epsilon ==>
      v1 + Weight(isoLevel, v1, v2) * (v2 - v1) == isoLevel
  {
    if Abs(isoLevel - v1) >= Epsilon && Abs(isoLevel - v2) >= Epsilon {
      var w := Weight(isoLevel, v1, v2);
      assert v2 - v1 != 0.0;
      assert w == (isoLevel - v1) / (v2 - v1);
      QuotientTimesDivisor(w, isoLevel - v1, v2 - v1);
      assert w * (v2 - v1) == isoLevel - v1;
    }
  }

  lemma QuotientTimesDivisor(w: real, a: real, b: real)
    requires b != 0.0 && w == a / b
    ensures w * b == a
  {
    DivMul(a, b);
  }

  const Origin: Point := Point(0.0, 0.0, 0.0)

  /** The crossing point of each of the 12 edges: interpolated when
      `edgeTable` marks the edge as cut, the origin otherwise. */
  function VertList(entry: bv16, isoLevel: real, points: seq<Point>, values: seq<real>): (vertlist: seq<Point>)
    requires |points| == 8 && |values| == 8
    ensures |vertlist| == 12
  {
    seq(12, e requires 0 <= e < 12 =>
      EdgeEndsInCube(e);
      if EdgeCut(entry, e)
      then InterpolateVertex(isoLevel, points[EdgeStart(e)], points[EdgeEnd(e)], values[EdgeStart(e)], values[EdgeEnd(e)])
      else Origin)
  }

  /** The triangles of one cell with cube index `cubeIndex`, corner points
      `points` and corner values `values`: none when `edgeTable` has no
      cut edge for the index, else those its `triTable` row lists. */
  function CellTriangles(tables: Tables, isoLevel: real, cubeIndex: bv8, points: seq<Point>, values: seq<real>): (ts: seq<Triangle>)
    requires WellFormedTables(tables) && |points| == 8 && |values| == 8
    ensures |ts| <= 5
    ensures tables.edgeTable[cubeIndex as int] == 0 ==> ts == []
  {
    if tables.edgeTable[cubeIndex as int] == 0 then []
    else TrianglesFrom(tables.triTable[cubeIndex as int], VertList(tables.edgeTable[cubeIndex as int], isoLevel, points, values), 0)
  }

  // ---------------------------------------------------------------------
  // Vertices of the emitted triangles
  // ---------------------------------------------------------------------

  function VertexAt(p: Point, u: real, v: real, n: Point): Vertex
  {
    Vertex(p.x, p.y, p.z, u, v, n.x, n.y, n.z)
  }

  /** The three vertices of a triangle, corners `a`, `b`, `c` in order,
      sharing texture coordinates and the triangle's normal. */
  function TriangleVertices(t: Triangle, u: real, v: real, n: Point): seq<Vertex>
  {
    [VertexAt(t.a, u, v, n), VertexAt(t.b, u, v, n), VertexAt(t.c, u, v, n)]
  }

  /** The vertices of a list of triangles, three per triangle in order. */
  function MeshVertices(ts: seq<Triangle>, u: real, v: real, normal: Triangle -> Point): (vs: seq<Vertex>)
    ensures |vs| == 3 * |ts|
  {
    if ts == [] then []
    else MeshVertices(ts[..|ts| - 1], u, v, normal) + TriangleVertices(ts[|ts| - 1], u, v, normal(ts[|ts| - 1]))
  }

  /** The loop over the triangles a cell produced: appends the three
      corners of each, in order, with the cell's texture coordinates. */
  method AppendVertices(vertices: seq<Vertex>, ts: seq<Triangle>, u: real, v: real, normal: Triangle -> Point)
    returns (out: seq<Vertex>)
    ensures out == vertices + MeshVertices(ts, u, v, normal)
  {
    out := vertices;
    for c := 0 to |ts|
      invariant out == vertices + MeshVertices(ts[..c], u, v, normal)
    {
      var triangle := ts[c];
      assert ts[..c + 1][..c] == ts[..c];
      out := out + TriangleVertices(triangle, u, v, normal(triangle));
    }
    assert ts[..|ts|] == ts;
  }

  /** Vertex `3m + q` is corner `q` of triangle `m`. */
  lemma {:induction false} MeshVerticesAt(ts: seq<Triangle>, u: real, v: real, normal: Triangle -> Point, m: nat)
    requires m < |ts|
    ensures MeshVertices(ts, u, v, normal)[3 * m] == VertexAt(ts[m].a, u, v, normal(ts[m]))
    ensures MeshVertices(ts, u, v, normal)[3 * m + 1] == VertexAt(ts[m].b, u, v, normal(ts[m]))
    ensures MeshVertices(ts, u, v, normal)[3 * m + 2] == VertexAt(ts[m].c, u, v, normal(ts[m]))
  {
    var init := ts[..|ts| - 1];
    if m < |ts| - 1 {
      MeshVerticesAt(init, u, v, normal, m);
      assert init[m] == ts[m];
    }
  }

  /** The vertices of `a + b` are those of `a` followed by those of `b`. */
  lemma {:induction false} MeshVerticesAppend(a: seq<Triangle>, b: seq<Triangle>, u: real, v: real, normal: Triangle -> Point)
    ensures MeshVertices(a + b, u, v, normal) == MeshVertices(a, u, v, normal) + MeshVertices(b, u, v, normal)
    decreases |b|
  {
    if b == [] {
      assert a + b == a;
    } else {
      var init := b[..|b| - 1];
      assert (a + b)[..|a + b| - 1] == a + init;
      MeshVerticesAppend(a, init, u, v, normal);
    }
  }

  lemma ConcatAssociative<T>(a: seq<T>, b: seq<T>, c: seq<T>)
    ensures (a + b) + c == a + (b + c)
  {
  }

  /** Membership in `whole == a + b`, with membership in each part
      already known as `inA` and `inB`. */
  lemma ConcatMembers<T>(x: T, whole: seq<T>, a: seq<T>, b: seq<T>, inA: bool, inB: bool)
    requires whole == a + b && (x in a <==> inA) && (x in b <==> inB)
    ensures x in whole <==> inA || inB
  {
  }

  /** `f` applied to each element, in order. */
  function MapSeq<T, U>(f: T -> U, xs: seq<T>): (r: seq<U>)
    ensures |r| == |xs|
  {
    if xs == [] then [] else MapSeq(f, xs[..|xs| - 1]) + [f(xs[|xs| - 1])]
  }

  lemma {:induction false} MapSeqAt<T, U>(f: T -> U, xs: seq<T>, q: nat)
    requires q < |xs|
    ensures MapSeq(f, xs)[q] == f(xs[q])
  {
    if q < |xs| - 1 {
      MapSeqAt(f, xs[..|xs| - 1], q);
    }
  }

  lemma {:induction false} MapSeqAppend<T, U>(f: T -> U, a: seq<T>, b: seq<T>)
    ensures MapSeq(f, a + b) == MapSeq(f, a) + MapSeq(f, b)
    decreases |b|
  {
    if b == [] {
      assert a + b == a;
    } else {
      var init := b[..|b| - 1];
      assert (a + b)[..|a + b| - 1] == a + init;
      MapSeqAppend(f, a, init);
    }
  }

  /** The concatenation of a sequence of sequences. */
  function Flatten<U>(xss: seq<seq<U>>): seq<U>
  {
    if xss == [] then [] else Flatten(xss[..|xss| - 1]) + xss[|xss| - 1]
  }

  lemma {:induction false} FlattenAppend<U>(a: seq<seq<U>>, b: seq<seq<U>>)
    ensures Flatten(a + b) == Flatten(a) + Flatten(b)
    decreases |b|
  {
    if b == [] {
      assert a + b == a;
    } else {
      var init := b[..|b| - 1];
      assert (a + b)[..|a + b| - 1] == a + init;
      FlattenAppend(a, init);
    }
  }

  lemma FlattenSingle<U>(xs: seq<U>)
    ensures Flatten([xs]) == xs
  {
    assert [xs][..0] == [];
  }

  /** Pieces of at most `bound` elements flatten to at most
      `bound * |xss|` elements. */
  lemma {:induction false} FlattenBound<U>(xss: seq<seq<U>>, bound: nat)
    requires forall q :: 0 <= q < |xss| ==> |xss[q]| <= bound
    ensures |Flatten(xss)| <= bound * |xss|
  {
    if xss != [] {
      FlattenBound(xss[..|xss| - 1], bound);
    }
  }

  // ---------------------------------------------------------------------
  // The order in which the workers visit cells
  // ---------------------------------------------------------------------

  /** Cells `(i, j, 0) .. (i, j, kEnd - 1)`. */
  function RowCells(i: nat, j: nat, kEnd: nat): (cells: seq<Index3>)
    ensures |cells| == kEnd
  {
    seq(kEnd, k requires 0 <= k => Index3(i, j, k))
  }

  /** Rows `jStart .. jEnd - 1` of slice `i`. */
  function SliceCells(i: nat, jStart: nat, jEnd: nat, kEnd: nat): seq<Index3>
    decreases jEnd
  {
    if jEnd <= jStart then [] else SliceCells(i, jStart, jEnd - 1, kEnd) + RowCells(i, jEnd - 1, kEnd)
  }

  /** Slices `0 .. iEnd - 1`, each restricted to rows `jStart .. jEnd - 1`:
      the order of the triple loop `i`, `j`, `k`. */
  function BlockCells(iEnd: nat, jStart: nat, jEnd: nat, kEnd: nat): seq<Index3>
  {
    if iEnd == 0 then [] else BlockCells(iEnd - 1, jStart, jEnd, kEnd) + SliceCells(iEnd - 1, jStart, jEnd, kEnd)
  }

  predicate InBlock(cell: Index3, iEnd: nat, jStart: nat, jEnd: nat, kEnd: nat)
  {
    cell.i < iEnd && jStart <= cell.j < jEnd && cell.k < kEnd
  }

  /** The triple loop visits exactly the cells of the block. */
  lemma {:induction false} BlockCellsMembers(iEnd: nat, jStart: nat, jEnd: nat, kEnd: nat, cell: Index3)
    ensures cell in BlockCells(iEnd, jStart, jEnd, kEnd) <==> InBlock(cell, iEnd, jStart, jEnd, kEnd)
    decreases iEnd
  {
    if iEnd > 0 {
      var i: nat := iEnd - 1;
      BlockCellsMembers(i, jStart, jEnd, kEnd, cell);
      SliceCellsMembers(i, jStart, jEnd, kEnd, cell);
      ConcatMembers(cell, BlockCells(iEnd, jStart, jEnd, kEnd), BlockCells(i, jStart, jEnd, kEnd), SliceCells(i, jStart, jEnd, kEnd),
                    InBlock(cell, i, jStart, jEnd, kEnd), cell.i == i && jStart <= cell.j < jEnd && cell.k < kEnd);
    }
  }

  lemma RowCellsSnoc(i: nat, j: nat, k: nat)
    ensures RowCells(i, j, k + 1) == RowCells(i, j, k) + [Index3(i, j, k)]
  {
    assert RowCells(i, j, k + 1)[..k] == RowCells(i, j, k);
  }

  lemma RowCellsMembers(i: nat, j: nat, kEnd: nat, cell: Index3)
    ensures cell in RowCells(i, j, kEnd) <==> cell.i == i && cell.j == j && cell.k < kEnd
  {
    if cell.i == i && cell.j == j && cell.k < kEnd {
      assert RowCells(i, j, kEnd)[cell.k] == cell;
    }
  }

  lemma SliceCellsSnoc(i: nat, jStart: nat, j: nat, kEnd: nat)
    requires jStart <= j
    ensures SliceCells(i, jStart, j + 1, kEnd) == SliceCells(i, jStart, j, kEnd) + RowCells(i, j, kEnd)
  {
  }

  /** An empty row range gives no cells. */
  lemma SliceCellsEmpty(i: nat, jStart: nat, jEnd: nat, kEnd: nat)
    requires jEnd <= jStart
    ensures SliceCells(i, jStart, jEnd, kEnd) == []
  {
  }

  lemma {:induction false} SliceCellsMembers(i: nat, jStart: nat, jEnd: nat, kEnd: nat, cell: Index3)
    ensures cell in SliceCells(i, jStart, jEnd, kEnd) <==> cell.i == i && jStart <= cell.j < jEnd && cell.k < kEnd
    decreases jEnd
  {
    if jEnd > jStart {
      SliceCellsMembers(i, jStart, jEnd - 1, kEnd, cell);
      RowCellsMembers(i, jEnd - 1, kEnd, cell);
      ConcatMembers(cell, SliceCells(i, jStart, jEnd, kEnd), SliceCells(i, jStart, jEnd - 1, kEnd), RowCells(i, jEnd - 1, kEnd),
                    cell.i == i && jStart <= cell.j < jEnd - 1 && cell.k < kEnd, cell.i == i && cell.j == jEnd - 1 && cell.k < kEnd);
    }
  }
}
