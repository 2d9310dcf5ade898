/** The UV sphere generator: a `(resolution + 1)^2` grid of vertices on a
    sphere and an index buffer of triangles between neighbouring rows. */
module Primitives {
  import opened Geometry
  import opened RowMajor
  import opened RealArith

  /** The platform's `pi`, `sinf` and `cosf`, which enter the model only
      through `TrigIdentity`. */
  datatype Trig = Trig(pi: real, sin: real -> real, cos: real -> real)

  ghost predicate TrigIdentity(trig: Trig)
  {
    forall t: real {:trigger trig.sin(t)} :: trig.sin(t) * trig.sin(t) + trig.cos(t) * trig.cos(t) == 1.0
  }

  /** The vertex at row `longitude`, column `latitude`: elevation
      `pi/2 - longitude * pi/(res-1)`, azimuth `latitude * 2pi/(res-1)`,
      texture coordinates `(latitude/res, longitude/res)` and the position
      scaled by `1/radius` as its normal. */
  function SphereVertex(trig: Trig, resolution: nat, radius: real, longitude: nat, latitude: nat): Vertex
    requires resolution >= 2 && radius != 0.0
  {
    var elevationStep := trig.pi / (resolution - 1) as real;
    var horizontalStep := (2.0 * trig.pi) / (resolution - 1) as real;
    var inverseLength := 1.0 / radius;
    var theta := trig.pi / 2.0 - longitude as real * elevationStep;
    var phi := latitude as real * horizontalStep;
    var y := radius * trig.sin(theta);
    var x := (radius * trig.cos(theta)) * trig.cos(phi);
    var z := (radius * trig.cos(theta)) * trig.sin(phi);
    Vertex(x, y, z, latitude as real / resolution as real, longitude as real / resolution as real,
           x * inverseLength, y * inverseLength, z * inverseLength)
  }

  /** The first `count` vertices in emission order: longitude rows of
      `resolution + 1` latitude columns. */
  function VertexGrid(trig: Trig, resolution: nat, radius: real, count: nat): (g: seq<Vertex>)
    requires resolution >= 2 && radius != 0.0
    ensures |g| == count
  {
    seq(count, n requires 0 <= n < count =>
      SphereVertex(trig, resolution, radius, n / (resolution + 1), n % (resolution + 1)))
  }

  /** Vertex `(longitude, latitude)` sits at `longitude * (res + 1) + latitude`. */
  lemma VertexGridAt(trig: Trig, resolution: nat, radius: real, longitude: nat, latitude: nat)
    requires resolution >= 2 && radius != 0.0
    requires longitude <= resolution && latitude <= resolution
    ensures Index2(longitude, latitude, resolution + 1) < (resolution + 1) * (resolution + 1)
    ensures VertexGrid(trig, resolution, radius, (resolution + 1) * (resolution + 1))[Index2(longitude, latitude, resolution + 1)]
            == SphereVertex(trig, resolution, radius, longitude, latitude)
  {
    Index2Bounds(longitude, latitude, resolution + 1, resolution + 1);
    Index2Decode(longitude, latitude, resolution + 1);
  }

  /** Texture coordinates lie in `[0, 1]`. */
  lemma TextureCoordinatesInUnit(trig: Trig, resolution: nat, radius: real, longitude: nat, latitude: nat)
    requires resolution >= 2 && radius != 0.0
    requires longitude <= resolution && latitude <= resolution
    ensures 0.0 <= SphereVertex(trig, resolution, radius, longitude, latitude).u <= 1.0
    ensures 0.0 <= SphereVertex(trig, resolution, radius, longitude, latitude).v <= 1.0
  {
    DivWithinUnit(latitude as real, resolution as real);
    DivWithinUnit(longitude as real, resolution as real);
  }

  /** `(r c) * (1/r) == c`. */
  lemma ScaleBack(r: real, c: real)
    requires r != 0.0
    ensures (r * c) * (1.0 / r) == c
  {
    MulDiv(r * c, 1.0, r);
    assert (r * c) * 1.0 == r * c;
    assert (r * c) / r == c * (r / r);
    SelfQuotient(r);
  }

  /** The normal of a point at elevation `(st, ct)` and azimuth `(sp, cp)`
      on a sphere of radius `r` has unit length. */
  lemma UnitNormal(r: real, st: real, ct: real, sp: real, cp: real)
    requires r != 0.0
    requires st * st + ct * ct == 1.0 && sp * sp + cp * cp == 1.0
    ensures var nx := ((r * ct) * cp) * (1.0 / r);
            var ny := (r * st) * (1.0 / r);
            var nz := ((r * ct) * sp) * (1.0 / r);
            nx * nx + ny * ny + nz * nz == 1.0
  {
    ScaleBack(r, ct * cp);
    assert (r * ct) * cp == r * (ct * cp);
    ScaleBack(r, st);
    ScaleBack(r, ct * sp);
    assert (r * ct) * sp == r * (ct * sp);
    assert (ct * cp) * (ct * cp) + (ct * sp) * (ct * sp) == (ct * ct) * (sp * sp + cp * cp);
  }

  /** Every normal the generator emits has unit length. */
  lemma SphereNormalIsUnit(trig: Trig, resolution: nat, radius: real, longitude: nat, latitude: nat)
    requires TrigIdentity(trig)
    requires resolution >= 2 && radius != 0.0
    ensures var w := SphereVertex(trig, resolution, radius, longitude, latitude);
            w.nx * w.nx + w.ny * w.ny + w.nz * w.nz == 1.0
  {
    var theta := trig.pi / 2.0 - longitude as real * (trig.pi / (resolution - 1) as real);
    var phi := latitude as real * ((2.0 * trig.pi) / (resolution - 1) as real);
    assert trig.sin(theta) * trig.sin(theta) + trig.cos(theta) * trig.cos(theta) == 1.0;
    assert trig.sin(phi) * trig.sin(phi) + trig.cos(phi) * trig.cos(phi) == 1.0;
    UnitNormal(radius, trig.sin(theta), trig.cos(theta), trig.sin(phi), trig.cos(phi));
  }

  /** The triangles of one step of the index loop, with `c` the current
      vertex and `n` the one below it in the next row: `(c, n, c+1)` unless
      this is the first column, `(c+1, n, n+1)` unless it is the last. */
  function StepIndices(resolution: nat, latitude: nat, longitude: nat): seq<int>
  {
    var c := latitude * (resolution + 1) + longitude;
    var n := c + resolution + 1;
    (if longitude != 0 then [c, n, c + 1] else [])
      + (if longitude != resolution - 1 then [c + 1, n, n + 1] else [])
  }

  /** The indices row `latitude` emits in its first `steps` steps. */
  function RowIndices(resolution: nat, latitude: nat, steps: nat): seq<int>
  {
    if steps == 0 then [] else RowIndices(resolution, latitude, steps - 1) + StepIndices(resolution, latitude, steps - 1)
  }

  /** The indices of the first `rows` rows. */
  function SphereIndices(resolution: nat, rows: nat): seq<int>
  {
    if rows == 0 then [] else SphereIndices(resolution, rows - 1) + RowIndices(resolution, rows - 1, resolution)
  }

  lemma {:induction false} RowIndicesLength(resolution: nat, latitude: nat, steps: nat)
    requires steps <= resolution
    ensures |RowIndices(resolution, latitude, steps)|
            == if steps == 0 then 0 else 6 * steps - 3 - (if steps == resolution then 3 else 0)
  {
    if steps > 1 {
      RowIndicesLength(resolution, latitude, steps - 1);
    }
  }

  /** A sphere of resolution `r >= 1` has `6 r (r - 1)` indices: two
      triangles per quad, less one at each end of every row; resolution 0
      has none. */
  lemma {:induction false} SphereIndicesLength(resolution: nat, rows: nat)
    ensures |SphereIndices(resolution, rows)| == if resolution == 0 then 0 else 6 * rows * (resolution - 1)
  {
    if rows > 0 {
      SphereIndicesLength(resolution, rows - 1);
      RowIndicesLength(resolution, rows - 1, resolution);
      if resolution > 0 {
        OneMoreRow(rows - 1, resolution - 1);
      }
    }
  }

  lemma OneMoreRow(k: nat, m: nat)
    ensures 6 * k * m + 6 * m == 6 * (k + 1) * m
  {
  }

  /** The row base `latitude * (r + 1)` leaves room for two rows. */
  lemma RowBaseBound(resolution: nat, latitude: nat)
    requires latitude < resolution
    ensures latitude * (resolution + 1) + 2 * resolution + 1 < (resolution + 1) * (resolution + 1)
  {
    assert latitude * (resolution + 1) <= (resolution - 1) * (resolution + 1);
    assert (resolution - 1) * (resolution + 1) + 2 * resolution + 1 == (resolution + 1) * (resolution + 1) - 1;
  }

  /** Every index a step emits names a vertex of the grid. */
  lemma StepIndicesBounded(resolution: nat, latitude: nat, longitude: nat)
    requires latitude < resolution && longitude < resolution
    ensures forall t :: 0 <= t < |StepIndices(resolution, latitude, longitude)| ==>
      0 <= StepIndices(resolution, latitude, longitude)[t] < (resolution + 1) * (resolution + 1)
  {
    RowBaseBound(resolution, latitude);
  }

  lemma {:induction false} RowIndicesBounded(resolution: nat, latitude: nat, steps: nat)
    requires latitude < resolution && steps <= resolution
    ensures forall t :: 0 <= t < |RowIndices(resolution, latitude, steps)| ==>
      0 <= RowIndices(resolution, latitude, steps)[t] < (resolution + 1) * (resolution + 1)
  {
    if steps > 0 {
      RowIndicesBounded(resolution, latitude, steps - 1);
      StepIndicesBounded(resolution, latitude, steps - 1);
    }
  }

  /** Every emitted index is below `(r + 1)^2`, the number of vertices. */
  lemma {:induction false} SphereIndicesBounded(resolution: nat, rows: nat)
    requires rows <= resolution
    ensures forall t :: 0 <= t < |SphereIndices(resolution, rows)| ==>
      0 <= SphereIndices(resolution, rows)[t] < (resolution + 1) * (resolution + 1)
  {
    if rows > 0 {
      SphereIndicesBounded(resolution, rows - 1);
      RowIndicesBounded(resolution, rows - 1, resolution);
    }
  }

  /** Builds the vertex and index buffers of a sphere. */
  method CreateSphere(trig: Trig, resolution: nat, radius: real) returns (vertices: seq<Vertex>, indices: seq<int>)
    requires resolution >= 2 && radius != 0.0
    ensures vertices == VertexGrid(trig, resolution, radius, (resolution + 1) * (resolution + 1))
    ensures indices == SphereIndices(resolution, resolution)
  {
    vertices := SphereVertices(trig, resolution, radius);
    indices := SphereIndexBuffer(resolution);
  }

  /** The vertex loop: longitude rows of latitude columns. */
  method SphereVertices(trig: Trig, resolution: nat, radius: real) returns (vertices: seq<Vertex>)
    requires resolution >= 2 && radius != 0.0
    ensures vertices == VertexGrid(trig, resolution, radius, (resolution + 1) * (resolution + 1))
  {
    vertices := [];
    for longitude := 0 to resolution + 1
      invariant vertices == VertexGrid(trig, resolution, radius, longitude * (resolution + 1))
    {
      for latitude := 0 to resolution + 1
        invariant vertices == VertexGrid(trig, resolution, radius, Index2(longitude, latitude, resolution + 1))
      {
        Index2Decode(longitude, latitude, resolution + 1);
        vertices := vertices + [SphereVertex(trig, resolution, radius, longitude, latitude)];
        assert Index2(longitude, latitude, resolution + 1) + 1 == Index2(longitude, latitude + 1, resolution + 1);
      }
      assert Index2(longitude, resolution + 1, resolution + 1) == (longitude + 1) * (resolution + 1);
    }
  }

  /** The index loop: one row of steps per latitude. */
  method SphereIndexBuffer(resolution: nat) returns (indices: seq<int>)
    ensures indices == SphereIndices(resolution, resolution)
  {
    indices := [];
    for latitude := 0 to resolution
      invariant indices == SphereIndices(resolution, latitude)
    {
      indices := EmitRow(resolution, latitude, indices);
    }
  }

  /** The inner loop of row `latitude`, with `c` and `n` advanced once per
      step; it appends that row's triangles to `indices`. */
  method EmitRow(resolution: nat, latitude: nat, indices: seq<int>) returns (extended: seq<int>)
    ensures extended == indices + RowIndices(resolution, latitude, resolution)
  {
    extended := indices;
    var c := latitude * (resolution + 1);
    var n := c + resolution + 1;
    for longitude := 0 to resolution
      invariant c == latitude * (resolution + 1) + longitude && n == c + resolution + 1
      invariant extended == indices + RowIndices(resolution, latitude, longitude)
    {
      if longitude != 0 {
        extended := extended + [c, n, c + 1];
      }
      if longitude != resolution - 1 {
        extended := extended + [c + 1, n, n + 1];
      }
      n := n + 1;
      c := c + 1;
    }
  }
}
