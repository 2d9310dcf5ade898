/** Value types shared by the mesh generators and the marching-cubes
    lattices. */
module Geometry {

  /** An 8-bit channel value of a pixel buffer or a grey-scale image. */
  type Byte = b: int | 0 <= b < 256

  /** A point or direction in model space. */
  datatype Point = Point(x: real, y: real, z: real)

  /** A mesh vertex: position, texture coordinates and normal. */
  datatype Vertex = Vertex(x: real, y: real, z: real, u: real, v: real, nx: real, ny: real, nz: real)
}
