/** Value types for the objects light.js builds with its vector class:
    points, quaternions and the triple that `is_visible` returns. The
    operations on them (rotation, Hamilton product, dot product) live in
    vector.class.js and enter the model only as parameters. */
module Geometry {

  /** A point or displacement in world space, `{x, y, z}`. */
  datatype Vec3 = Vec3(x: real, y: real, z: real)

  /** A quaternion `{w, i, j, k}`; the sphere's rotation axis is one. */
  datatype Quat = Quat(w: real, i: real, j: real, k: real)

  /** The triple `{a, b, c}` that `is_visible` computes for an observer and a face. */
  datatype Triple = Triple(a: real, b: real, c: real)

  datatype Option<T> = None | Some(value: T)

  function Abs(x: real): real { if x < 0.0 then -x else x }
}
