/** The camera side of light.js, idealised over real numbers: the perspective
    projection that `draw` applies to each rotated vertex, the backface test
    on the triple from `is_visible`, and the placement of camera and light
    that `update_camera` derives from the focal distance. */
module Camera {
  import opened Geometry

  /** A projected vertex. Off the camera plane the projection is a point of the
      view plane; on it the source divides by zero and draws to a non-finite point. */
  datatype ScreenPoint = Screen(x: real, y: real) | NonFinite

  /** One screen coordinate of the perspective divide: the vertex coordinate `u`
      at depth `z`, for the centre coordinate `cu` and the camera depth `f`. */
  function ProjectAxis(u: real, z: real, cu: real, f: real): real
    requires z + f != 0.0
  {
    (f - cu) * ((u - cu) / (z + f)) + cu
  }

  /** The vertex coordinate at depth `z` whose screen coordinate is `s`. */
  function UnprojectAxis(s: real, z: real, cu: real, f: real): real
    requires f != cu
  {
    (s - cu) * (z + f) / (f - cu) + cu
  }

  /** Perspective divide of the rotated vertex `t` for the camera centre `c`, whose
      depth `c.z` plays the role of `f`. */
  function Project(t: Vec3, c: Vec3): (p: ScreenPoint)
    ensures p.NonFinite? <==> t.z + c.z == 0.0
  {
    if t.z + c.z == 0.0 then NonFinite
    else Screen(ProjectAxis(t.x, t.z, c.x, c.z), ProjectAxis(t.y, t.z, c.y, c.z))
  }

  /** The point at depth `depth` that projects to the screen point `(x, y)`:
      the projection undone along the ray through the camera centre. */
  function Unproject(x: real, y: real, depth: real, c: Vec3): Vec3
    requires c.z != c.x && c.z != c.y
  {
    Vec3(UnprojectAxis(x, depth, c.x, c.z), UnprojectAxis(y, depth, c.y, c.z), depth)
  }

  /** On one axis: a coordinate equal to the centre's projects onto the centre,
      and when `f != cu` only such a coordinate does. */
  lemma AxisKeepsCentre(u: real, z: real, cu: real, f: real)
    requires z + f != 0.0
    ensures u == cu ==> ProjectAxis(u, z, cu, f) == cu
    ensures f != cu && ProjectAxis(u, z, cu, f) == cu ==> u == cu
  {
    var q := (u - cu) / (z + f);
    assert q * (z + f) == u - cu;
    if f != cu && ProjectAxis(u, z, cu, f) == cu {
      assert (f - cu) * q == 0.0;
      assert q == 0.0;
    }
  }

  /** A vertex level with the centre on one axis projects onto the centre on that
      axis, and (when `f` differs from the centre coordinate) only such a vertex does. */
  lemma ProjectKeepsCentre(t: Vec3, c: Vec3)
    requires t.z + c.z != 0.0
    ensures t.x == c.x ==> Project(t, c).x == c.x
    ensures t.y == c.y ==> Project(t, c).y == c.y
    ensures c.z != c.x && Project(t, c).x == c.x ==> t.x == c.x
    ensures c.z != c.y && Project(t, c).y == c.y ==> t.y == c.y
  {
    AxisKeepsCentre(t.x, t.z, c.x, c.z);
    AxisKeepsCentre(t.y, t.z, c.y, c.z);
  }

  /** Dividing by `d` and multiplying back cancels. */
  lemma DivMulCancel(w: real, d: real)
    requires d != 0.0
    ensures (w / d) * d == w
  {
  }

  /** On one axis, unprojecting a projected coordinate at its own depth and
      projecting an unprojected one both give back what they started from. */
  lemma AxisRoundTrip(u: real, z: real, cu: real, f: real)
    requires z + f != 0.0 && f != cu
    ensures UnprojectAxis(ProjectAxis(u, z, cu, f), z, cu, f) == u
    ensures ProjectAxis(UnprojectAxis(u, z, cu, f), z, cu, f) == u
  {
    var d, g, w := z + f, f - cu, u - cu;
    // there and back
    var q := w / d;
    DivMulCancel(w, d);
    assert (g * q) * d == g * (q * d);
    assert (g * w) / g == w;
    // back and there
    var e := w * d / g;
    assert e * g == w * d;
    var q' := e / d;
    DivMulCancel(e, d);
    assert q' * d * g == w * d;
    assert (q' * g) * d == w * d;
    assert q' * g == w;
  }

  /** Unprojecting at the vertex's own depth recovers the vertex. */
  lemma UnprojectProject(t: Vec3, c: Vec3)
    requires t.z + c.z != 0.0 && c.z != c.x && c.z != c.y
    ensures Project(t, c).Screen?
    ensures Unproject(Project(t, c).x, Project(t, c).y, t.z, c) == t
  {
    AxisRoundTrip(t.x, t.z, c.x, c.z);
    AxisRoundTrip(t.y, t.z, c.y, c.z);
  }

  /** Projecting the unprojected point gives back the screen point. */
  lemma ProjectUnproject(x: real, y: real, depth: real, c: Vec3)
    requires depth + c.z != 0.0 && c.z != c.x && c.z != c.y
    ensures Project(Unproject(x, y, depth, c), c) == Screen(x, y)
  {
    AxisRoundTrip(x, depth, c.x, c.z);
    AxisRoundTrip(y, depth, c.y, c.z);
  }

  /** The backface test of `draw` with the square root squared away:
      `|c| < sqrt(a² + b²)` becomes `c² < a² + b²`. */
  predicate Backface(v: Triple)
  {
    v.c * v.c < v.a * v.a + v.b * v.b
  }

  /** For `s` the square root of `a² + b²` (the source's `center_plane`),
      `|c| < s` holds exactly when `Backface` does. */
  lemma BackfaceMatchesSqrt(v: Triple, s: real)
    requires 0.0 <= s && s * s == v.a * v.a + v.b * v.b
    ensures Abs(v.c) < s <==> Backface(v)
  {
    var m := Abs(v.c);
    assert m * m == v.c * v.c;
    SquaresOrdered(m, s);
  }

  /** Squaring keeps the order of non-negative reals, in both directions. */
  lemma SquaresOrdered(m: real, s: real)
    requires 0.0 <= m && 0.0 <= s
    ensures m < s <==> m * m < s * s
  {
    assert (s - m) * (s + m) == s * s - m * m;
    if m < s {
      PositiveProduct(s - m, s + m);
    } else if s < m {
      PositiveProduct(m - s, m + s);
      assert (m - s) * (m + s) == m * m - s * s;
    }
  }

  lemma PositiveProduct(a: real, b: real)
    requires 0.0 < a && 0.0 < b
    ensures 0.0 < a * b
  {
  }

  /** Camera and light centres after placement for the rounded focal distance `f`:
      the camera sits at depth `-f`, the light at height `f` and depth `f - 30`;
      every other coordinate keeps its value. */
  function PlaceCamera(camera: Vec3, light: Vec3, f: int): (r: (Vec3, Vec3))
    ensures r.0.x == camera.x && r.0.y == camera.y && r.0.z == -(f as real)
    ensures r.1.x == light.x && r.1.y == -r.0.z && r.1.z == r.1.y - 30.0
  {
    (camera.(z := -(f as real)), light.(y := f as real, z := (f - 30) as real))
  }

  /** The global `camera` and `light` objects of light.js. */
  class Scene {
    var cameraCenter: Vec3
    var lightCenter: Vec3
    var lightColor: string
    var lightIntensity: real

    constructor ()
      ensures cameraCenter == Vec3(0.0, 0.0, 0.0) && lightCenter == Vec3(0.0, 0.0, 0.0)
      ensures lightColor == "255, 255, 255" && lightIntensity == 1.0
    {
      cameraCenter := Vec3(0.0, 0.0, 0.0);
      lightCenter := Vec3(0.0, 0.0, 0.0);
      lightColor := "255, 255, 255";
      lightIntensity := 1.0;
    }

    /** `update_camera` for a focal distance `f` already rounded by the caller. */
    method UpdateCamera(f: int)
      modifies this
      ensures (cameraCenter, lightCenter) == PlaceCamera(old(cameraCenter), old(lightCenter), f)
      ensures lightColor == old(lightColor) && lightIntensity == old(lightIntensity)
    {
      cameraCenter := cameraCenter.(z := -(f as real));
      lightCenter := lightCenter.(y := f as real);
      lightCenter := lightCenter.(z := (f - 30) as real);
    }
  }
}
