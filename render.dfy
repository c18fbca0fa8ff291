/** The sphere object of light.js and one frame of `draw`: every vertex slot
    of every face is replaced by its rotation, the rotated face is traced as
    a path on the canvas, and it is filled and stroked only when it is not a
    backface. The rotation, the visibility triple and the lighting come from
    code that is not part of this model (vector.class.js, `is_visible`,
    `light_poly`) and are parameters; the canvas is a log of commands. */
module Render {
  import opened Geometry
  import opened SphereMesh
  import opened Camera

  /** The canvas calls `draw` issues, in order. */
  datatype Command =
    | BeginPath
    | LineTo(point: ScreenPoint)
    | ClosePath
    | SetFillStyle(fillStyle: string)
    | SetStrokeStyle(strokeStyle: string)
    | Fill
    | Stroke

  /** The fill and stroke styles that `light_poly` returns for a face. */
  datatype Styles = Styles(fillStyle: string, strokeStyle: string)

  /** The routines `draw` calls whose code is not modelled: the vector class's
      `rotate(vector, origin, angle in degrees, axis)`, `is_visible(eye, center, face)`
      and `light_poly(center, face)`. */
  datatype Collaborators = Collaborators(
    rotate: (Vec3, Vec3, real, Quat) -> Vec3,
    visibility: (Vec3, Vec3, seq<Vec3>) -> Triple,
    lighting: (Vec3, seq<Vec3>) -> Styles)

  /** What one frame depends on besides the faces. */
  datatype FrameSetting = FrameSetting(
    camera: Vec3, center: Vec3, angle: real, axis: Quat, env: Collaborators)

  const Origin := Vec3(0.0, 0.0, 0.0)
  const RotationAxis := Quat(0.0, 0.704, 0.71, 0.0)
  const Radius := 75
  const Cyan := "0, 255, 255"

  /** The step `draw` rotates by: the given angle, or 45 degrees when it is omitted. */
  function DrawAngle(angle: Option<real>): real
  {
    if angle.None? then 45.0 else angle.value
  }

  /** Every vertex of `face` rotated once about the frame's centre and axis. */
  function RotateFace(face: seq<Vec3>, fr: FrameSetting): seq<Vec3>
  {
    seq(|face|, k requires 0 <= k < |face| => fr.env.rotate(face[k], fr.center, fr.angle, fr.axis))
  }

  /** The path of `face`: one line to the projection of each vertex, in order. */
  function Trace(face: seq<Vec3>, camera: Vec3): seq<Command>
  {
    seq(|face|, k requires 0 <= k < |face| => LineTo(Project(face[k], camera)))
  }

  /** The face seen by the camera, as `draw` tests it. */
  predicate IsBackface(face: seq<Vec3>, fr: FrameSetting)
  {
    Backface(fr.env.visibility(fr.camera, fr.center, face))
  }

  /** The commands issued for an already rotated face: its path, always, and the
      fill and stroke, only when it is not a backface. */
  function FaceCommands(face: seq<Vec3>, fr: FrameSetting): seq<Command>
  {
    [BeginPath] + Trace(face, fr.camera) + [ClosePath] +
    if IsBackface(face, fr) then []
    else
      var s := fr.env.lighting(fr.center, face);
      [SetFillStyle(s.fillStyle), SetStrokeStyle(s.strokeStyle), Fill, Stroke]
  }

  /** The commands of one frame over the faces as they were before it. */
  function FrameLog(faces: seq<seq<Vec3>>, fr: FrameSetting): seq<Command>
  {
    if faces == [] then []
    else FrameLog(faces[..|faces| - 1], fr) + FaceCommands(RotateFace(faces[|faces| - 1], fr), fr)
  }

  /** How many faces the frame leaves facing the camera. */
  function FrontFaces(faces: seq<seq<Vec3>>, fr: FrameSetting): nat
  {
    if faces == [] then 0
    else FrontFaces(faces[..|faces| - 1], fr) + if IsBackface(RotateFace(faces[|faces| - 1], fr), fr) then 0 else 1
  }

  /** How many times `c` occurs in `log`. */
  function Occurrences(log: seq<Command>, c: Command): nat
  {
    if log == [] then 0 else Occurrences(log[..|log| - 1], c) + if log[|log| - 1] == c then 1 else 0
  }

  lemma {:induction false} OccurrencesAppend(a: seq<Command>, b: seq<Command>, c: Command)
    ensures Occurrences(a + b, c) == Occurrences(a, c) + Occurrences(b, c)
  {
    if b == [] {
      assert a + b == a;
    } else {
      assert (a + b)[..|a + b| - 1] == a + b[..|b| - 1];
      assert (a + b)[|a + b| - 1] == b[|b| - 1];
      OccurrencesAppend(a, b[..|b| - 1], c);
    }
  }

  lemma {:induction false} OccurrencesAbsent(log: seq<Command>, c: Command)
    requires c !in log
    ensures Occurrences(log, c) == 0
  {
    if log != [] {
      assert log[..|log| - 1] + [log[|log| - 1]] == log;
      OccurrencesAbsent(log[..|log| - 1], c);
    }
  }

  /** One face's commands: a path opened once, a line to each projected vertex,
      closed once; a fill and a stroke exactly when the face is not a backface. */
  lemma FaceCommandsShape(face: seq<Vec3>, fr: FrameSetting)
    ensures var cmds := FaceCommands(face, fr);
      cmds[0] == BeginPath && cmds[|face| + 1] == ClosePath &&
      (forall k :: 0 <= k < |face| ==> cmds[k + 1] == LineTo(Project(face[k], fr.camera))) &&
      Occurrences(cmds, BeginPath) == 1 && Occurrences(cmds, ClosePath) == 1 &&
      Occurrences(cmds, Fill) == (if IsBackface(face, fr) then 0 else 1) &&
      Occurrences(cmds, Stroke) == (if IsBackface(face, fr) then 0 else 1)
  {
    var path := Trace(face, fr.camera);
    var tail: seq<Command> :=
      if IsBackface(face, fr) then []
      else
        var s := fr.env.lighting(fr.center, face);
        [SetFillStyle(s.fillStyle), SetStrokeStyle(s.strokeStyle), Fill, Stroke];
    assert FaceCommands(face, fr) == [BeginPath] + path + [ClosePath] + tail;
    forall c | c in {BeginPath, ClosePath, Fill, Stroke}
      ensures Occurrences(FaceCommands(face, fr), c) ==
        Occurrences([BeginPath], c) + Occurrences([ClosePath], c) + Occurrences(tail, c)
    {
      assert c !in path;
      OccurrencesAbsent(path, c);
      OccurrencesAppend([BeginPath], path, c);
      OccurrencesAppend([BeginPath] + path, [ClosePath], c);
      OccurrencesAppend([BeginPath] + path + [ClosePath], tail, c);
    }
    if !IsBackface(face, fr) {
      var s := fr.env.lighting(fr.center, face);
      assert tail == [SetFillStyle(s.fillStyle), SetStrokeStyle(s.strokeStyle)] + [Fill] + [Stroke];
      forall c | c in {BeginPath, ClosePath, Fill, Stroke}
        ensures Occurrences(tail, c) == if c == Fill || c == Stroke then 1 else 0
      {
        OccurrencesAppend([SetFillStyle(s.fillStyle), SetStrokeStyle(s.strokeStyle)], [Fill], c);
        OccurrencesAppend([SetFillStyle(s.fillStyle), SetStrokeStyle(s.strokeStyle)] + [Fill], [Stroke], c);
      }
    }
  }

  /** A whole frame opens one path per face and fills (and strokes) exactly the
      faces that end the frame facing the camera. */
  lemma {:induction false} FrameLogCounts(faces: seq<seq<Vec3>>, fr: FrameSetting)
    ensures Occurrences(FrameLog(faces, fr), BeginPath) == |faces|
    ensures Occurrences(FrameLog(faces, fr), Fill) == FrontFaces(faces, fr)
    ensures Occurrences(FrameLog(faces, fr), Stroke) == FrontFaces(faces, fr)
  {
    if faces != [] {
      var init, last := faces[..|faces| - 1], RotateFace(faces[|faces| - 1], fr);
      FrameLogCounts(init, fr);
      FaceCommandsShape(last, fr);
      OccurrencesAppend(FrameLog(init, fr), FaceCommands(last, fr), BeginPath);
      OccurrencesAppend(FrameLog(init, fr), FaceCommands(last, fr), Fill);
      OccurrencesAppend(FrameLog(init, fr), FaceCommands(last, fr), Stroke);
    }
  }

  /** The `sphere` object that `init_sphere` builds and `draw` animates. */
  class Sphere {
    var rotationAxis: Quat
    var center: Vec3
    var radius: int
    var density: int
    var kind: string
    var color: string
    var polygon: array<seq<Vec3>>

    /** Every face is a quad. */
    ghost predicate Valid()
      reads this, polygon
    {
      forall i :: 0 <= i < polygon.Length ==> |polygon[i]| == 4
    }

    /** `init_sphere(d)`: the grid of `4*d` columns of `4*d` vertices each, placed by
        `position`, and one face per grid cell in column-major order, the face of
        cell `(col, row)` holding the vertices at the corners of `Quad`. */
    constructor InitSphere(d: int, position: (int, nat, nat) -> Vec3)
      ensures density == Density(d) && radius == Radius && center == Origin
      ensures rotationAxis == RotationAxis && kind == "sphere" && color == Cyan
      ensures fresh(polygon) && Valid()
      ensures polygon.Length == GridSize(density) * GridSize(density)
      ensures forall i :: 0 <= i < polygon.Length ==>
        polygon[i] == Place(position, density, Topology(GridSize(density), GridSize(density))[i])
    {
      var n := Density(d);
      var points := BuildGrid(n, position);
      var polys := BuildPolygons(points);
      var size := GridSize(n);
      forall i | 0 <= i < |polys|
        ensures polys[i] == Place(position, n, Topology(size, size)[i])
      {
        var q := Topology(size, size)[i];
        assert forall k :: 0 <= k < 4 ==> polys[i][k] == points[q[k].col][q[k].row];
      }
      rotationAxis := RotationAxis;
      center := Origin;
      radius := Radius;
      density := n;
      kind := "sphere";
      color := Cyan;
      polygon := new seq<Vec3>[|polys|](i requires 0 <= i < |polys| => polys[i]);
    }

    /** The inner loop of `draw` for face `poly`: each of its slots, in order, is
        replaced by its rotation, exactly once, and a line is drawn to the
        projection of the new vertex. No other face changes. */
    method RotateAndTrace(poly: nat, fr: FrameSetting) returns (path: seq<Command>, ghost faceWrites: seq<nat>)
      requires poly < polygon.Length
      modifies polygon
      ensures |polygon[poly]| == |old(polygon[poly])|
      ensures polygon[poly] == RotateFace(old(polygon[poly]), fr)
      ensures forall i :: 0 <= i < polygon.Length && i != poly ==> polygon[i] == old(polygon[i])
      ensures path == Trace(polygon[poly], fr.camera)
      ensures |faceWrites| == |polygon[poly]| && forall k :: 0 <= k < |faceWrites| ==> faceWrites[k] == 1
    {
      ghost var face := polygon[poly];
      faceWrites := seq(|face|, k => 0);
      path := [];
      var v := 0;
      while v < |polygon[poly]|
        invariant 0 <= v <= |polygon[poly]| == |face| == |faceWrites|
        invariant forall k :: 0 <= k < v ==>
          polygon[poly][k] == fr.env.rotate(face[k], fr.center, fr.angle, fr.axis)
        invariant forall k :: v <= k < |face| ==> polygon[poly][k] == face[k]
        invariant forall i :: 0 <= i < polygon.Length && i != poly ==> polygon[i] == old(polygon[i])
        invariant path == Trace(polygon[poly][..v], fr.camera)
        invariant forall k :: 0 <= k < |faceWrites| ==> faceWrites[k] == if k < v then 1 else 0
      {
        var t := fr.env.rotate(polygon[poly][v], fr.center, fr.angle, fr.axis);
        polygon[poly] := polygon[poly][v := t];
        faceWrites := faceWrites[v := faceWrites[v] + 1];
        assert polygon[poly][..v + 1] == polygon[poly][..v] + [t];
        path := path + [LineTo(Project(t, fr.camera))];
        v := v + 1;
      }
      assert polygon[poly][..v] == polygon[poly];
    }

    /** `draw(entity, angle)` for the camera centre `camera`: every slot of every
        face is replaced by its rotation about `center` around `rotationAxis`,
        exactly once, and the frame's commands are those of `FrameLog`. Nothing
        but the contents of the face slots changes. */
    method Draw(camera: Vec3, angle: Option<real>, env: Collaborators)
      returns (log: seq<Command>, ghost writes: seq<seq<nat>>)
      modifies polygon
      ensures unchanged(this)
      ensures forall i :: 0 <= i < polygon.Length ==>
        |polygon[i]| == |old(polygon[i])| &&
        forall k :: 0 <= k < |polygon[i]| ==>
          polygon[i][k] == env.rotate(old(polygon[i])[k], center, DrawAngle(angle), rotationAxis)
      ensures log == FrameLog(old(polygon[..]), FrameSetting(camera, center, DrawAngle(angle), rotationAxis, env))
      ensures |writes| == polygon.Length
      ensures forall i :: 0 <= i < polygon.Length ==>
        |writes[i]| == |polygon[i]| && forall k :: 0 <= k < |writes[i]| ==> writes[i][k] == 1
      ensures old(Valid()) ==> Valid()
    {
      var fr := FrameSetting(camera, center, DrawAngle(angle), rotationAxis, env);
      ghost var before := polygon[..];
      writes := [];
      log := [];
      var poly := 0;
      while poly < polygon.Length
        invariant 0 <= poly <= polygon.Length
        invariant forall i :: 0 <= i < poly ==> polygon[i] == RotateFace(before[i], fr)
        invariant forall i :: poly <= i < polygon.Length ==> polygon[i] == before[i]
        invariant log == FrameLog(before[..poly], fr)
        invariant |writes| == poly
        invariant forall i :: 0 <= i < poly ==> |writes[i]| == |before[i]|
        invariant forall i, k :: 0 <= i < poly && 0 <= k < |writes[i]| ==> writes[i][k] == 1
      {
        log := log + [BeginPath];
        var path;
        ghost var faceWrites;
        path, faceWrites := RotateAndTrace(poly, fr);
        writes := writes + [faceWrites];
        log := log + path + [ClosePath];
        var camVis := env.visibility(camera, center, polygon[poly]);
        var backface := Backface(camVis);
        if !backface {
          var lighting := env.lighting(center, polygon[poly]);
          log := log + [SetFillStyle(lighting.fillStyle), SetStrokeStyle(lighting.strokeStyle), Fill, Stroke];
        }
        assert before[..poly + 1][..poly] == before[..poly];
        poly := poly + 1;
      }
      assert before[..poly] == before;
    }
  }
}
