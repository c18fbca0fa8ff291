# Sphere mesh and frame update of `light.js`, in Dafny

`light.js` builds a quad-faceted sphere and animates it on a canvas. This
project models the discrete part of that program and proves properties of it:

- **Mesh topology** (`init_sphere`, module `SphereMesh`). The vertex grid is
  `density × density`, with `density = 4*d`. Each grid cell gives one quad
  face, emitted column by column. Its corners are `(col,row), (col,nxr),
  (nxc,nxr), (nxc,row)`, and both successors wrap to 0 at the seam. Vertices
  are abstract: a `position(density, col, row)` parameter stands for the
  trigonometry that places them. The face list is `Topology`, over grid
  indices. The two counting loops are the methods `BuildGrid` and
  `BuildPolygons`, each proved against it.
- **One frame** (`draw`, module `Render`). The `Sphere` class holds the
  fields of the source's `sphere` object, with the faces in an array
  `polygon` of vertex sequences. `Draw` replaces every vertex slot of every
  face by its rotation, in place, and traces each rotated face as a path. It
  fills and strokes a face only when the face is not a backface. The canvas
  calls go to a command log, specified by `FrameLog`. The inner loop over one
  face's slots is the method `RotateAndTrace`. `rotate`, `is_visible` and
  `light_poly` are function parameters, bundled in `Collaborators`.
- **Camera arithmetic over real numbers** (module `Camera`). This covers the
  perspective divide of `draw`, the backface test on the triple `{a, b, c}`,
  and the camera and light placement of `update_camera` for a given rounded
  focal distance `f`. The global `camera` and `light` objects are the class
  `Scene`.

## Model

| member | source | states |
|---|---|---|
| `SphereMesh.BuildGrid` | light.js:156-188 | the grid has `density` columns of `density` rows each, and none when `density <= 0`; `points[col][row]` is the vertex placed for `(col, row)` |
| `SphereMesh.BuildPolygons` | light.js:190-213 | for any rectangular grid, the polygon list has one face per cell, and face `i` holds the grid vertices at the corners of `Topology(cols, rows)[i]` |
| `SphereMesh.Topology` | light.js:191-213 | the face list has `cols*rows` faces; every face has exactly 4 corners; every corner index lies in the grid |
| `SphereMesh.SphereFaceCount` | light.js:143-212 | `init_sphere(d)` produces `(4d)²` faces, and none when `d <= 0` |
| `SphereMesh.NextIsModular` | light.js:193-196 | the wrapped successor `nxc`/`nxr` is `(x+1) mod m`, lies in `[0, m)`, and is undone by the wrapped predecessor |
| `SphereMesh.ColumnsAt` | light.js:192-212 | in the faces of the first `k` columns, index `c*rows + r` is the quad of cell `(c, r)` |
| `SphereMesh.ColumnsStep` | light.js:192-212 | one more pass of the outer loop appends that column's quads, row by row, after the earlier faces |
| `SphereMesh.FaceOfCell` | light.js:192-212 | column-major order: face `col*rows + row` is the quad of cell `(col, row)` |
| `SphereMesh.CellOfFace` | light.js:192-212 | every face of the list is the face of some cell in the grid |
| `SphereMesh.CellIndexInjective` | light.js:192-212 | distinct cells own distinct faces |
| `SphereMesh.LookupQuad` | light.js:203-210 | the four vertices pushed for a cell are those at `(col,row), (col,nxr), (nxc,nxr), (nxc,row)`, in that order |
| `SphereMesh.CornerRole` | light.js:205-210 | corner `k` of cell `(c, r)` is the grid point `p` exactly when `(c, r)` is `p`'s owner cell for role `k` |
| `SphereMesh.CornerRoleUnique` | light.js:192-212 | for each corner role, every grid point is that corner of exactly one face |
| `SphereMesh.FourFaces` | light.js:192-212 | with at least 2 columns and 2 rows, every grid point is used by exactly 4 faces, one per corner role |
| `Render.Sphere.InitSphere` | light.js:140-224 | `init_sphere(d)` sets density `4*d`, radius 75, the origin as centre, the axis `{0, .704, .71, 0}`, type `sphere` and colour cyan; it builds `(4d)²` quad faces (none for `d <= 0`), face `i` holding the vertices at the corners of `Topology` |
| `Render.Sphere.RotateAndTrace` | light.js:235-250 | each slot of one face is replaced by its rotation exactly once; the path is a line to each new vertex's projection, in slot order; no other face changes |
| `Render.Sphere.Draw` | light.js:226-267 | a frame keeps the face count and each face's vertex count; slot `[poly][v]` becomes `rotate(old slot, center, angle, axis)`, with an omitted angle taken as 45; every slot is written exactly once; no field of the sphere changes; the commands are `FrameLog` of the old faces |
| `Render.FaceCommandsShape` | light.js:234-265 | a face's commands open one path, draw a line to each projected vertex, and close the path; they fill and stroke the face once exactly when it is not a backface, and not at all otherwise |
| `Render.FrameLogCounts` | light.js:231-266 | a frame opens one path per face, and fills and strokes exactly as many faces as end the frame facing the camera |
| `Camera.Project` | light.js:246-247 | the projection is a finite screen point exactly when the vertex is off the camera plane, `t.z + f != 0` |
| `Camera.AxisKeepsCentre` | light.js:246-247 | on one axis, a coordinate equal to the centre's projects onto the centre; when `f` differs from the centre coordinate, only such a coordinate does |
| `Camera.ProjectKeepsCentre` | light.js:246-247 | if `t.x = c.x` then `p.x = c.x`, and likewise for `y`; the converse holds when `f != c.x` (respectively `f != c.y`) |
| `Camera.AxisRoundTrip` | light.js:246-247 | on one axis, the projection at a fixed depth and its inverse undo each other |
| `Camera.UnprojectProject` | light.js:246-247 | unprojecting a projected vertex at its own depth gives back the vertex |
| `Camera.ProjectUnproject` | light.js:246-247 | projecting an unprojected screen point gives back the screen point |
| `Camera.BackfaceMatchesSqrt` | light.js:254-255 | for `s = sqrt(a²+b²)`, the source's test `abs(c) < s` holds exactly when `c² < a²+b²` |
| `Camera.SquaresOrdered` | light.js:254-255 | squaring keeps the order of non-negative reals in both directions, which lets the square root be dropped |
| `Camera.PlaceCamera` | light.js:85-92 | the camera is placed at depth `-f`; the light is placed at height `f` and depth `f - 30`; every other coordinate keeps its value |
| `Camera.Scene.constructor` | light.js:23-33 | the camera centre and the light centre both start at the origin; the light is white with intensity 1 |
| `Camera.Scene.UpdateCamera` | light.js:85-92 | `update_camera` moves the camera and the light as `PlaceCamera` says and leaves the light's colour and intensity alone |

## Left out

- Vertex coordinates: the quaternion construction with `Math.sin`/`Math.cos` (light.js:158-186) is a `position(density, col, row)` parameter. It is floating-point trigonometry that also calls the vector class.
- Rotation, Hamilton product, vector addition and dot product: vector.class.js is not part of this model. `rotate` is a parameter, so rigidity and rotation composition are not stated. `MathExt.to_radians` (math-extend.class.js, not part of this model) is folded into that parameter, which receives the angle in degrees.
- `is_visible`: it is made entirely of vector-class calls. Only the triple it returns enters the model, as the `visibility` parameter.
- `light_poly`: it uses `Math.sqrt` of a possibly negative number, `Math.atan`, `toFixed(1)` and `rgba` string building. Its fill and stroke styles are the `lighting` parameter.
- Focal length: `Math.round(viewport.h / Math.tan(fov/2))` is not modelled. `UpdateCamera` takes the rounded `f` as an integer, and the camera's `fov` field is not kept.
- `Camera.Scene.constructor`: in the source the camera centre has no `z` until `update_camera` runs; the model starts it at 0.
- `Render.Sphere.Draw`: the global `camera.center` is the `camera` parameter.
- Floating point: coordinates, projection and the backface test are over real numbers. The backface test `|c| < sqrt(a²+b²)` is stated as `c² < a²+b²`, which `BackfaceMatchesSqrt` shows equivalent over the reals.
- `Camera.Project`: division by zero on the camera plane yields `Infinity` or `NaN` in the source. The model collapses both into one `NonFinite` point.
- Aliasing: right after `init_sphere`, the four faces around a grid point share one vertex object. `draw` replaces slots and never mutates a vertex object, so the model uses values: a face is a sequence of vertices stored in an array slot.
- `SphereMesh.BuildPolygons` requires a rectangular grid. The source only passes it the square grid built just before it; a jagged grid would read an undefined `points[nxc][nxr]`.
- Canvas plumbing: `init_canvas`, `reset_canvas`, `init_ui`, `show_info`, `main` and `window.onload` are DOM and console I/O. `draw`'s `ctx` calls appear only as the command log.
- Animation timing: `animate` and `pause` drive `draw` with `setInterval` and `clearInterval`. These are a host clock and callbacks.
- Density validation: the system's design calls for rejecting a density factor `d <= 0`. light.js does not check it and builds an empty grid with no faces; the model follows the code.
