/** The discrete structure of the mesh that `init_sphere` (light.js) builds:
    a `density × density` grid of vertices, and one quad face per grid cell
    whose corners are found with successor indices that wrap at the seam.
    Vertices are kept abstract: the grid is filled by a `position` function
    standing for the trigonometry of the source, so that only the index
    arithmetic is modelled and proved. */
module SphereMesh {

  /** A vertex of the grid, by column and row: `points[col][row]`. */
  datatype GridPoint = GridPoint(col: nat, row: nat)

  /** Grid resolution on both axes: four quadrants of `d` points each. */
  function Density(d: int): int { 4 * d }

  /** How many columns (and rows per column) the counting loops produce:
      a density of zero or less runs no iteration at all. */
  function GridSize(density: int): nat { if density > 0 then density else 0 }

  /** The successor used for `nxc` and `nxr`: one more, or 0 at the seam. */
  function Next(x: nat, m: nat): nat { if x + 1 == m then 0 else x + 1 }

  /** The predecessor with the same wrap, the inverse of `Next`. */
  function Prev(x: nat, m: nat): nat
    requires 0 < m
  {
    if x == 0 then m - 1 else x - 1
  }

  /** `Next` is the successor modulo `m`, so it stays in `[0, m)`, and `Prev` undoes it. */
  lemma NextIsModular(x: nat, m: nat)
    requires x < m
    ensures Next(x, m) == (x + 1) % m && Next(x, m) < m
    ensures Prev(Next(x, m), m) == x && Next(Prev(x, m), m) == x
  {
  }

  /** The four corners of cell `(col, row)` in the order the face lists them:
      `(col,row), (col,nxr), (nxc,nxr), (nxc,row)`. */
  function Quad(cols: nat, rows: nat, col: nat, row: nat): seq<GridPoint>
  {
    [GridPoint(col, row), GridPoint(col, Next(row, rows)),
     GridPoint(Next(col, cols), Next(row, rows)), GridPoint(Next(col, cols), row)]
  }

  /** Every corner of `q` lies in a `cols × rows` grid. */
  predicate InGrid(cols: nat, rows: nat, q: seq<GridPoint>)
  {
    forall k :: 0 <= k < |q| ==> q[k].col < cols && q[k].row < rows
  }

  /** The faces of the first `k` columns, column by column, each column row by row. */
  function Columns(cols: nat, rows: nat, k: nat): (faces: seq<seq<GridPoint>>)
    requires k <= cols
    ensures |faces| == k * rows
    ensures forall i :: 0 <= i < |faces| ==> |faces[i]| == 4 && InGrid(cols, rows, faces[i])
  {
    if k == 0 then []
    else
      var column := seq(rows, r requires 0 <= r < rows => Quad(cols, rows, k - 1, r));
      assert forall r :: 0 <= r < rows ==> InGrid(cols, rows, column[r]);
      Columns(cols, rows, k - 1) + column
  }

  /** The face list of a `cols × rows` grid: one quad per cell, in column-major order.
      Every face has four corners and every corner is a point of the grid. */
  function Topology(cols: nat, rows: nat): (faces: seq<seq<GridPoint>>)
    ensures |faces| == cols * rows
    ensures forall i :: 0 <= i < |faces| ==> |faces[i]| == 4 && InGrid(cols, rows, faces[i])
  {
    Columns(cols, rows, cols)
  }

  /** `init_sphere(d)` yields `(4d)²` faces, and none at all when `d <= 0`. */
  lemma SphereFaceCount(d: int)
    ensures |Topology(GridSize(Density(d)), GridSize(Density(d)))| == if d > 0 then 16 * d * d else 0
  {
  }

  /** The position of the face of cell `g` in the face list. */
  function CellIndex(rows: nat, g: GridPoint): nat { g.col * rows + g.row }

  lemma {:induction false} ColumnsAt(cols: nat, rows: nat, k: nat, c: nat, r: nat)
    requires k <= cols && c < k && r < rows
    ensures c * rows + r < k * rows
    ensures Columns(cols, rows, k)[c * rows + r] == Quad(cols, rows, c, r)
  {
    assert k * rows == (k - 1) * rows + rows;
    if c == k - 1 {
      assert |Columns(cols, rows, k - 1)| == c * rows;
    } else {
      ColumnsAt(cols, rows, k - 1, c, r);
    }
  }

  /** Column-major order: face `col*rows + row` belongs to cell `(col, row)`. */
  lemma FaceOfCell(cols: nat, rows: nat, c: nat, r: nat)
    requires c < cols && r < rows
    ensures CellIndex(rows, GridPoint(c, r)) < |Topology(cols, rows)|
    ensures Topology(cols, rows)[CellIndex(rows, GridPoint(c, r))] == Quad(cols, rows, c, r)
  {
    ColumnsAt(cols, rows, cols, c, r);
  }

  /** Conversely, every face of the list belongs to some cell. */
  lemma CellOfFace(cols: nat, rows: nat, i: nat) returns (g: GridPoint)
    requires i < cols * rows
    ensures g.col < cols && g.row < rows && CellIndex(rows, g) == i
  {
    g := GridPoint(i / rows, i % rows);
  }

  /** The cell whose corner in position `k` is the grid point `p`. */
  function OwnerCell(cols: nat, rows: nat, k: nat, p: GridPoint): GridPoint
    requires 0 < cols && 0 < rows
  {
    match k
    case 0 => p
    case 1 => GridPoint(p.col, Prev(p.row, rows))
    case 2 => GridPoint(Prev(p.col, cols), Prev(p.row, rows))
    case _ => GridPoint(Prev(p.col, cols), p.row)
  }

  /** Corner `k` of cell `(c, r)` is `p` exactly when `(c, r)` is the owner of `p` in role `k`. */
  lemma CornerRole(cols: nat, rows: nat, c: nat, r: nat, k: nat, p: GridPoint)
    requires c < cols && r < rows && p.col < cols && p.row < rows && k < 4
    ensures Quad(cols, rows, c, r)[k] == p <==> GridPoint(c, r) == OwnerCell(cols, rows, k, p)
  {
  }

  /** The faces whose corner in position `k` is `p`. */
  function FacesWithCorner(cols: nat, rows: nat, k: nat, p: GridPoint): set<nat>
    requires k < 4
  {
    set i: nat | i < cols * rows && Topology(cols, rows)[i][k] == p
  }

  /** The faces that use `p` in any corner position. */
  function FacesTouching(cols: nat, rows: nat, p: GridPoint): set<nat>
  {
    set i: nat | i < cols * rows && p in Topology(cols, rows)[i]
  }

  /** Each grid point is corner `k` of exactly one face: that of its owner cell. */
  lemma CornerRoleUnique(cols: nat, rows: nat, k: nat, p: GridPoint)
    requires p.col < cols && p.row < rows && k < 4
    ensures FacesWithCorner(cols, rows, k, p) == {CellIndex(rows, OwnerCell(cols, rows, k, p))}
  {
    var owner := OwnerCell(cols, rows, k, p);
    FaceOfCell(cols, rows, owner.col, owner.row);
    CornerRole(cols, rows, owner.col, owner.row, k, p);
    forall i | i in FacesWithCorner(cols, rows, k, p)
      ensures i == CellIndex(rows, owner)
    {
      var g := CellOfFace(cols, rows, i);
      FaceOfCell(cols, rows, g.col, g.row);
      CornerRole(cols, rows, g.col, g.row, k, p);
    }
  }

  /** Distinct cells have distinct positions in the face list. */
  lemma CellIndexInjective(cols: nat, rows: nat, g: GridPoint, h: GridPoint)
    requires g.col < cols && g.row < rows && h.col < cols && h.row < rows
    requires CellIndex(rows, g) == CellIndex(rows, h)
    ensures g == h
  {
    FaceOfCell(cols, rows, g.col, g.row);
    FaceOfCell(cols, rows, h.col, h.row);
    assert Quad(cols, rows, g.col, g.row)[0] == Quad(cols, rows, h.col, h.row)[0];
  }

  /** With at least two columns and two rows, every grid point is used by exactly
      four faces, once in each corner position. */
  lemma FourFaces(cols: nat, rows: nat, p: GridPoint)
    requires 2 <= cols && 2 <= rows && p.col < cols && p.row < rows
    ensures |FacesTouching(cols, rows, p)| == 4
  {
    var o0 := OwnerCell(cols, rows, 0, p);
    var o1 := OwnerCell(cols, rows, 1, p);
    var o2 := OwnerCell(cols, rows, 2, p);
    var o3 := OwnerCell(cols, rows, 3, p);
    var i0, i1, i2, i3 := CellIndex(rows, o0), CellIndex(rows, o1), CellIndex(rows, o2), CellIndex(rows, o3);
    CornerRoleUnique(cols, rows, 0, p);
    CornerRoleUnique(cols, rows, 1, p);
    CornerRoleUnique(cols, rows, 2, p);
    CornerRoleUnique(cols, rows, 3, p);
    forall i | i in FacesTouching(cols, rows, p)
      ensures i in {i0, i1, i2, i3}
    {
      var face := Topology(cols, rows)[i];
      var k :| 0 <= k < 4 && face[k] == p;
      assert i in FacesWithCorner(cols, rows, k, p);
    }
    assert i0 in FacesWithCorner(cols, rows, 0, p);
    assert i1 in FacesWithCorner(cols, rows, 1, p);
    assert i2 in FacesWithCorner(cols, rows, 2, p);
    assert i3 in FacesWithCorner(cols, rows, 3, p);
    assert FacesTouching(cols, rows, p) == {i0, i1, i2, i3};
    if i0 == i1 { CellIndexInjective(cols, rows, o0, o1); }
    if i0 == i2 { CellIndexInjective(cols, rows, o0, o2); }
    if i0 == i3 { CellIndexInjective(cols, rows, o0, o3); }
    if i1 == i2 { CellIndexInjective(cols, rows, o1, o2); }
    if i1 == i3 { CellIndexInjective(cols, rows, o1, o3); }
    if i2 == i3 { CellIndexInjective(cols, rows, o2, o3); }
    assert |{i0, i1}| == 2;
    assert |{i0, i1, i2}| == 3;
  }

  /** Each column of the grid has as many rows as the first. */
  predicate Rectangular<V>(points: seq<seq<V>>)
  {
    forall c :: 0 <= c < |points| ==> |points[c]| == |points[0]|
  }

  function Rows<V>(points: seq<seq<V>>): nat
  {
    if |points| == 0 then 0 else |points[0]|
  }

  /** The vertices at the corners `q`, read out of the grid `points[col][row]`. */
  function Lookup<V>(points: seq<seq<V>>, q: seq<GridPoint>): seq<V>
    requires Rectangular(points) && InGrid(|points|, Rows(points), q)
  {
    seq(|q|, k requires 0 <= k < |q| => points[q[k].col][q[k].row])
  }

  /** The vertices at the corners `q`, computed directly by `position`. */
  function Place<V>(position: (int, nat, nat) -> V, density: int, q: seq<GridPoint>): seq<V>
  {
    seq(|q|, k requires 0 <= k < |q| => position(density, q[k].col, q[k].row))
  }

  /** The face that the polygon loop pushes for cell `(col, row)`. */
  lemma LookupQuad<V>(points: seq<seq<V>>, col: nat, row: nat)
    requires Rectangular(points) && col < |points| && row < Rows(points)
    ensures InGrid(|points|, Rows(points), Quad(|points|, Rows(points), col, row))
    ensures
      var nxc, nxr := Next(col, |points|), Next(row, Rows(points));
      [points[col][row], points[col][nxr], points[nxc][nxr], points[nxc][row]]
        == Lookup(points, Quad(|points|, Rows(points), col, row))
  {
  }

  /** Appending column `col` to the face list extends it by that column's quads. */
  lemma ColumnsStep(cols: nat, rows: nat, col: nat, i: nat)
    requires col < cols && i < (col + 1) * rows
    ensures Columns(cols, rows, col + 1)[i] ==
      if i < col * rows then Columns(cols, rows, col)[i] else Quad(cols, rows, col, i - col * rows)
  {
  }

  /** The vertex loop of `init_sphere`: column `col` holds `position(density, col, row)`
      for every row; with a density of zero or less the grid is empty. */
  method BuildGrid<V>(density: int, position: (int, nat, nat) -> V) returns (points: seq<seq<V>>)
    ensures |points| == GridSize(density) && Rectangular(points) && Rows(points) == GridSize(density)
    ensures forall c, r :: 0 <= c < |points| && 0 <= r < |points[c]| ==> points[c][r] == position(density, c, r)
  {
    points := [];
    var col := 0;
    while col < density
      invariant 0 <= col == |points| <= GridSize(density)
      invariant forall c :: 0 <= c < col ==> |points[c]| == GridSize(density)
      invariant forall c, r :: 0 <= c < col && 0 <= r < |points[c]| ==> points[c][r] == position(density, c, r)
    {
      var column := [];
      var row := 0;
      while row < density
        invariant 0 <= row == |column| <= density
        invariant forall r :: 0 <= r < row ==> column[r] == position(density, col, r)
      {
        column := column + [position(density, col, row)];
        row := row + 1;
      }
      points := points + [column];
      col := col + 1;
    }
  }

  /** The polygon loop of `init_sphere`: one face per cell of the grid, in column-major
      order, each the four vertices at the corners of `Topology`. */
  method BuildPolygons<V>(points: seq<seq<V>>) returns (polygons: seq<seq<V>>)
    requires Rectangular(points)
    ensures |polygons| == |points| * Rows(points)
    ensures forall i :: 0 <= i < |polygons| ==>
      polygons[i] == Lookup(points, Topology(|points|, Rows(points))[i])
  {
    var cols := |points|;
    ghost var rows := Rows(points);
    polygons := [];
    var col := 0;
    while col < cols
      invariant 0 <= col <= cols
      invariant |polygons| == col * rows
      invariant forall i :: 0 <= i < |polygons| ==>
        polygons[i] == Lookup(points, Columns(cols, rows, col)[i])
    {
      var nxc := if col + 1 == cols then 0 else col + 1;
      var row := 0;
      while row < |points[col]|
        invariant 0 <= row <= rows == |points[col]|
        invariant |polygons| == col * rows + row
        invariant forall i :: 0 <= i < col * rows ==>
          polygons[i] == Lookup(points, Columns(cols, rows, col)[i])
        invariant forall i :: col * rows <= i < |polygons| ==>
          polygons[i] == Lookup(points, Quad(cols, rows, col, i - col * rows))
      {
        var nxr := if row + 1 == |points[col]| then 0 else row + 1;
        var face := [points[col][row], points[col][nxr], points[nxc][nxr], points[nxc][row]];
        LookupQuad(points, col, row);
        polygons := polygons + [face];
        row := row + 1;
      }
      assert (col + 1) * rows == col * rows + rows;
      forall i | 0 <= i < |polygons|
        ensures polygons[i] == Lookup(points, Columns(cols, rows, col + 1)[i])
      {
        ColumnsStep(cols, rows, col, i);
      }
      col := col + 1;
    }
  }
}
