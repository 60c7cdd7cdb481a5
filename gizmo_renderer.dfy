/** `GizmoRenderer` (code/anker/graphics/anker_gizmo_renderer.cpp): debug
    gizmos collected into a line list and a triangle list, which `draw`
    submits and then clears. The shader, buffer and draw calls into the
    render device are not modelled; `Draw` returns the lists it submits. */
module Gizmos {
  import opened Math

  /** `GizmoRenderer::Vertex`. */
  datatype GizmoVertex = GizmoVertex(position: Vec2, color: Vec4)

  /** The two vertices of a line from `from` to `to`. */
  function Line(from: Vec2, to: Vec2, color: Vec4): (r: seq<GizmoVertex>)
    ensures |r| == 2 && r[0].position == from && r[1].position == to
    ensures r[0].color == color && r[1].color == color
  {
    [GizmoVertex(from, color), GizmoVertex(to, color)]
  }

  /** A line list (pairs of vertices) whose segments join end to start and
      whose last segment ends where the first begins. */
  predicate ClosedLoop(vs: seq<GizmoVertex>) {
    && |vs| >= 2 && |vs| % 2 == 0
    && (forall k | 0 <= k < |vs| / 2 - 1 :: vs[2 * k + 1].position == vs[2 * k + 2].position)
    && vs[|vs| - 1].position == vs[0].position
  }

  /** The four sides of `rect`, top-left to top-right to bottom-right to
      bottom-left and back. */
  function RectOutline(rect: Rect2, color: Vec4): seq<GizmoVertex> {
    Line(rect.topLeft, rect.topRight, color) + Line(rect.topRight, rect.bottomRight, color)
    + Line(rect.bottomRight, rect.bottomLeft, color) + Line(rect.bottomLeft, rect.topLeft, color)
  }

  /** The outline is four lines forming a closed loop through the corners in
      the order TL, TR, BR, BL. */
  lemma RectOutlineIsLoop(rect: Rect2, color: Vec4)
    ensures var o := RectOutline(rect, color);
            && |o| == 8 && ClosedLoop(o)
            && o[0].position == rect.topLeft && o[2].position == rect.topRight
            && o[4].position == rect.bottomRight && o[6].position == rect.bottomLeft
            && forall i | 0 <= i < 8 :: o[i].color == color
  {
    var o := RectOutline(rect, color);
    assert o[1].position == o[2].position && o[3].position == o[4].position;
    assert o[5].position == o[6].position && o[7].position == o[0].position;
  }

  /** The cross `addPoint` draws: a horizontal and a vertical line of length
      0.1, both centred on the point. */
  function PointCross(p: Vec2, color: Vec4): seq<GizmoVertex> {
    Line(p.Plus(Vec2(-0.05, 0.0)), p.Plus(Vec2(0.05, 0.0)), color)
    + Line(p.Plus(Vec2(0.0, -0.05)), p.Plus(Vec2(0.0, 0.05)), color)
  }

  lemma PointCrossCentred(p: Vec2, color: Vec4)
    ensures var c := PointCross(p, color);
            && |c| == 4
            && c[0].position.y == p.y == c[1].position.y && c[1].position.x - c[0].position.x == 0.1
            && c[2].position.x == p.x == c[3].position.x && c[3].position.y - c[2].position.y == 0.1
            && (c[0].position.x + c[1].position.x) / 2.0 == p.x && (c[2].position.y + c[3].position.y) / 2.0 == p.y
  {
  }

  /** The number of passes of `for (x = -size; x <= size; ++x)`: the k >= 0
      with -size + k <= size. */
  function GridSteps(size: real): (n: nat)
    ensures size >= 0.0 ==> (n - 1) as real <= 2.0 * size < n as real
    ensures size < 0.0 ==> n == 0
  {
    if size < 0.0 then 0 else (2.0 * size).Floor + 1
  }

  lemma GridStepsCount(size: real, k: nat)
    ensures -size + k as real <= size <==> k < GridSteps(size)
  {
  }

  /** The line vertices of the first `m` vertical grid lines, x = -size + k. */
  function Columns(size: real, m: nat, color: Vec4): (r: seq<GizmoVertex>)
    ensures |r| == 2 * m
  {
    if m == 0 then [] else
      Columns(size, m - 1, color) + Line(Vec2(-size + (m - 1) as real, -size), Vec2(-size + (m - 1) as real, size), color)
  }

  /** The line vertices of the first `m` horizontal grid lines, y = -size + k. */
  function Rows(size: real, m: nat, color: Vec4): (r: seq<GizmoVertex>)
    ensures |r| == 2 * m
  {
    if m == 0 then [] else
      Rows(size, m - 1, color) + Line(Vec2(-size, -size + (m - 1) as real), Vec2(size, -size + (m - 1) as real), color)
  }

  /** Line k of the columns is vertical at x = -size + k and spans
      [-size, size]. */
  lemma {:induction false} ColumnAt(size: real, m: nat, color: Vec4, k: nat)
    requires k < m
    ensures var c := Columns(size, m, color);
            && c[2 * k].position == Vec2(-size + k as real, -size)
            && c[2 * k + 1].position == Vec2(-size + k as real, size)
  {
    if k < m - 1 {
      ColumnAt(size, m - 1, color, k);
    }
  }

  /** Line k of the rows is horizontal at y = -size + k and spans
      [-size, size]. */
  lemma {:induction false} RowAt(size: real, m: nat, color: Vec4, k: nat)
    requires k < m
    ensures var r := Rows(size, m, color);
            && r[2 * k].position == Vec2(-size, -size + k as real)
            && r[2 * k + 1].position == Vec2(size, -size + k as real)
  {
    if k < m - 1 {
      RowAt(size, m - 1, color, k);
    }
  }

  class GizmoRenderer {
    var lines: seq<GizmoVertex>
    var triangles: seq<GizmoVertex>

    /** Both lists start empty. */
    constructor ()
      ensures lines == [] && triangles == []
    {
      lines := [];
      triangles := [];
    }

    /** `addLine`: appends the two vertices to the line list. */
    method AddLine(from: Vec2, to: Vec2, color: Vec4 := Vec4(1.0, 1.0, 1.0, 1.0))
      modifies this
      ensures lines == old(lines) + Line(from, to, color)
      ensures triangles == old(triangles)
    {
      lines := lines + [GizmoVertex(from, color), GizmoVertex(to, color)];
    }

    /** `addTriangle`: appends the three vertices, in order, to the triangle
      list. */
    method AddTriangle(v0: Vec2, v1: Vec2, v2: Vec2, color: Vec4 := Vec4(1.0, 1.0, 1.0, 1.0))
      modifies this
      ensures triangles == old(triangles) + [GizmoVertex(v0, color), GizmoVertex(v1, color), GizmoVertex(v2, color)]
      ensures lines == old(lines)
    {
      triangles := triangles + [GizmoVertex(v0, color), GizmoVertex(v1, color), GizmoVertex(v2, color)];
    }

    /** `addPoint`: two lines, the cross around the point. */
    method AddPoint(point: Vec2, color: Vec4)
      modifies this
      ensures lines == old(lines) + PointCross(point, color)
      ensures triangles == old(triangles)
    {
      AddLine(point.Plus(Vec2(-0.05, 0.0)), point.Plus(Vec2(0.05, 0.0)), color);
      AddLine(point.Plus(Vec2(0.0, -0.05)), point.Plus(Vec2(0.0, 0.05)), color);
    }

    /** `addRect`: the closed outline of the rectangle. */
    method AddRect(rect: Rect2, color: Vec4 := Vec4(1.0, 1.0, 1.0, 1.0))
      modifies this
      ensures lines == old(lines) + RectOutline(rect, color)
      ensures triangles == old(triangles)
    {
      AddLine(rect.topLeft, rect.topRight, color);
      AddLine(rect.topRight, rect.bottomRight, color);
      AddLine(rect.bottomRight, rect.bottomLeft, color);
      AddLine(rect.bottomLeft, rect.topLeft, color);
    }

    /** `addGrid(size)`: the vertical lines x = -size, -size + 1, ... up to
      size, then the horizontal lines likewise; that is 2 * GridSteps(size)
      lines, 2 * (2n + 1) for a whole number n. */
    method AddGrid(size: real, color: Vec4 := Vec4(0.2, 0.2, 0.2, 1.0))
      modifies this
      ensures lines == old(lines) + Columns(size, GridSteps(size), color) + Rows(size, GridSteps(size), color)
      ensures triangles == old(triangles)
    {
      var x := -size;
      ghost var k: nat := 0;
      while x <= size
        invariant x == -size + k as real && k <= GridSteps(size)
        invariant lines == old(lines) + Columns(size, k, color)
        invariant triangles == old(triangles)
        decreases GridSteps(size) - k
      {
        GridStepsCount(size, k);
        AddLine(Vec2(x, -size), Vec2(x, size), color);
        x, k := x + 1.0, k + 1;
      }
      GridStepsCount(size, k);
      var y := -size;
      ghost var j: nat := 0;
      while y <= size
        invariant y == -size + j as real && j <= GridSteps(size)
        invariant lines == old(lines) + Columns(size, k, color) + Rows(size, j, color)
        invariant triangles == old(triangles)
        decreases GridSteps(size) - j
      {
        GridStepsCount(size, j);
        AddLine(Vec2(-size, y), Vec2(size, y), color);
        y, j := y + 1.0, j + 1;
      }
      GridStepsCount(size, j);
    }

    /** `draw`: with both lists empty nothing is bound or drawn; otherwise
      each non-empty list is submitted. Afterwards both lists are empty. */
    method Draw() returns (bound: bool, drawnLines: seq<GizmoVertex>, drawnTriangles: seq<GizmoVertex>)
      modifies this
      ensures bound <==> old(lines) != [] || old(triangles) != []
      ensures drawnLines == old(lines) && drawnTriangles == old(triangles)
      ensures lines == [] && triangles == []
    {
      bound, drawnLines, drawnTriangles := false, [], [];
      if |lines| == 0 && |triangles| == 0 {
        return;
      }
      bound := true;
      if |lines| != 0 {
        drawnLines := lines;
        lines := [];
      }
      if |triangles| != 0 {
        drawnTriangles := triangles;
        triangles := [];
      }
    }
  }

  /** A whole-number size n gives 2n + 1 lines in each direction. */
  lemma GridOfWholeSize(n: nat, color: Vec4)
    ensures GridSteps(n as real) == 2 * n + 1
    ensures |Columns(n as real, GridSteps(n as real), color) + Rows(n as real, GridSteps(n as real), color)| == 2 * 2 * (2 * n + 1)
  {
  }
}
