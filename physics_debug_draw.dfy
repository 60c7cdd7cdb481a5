/** `PhysicsDebugDraw` (code/anker/physics/anker_physics_debug_draw.cpp): the
    Box2D debug-draw callbacks that turn shapes into gizmo lines and
    triangles. `b2Vec2` and `b2Color` are taken as `Vec2` and `Vec4`. */
module PhysicsDebugDraw {
  import opened Math
  import opened Gizmos

  /** The index after `j`, wrapping from the last vertex to the first. */
  function Next(n: nat, j: nat): nat {
    if j + 1 < n then j + 1 else 0
  }

  /** The first `m` segments of the outline `DrawPolygon` emits: segment j
      runs from vertex j to vertex j + 1, and the last one from vertex n - 1
      back to vertex 0. */
  function Edges(vs: seq<Vec2>, m: nat, color: Vec4): (r: seq<GizmoVertex>)
    requires 1 <= |vs| && m <= |vs|
    ensures |r| == 2 * m
  {
    if m == 0 then [] else Edges(vs, m - 1, color) + Line(vs[m - 1], vs[Next(|vs|, m - 1)], color)
  }

  /** The whole outline: n segments for n vertices. */
  function Outline(vs: seq<Vec2>, color: Vec4): (r: seq<GizmoVertex>)
    requires |vs| >= 1
    ensures |r| == 2 * |vs|
  {
    Edges(vs, |vs|, color)
  }

  lemma {:induction false} EdgeAt(vs: seq<Vec2>, m: nat, color: Vec4, j: nat)
    requires 1 <= |vs| && j < m <= |vs|
    ensures Edges(vs, m, color)[2 * j].position == vs[j]
    ensures Edges(vs, m, color)[2 * j + 1].position == vs[Next(|vs|, j)]
  {
    if j < m - 1 {
      EdgeAt(vs, m - 1, color, j);
    }
  }

  /** The outline is a closed loop of n segments, the j-th running from
      vertex j to the next vertex, cyclically. */
  lemma OutlineIsLoop(vs: seq<Vec2>, color: Vec4)
    requires |vs| >= 1
    ensures var o := Outline(vs, color);
            && ClosedLoop(o)
            && forall j | 0 <= j < |vs| :: o[2 * j].position == vs[j] && o[2 * j + 1].position == vs[Next(|vs|, j)]
  {
    var o := Outline(vs, color);
    var n := |vs|;
    forall j | 0 <= j < n ensures o[2 * j].position == vs[j] && o[2 * j + 1].position == vs[Next(n, j)] {
      EdgeAt(vs, n, color, j);
    }
    forall k | 0 <= k < n - 1 ensures o[2 * k + 1].position == o[2 * k + 2].position {
      EdgeAt(vs, n, color, k);
      EdgeAt(vs, n, color, k + 1);
    }
    EdgeAt(vs, n, color, n - 1);
    EdgeAt(vs, n, color, 0);
    assert |o| / 2 - 1 == n - 1;
  }

  /** The first `m` triangles of the fan `DrawSolidPolygon` fills:
      (0, i, i + 1) for i = 1 .. m. */
  function Triangles(vs: seq<Vec2>, m: nat, color: Vec4): (r: seq<GizmoVertex>)
    requires m == 0 || m + 2 <= |vs|
    ensures |r| == 3 * m
  {
    if m == 0 then []
    else Triangles(vs, m - 1, color) + [GizmoVertex(vs[0], color), GizmoVertex(vs[m], color), GizmoVertex(vs[m + 1], color)]
  }

  /** The whole fan: n - 2 triangles, none for fewer than three vertices. */
  function Fan(vs: seq<Vec2>, color: Vec4): (r: seq<GizmoVertex>)
    ensures |vs| >= 2 ==> |r| == 3 * (|vs| - 2)
    ensures |vs| < 3 ==> r == []
  {
    if |vs| < 3 then [] else Triangles(vs, |vs| - 2, color)
  }

  lemma {:induction false} TriangleAt(vs: seq<Vec2>, m: nat, color: Vec4, t: nat)
    requires t < m && m + 2 <= |vs|
    ensures var f := Triangles(vs, m, color);
            f[3 * t].position == vs[0] && f[3 * t + 1].position == vs[t + 1] && f[3 * t + 2].position == vs[t + 2]
  {
    if t < m - 1 {
      TriangleAt(vs, m - 1, color, t);
    }
  }

  /** Triangle t of the fan is (vs[0], vs[t + 1], vs[t + 2]), all in the
      given colour. */
  lemma FanTriangles(vs: seq<Vec2>, color: Vec4)
    requires |vs| >= 3
    ensures var f := Fan(vs, color);
            forall t | 0 <= t < |vs| - 2 ::
              f[3 * t].position == vs[0] && f[3 * t + 1].position == vs[t + 1] && f[3 * t + 2].position == vs[t + 2]
  {
    forall t | 0 <= t < |vs| - 2 {
      TriangleAt(vs, |vs| - 2, color, t);
    }
  }

  /** The fill colour of a solid polygon: the outline colour at half
      strength. */
  function FillColor(color: Vec4): (c: Vec4)
    ensures c.x == color.x / 2.0 && c.y == color.y / 2.0 && c.z == color.z / 2.0 && c.w == color.w / 2.0
  {
    color.Scale(0.5)
  }

  class DebugDraw {
    const gizmos: GizmoRenderer

    constructor (gizmoRenderer: GizmoRenderer)
      ensures gizmos == gizmoRenderer
    {
      gizmos := gizmoRenderer;
    }

    /** `DrawPolygon`: the closed outline through the vertices. Box2D passes
      at least one vertex; the source reads `vertices[vertexCount - 1]`. */
    method DrawPolygon(vertices: seq<Vec2>, color: Vec4)
      requires |vertices| >= 1
      modifies gizmos
      ensures gizmos.lines == old(gizmos.lines) + Outline(vertices, color)
      ensures gizmos.triangles == old(gizmos.triangles)
    {
      var n := |vertices|;
      for i := 1 to n
        invariant gizmos.lines == old(gizmos.lines) + Edges(vertices, i - 1, color)
        invariant gizmos.triangles == old(gizmos.triangles)
      {
        gizmos.AddLine(vertices[i - 1], vertices[i], color);
      }
      gizmos.AddLine(vertices[n - 1], vertices[0], color);
    }

    /** `DrawSolidPolygon`: the outline, then the fill fan in half colour. */
    method DrawSolidPolygon(vertices: seq<Vec2>, color: Vec4)
      requires |vertices| >= 1
      modifies gizmos
      ensures gizmos.lines == old(gizmos.lines) + Outline(vertices, color)
      ensures gizmos.triangles == old(gizmos.triangles) + Fan(vertices, FillColor(color))
    {
      DrawPolygon(vertices, color);
      var fillColor := color.Scale(0.5);
      var n := |vertices|;
      var i := 1;
      while i < n - 1
        invariant 1 <= i <= (if n >= 3 then n - 1 else 1)
        invariant gizmos.triangles == old(gizmos.triangles) + Triangles(vertices, i - 1, fillColor)
        invariant gizmos.lines == old(gizmos.lines) + Outline(vertices, color)
      {
        gizmos.AddTriangle(vertices[0], vertices[i], vertices[i + 1], fillColor);
        i := i + 1;
      }
    }

    /** `DrawSegment`: one line. */
    method DrawSegment(p1: Vec2, p2: Vec2, color: Vec4)
      modifies gizmos
      ensures gizmos.lines == old(gizmos.lines) + Line(p1, p2, color)
      ensures gizmos.triangles == old(gizmos.triangles)
    {
      gizmos.AddLine(p1, p2, color);
    }
  }
}
