/** `Vertex2D` and `Vertex2D::makeQuad` (code/anker/graphics/anker_vertex.cpp). */
module Vertices {
  import opened Math

  /** The common 2D vertex: a position and a texture coordinate. */
  datatype Vertex2D = Vertex2D(position: Vec2, uv: Vec2)

  /** The four corners of a `Rect2`. */
  datatype Corner = TopLeft | TopRight | BottomLeft | BottomRight

  function WorldCorner(r: Rect2, c: Corner): Vec2 {
    match c
    case TopLeft => r.topLeftWorld
    case TopRight => r.topRightWorld
    case BottomLeft => r.bottomLeftWorld
    case BottomRight => r.bottomRightWorld
  }

  function TexCorner(r: Rect2, c: Corner): Vec2 {
    match c
    case TopLeft => r.topLeft
    case TopRight => r.topRight
    case BottomLeft => r.bottomLeft
    case BottomRight => r.bottomRight
  }

  /** The corner order of the two triangles of a quad: (TL, BL, TR) and
      (TR, BL, BR), sharing the diagonal from TR to BL. */
  const QuadCorners: seq<Corner> := [TopLeft, BottomLeft, TopRight, TopRight, BottomLeft, BottomRight]

  /** `makeQuad(position, uv)`: six vertices, each taking its position from
      the world-space corner of `position` and its coordinate from the same
      plain corner of `uv`. */
  function MakeQuad(position: Rect2, uv: Rect2): (r: seq<Vertex2D>)
    ensures |r| == 6
    ensures forall i | 0 <= i < 6 :: r[i] == Vertex2D(WorldCorner(position, QuadCorners[i]), TexCorner(uv, QuadCorners[i]))
  {
    [ Vertex2D(position.topLeftWorld, uv.topLeft),
      Vertex2D(position.bottomLeftWorld, uv.bottomLeft),
      Vertex2D(position.topRightWorld, uv.topRight),
      Vertex2D(position.topRightWorld, uv.topRight),
      Vertex2D(position.bottomLeftWorld, uv.bottomLeft),
      Vertex2D(position.bottomRightWorld, uv.bottomRight) ]
  }

  /** The two triangles share their diagonal (the third and fourth vertices
      are equal, and so are the second and fifth), and between them they use
      every corner. */
  lemma QuadShape(position: Rect2, uv: Rect2)
    ensures var q := MakeQuad(position, uv);
            q[2] == q[3] && q[1] == q[4]
    ensures forall c: Corner :: exists i | 0 <= i < 6 :: MakeQuad(position, uv)[i].position == WorldCorner(position, c)
  {
    var q := MakeQuad(position, uv);
    forall c: Corner ensures exists i | 0 <= i < 6 :: q[i].position == WorldCorner(position, c) {
      var i := match c case TopLeft => 0 case BottomLeft => 1 case TopRight => 2 case BottomRight => 5;
      assert q[i].position == WorldCorner(position, c);
    }
  }

  /** Twice the signed area of the triangle (a, b, c). */
  function Cross(a: Vec2, b: Vec2, c: Vec2): real {
    (b.x - a.x) * (c.y - a.y) - (b.y - a.y) * (c.x - a.x)
  }

  /** A rectangle with axis-aligned world corners: left/right edges at `l`
      and `r`, top/bottom edges at `t` and `b`. */
  predicate AxisAligned(p: Rect2, l: real, r: real, t: real, b: real) {
    && p.topLeftWorld == Vec2(l, t) && p.topRightWorld == Vec2(r, t)
    && p.bottomLeftWorld == Vec2(l, b) && p.bottomRightWorld == Vec2(r, b)
  }

  /** For an axis-aligned rectangle both triangles have the same winding,
      and neither is degenerate unless the rectangle is. */
  lemma QuadWinding(position: Rect2, uv: Rect2, l: real, r: real, t: real, b: real)
    requires AxisAligned(position, l, r, t, b)
    ensures var q := MakeQuad(position, uv);
            && Cross(q[0].position, q[1].position, q[2].position) == Cross(q[3].position, q[4].position, q[5].position)
            && (Cross(q[0].position, q[1].position, q[2].position) == 0.0 <==> l == r || t == b)
  {
    var q := MakeQuad(position, uv);
    assert Cross(q[0].position, q[1].position, q[2].position) == (t - b) * (r - l);
    assert Cross(q[3].position, q[4].position, q[5].position) == (t - b) * (r - l);
    if l != r && t != b {
      NonZeroProduct(t - b, r - l);
    }
  }

  lemma NonZeroProduct(x: real, y: real)
    requires x != 0.0 && y != 0.0
    ensures x * y != 0.0
  {
  }
}
