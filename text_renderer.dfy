/** `TextRenderer::draw` (code/anker/graphics/anker_text_renderer.cpp): the
    vertex layout of a line of text. Shader, buffer and texture calls into
    the render device are not modelled; `Draw` returns the vertices it
    submits. The text is a sequence of (signed) `char`s. */
module TextRenderer {
  import opened Math
  import opened Chars
  import opened GraphicsFont
  import opened Vertices

  /** The advance of the character at `i`. */
  function Advance(font: Font, text: seq<CChar>, i: nat): real
    requires i < |text|
  {
    CharDataOf(font, text[i]).xAdvance
  }

  /** The cursor's x when glyph `i` is placed: the previous cursor, moved by
      the previous glyph's advance and, for i >= 1, by the kerning between
      the previous and the current character. */
  function PenX(font: Font, text: seq<CChar>, i: nat): real
    requires i < |text|
  {
    if i == 0 then 0.0
    else PenX(font, text, i - 1) + Advance(font, text, i - 1) + Kern(font, text[i - 1], text[i])
  }

  /** The cursor's x after `i` glyphs. */
  function CursorAfter(font: Font, text: seq<CChar>, i: nat): real
    requires i <= |text|
  {
    if i == 0 then 0.0 else PenX(font, text, i - 1) + Advance(font, text, i - 1)
  }

  /** The sum of the advances of the first `i` characters. */
  function AdvanceSum(font: Font, text: seq<CChar>, i: nat): real
    requires i <= |text|
  {
    if i == 0 then 0.0 else AdvanceSum(font, text, i - 1) + Advance(font, text, i - 1)
  }

  /** The sum of the kernings of the pairs (j - 1, j) for 1 <= j <= i. */
  function KernSum(font: Font, text: seq<CChar>, i: nat): real
    requires i < |text|
  {
    if i == 0 then 0.0 else KernSum(font, text, i - 1) + Kern(font, text[i - 1], text[i])
  }

  /** Glyph i sits at the sum of the advances before it plus the kernings of
      the pairs up to it; the first glyph sits at the origin. */
  lemma {:induction false} PenIsSum(font: Font, text: seq<CChar>, i: nat)
    requires i < |text|
    ensures PenX(font, text, i) == AdvanceSum(font, text, i) + KernSum(font, text, i)
  {
    if i > 0 {
      PenIsSum(font, text, i - 1);
    }
  }

  /** With a scale of 0 (the default font), kerning contributes nothing and
      the text is laid out by advances alone. */
  lemma {:induction false} UnscaledFontIgnoresKerning(font: Font, text: seq<CChar>, i: nat)
    requires font.scale == 0.0 && i < |text|
    ensures KernSum(font, text, i) == 0.0
    ensures PenX(font, text, i) == AdvanceSum(font, text, i)
  {
    if i > 0 {
      UnscaledFontIgnoresKerning(font, text, i - 1);
    }
    PenIsSum(font, text, i);
  }

  /** `q` with every position moved by `d`. */
  function Shifted(q: seq<Vertex2D>, d: Vec2): (r: seq<Vertex2D>)
    ensures |r| == |q|
    ensures forall k | 0 <= k < |q| :: r[k] == Vertex2D(d.Plus(q[k].position), q[k].uv)
  {
    seq(|q|, k requires 0 <= k < |q| => Vertex2D(d.Plus(q[k].position), q[k].uv))
  }

  /** The six vertices of glyph `i`: the quad of its visual and texture
      rectangles, placed at the pen. */
  function GlyphQuad(font: Font, text: seq<CChar>, i: nat): (r: seq<Vertex2D>)
    requires i < |text|
    ensures |r| == 6
  {
    var cd := CharDataOf(font, text[i]);
    Shifted(MakeQuad(cd.visRect, cd.texRect), Vec2(PenX(font, text, i), 0.0))
  }

  /** The vertices of the first `m` glyphs, before scaling. */
  function Layout(font: Font, text: seq<CChar>, m: nat): (r: seq<Vertex2D>)
    requires m <= |text|
    ensures |r| == 6 * m
  {
    if m == 0 then [] else Layout(font, text, m - 1) + GlyphQuad(font, text, m - 1)
  }

  /** A vertex after the final pass: its position divided by 16. */
  function Scaled(v: Vertex2D): Vertex2D {
    Vertex2D(v.position.Div(16.0), v.uv)
  }

  lemma {:induction false} LayoutAt(font: Font, text: seq<CChar>, m: nat, i: nat, k: nat)
    requires i < m <= |text| && k < 6
    ensures Layout(font, text, m)[6 * i + k] == GlyphQuad(font, text, i)[k]
  {
    if i < m - 1 {
      LayoutAt(font, text, m - 1, i, k);
    }
  }

  /** `draw(font, text)`: glyph by glyph, six vertices at the cursor, the
      cursor moved by the kerning (from the second glyph on) and the
      advance; then every position divided by 16. */
  method Draw(font: Font, text: seq<CChar>) returns (vertices: seq<Vertex2D>)
    ensures |vertices| == 6 * |text|
    ensures forall i, k | 0 <= i < |text| && 0 <= k < 6 :: vertices[6 * i + k] == Scaled(GlyphQuad(font, text, i)[k])
  {
    vertices := [];
    var cursor := Vec2(0.0, 0.0);
    var i := 0;
    while i < |text|
      invariant 0 <= i <= |text|
      invariant vertices == Layout(font, text, i)
      invariant cursor == Vec2(CursorAfter(font, text, i), 0.0)
    {
      var charData := CharDataOf(font, text[i]);
      if i != 0 {
        cursor := cursor.(x := cursor.x + Kern(font, text[i - 1], text[i]));
      }
      vertices := vertices + [
        Vertex2D(cursor.Plus(charData.visRect.topLeftWorld), charData.texRect.topLeft),
        Vertex2D(cursor.Plus(charData.visRect.bottomLeftWorld), charData.texRect.bottomLeft),
        Vertex2D(cursor.Plus(charData.visRect.topRightWorld), charData.texRect.topRight),
        Vertex2D(cursor.Plus(charData.visRect.topRightWorld), charData.texRect.topRight),
        Vertex2D(cursor.Plus(charData.visRect.bottomLeftWorld), charData.texRect.bottomLeft),
        Vertex2D(cursor.Plus(charData.visRect.bottomRightWorld), charData.texRect.bottomRight)];
      assert cursor == Vec2(PenX(font, text, i), 0.0);
      cursor := cursor.(x := cursor.x + charData.xAdvance);
      i := i + 1;
    }
    ghost var laid := vertices;
    var j := 0;
    while j < |vertices|
      invariant 0 <= j <= |vertices| == |laid|
      invariant forall n | 0 <= n < j :: vertices[n] == Scaled(laid[n])
      invariant forall n | j <= n < |vertices| :: vertices[n] == laid[n]
    {
      vertices := vertices[j := Scaled(vertices[j])];
      j := j + 1;
    }
    forall i, k | 0 <= i < |text| && 0 <= k < 6 ensures vertices[6 * i + k] == Scaled(GlyphQuad(font, text, i)[k]) {
      LayoutAt(font, text, |text|, i, k);
    }
  }

  /** Within every glyph the third and fourth vertices coincide, and so do
      the second and fifth; each vertex sits at the pen plus its corner of
      the visual rectangle, with y unchanged by the cursor. */
  lemma GlyphShape(font: Font, text: seq<CChar>, i: nat)
    requires i < |text|
    ensures var g := GlyphQuad(font, text, i);
            g[2] == g[3] && g[1] == g[4]
    ensures var g := GlyphQuad(font, text, i);
            var cd := CharDataOf(font, text[i]);
            forall k | 0 <= k < 6 ::
              && g[k].position == Vec2(PenX(font, text, i) + WorldCorner(cd.visRect, QuadCorners[k]).x,
                                       WorldCorner(cd.visRect, QuadCorners[k]).y)
              && g[k].uv == TexCorner(cd.texRect, QuadCorners[k])
  {
    var cd := CharDataOf(font, text[i]);
    QuadShape(cd.visRect, cd.texRect);
  }
}
