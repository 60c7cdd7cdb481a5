/** Character types shared by the two `Font` headers. */
module Chars {

  /** A `char` as a signed byte. */
  type CChar = c: int | -128 <= c <= 127

  /** An `int` converted to `unsigned` (32 bits), as the comparisons with the
      `unsigned` constants `CharStart`/`CharEnd` do. */
  function ToUnsigned(c: int): (u: nat)
    requires -0x8000_0000 <= c < 0x8000_0000
    ensures 0 <= c ==> u == c
    ensures c < 0 ==> u >= 0x8000_0000
  {
    if c < 0 then c + 0x1_0000_0000 else c
  }

  /** `' '`. */
  const Space: CChar := 32
}

/** The renderer's font (code/anker/graphics/anker_font.hpp): per-glyph data
    for the 96 printable ASCII characters and a 96 x 96 kerning table. */
module GraphicsFont {
  import opened Chars
  import opened Math

  const CharStart: nat := 32
  const CharEnd: nat := 128
  const CharCount: nat := CharEnd - CharStart

  /** `CharData`: where the glyph is in the texture, where it is drawn, and
      how far the cursor advances after it. */
  datatype CharData = CharData(texRect: Rect2, visRect: Rect2, xAdvance: real)

  const ZeroRect := Rect2(Vec2(0.0, 0.0), Vec2(0.0, 0.0), Vec2(0.0, 0.0), Vec2(0.0, 0.0),
                          Vec2(0.0, 0.0), Vec2(0.0, 0.0), Vec2(0.0, 0.0), Vec2(0.0, 0.0))
  const EmptyCharData := CharData(ZeroRect, ZeroRect, 0.0)

  /** `std::array<CharData, CharCount>` and `std::array<int, CharCount * CharCount>`. */
  type CharTable = s: seq<CharData> | |s| == 96 witness seq(96, _ => EmptyCharData)
  type KerningTable = s: seq<int> | |s| == 96 * 96 witness seq(96 * 96, _ => 0)

  /** The font's value: glyph data, kerning table and scale. */
  datatype Font = Font(charData: CharTable, kerningTable: KerningTable, scale: real)

  /** A value-initialised font: empty glyphs, zero kerning, `m_scale = 0`. */
  function DefaultFont(): (f: Font)
    ensures f.scale == 0.0
    ensures forall i | 0 <= i < 96 * 96 :: f.kerningTable[i] == 0
  {
    Font(seq(96, _ => EmptyCharData), seq(96 * 96, _ => 0), 0.0)
  }

  /** `inRange(int c)`: `CharStart <= c && c <= CharEnd` compared as
      `unsigned`, so negative values are out of range and 128 is in. */
  predicate InRange(c: int)
    requires -0x8000_0000 <= c < 0x8000_0000
  {
    CharStart <= ToUnsigned(c) <= CharEnd
  }

  lemma InRangeMeaning(c: int)
    requires -0x8000_0000 <= c < 0x8000_0000
    ensures InRange(c) <==> 32 <= c <= 128
  {
  }

  /** The kerning slot of a pair of in-range characters. */
  function KerningSlot(a: int, b: int): int {
    (a - CharStart) * CharCount + (b - CharStart)
  }

  /** For characters (at most 127) in range, the glyph index is below 96 and
      the kerning slot below 96 * 96. At 128, the one `int` value `inRange`
      admits that no `char` can take, the slot would be past the end. */
  lemma SlotsInBounds(a: CChar, b: CChar)
    requires InRange(a) && InRange(b)
    ensures 0 <= a - CharStart < CharCount && 0 <= b - CharStart < CharCount
    ensures 0 <= KerningSlot(a, b) < CharCount * CharCount
    ensures KerningSlot(128, 32) == CharCount * CharCount
  {
  }

  /** `charData(c)`: the entry of `c`, or that of ' ' when `c` is out of
      range. */
  function CharDataOf(font: Font, c: CChar): (d: CharData)
    ensures InRange(c) ==> d == font.charData[c - CharStart]
    ensures !InRange(c) ==> d == font.charData[0]
  {
    var c' := if InRange(c) then c else Space;
    font.charData[c' - CharStart]
  }

  /** `kern(a, b)`: the scaled table entry of the pair, or 0 when either
      character is out of range. */
  function Kern(font: Font, a: CChar, b: CChar): (k: real)
    ensures InRange(a) && InRange(b) ==>
              0 <= KerningSlot(a, b) < 96 * 96 && k == font.scale * font.kerningTable[KerningSlot(a, b)] as real
    ensures !(InRange(a) && InRange(b)) ==> k == 0.0
  {
    if InRange(a) && InRange(b) then
      SlotsInBounds(a, b);
      font.scale * font.kerningTable[KerningSlot(a, b)] as real
    else 0.0
  }

  /** Distinct in-range pairs have distinct slots, so the table is read at a
      separate slot for every pair. */
  lemma SlotsDistinct(a: CChar, b: CChar, a': CChar, b': CChar)
    requires InRange(a) && InRange(b) && InRange(a') && InRange(b')
    requires (a, b) != (a', b')
    ensures KerningSlot(a, b) != KerningSlot(a', b')
  {
    if a == a' {
    } else if a < a' {
      assert KerningSlot(a, b) < (a - 31) * 96;
      assert (a - 31) * 96 <= (a' - 32) * 96;
    } else {
      assert KerningSlot(a', b') < (a' - 31) * 96;
      assert (a' - 31) * 96 <= (a - 32) * 96;
    }
  }
}

/** The UI font (code/anker/ui/anker_font.hpp): the same layout with an
    integer kerning table read without scaling. */
module UiFont {
  import opened Chars
  import GraphicsFont

  const CharStart: nat := 32
  const CharEnd: nat := 128
  const CharCount: nat := CharEnd - CharStart

  datatype Font = Font(charData: GraphicsFont.CharTable, kerningTable: GraphicsFont.KerningTable)

  /** `inRange(char c)`, compared as `unsigned`: 32..127 for a `char`. */
  predicate InRange(c: CChar) {
    CharStart <= ToUnsigned(c) <= CharEnd
  }

  lemma InRangeMeaning(c: CChar)
    ensures InRange(c) <==> 32 <= c <= 127
  {
  }

  /** `operator[](c)`: the entry of `c`, or `charData[0]` (' ') when `c` is
      out of range. */
  function Glyph(font: Font, c: CChar): (d: GraphicsFont.CharData)
    ensures InRange(c) ==> 0 <= c - CharStart < CharCount && d == font.charData[c - CharStart]
    ensures !InRange(c) ==> d == font.charData[0]
  {
    var c' := if InRange(c) then c else Space;
    font.charData[c' - CharStart]
  }

  /** `kern(a, b)`: the raw table entry of an in-range pair, else 0. */
  function Kern(font: Font, a: CChar, b: CChar): (k: int)
    ensures InRange(a) && InRange(b) ==>
              var slot := (a - CharStart) * CharCount + (b - CharStart);
              0 <= slot < CharCount * CharCount && k == font.kerningTable[slot]
    ensures !(InRange(a) && InRange(b)) ==> k == 0
  {
    if InRange(a) && InRange(b) then
      font.kerningTable[(a - CharStart) * CharCount + (b - CharStart)]
    else 0
  }

  /** The UI font and the graphics font agree on which characters they
      serve and on the table slots. */
  lemma AgreesWithGraphicsFont(a: CChar, b: CChar)
    ensures InRange(a) <==> GraphicsFont.InRange(a)
    ensures InRange(a) && InRange(b) ==>
              GraphicsFont.KerningSlot(a, b) == (a - CharStart) * CharCount + (b - CharStart)
  {
  }
}
