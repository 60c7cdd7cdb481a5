/** `FontSystem` (code/anker/graphics/anker_font_system.cpp): the status flow
    of `loadFont`/`loadFontFromTTF` and the kerning-table copy. The TrueType
    calls are inputs: whether `stbtt_InitFont` and `stbtt_PackBegin`
    succeed, the texture creation status and the font's kerning entries. */
module FontSystem {
  import opened Wrappers
  import St = Status
  import GraphicsFont

  const CharStart: int := 32
  const CharEnd: int := 128
  const CharCount: int := 96

  /** `stbtt_kerningentry`: two glyph indices of the font (as
      `stbtt_FindGlyphIndex` numbers them) and the advance between them. The
      copy loop compares these indices with the character range and uses them
      as character codes; the model keeps that reading. */
  datatype KerningEntry = KerningEntry(glyph1: int, glyph2: int, advance: int)

  /** The copy loop's range check, with the inclusive `CharEnd`. */
  predicate AdmittedAsWritten(e: KerningEntry) {
    CharStart <= e.glyph1 <= CharEnd && CharStart <= e.glyph2 <= CharEnd
  }

  /** The slot the loop writes for an admitted entry. */
  function Slot(e: KerningEntry): int {
    (e.glyph1 - CharStart) * CharCount + (e.glyph2 - CharStart)
  }

  /** The check admits code point 128, whose slot lies past the end of the
      96 x 96 table. */
  lemma AsWrittenAdmitsOutOfBounds()
    ensures AdmittedAsWritten(KerningEntry(128, 32, 0))
    ensures Slot(KerningEntry(128, 32, 0)) == 96 * 96
    ensures Slot(KerningEntry(128, 128, 0)) == 96 * 96 + 96
  {
  }

  /** The check as evidently intended: both glyphs in [CharStart, CharEnd). */
  predicate Admitted(e: KerningEntry) {
    CharStart <= e.glyph1 < CharEnd && CharStart <= e.glyph2 < CharEnd
  }

  /** Every entry the intended check admits has a slot inside the table, and
      the two checks differ only at code point 128. */
  lemma AdmittedInBounds(e: KerningEntry)
    ensures Admitted(e) ==> 0 <= Slot(e) < 96 * 96
    ensures AdmittedAsWritten(e) && !Admitted(e) ==> e.glyph1 == 128 || e.glyph2 == 128
    ensures AdmittedAsWritten(e) && e.glyph1 < CharEnd && e.glyph2 < CharEnd ==> Admitted(e)
  {
  }

  /** The table after the copy loop has processed `entries` in order; an
      entry not admitted is skipped. */
  function Kerned(t: seq<int>, entries: seq<KerningEntry>): (r: seq<int>)
    requires |t| == 96 * 96
    ensures |r| == 96 * 96
    decreases |entries|
  {
    if |entries| == 0 then t
    else
      var rest := Kerned(t, entries[..|entries| - 1]);
      var e := entries[|entries| - 1];
      if Admitted(e) then (AdmittedInBounds(e); rest[Slot(e) := e.advance]) else rest
  }

  /** The last admitted entry for slot `s`, if any. */
  function LastForSlot(entries: seq<KerningEntry>, s: int): (r: Option<nat>)
    ensures r.Some? ==> r.value < |entries| && Admitted(entries[r.value]) && Slot(entries[r.value]) == s
    ensures r.Some? ==> forall j | r.value < j < |entries| :: !(Admitted(entries[j]) && Slot(entries[j]) == s)
    ensures r.None? ==> forall j | 0 <= j < |entries| :: !(Admitted(entries[j]) && Slot(entries[j]) == s)
  {
    if |entries| == 0 then None
    else if Admitted(entries[|entries| - 1]) && Slot(entries[|entries| - 1]) == s then Some(|entries| - 1)
    else LastForSlot(entries[..|entries| - 1], s)
  }

  /** After the copy, each slot holds the advance of the last admitted entry
      for it; a slot no admitted entry names keeps its old value. */
  lemma {:induction false} KernedLastWins(t: seq<int>, entries: seq<KerningEntry>, s: int)
    requires |t| == 96 * 96 && 0 <= s < 96 * 96
    ensures LastForSlot(entries, s).Some? ==> Kerned(t, entries)[s] == entries[LastForSlot(entries, s).value].advance
    ensures LastForSlot(entries, s).None? ==> Kerned(t, entries)[s] == t[s]
  {
    if |entries| > 0 {
      KernedLastWins(t, entries[..|entries| - 1], s);
    }
  }

  /** The kerning copy loop of `loadFontFromTTF`, with the intended range
      check; it writes only `table`. */
  method CopyKerning(table: array<int>, entries: seq<KerningEntry>)
    requires table.Length == 96 * 96
    modifies table
    ensures table[..] == Kerned(old(table[..]), entries)
  {
    ghost var t0 := table[..];
    var i := 0;
    while i < |entries|
      invariant 0 <= i <= |entries|
      invariant table[..] == Kerned(t0, entries[..i])
    {
      var entry := entries[i];
      assert entries[..i + 1][..i] == entries[..i];
      if CharStart <= entry.glyph1 < CharEnd && CharStart <= entry.glyph2 < CharEnd {
        var index1 := entry.glyph1 - CharStart;
        var index2 := entry.glyph2 - CharStart;
        table[index1 * CharCount + index2] := entry.advance;
      }
      i := i + 1;
    }
    assert entries[..i] == entries;
  }

  /** After loading, `kern(a, b)` for in-range characters is the font scale
      times the advance of the last kerning entry for the pair, or times the
      old entry if the font has none for it. */
  lemma KernAfterCopy(font: GraphicsFont.Font, t: seq<int>, entries: seq<KerningEntry>, a: int, b: int)
    requires |t| == 96 * 96 && font.kerningTable == Kerned(t, entries)
    requires 32 <= a <= 127 && 32 <= b <= 127
    ensures var s := (a - 32) * 96 + (b - 32);
            && GraphicsFont.Kern(font, a, b) == font.scale * font.kerningTable[s] as real
            && (LastForSlot(entries, s).Some? ==>
                  GraphicsFont.Kern(font, a, b) == font.scale * entries[LastForSlot(entries, s).value].advance as real)
            && (LastForSlot(entries, s).None? ==> GraphicsFont.Kern(font, a, b) == font.scale * t[s] as real)
  {
    var s := (a - 32) * 96 + (b - 32);
    GraphicsFont.InRangeMeaning(a);
    GraphicsFont.InRangeMeaning(b);
    KernedLastWins(t, entries, s);
  }

  /** What `loadFontFromTTF` returns: `FontError` is a value of its own (it is
      not among the seven codes of `ErrorCode`). */
  datatype TtfStatus = FontError | Returned(status: St.Status) {
    predicate IsOk() { Returned? && status.IsOk() }
  }

  /** `loadFontFromTTF(font, fontData)`: `FontError` if the font cannot be
      read or packed, the texture status if the texture cannot be created,
      else OK after copying the kerning table (when the font has one). The
      table is written only on the path that returns OK. */
  method LoadFontFromTTF(table: array<int>, initOk: bool, packOk: bool, textureStatus: St.Status,
                         kerning: Option<seq<KerningEntry>>)
    returns (r: TtfStatus)
    requires table.Length == 96 * 96
    modifies table
    ensures !initOk || !packOk ==> r == FontError && table[..] == old(table[..])
    ensures initOk && packOk && !textureStatus.IsOk() ==> r == Returned(textureStatus) && table[..] == old(table[..])
    ensures initOk && packOk && textureStatus.IsOk() ==> r == Returned(St.DefaultStatus())
    ensures initOk && packOk && textureStatus.IsOk() && kerning.Some? ==> table[..] == Kerned(old(table[..]), kerning.value)
    ensures kerning.None? ==> table[..] == old(table[..])
    ensures r.IsOk() <==> initOk && packOk && textureStatus.IsOk()
  {
    if !initOk {
      return FontError;
    }
    if !packOk {
      return FontError;
    }
    if !textureStatus.IsOk() {
      return Returned(textureStatus);
    }
    if kerning.Some? {
      CopyKerning(table, kerning.value);
    }
    return Returned(St.FromCode(St.OK));
  }

  /** The texture settings `loadFont` makes before loading. */
  datatype TextureInfo = TextureInfo(name: string, width: nat, height: nat)

  function PrepareTexture(info: TextureInfo, identifier: string): (r: TextureInfo)
    ensures r.name == identifier && r.width == 512 && r.height == 512
  {
    info.(name := identifier, width := 512, height := 512)
  }

  /** The file `loadFont` asks the data loader for. */
  function FontPath(identifier: string): (p: string)
    ensures |p| == |identifier| + 4 && p[..|identifier|] == identifier && p[|identifier|..] == ".ttf"
  {
    identifier + ".ttf"
  }

  /** `loadFont`'s result from the data loader's status and, when that
      succeeded, the status of `loadFontFromTTF`: OK exactly when both
      succeed, `ReadError` otherwise, whatever the failure was. */
  function LoadFontStatus(loadStatus: St.Status, ttf: TtfStatus): (r: St.Status)
    ensures r.IsOk() <==> loadStatus.IsOk() && ttf.IsOk()
    ensures !r.IsOk() ==> r.code == St.ReadError
  {
    if loadStatus.IsOk() && ttf.IsOk() then St.FromCode(St.OK) else St.FromCode(St.ReadError)
  }
}
