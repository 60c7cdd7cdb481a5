# Anker engine core in Dafny

This project models the sequential core of the Anker 2D game engine and proves properties of that model. The engine itself is C++, built on Direct3D 11, SDL, entt and ImGui. One Dafny module covers each core source file:

- **The scene graph.** `SceneForest` states, on values, what `SceneNode`'s parent and child links become under `setParent`, the destructor and the constructors, and proves that the links stay consistent and acyclic. `SceneNodes.SceneGraph` is the arena of nodes: a class whose methods update the links, the local transforms and the cached parent transforms in place.
- **Bit flags, status and error tables.** `EnumFlags`, `EnumUtils`, `Status` and `Errors` cover `Flags<Enum>`, `ANKER_ENUM_TO_FROM_STRING`, `ErrorCode`, `Status` and `ANKER_TRY`.
- **Strings and paths.** `Ascii` covers the ASCII helpers. `Math` covers `colorFromHtml` and the vector values. `FileUtils` covers `stripFileExtensions` and the backslash replacement of `toIdentifier`.
- **Component tables.** `ComponentRegistry.Registry` models the registry with its sorted list and lookup maps. `ComponentTypes` and `Components` model the static component table and its lookups.
- **Asset loading.** `DataLoader` models the data-source chain and its throttled modification polling. `AssetCache` models the shader and texture caches: reference counts, `clearUnused` and in-place reload.
- **Input.** `Inputs` covers `linearDeadzone`. `Actions.Action` covers the per-frame action state machine.
- **Maps and JSON.** `MapTiles` covers tile ids, flips and the tileset and grid arithmetic, and puts the vertices into one bucket per tileset. `MapLoader.TmjLoader` walks the Tiled map document, its tilesets and its layer tree. `JsonReader.Reader` is the navigation stack of `JsonReader` over a JSON value datatype.
- **Fonts, text and geometry.**
  - `Chars`, `GraphicsFont`, `UiFont` and `FontSystem` cover the font tables, their lookups and the kerning-table copy.
  - `TextRenderer` covers the text layout.
  - `Vertices` covers `makeQuad`.
  - `Gizmos.GizmoRenderer` covers the gizmo line and triangle lists.
  - `PhysicsDebugDraw.DebugDraw` covers the physics debug polygons.

Floats are modelled as reals. Calls into libraries whose source is not part of this model are replaced by parameters: the platform's input values, the render device's status, stb_truetype's results and the JSON parser's document. Where the source changes state, the model changes state too, and each method is proved against a function that specifies it.

## Model

| member | source | states |
|---|---|---|
| EnumFlags.DefaultFlags | code/anker/common/anker_enum_utils.hpp:42 | the default-constructed flag set has mask 0, converts to false and is empty under `!` |
| EnumFlags.FromEnum | code/anker/common/anker_enum_utils.hpp:43 | an enumerator converts to the flag set holding its own value, which is set exactly when the value is non-zero |
| EnumFlags.BoolAndNot | code/anker/common/anker_enum_utils.hpp:51-52 | `operator bool` and `operator!` are each other's negation, and a set converts to true exactly when some single bit is in it |
| EnumFlags.LowestBit | code/anker/common/anker_enum_utils.hpp:51 | a non-empty mask contains its lowest set bit `m & -m`, which is a single bit |
| EnumFlags.BitwiseMeaning | code/anker/common/anker_enum_utils.hpp:54-57 | a single bit is in `a \| b` iff it is in either, in `a & b` iff in both, and in `~a` iff not in `a` |
| EnumFlags.OrAndAlgebra | code/anker/common/anker_enum_utils.hpp:56-57 | `\|` and `&` are commutative and idempotent; the empty set is the unit of `\|` and annihilates under `&` |
| EnumFlags.ComplementInvolution | code/anker/common/anker_enum_utils.hpp:54 | complementing twice gives the original set back |
| EnumFlags.ComplementPartition | code/anker/common/anker_enum_utils.hpp:54-57 | a set and its complement share no bit and together cover all 32 bits |
| EnumFlags.EnumOr | code/anker/common/anker_enum_utils.hpp:26-29 | `e1 \| e2` on two enumerators is the `\|` of their flag sets, with mask `e1 \| e2` |
| EnumFlags.EnumAnd | code/anker/common/anker_enum_utils.hpp:30-33 | `e1 & e2` on two enumerators is the `&` of their flag sets, with mask `e1 & e2` |
| EnumFlags.EnumOrFlags | code/anker/common/anker_enum_utils.hpp:79-83 | `e \| flags` has mask `e \| flags.mask`, the same as converting `e` first |
| EnumFlags.EnumAndFlags | code/anker/common/anker_enum_utils.hpp:85-89 | `e & flags` has mask `e & flags.mask`, the same as converting `e` first |
| EnumFlags.FlagsVar.constructor | code/anker/common/anker_enum_utils.hpp:46-47 | a flag variable is a copy of the flag set it is initialised with |
| EnumFlags.FlagsVar.OrAssign | code/anker/common/anker_enum_utils.hpp:59-63 | after `\|=` the variable holds the `\|` of its old value and the operand |
| EnumFlags.FlagsVar.AndAssign | code/anker/common/anker_enum_utils.hpp:65-69 | after `&=` the variable holds the `&` of its old value and the operand |
| EnumUtils.LookupName | code/anker/common/anker_enum_utils.hpp:101-102 | the map built from the table has no entry for an enumerator absent from the table; otherwise it holds the name of the enumerator's first table entry |
| EnumUtils.ToString | code/anker/common/anker_enum_utils.hpp:99-107 | `to_string` returns "invalid" for an enumerator without an entry, and otherwise the name of its first entry |
| EnumUtils.FindName | code/anker/common/anker_enum_utils.hpp:111 | the `find_if` stops at the first entry carrying the name, or at the end when none does |
| EnumUtils.FromString | code/anker/common/anker_enum_utils.hpp:108-118 | `from_string` returns true iff some entry carries the name; then the result is the first such entry's enumerator; otherwise the result keeps its old value |
| EnumUtils.FirstNamed | code/anker/common/anker_enum_utils.hpp:111-114 | the enumerator `from_string` selects is absent iff no entry has the name, and otherwise belongs to the first entry with it |
| EnumUtils.RoundTrip | code/anker/common/anker_enum_utils.hpp:98-118 | in a table whose enumerators and names are distinct, `to_string` then `from_string` brings every enumerator back |
| Status.Ordinal | code/anker/common/anker_status.hpp:17-25 | the codes take the values 0 to 6, and the value is 0 exactly for `OK` |
| Status.OrdinalsAreTablePositions | code/anker/common/anker_status.hpp:17-34 | each code's value is the position of its entry in `ErrorCodeEntries`, so distinct codes have distinct values |
| Status.EntriesDistinct | code/anker/common/anker_status.hpp:26-34 | `ErrorCodeEntries` lists distinct codes under distinct names |
| Status.CodeRoundTrip | code/anker/common/anker_status.hpp:35 | `to_string` gives each code its table name ("OK" for `OK`), and `from_string` of that name gives the code back |
| Status.DefaultStatus | code/anker/common/anker_status.hpp:60 | a default-constructed `Status` holds `OK` and converts to true |
| Status.FromCode | code/anker/common/anker_status.hpp:61-63 | `Status(code)` holds the code and converts to true exactly when the code's value is 0 |
| Status.StatusEquality | code/anker/common/anker_status.hpp:70 | two statuses are equal exactly when their codes are equal |
| Status.Try | code/anker/common/anker_status.hpp:77-82 | `ANKER_TRY` returns a failing status unchanged and otherwise falls through to the rest of the function |
| Status.TrySequenceFirstFailure | code/anker/common/anker_status.hpp:77-82 | a body of consecutive `ANKER_TRY` steps succeeds iff every step succeeds, and otherwise returns the first failing status |
| Errors.Ordinal | code/anker/common/anker_error.hpp:13-21 | the values run from 0 to 6, and the value is 0 exactly for `Ok` |
| Errors.OrdinalsAreTablePositions | code/anker/common/anker_error.hpp:13-30 | each value's number is the position of its entry in `ErrorEntries`, so distinct values have distinct numbers |
| Errors.EntriesDistinct | code/anker/common/anker_error.hpp:22-30 | `ErrorEntries` lists distinct values under distinct names |
| Errors.OkIsNamedNoError | code/anker/common/anker_error.hpp:23 | `Ok` is printed as "NoError", and `from_string` does not accept the spelling "Ok" |
| Errors.ErrorRoundTrip | code/anker/common/anker_error.hpp:22-31 | `to_string` then `from_string` brings every value back |
| Ascii.ToLowerChar | code/anker/common/anker_string_utils.hpp:79-86 | an upper-case letter becomes the lower-case letter at the same alphabet position, every other byte is unchanged, and no upper-case letter comes out |
| Ascii.ToUpperChar | code/anker/common/anker_string_utils.hpp:88-95 | a lower-case letter becomes the upper-case letter at the same alphabet position, every other byte is unchanged, and no lower-case letter comes out |
| Ascii.CaseRoundTrip | code/anker/common/anker_string_utils.hpp:79-95 | the two byte helpers undo each other on letters, and each is idempotent |
| Ascii.CaseMappingProperties | code/anker/common/anker_string_utils.hpp:74-105 | changing the case of a string keeps its length, leaves no letter of the other case, is idempotent and keeps an ASCII string ASCII |
| Ascii.ToLower | code/anker/common/anker_string_utils.hpp:97-100 | `toLower` replaces each byte of the string, in place, by its `toLowerChar` |
| Ascii.ToUpper | code/anker/common/anker_string_utils.hpp:102-105 | `toUpper` replaces each byte of the string, in place, by its `toUpperChar` |
| Math.ColorFromHtml | code/anker/common/anker_math.cpp:7-36 | `colorFromHtml` returns true exactly when the input parses; it then writes the parsed colour, and on failure it leaves the colour untouched |
| Math.AcceptedIsInDigitRangeLowered | code/anker/common/anker_math.cpp:20-25 | a byte passes the range test after lower-casing exactly when it lies in '0'..'F' or '['..'f' |
| Math.HtmlColorAccepts | code/anker/common/anker_math.cpp:11-27 | an input parses exactly when it is six accepted bytes, optionally after a single leading '#' |
| Math.HashIsOptional | code/anker/common/anker_math.cpp:11-14 | a leading '#' before six bytes makes no difference to the result |
| Math.HtmlColorCaseInsensitive | code/anker/common/anker_math.cpp:20-23 | two inputs that agree after lower-casing give the same result |
| Math.HtmlColorChannels | code/anker/common/anker_math.cpp:29-34 | on success alpha is 1 and each channel times 255 is `16 * d[2i] + d[2i+1]`, with each digit value taken as `c - '0'` |
| Math.DecimalChannelsInUnitRange | code/anker/common/anker_math.cpp:29-33 | input made only of decimal digits parses, and every channel lies in [0, 1] |
| Math.LetterDigitsOverflow | code/anker/common/anker_math.cpp:29 | the letters 'a'..'f' get digit values 49..54, so "ffffff" gives channels of 918/255, above 1 |
| Math.HexValue | code/anker/common/anker_math.cpp:29 | the evidently intended digit value: a hexadecimal digit's value lies in 0..15, and 'a'..'f' count from 10 |
| Math.HexChannelsInUnitRange | code/anker/common/anker_math.cpp:20-35 | with hexadecimal digit values every channel lies in [0, 1], "ffffff" is opaque white, and decimal input gives the same colour as the code as written |
| FileUtils.LastIndexOf | code/anker/common/anker_file_utils.cpp:76 | `find_last_of` gives no position exactly when the character does not occur; otherwise it gives a position holding that character with none of it later |
| FileUtils.StripRemovesLastSuffix | code/anker/common/anker_file_utils.cpp:74-82 | a path without '.' comes back unchanged; otherwise the result is a strict prefix, and what was removed is one '.' followed by text with no '.' |
| FileUtils.StripExamples | code/anker/common/anker_file_utils.cpp:74-82 | only the last suffix is removed ("a.tar.gz" becomes "a.tar"), and a '.' inside a directory name counts as well |
| FileUtils.StripPathExtension | code/anker/common/anker_file_utils.cpp:69-72 | `replace_extension()` returns a prefix of the path; nothing is removed when the file name is "." or ".." or has no '.' after its first character; otherwise exactly the file name's last '.' and what follows it go |
| FileUtils.NameStart | code/anker/common/anker_file_utils.cpp:69-72 | the file name of a path starts just after its last '/', or at 0 when there is none |
| FileUtils.PathOverloadDiffers | code/anker/common/anker_file_utils.cpp:69-82 | the `fs::path` and string overloads disagree on "maps.v2/level" |
| FileUtils.ForwardSlashesProperties | code/anker/common/anker_file_utils.cpp:92 | after the rewrite no '\\' is left, the length is kept, every other character stays where it was, and rewriting twice is the same as rewriting once |
| FileUtils.ReplaceBackslashes | code/anker/common/anker_file_utils.cpp:91-92 | the in-place `std::ranges::replace` leaves the buffer equal to the rewritten string |
| ComponentTypes.TypeHashInjective | code/anker/core/anker_component_registry.hpp:45 | distinct component types get distinct `entt::type_hash` ids |
| ComponentRegistry.FirstAbove | code/anker/core/anker_component_registry.cpp:47-48 | the upper bound of a sort order is a position within the sequence |
| ComponentRegistry.FirstAboveSplits | code/anker/core/anker_component_registry.cpp:47-48 | over non-decreasing keys, the upper bound is the one split point with every key before it at most `x` and every key after it above `x` |
| ComponentRegistry.UpperBound | code/anker/core/anker_component_registry.cpp:47-48 | the binary search of `std::upper_bound` returns that split point |
| ComponentRegistry.SortedKeysNonDecreasing | code/anker/core/anker_component_registry.cpp:47-49 | sort orders never decrease along a valid `m_sortedInfos` |
| ComponentRegistry.InsertKeepsOrder | code/anker/core/anker_component_registry.cpp:45-49 | appending an info and inserting its index at its upper bound keeps `m_sortedInfos` a sorted listing of every info exactly once, with ties in registration order |
| ComponentRegistry.InsertSorted | code/anker/core/anker_component_registry.cpp:47-49 | the `m_sortedInfos.insert(std::upper_bound(...))` step puts the new index at the upper bound and leaves the sorted view valid |
| ComponentRegistry.EnterKeepsMaps | code/anker/core/anker_component_registry.cpp:51-56 | entering an unregistered id and name keeps both lookup maps exact and the same size as `m_infos` |
| ComponentRegistry.DefaultInfosDistinct | code/anker/core/anker_component_registry.cpp:12-20 | the six default registrations have distinct ids and names and non-decreasing sort orders, so none of them fails a check |
| ComponentRegistry.Registry.ComponentById | code/anker/core/anker_component_registry.cpp:22-29 | gives null exactly when no registered info has the id, and otherwise a registered info with that id |
| ComponentRegistry.Registry.ComponentByName | code/anker/core/anker_component_registry.cpp:31-38 | gives null exactly when no registered info has the name, and otherwise a registered info with that name |
| ComponentRegistry.Registry.Components | code/anker/core/anker_component_registry.hpp:83 | `components()` lists every registered info, ordered by sort order |
| ComponentRegistry.Registry.constructor | code/anker/core/anker_component_registry.cpp:12-20 | the constructor registers Name, Transform2D, Camera, Sprite, PhysicsBody and EditorCamera, and the sorted view keeps that call order |
| ComponentRegistry.Registry.AddComponentInfo | code/anker/core/anker_component_registry.cpp:40-57 | a duplicate id or name fails the check and changes nothing; otherwise the info is appended, inserted at the upper bound of its sort order and entered in both maps, so both lookups find it and the invariant holds |
| Components.LastWith | code/anker/core/anker_components.cpp:65-79 | finds no position exactly when the key is absent; otherwise it finds the last position holding the key |
| Components.BuildIndex | code/anker/core/anker_components.cpp:65-79 | the map-filling loop holds exactly the keys of the table, and for a repeated key the last entry wins |
| Components.LastWithDistinct | code/anker/core/anker_components.cpp:65-79 | when keys are pairwise distinct, each entry is found at its own position |
| Components.ComponentById | code/anker/core/anker_components.cpp:86-93 | gives null exactly when no table entry has the id, and otherwise a table entry with that id |
| Components.ComponentByName | code/anker/core/anker_components.cpp:95-102 | gives null exactly when no table entry has the name, and otherwise a table entry with that name |
| Components.LookupsAgree | code/anker/core/anker_components.cpp:65-102 | lookups through the maps the static initialisers build give the same answers as `ComponentById` and `ComponentByName` |
| Components.IdsDistinct | code/anker/core/anker_components.cpp:51-63 | no two entries of the table share an id |
| Components.NamesDistinct | code/anker/core/anker_components.cpp:51-63 | no two entries of the table share a name |
| Components.EveryEntryFound | code/anker/core/anker_components.cpp:51-102 | every table entry is found under its own id and under its own name |
| Components.OnlyNameHidden | code/anker/core/anker_components.cpp:52-62 | only "Name" carries `HideInInspector`, and every other entry has no flag set |
| Components.ComponentList | code/anker/core/anker_components.cpp:81-84 | `components()` is the eleven entries in declaration order, from "Name" to "Parallax" |
| Inputs.LinearDeadzone | code/anker/core/anker_inputs.hpp:41-52 | magnitudes up to `lower` give 0; magnitudes above `lower` and at least `upper` give the sign of `value`; in between, the result times `upper - lower` equals the sign times `abs - lower`; `upper` defaults to 1 |
| Inputs.DeadzoneRange | code/anker/core/anker_inputs.hpp:41-52 | with `0 <= lower < upper` the result lies in [-1, 1], never has the sign opposite to `value`, and is 0 exactly inside the dead zone |
| Inputs.DeadzoneOdd | code/anker/core/anker_inputs.hpp:43-51 | mirroring a non-zero input mirrors the output |
| Actions.Clamp01 | code/anker/core/anker_actions.cpp:22 | `clamp01` gives a value in [0, 1] and keeps any value already in that range |
| Actions.Action.constructor | code/anker/core/anker_actions.hpp:41-48 | a default `Action` has no bindings, zero times and value, and is not consumed |
| Actions.Action.Bound | code/anker/core/anker_actions.hpp:16-18 | the binding constructors fill the first keyboard slot and optionally the first gamepad slot; everything else is as in the default constructor |
| Actions.Action.Value | code/anker/core/anker_actions.hpp:33 | `value()` reads 0 while consumed and the stored value otherwise |
| Actions.Action.QueryRelations | code/anker/core/anker_actions.hpp:21-31 | down and up exclude each other; each "this frame" query implies its plain form; tapped implies a release with a previous time in (0, 0.3); holding this frame implies holding, which implies down; `operator bool` is `downThisFrame()`; a consumed action is up |
| Actions.Action.Consume | code/anker/core/anker_actions.hpp:35-37 | `consume()` changes only the consumed flag, so the action reads as up and not down |
| Actions.Action.Tick | code/anker/core/anker_actions.cpp:7-33 | the value becomes clamp01 of the sum of the bound inputs; `down()` is judged with the previous consumed flag, and then either advances the two times or zeroes both; consumed is cleared and the bindings are unchanged; as a result no tick ever leaves `upThisFrame()` or `tapped()` true |
| Actions.Action.ConsumedTickRestarts | code/anker/core/anker_actions.cpp:24-32 | after a tick on a consumed action whose input is held, the next state reports `downThisFrame()` and not holding |
| Actions.Action.TickReportingRelease | code/anker/core/anker_actions.cpp:24-30 | with the previous time keeping the old current time on release, the release frame reports `upThisFrame()`, and `tapped()` exactly when the press was shorter than the hold threshold |
| Chars.ToUnsigned | code/anker/graphics/anker_font.hpp:42 | converting to `unsigned` keeps non-negative values and sends negative ones to 2^31 or above |
| GraphicsFont.DefaultFont | code/anker/graphics/anker_font.hpp:44-48 | a value-initialised font has scale 0 and an all-zero kerning table |
| GraphicsFont.InRangeMeaning | code/anker/graphics/anker_font.hpp:39-42 | `inRange(int)` holds exactly for 32..128 |
| GraphicsFont.SlotsInBounds | code/anker/graphics/anker_font.hpp:39-46 | for `char` arguments in range, both glyph offsets are below 96 and the kerning slot is below 96·96; the slot for 128, which `inRange` also admits, is one past the end |
| GraphicsFont.CharDataOf | code/anker/graphics/anker_font.hpp:15-21 | `charData(c)` is the entry of `c` when in range, and the entry of ' ' otherwise |
| GraphicsFont.Kern | code/anker/graphics/anker_font.hpp:23-30 | `kern(a, b)` is the scaled table entry at the pair's slot when both are in range, and 0 otherwise |
| GraphicsFont.SlotsDistinct | code/anker/graphics/anker_font.hpp:26 | different in-range pairs use different kerning slots |
| UiFont.InRangeMeaning | code/anker/ui/anker_font.hpp:10-13 | `inRange(char)` holds exactly for 32..127 |
| UiFont.Glyph | code/anker/ui/anker_font.hpp:21-27 | `operator[](c)` is the in-bounds entry of `c` when in range, and the entry of ' ' otherwise |
| UiFont.Kern | code/anker/ui/anker_font.hpp:31-38 | `kern(a, b)` is the raw table entry at an in-bounds slot when both are in range, and 0 otherwise |
| UiFont.AgreesWithGraphicsFont | code/anker/ui/anker_font.hpp:10-13 | the two fonts admit the same `char` values and use the same kerning slots |
| FontSystem.AsWrittenAdmitsOutOfBounds | code/anker/graphics/anker_font_system.cpp:76-81 | the range check as written admits glyph 128, whose slot (96·96 and beyond) is past the end of the 96·96 table |
| FontSystem.AdmittedInBounds | code/anker/graphics/anker_font_system.cpp:76-81 | every entry the intended check (`< CharEnd`) admits gets a slot inside the table, and the two checks differ only at glyph 128 |
| FontSystem.Kerned | code/anker/graphics/anker_font_system.cpp:75-83 | the table after the copy keeps its 96·96 size |
| FontSystem.LastForSlot | code/anker/graphics/anker_font_system.cpp:75-83 | finds the last admitted entry for the slot, or reports that no admitted entry names it |
| FontSystem.KernedLastWins | code/anker/graphics/anker_font_system.cpp:75-83 | after the copy each slot holds the advance of the last admitted entry for it, and a slot that no admitted entry names keeps its old value |
| FontSystem.CopyKerning | code/anker/graphics/anker_font_system.cpp:75-83 | the in-place copy loop, with the intended check, leaves the table equal to `Kerned` of the old table |
| FontSystem.KernAfterCopy | code/anker/graphics/anker_font_system.cpp:70-84 | after loading, `kern(a, b)` for printable characters is the scale times the advance of the last entry for that pair, or times the old entry if there is none |
| FontSystem.LoadFontFromTTF | code/anker/graphics/anker_font_system.cpp:20-87 | a failing `stbtt_InitFont` or `stbtt_PackBegin` gives `FontError`, and a failing texture creation gives its own status, both with the table untouched; otherwise the call returns OK after copying the kerning entries when the font has them; the kerning copy uses the intended `< CharEnd` bound of `CopyKerning`, not the code's `<=`, which writes past the table at glyph 128 (see Findings) |
| FontSystem.PrepareTexture | code/anker/graphics/anker_font_system.cpp:93-94 | `loadFont` names the texture after the identifier and sizes it 512 by 512 |
| FontSystem.FontPath | code/anker/graphics/anker_font_system.cpp:97 | the data loader is asked for the identifier followed by ".ttf" |
| FontSystem.LoadFontStatus | code/anker/graphics/anker_font_system.cpp:96-103 | `loadFont` is OK exactly when both the load and `loadFontFromTTF` succeed, and `ReadError` otherwise, whatever the failure was |
| Vertices.MakeQuad | code/anker/graphics/anker_vertex.cpp:21-31 | `makeQuad` gives six vertices, each taking its position from a world-space corner of `position` and its coordinate from the same plain corner of `uv`, in the order TL, BL, TR, TR, BL, BR |
| Vertices.QuadShape | code/anker/graphics/anker_vertex.cpp:21-31 | the two triangles share the TR-BL diagonal, and between them they use every corner |
| Vertices.QuadWinding | code/anker/graphics/anker_vertex.cpp:21-31 | for an axis-aligned rectangle both triangles have the same winding, and they are degenerate exactly when the rectangle is |
| Gizmos.Line | code/anker/graphics/anker_gizmo_renderer.cpp:45-49 | a line is two vertices, from `from` to `to`, both in the given colour |
| Gizmos.RectOutlineIsLoop | code/anker/graphics/anker_gizmo_renderer.cpp:58-64 | `addRect` adds four lines forming a closed loop through TL, TR, BR and BL, all in one colour |
| Gizmos.PointCrossCentred | code/anker/graphics/anker_gizmo_renderer.cpp:39-43 | `addPoint` adds a horizontal and a vertical line, each 0.1 long and both centred on the point |
| Gizmos.GridSteps | code/anker/graphics/anker_gizmo_renderer.cpp:68-71 | the loop `for (x = -size; x <= size; ++x)` makes ⌊2·size⌋ + 1 passes for a non-negative size, and none for a negative one |
| Gizmos.GridStepsCount | code/anker/graphics/anker_gizmo_renderer.cpp:68-71 | pass k runs exactly when k is below the number of passes |
| Gizmos.ColumnAt | code/anker/graphics/anker_gizmo_renderer.cpp:68-70 | vertical grid line k lies at x = -size + k and spans [-size, size] |
| Gizmos.RowAt | code/anker/graphics/anker_gizmo_renderer.cpp:71-73 | horizontal grid line k lies at y = -size + k and spans [-size, size] |
| Gizmos.GridOfWholeSize | code/anker/graphics/anker_gizmo_renderer.cpp:66-74 | a grid of whole-number size n has 2n + 1 lines each way |
| Gizmos.GizmoRenderer.constructor | code/anker/graphics/anker_gizmo_renderer.hpp:43-44 | both vertex lists start empty |
| Gizmos.GizmoRenderer.AddLine | code/anker/graphics/anker_gizmo_renderer.cpp:45-49 | appends the line's two vertices to the line list and leaves the triangle list alone; the colour defaults to white |
| Gizmos.GizmoRenderer.AddTriangle | code/anker/graphics/anker_gizmo_renderer.cpp:51-56 | appends the three vertices in order to the triangle list and leaves the line list alone; the colour defaults to white |
| Gizmos.GizmoRenderer.AddPoint | code/anker/graphics/anker_gizmo_renderer.cpp:39-43 | appends the point's cross to the line list |
| Gizmos.GizmoRenderer.AddRect | code/anker/graphics/anker_gizmo_renderer.cpp:58-64 | appends the rectangle's closed outline to the line list; the colour defaults to white |
| Gizmos.GizmoRenderer.AddGrid | code/anker/graphics/anker_gizmo_renderer.cpp:66-74 | appends all the vertical grid lines, then all the horizontal ones; the colour defaults to grey 0.2 with alpha 1 |
| Gizmos.GizmoRenderer.Draw | code/anker/graphics/anker_gizmo_renderer.cpp:76-97 | binds the shaders exactly when some list is non-empty, submits each list as it was, and leaves both lists empty |
| PhysicsDebugDraw.Edges | code/anker/physics/anker_physics_debug_draw.cpp:14-17 | the first m outline segments are 2m vertices |
| PhysicsDebugDraw.EdgeAt | code/anker/physics/anker_physics_debug_draw.cpp:14-17 | segment j runs from vertex j to the next vertex, and the last segment wraps back to vertex 0 |
| PhysicsDebugDraw.OutlineIsLoop | code/anker/physics/anker_physics_debug_draw.cpp:12-18 | the outline of n vertices is a closed loop of n segments, segment j running from vertex j to the next vertex, cyclically |
| PhysicsDebugDraw.Fan | code/anker/physics/anker_physics_debug_draw.cpp:25-27 | the fill fan has n - 2 triangles, and none for fewer than three vertices |
| PhysicsDebugDraw.TriangleAt | code/anker/physics/anker_physics_debug_draw.cpp:25-27 | triangle t of the first m is (vertex 0, vertex t + 1, vertex t + 2) |
| PhysicsDebugDraw.FanTriangles | code/anker/physics/anker_physics_debug_draw.cpp:25-27 | every triangle t of the fan is (vertex 0, vertex t + 1, vertex t + 2) |
| PhysicsDebugDraw.FillColor | code/anker/physics/anker_physics_debug_draw.cpp:24 | the fill colour is every component of the outline colour halved |
| PhysicsDebugDraw.DebugDraw.constructor | code/anker/physics/anker_physics_debug_draw.cpp:7-10 | the debug drawer draws into the gizmo renderer it was given |
| PhysicsDebugDraw.DebugDraw.DrawPolygon | code/anker/physics/anker_physics_debug_draw.cpp:12-18 | appends the polygon's closed outline to the line list and leaves the triangles alone |
| PhysicsDebugDraw.DebugDraw.DrawSolidPolygon | code/anker/physics/anker_physics_debug_draw.cpp:20-28 | appends the outline to the lines and the half-colour fan to the triangles |
| PhysicsDebugDraw.DebugDraw.DrawSegment | code/anker/physics/anker_physics_debug_draw.cpp:30-33 | appends one line from p1 to p2 |
| TextRenderer.PenIsSum | code/anker/graphics/anker_text_renderer.cpp:49-86 | glyph i is placed at the sum of the advances before it plus the kernings of every pair up to it, and the first glyph sits at the origin |
| TextRenderer.UnscaledFontIgnoresKerning | code/anker/graphics/anker_text_renderer.cpp:52-54 | with font scale 0, kerning adds nothing and glyphs are placed by advances alone |
| TextRenderer.Shifted | code/anker/graphics/anker_text_renderer.cpp:60-81 | moving a quad by the cursor offsets every position and keeps every texture coordinate |
| TextRenderer.GlyphQuad | code/anker/graphics/anker_text_renderer.cpp:56-83 | each glyph contributes six vertices |
| TextRenderer.Layout | code/anker/graphics/anker_text_renderer.cpp:49-86 | the first m glyphs contribute 6m vertices |
| TextRenderer.LayoutAt | code/anker/graphics/anker_text_renderer.cpp:56-83 | vertex 6i + k of the layout is vertex k of glyph i |
| TextRenderer.Draw | code/anker/graphics/anker_text_renderer.cpp:41-100 | `draw` submits six vertices per character; vertex k of character i is that glyph's quad at its pen position, with its position divided by 16 |
| TextRenderer.GlyphShape | code/anker/graphics/anker_text_renderer.cpp:56-83 | within a glyph the third and fourth vertices coincide, and so do the second and fifth; each vertex sits at the pen plus its corner of the visual rectangle, with its texture coordinate at the same corner of the texture rectangle |
| DataLoader.FirstWith | code/anker/core/anker_data_loader.hpp:23-25 | finds the first registered source that has the path, with no earlier source having it, or reports that no source has it |
| DataLoader.LaterSourcesIgnored | code/anker/core/anker_data_loader.hpp:23-25 | once some source answers for a path, sources registered later never change the answer |
| DataLoader.Erased | code/anker/core/anker_data_loader.cpp:34 | erasing never makes the list longer |
| DataLoader.ErasedCounts | code/anker/core/anker_data_loader.cpp:34 | `std::erase` removes every occurrence of the source and keeps every other source as often as it was registered |
| DataLoader.ErasedKeepsOrder | code/anker/core/anker_data_loader.cpp:34 | erasing works piece by piece, so the remaining sources keep their order |
| DataLoader.ModifiedUnion | code/anker/core/anker_data_loader.cpp:52-55 | a path is in the collected set exactly when some source reports it as modified |
| DataLoader.Source.constructor | code/anker/core/anker_data_loader.hpp:5-16 | a source answers with the given files and reports the given modified paths |
| DataLoader.Loader.constructor | code/anker/core/anker_data_loader.hpp:48-52 | a new loader has no sources, no modified files and a zero check time |
| DataLoader.Loader.Load | code/anker/core/anker_data_loader.cpp:5-14 | `load` gives the answer of the first source that has the path, or `ReadError` with the buffer untouched when none has it |
| DataLoader.Loader.Exists | code/anker/core/anker_data_loader.cpp:16-24 | `exists` holds exactly when some source has the path, that is when `load` would find a source |
| DataLoader.Loader.AddSource | code/anker/core/anker_data_loader.cpp:26-30 | the source is appended at the end of the list and nothing else changes |
| DataLoader.Loader.RemoveSource | code/anker/core/anker_data_loader.cpp:32-35 | the list becomes the old list with every occurrence of the source erased |
| DataLoader.Loader.ClearSources | code/anker/core/anker_data_loader.cpp:37-40 | the list becomes empty |
| DataLoader.Loader.Tick | code/anker/core/anker_data_loader.cpp:42-57 | the modified set is cleared; when more than one second has passed since the last query, the time is recorded and the set becomes the union of what the sources report |
| AssetCache.WithoutUnused | code/anker/core/anker_asset_cache.cpp:87-90 | `std::erase_if(cache, isUnused)` keeps exactly the entries whose use count is not 1, with their pointers unchanged |
| AssetCache.ClearUnusedProperties | code/anker/core/anker_asset_cache.cpp:85-91 | null entries and entries that someone else holds stay; entries held only by the cache go; clearing twice removes nothing more |
| AssetCache.ApartDisjoint | code/anker/core/anker_asset_cache.cpp:11-53 | caches that hold no pointer in common have disjoint pointer sets |
| AssetCache.SubCacheKeeps | code/anker/core/anker_asset_cache.cpp:87-90 | dropping entries keeps a cache's pointers unshared and adds no pointer |
| AssetCache.DroppingKeepsValid | code/anker/core/anker_asset_cache.cpp:85-91 | dropping entries from the three caches keeps every pointer held under one key of one cache |
| AssetCache.IdsStep | code/anker/core/anker_asset_cache.cpp:64-65 | handling one more modified path adds its identifier, with extensions stripped, to the identifiers handled |
| AssetCache.Asset.constructor | code/anker/core/anker_asset_cache.cpp:20-28 | `makeAssetPtr` gives a new asset that no one outside the cache holds |
| AssetCache.Asset.Release | code/anker/core/anker_asset.hpp:7 | destroying a copy of an `AssetPtr` (a `std::shared_ptr`) held outside the cache lowers the use count by one and keeps the asset |
| AssetCache.Cacher.constructor | code/anker/core/anker_asset_cache.cpp:7-9 | a new cache has three empty caches |
| AssetCache.Cacher.LoadVertexShaderUncached | code/anker/core/anker_asset_cache.cpp:20-28 | null exactly when the device cannot compile the shader; otherwise a fresh asset holding the code and its input layout |
| AssetCache.Cacher.LoadPixelShaderUncached | code/anker/core/anker_asset_cache.cpp:38-45 | null exactly when the device cannot compile the shader; otherwise a fresh asset holding it |
| AssetCache.Cacher.LoadTextureUncached | code/anker/core/anker_asset_cache.cpp:55-60 | always a fresh asset, holding the device's texture or the contents of a default texture when loading fails |
| AssetCache.Cacher.LoadVertexShader | code/anker/core/anker_asset_cache.cpp:11-18 | a hit returns the stored pointer; a miss stores the uncached result, null included, so a failed shader is not retried; the returned copy adds a holder to a non-null asset (one for a fresh asset), so `clearUnused` keeps it; no other asset, data or cache changes |
| AssetCache.Cacher.LoadPixelShader | code/anker/core/anker_asset_cache.cpp:30-36 | the same for the pixel shader cache, the returned copy again counted as a holder |
| AssetCache.Cacher.LoadTexture | code/anker/core/anker_asset_cache.cpp:47-53 | a hit returns the stored pointer; a miss stores a fresh texture that is never null; either way the caller's copy adds a holder, and nothing else changes |
| AssetCache.Cacher.ReloadModifiedAssets | code/anker/core/anker_asset_cache.cpp:62-83 | each modified path, with extensions stripped, overwrites in place the asset of the first cache holding that identifier (vertex shaders first, then pixel shaders, then textures); the keys and pointers of every cache and every outside holder are unchanged; corrected (see Findings): a null shader entry is skipped and a shader that no longer compiles keeps its old code, where the source dereferences null |
| AssetCache.Cacher.FailedReloadsKeep | code/anker/core/anker_asset_cache.cpp:67-76 | corrected: whatever has been reloaded, a shader the device can no longer compile keeps the data it had, where the source dereferences null |
| AssetCache.Cacher.ReloadOne | code/anker/core/anker_asset_cache.cpp:65-81 | one pass of the loop: the first cache that holds the identifier has its asset reloaded, and an identifier that no cache holds changes nothing; a null entry and a failed recompile are handled as in `ReloadModifiedAssets` |
| AssetCache.Cacher.UntrackedKeeps | code/anker/core/anker_asset_cache.cpp:64-82 | an identifier that no cache holds reloads nothing |
| AssetCache.Cacher.ReloadVertexShader | code/anker/core/anker_asset_cache.cpp:67-71 | the vertex shader is recompiled with the input layout it had, and the result is written into the shared asset; corrected: a null entry or a failed compile leaves the asset as it was, where line 69 dereferences null |
| AssetCache.Cacher.ReloadPixelShader | code/anker/core/anker_asset_cache.cpp:72-76 | the pixel shader is recompiled and written into the shared asset; corrected: a null entry or a failed compile leaves the asset as it was, where line 74 dereferences null |
| AssetCache.Cacher.ReloadTexture | code/anker/core/anker_asset_cache.cpp:77-81 | the texture is reloaded and written into the shared asset |
| AssetCache.Cacher.ClearUnused | code/anker/core/anker_asset_cache.cpp:85-91 | each cache loses exactly the entries that only it holds, and the caches stay valid |
| AssetCache.Cacher.ClearAll | code/anker/core/anker_asset_cache.cpp:93-98 | all three caches become empty |
| AssetCache.Cacher.ChangeFiles | code/anker/core/anker_asset_cache.cpp:64-65 | the files behind the device are edited between two reloads, as the data loader's modified paths report; the caches are untouched |
| AssetCache.FailedShaderBreaksReload | code/anker/core/anker_asset_cache.cpp:11-69 | as written: a vertex shader whose first compile fails is cached as null, so the reload at line 69 dereferences null for it |
| AssetCache.EditedShaderBreaksReload | code/anker/core/anker_asset_cache.cpp:30-74 | as written: a pixel shader that compiled when loaded and was then edited so that it no longer compiles makes the reload at line 74 dereference the null result |
| JsonReader.FirstIndex | code/anker/common/anker_serialize_json.hpp:106 | rapidjson's `FindMember` finds no position exactly when no member has the key; otherwise it finds the first member with that key |
| JsonReader.FindMember | code/anker/common/anker_serialize_json.hpp:106 | gives the value of the first member named by the key, or nothing exactly when no member has it |
| JsonReader.FollowsResolves | code/anker/common/anker_serialize_json.hpp:14-20 | the top of the value stack is the value that the followed path leads to from the document root |
| JsonReader.MissingStaysMissing | code/anker/common/anker_serialize_json.hpp:104-124 | once a step leads nowhere, the path leads nowhere however it continues |
| JsonReader.ReadEnum | code/anker/common/anker_serialize_json.hpp:61-66 | a named enumerator is read through its name table; an unknown name leaves the out-value as it was |
| JsonReader.ReadEnumInt | code/anker/common/anker_serialize_json.hpp:67-69 | an enumerator without a name table is read as its 32-bit integer value |
| JsonReader.EnumRoundTrip | code/anker/common/anker_serialize_json.hpp:61-66 | what `JsonWriter` writes for a named enumerator reads back as the same enumerator, whatever the out-value held |
| JsonReader.Reader.constructor | code/anker/common/anker_serialize_json.hpp:36-42 | the stack starts with only the document root |
| JsonReader.Reader.ArrayLength | code/anker/common/anker_serialize_json.hpp:153 | `arrayLength()` is the number of elements of the current array |
| JsonReader.Reader.PushKey | code/anker/common/anker_serialize_json.hpp:104-112 | true exactly when the current object has the key, and then the first member's value is pushed; otherwise nothing changes |
| JsonReader.Reader.Pop | code/anker/common/anker_serialize_json.hpp:113-125 | `popKey` and `popIndex` drop the top of the stack |
| JsonReader.Reader.PushIndex | code/anker/common/anker_serialize_json.hpp:116-124 | true exactly when the index is within the current array, and then that element is pushed; otherwise nothing changes |
| JsonReader.Reader.Field | code/anker/common/anker_serialize_json.hpp:128-138 | true exactly when the key exists; the out-value becomes the read of the key's value, and stays untouched otherwise; the stack is left as it was |
| JsonReader.Reader.ArrayElement | code/anker/common/anker_serialize_json.hpp:140-151 | the same, for an array element |
| JsonReader.Reader.ForEachElement | code/anker/common/anker_serialize_json.hpp:166-175 | the callback runs once per element, in index order, with that element current, and the stack is restored afterwards |
| JsonReader.Reader.ForEachMember | code/anker/common/anker_serialize_json.hpp:155-164 | the callback runs once per member, in document order, with that member's value current, and the stack is restored afterwards |
| JsonReader.Reader.ForEachElementAtKey | code/anker/common/anker_serialize_json.hpp:177-189 | false with no call when the key is missing; otherwise the callback runs once per element of the array at the key |
| JsonReader.Reader.ForEachMemberAtKey | code/anker/common/anker_serialize_json.hpp:177-189 | the same, for an object at the key |
| JsonReader.Reader.ForEachElementAtIndex | code/anker/common/anker_serialize_json.hpp:191-203 | false with no call when the index is out of range; otherwise the callback runs once per element of the array at that position |
| JsonReader.Reader.ForEachMemberAtIndex | code/anker/common/anker_serialize_json.hpp:191-203 | the same, for an object at that position |
| MapTiles.Gid | code/anker/game/anker_map.cpp:316 | `tile & ~FlipMask` is the low 29 bits of the tile number |
| MapTiles.DecodeEncode | code/anker/game/anker_map.cpp:18-26 | decoding a tile number written for a global id and flip flags gives back that id and those flags |
| MapTiles.EncodeDecode | code/anker/game/anker_map.cpp:18-26 | every 32-bit tile number is the encoding of its decoded id and flags |
| MapTiles.UvCornersMeaning | code/anker/game/anker_map.cpp:325-340 | the three swaps amount to transposing first, then mirroring horizontally, then mirroring vertically; with no flag set, each corner keeps its own texture corner |
| MapTiles.UvCornersPermute | code/anker/game/anker_map.cpp:325-340 | under every combination of flags, distinct vertex corners get distinct texture corners |
| MapTiles.HorizontalDiagonalRotates | code/anker/game/anker_map.cpp:334-340 | the horizontal and diagonal flags together give each corner the texture of the next corner clockwise |
| MapTiles.GridBound | code/anker/game/anker_map.cpp:92-94 | an index below `columns * rows` has a positive column count and a row below `rows` |
| MapTiles.TexCell | code/anker/game/anker_map.cpp:87-100 | `textureCoordinates(gid)` picks a cell inside the tileset's grid |
| MapTiles.TexCellMeaning | code/anker/game/anker_map.cpp:89-94 | the cell is `index % columns`, `index / columns` for `index = gid - firstTileId`, read row by row |
| MapTiles.TexCellInjective | code/anker/game/anker_map.cpp:89-94 | distinct ids of one tileset lie in distinct cells |
| MapTiles.TilesetRows | code/anker/game/anker_map.cpp:163 | `tileCount.y = tilecount / columns` is the number of whole rows |
| MapTiles.TilesetCoversFullRows | code/anker/game/anker_map.cpp:163 | every id within the whole rows lies inside the grid |
| MapTiles.FindTilesetIndex | code/anker/game/anker_map.cpp:545-549 | `findTilesetIndex` gives the first tileset whose first id does not exceed the id, or the end position when there is none |
| MapTiles.FindInSorted | code/anker/game/anker_map.cpp:545-549 | in the sorted list the lookup finds the tileset with the greatest first id not above the id; it gives the end position exactly when the id is below every first id |
| MapTiles.InsertPermutes | code/anker/game/anker_map.cpp:138 | inserting one tileset adds exactly that tileset |
| MapTiles.InsertSorted | code/anker/game/anker_map.cpp:138 | inserting a tileset with a new first id into a strictly descending list keeps it strictly descending |
| MapTiles.SortTilesetsPermutes | code/anker/game/anker_map.cpp:138 | the sort only reorders |
| MapTiles.PermutationMember | code/anker/game/anker_map.cpp:138 | an element of a reordering is an element of the original |
| MapTiles.SortTilesetsSorted | code/anker/game/anker_map.cpp:136-138 | with distinct first ids the sort gives strictly descending first ids |
| MapTiles.SortTilesetsCorrect | code/anker/game/anker_map.cpp:136-138 | with distinct first ids, which the non-strict comparator needs, the result is a permutation in strictly descending order of first ids |
| MapTiles.Cell | code/anker/game/anker_map.cpp:322 | a tile's grid cell has a column below the width and a row offset of -1 or below |
| MapTiles.CellMeaning | code/anker/game/anker_map.cpp:322 | tile i sits in column `i % width` and row `i / width`, offset one unit down because y grows upwards |
| MapTiles.TileQuad | code/anker/game/anker_map.cpp:315-351 | a non-empty tile gives six vertices, all belonging to its tileset |
| MapTiles.Place | code/anker/game/anker_map.cpp:310-351 | an empty tile is skipped, and any other tile goes into the bucket of its tileset |
| MapTiles.Placements | code/anker/game/anker_map.cpp:310-352 | every tile of the layer is placed as `Place` says, and a tile is skipped exactly when it is empty |
| MapTiles.PlacementsWellPlaced | code/anker/game/anker_map.cpp:310-352 | every placed quad has six vertices naming its bucket, and every bucket is one of the tilesets |
| MapTiles.BucketStepOwn | code/anker/game/anker_map.cpp:342-351 | a placed quad is appended to its own bucket |
| MapTiles.BucketStepOther | code/anker/game/anker_map.cpp:310-351 | a skipped tile or a quad for another bucket leaves a bucket as it is |
| MapTiles.SkipStep | code/anker/game/anker_map.cpp:311-313 | an empty tile leaves every bucket as it is |
| MapTiles.PlaceStep | code/anker/game/anker_map.cpp:342-351 | a non-empty tile appends its quad to the bucket of its tileset, and the other buckets stay as they are |
| MapTiles.LoadTileLayerVertices | code/anker/game/anker_map.cpp:307-353 | every bucket grows by exactly the quads of the non-empty tiles of its tileset, in tile order |
| MapTiles.BucketShape | code/anker/game/anker_map.cpp:342-351 | a bucket holds six vertices per tile placed in it, all naming that bucket |
| MapTiles.SumCountsStep | code/anker/game/anker_map.cpp:310-352 | one more tile raises the total over the first m buckets by one exactly when it is placed in one of them |
| MapTiles.SumCountsZero | code/anker/game/anker_map.cpp:310-352 | before any tile, every bucket count is 0 |
| MapTiles.EveryPlacementCountedOnce | code/anker/game/anker_map.cpp:310-352 | when every bucket is below m, each placement is counted in exactly one of the first m buckets |
| MapTiles.PlacedNonEmpty | code/anker/game/anker_map.cpp:311-313 | the placed tiles are exactly the non-empty ones |
| MapTiles.BucketsPartitionTiles | code/anker/game/anker_map.cpp:307-353 | the buckets partition the non-empty tiles: bucket b holds six vertices, all naming tileset b, per tile of that tileset, and the counts add up to the number of non-empty tiles |
| MapTiles.TileQuadShape | code/anker/game/anker_map.cpp:322-351 | vertex i of a tile is corner i of TL, BL, TR, TR, BL, BR of its grid cell, with the texture corner its flags choose in its tileset cell; the two triangles share the TR-BL diagonal |
| MapTiles.TileLayerStatusAsWritten | code/anker/game/anker_map.cpp:249-276 | as written, a layer passes exactly when it is uncompressed base64 with data whose word count equals `width * height` modulo 2^32; otherwise it is a `FormatError` |
| MapTiles.WrappedDimensionsAccepted | code/anker/game/anker_map.cpp:265-276 | a 65536 by 65536 layer with no tile data passes the length check |
| MapTiles.TileLayerStatus | code/anker/game/anker_map.cpp:249-276 | with the exact product, a layer passes exactly when it is uncompressed base64 with data of `width * height` words; otherwise it is a `FormatError` |
| MapTiles.TileLayerStatusMeaning | code/anker/game/anker_map.cpp:265-279 | an accepted layer with tiles has a positive width and every tile in a row below the height; the two checks agree whenever the product fits in 32 bits |
| MapLoader.ReplaceFilename | code/anker/game/anker_map.cpp:128 | `replace_filename` keeps the path up to and including its last '/' and appends the new name; a path without '/' becomes the name |
| MapLoader.FoldColorSplit | code/anker/game/anker_map.cpp:558-561 | folding a concatenated colour stack folds the second part from the product of the first |
| MapLoader.FoldParallaxSplit | code/anker/game/anker_map.cpp:563-566 | folding a concatenated parallax stack folds the second part from the product of the first |
| MapLoader.ColorProductPush | code/anker/game/anker_map.cpp:558-561 | pushing a colour multiplies the stack's product by it componentwise; the empty stack gives `Vec4(1)` |
| MapLoader.ParallaxProductPush | code/anker/game/anker_map.cpp:563-566 | pushing a parallax multiplies the stack's product by it componentwise; the empty stack gives `Vec2(1)` |
| MapLoader.LayerColor | code/anker/game/anker_map.cpp:207-213 | the pushed colour's alpha is "opacity" (1 when absent); without "tintcolor" the colour is white with that alpha; the tint is read with hexadecimal digit values, the corrected `colorFromHtml` (see Left out) |
| MapLoader.LayerColorAsWritten | code/anker/game/anker_map.cpp:207-213 | as written, through `colorFromHtml` with digit values `c - '0'`: the alpha is "opacity" (1 when absent), and without "tintcolor" the colour is white |
| MapLoader.LayerColorAgreement | code/anker/game/anker_map.cpp:207-213 | the corrected and the as-written layer colours agree without a tint and on a tint of six decimal digits |
| MapLoader.LayerColorsPartOnLetters | code/anker/game/anker_map.cpp:207-213 | on the tint "#ff0000" the corrected layer colour has red 1 and the as-written one 918/255 |
| MapLoader.LayerName | code/anker/game/anker_map.cpp:191-195 | a layer's node name is never empty; it is "name" when that is present and non-empty, "Map Layer" otherwise |
| MapLoader.ConvertCoordinates | code/anker/game/anker_map.cpp:551-556 | the offset times the tile size gives back the pixel offset, with y negated |
| MapLoader.TilesetResult | code/anker/game/anker_map.cpp:116-169 | an entry yields a tileset exactly when its status is `Ok`, and that tileset has the entry's "firstgid"; an entry without "source" or "firstgid" is a `FormatError`; a tileset file nobody holds is a `ReadError` |
| MapLoader.Outcomes | code/anker/game/anker_map.cpp:116-134 | one outcome per "tilesets" entry, each that entry's own |
| MapLoader.CollectStep | code/anker/game/anker_map.cpp:113-134 | one more entry extends the loop by one iteration: skipped after a failure, otherwise its status replaces the loop's and its tileset is appended |
| MapLoader.CollectOk | code/anker/game/anker_map.cpp:113-134 | the loop succeeds iff every entry does, and then holds every entry's tileset, in order |
| MapLoader.CollectFailure | code/anker/game/anker_map.cpp:113-115 | a failing loop reports the status of its first failing entry |
| MapLoader.TilesetsResultMeaning | code/anker/game/anker_map.cpp:108-169 | the tileset loop succeeds iff every entry does; then it reads one tileset per entry, in order, with that entry's first id; otherwise its status is that of the first failing entry |
| MapLoader.TileLayerPartsGrow | code/anker/game/anker_map.cpp:289-302 | considering more tilesets never gives fewer parts |
| MapLoader.TileLayerPartsMeaning | code/anker/game/anker_map.cpp:289-302 | each part pairs a non-empty bucket with the texture of its tileset, and there are at most as many parts as tilesets |
| MapLoader.TileLayerResult | code/anker/game/anker_map.cpp:244-305 | a tile layer creates at most one `TileLayer`, and a layer failing the format checks is a `FormatError` that creates none; the word count is checked against the exact `width * height`, which agrees with the code's 32-bit product below 2^32 (see Left out) |
| MapLoader.LayersResultAppend | code/anker/game/anker_map.cpp:173-240 | walking two arrays one after another walks the second only when the first succeeds, and creates the tile layers of both in order |
| MapLoader.LayerResultCases | code/anker/game/anker_map.cpp:184-236 | a layer without "type" or of an unknown type is a `FormatError` creating nothing; an "objectgroup" succeeds creating nothing; a "group" walks its children with its own colour and parallax pushed |
| MapLoader.TileLayerInheritsStacks | code/anker/game/anker_map.cpp:207-286 | a tile layer's colour is the product of its ancestors' colours times its own, likewise its parallax, and its name is "name"; each layer's own colour is the corrected `LayerColor` (see Left out) |
| MapLoader.LoadedMapTilesets | code/anker/game/anker_map.cpp:108-141 | a map that loads is a readable document of type "map" with one tileset per entry, sorted by strictly descending first id, every entry's "firstgid" among them; this holds of the corrected load, which stops at a failing tileset entry (see Left out) |
| MapLoader.MissingFirstGidFails | code/anker/game/anker_map.cpp:119-140 | the tileset loop reports an entry without "firstgid" as a `FormatError`, the status the source then drops |
| MapLoader.MapResultsAgree | code/anker/game/anker_map.cpp:47-77 | the load as written and the corrected load read the same tilesets and give the same result whenever the corrected load succeeds or the tileset loop succeeds |
| MapLoader.AsWrittenLoadIgnoresTilesetFailure | code/anker/game/anker_map.cpp:73-140 | a map whose only tileset entry has no "firstgid": as written it loads `Ok` with no tileset, while the corrected load reports `FormatError` |
| MapLoader.TmjLoader.constructor | code/anker/game/anker_map.cpp:36-38 | a new loader has one "Map" scene node, which is the layer node, a tile size of 256 and empty stacks, tilesets and tile layers |
| MapLoader.TmjLoader.ReadTilesetEntries | code/anker/game/anker_map.cpp:113-134 | the `forEach("tilesets")` loop gives the status and the tilesets of `TilesetsResult` |
| MapLoader.TmjLoader.ReadTilesets | code/anker/game/anker_map.cpp:108-139 | the loop's tilesets are added and the list sorted: a permutation of the old and new tilesets in strictly descending order of first id; nothing else changes |
| MapLoader.TmjLoader.LoadTilesetsAsWritten | code/anker/game/anker_map.cpp:108-141 | as written, the status is `Ok` whatever the loop reported, with the tilesets read before the failure kept |
| MapLoader.TmjLoader.LoadTilesets | code/anker/game/anker_map.cpp:108-139 | with the loop's status returned, the status is that of the first failing entry or `Ok`, and the tilesets are as `ReadTilesets` leaves them |
| MapLoader.TmjLoader.LoadTileLayer | code/anker/game/anker_map.cpp:244-305 | the status and appended tile layer are those of `TileLayerResult` with the current stack products; scene nodes are only appended; stacks, tilesets and the layer node are unchanged; the word count is checked against the exact product, not the code's 32-bit one (see Left out) |
| MapLoader.TmjLoader.EnterLayer | code/anker/game/anker_map.cpp:191-219 | a scene node named by `LayerName` with the converted offset is appended under the layer node and becomes the layer node; the layer's colour and parallax are pushed; the colour pushed is the corrected `LayerColor` (see Left out) |
| MapLoader.TmjLoader.ExitLayer | code/anker/game/anker_map.cpp:202-205 | the colour and parallax are popped and the saved layer node is restored |
| MapLoader.TmjLoader.LoadLayer | code/anker/game/anker_map.cpp:182-237 | one layer's status and tile layers are those of `LayerResult`, and the stacks and layer node are as before; through `LayerResult` it uses the corrected tint and word-count checks (see Left out) |
| MapLoader.TmjLoader.LoadLayers | code/anker/game/anker_map.cpp:173-240 | the walk's status and tile layers are those of `LayersResult`: it stops at the first failing layer; through `LayersResult` it uses the corrected tint and word-count checks (see Left out) |
| MapLoader.TmjLoader.Load | code/anker/game/anker_map.cpp:47-77 | on a fresh loader, the status and tile layers are those of `MapResult`; once the document is a readable map with a square tile size, the tilesets are the sorted ones; the stacks end empty; `loadTilesets` returns its loop's status, the corrected `LoadTilesets`, and the tint and word-count checks are the corrected ones (see Left out) |
| SceneForest.NoLoop | code/anker/core/anker_scene_node.hpp:10-11 | in an acyclic forest no node is its own proper ancestor |
| SceneForest.NotOwnParent | code/anker/core/anker_scene_node.hpp:10-11 | in an acyclic forest no node is its own parent |
| SceneForest.AncestorUnfold | code/anker/core/anker_scene_node.cpp:38-43 | one step of the walk: `a` is a proper ancestor of `n` iff it is `n`'s parent or an ancestor of that parent |
| SceneForest.OnWalkUnfold | code/anker/core/anker_scene_node.cpp:38-43 | the walk from `n` visits `a != n` iff the walk from `n`'s parent does |
| SceneForest.RelinkAcyclic | code/anker/core/anker_scene_node.cpp:38-59 | giving a node a new parent whose walk does not pass the node keeps every walk finite |
| SceneForest.Erase | code/anker/core/anker_scene_node.cpp:47-48 | erasing the first occurrence shortens a list holding `x` by one and leaves a list without `x` as it is |
| SceneForest.EraseMembers | code/anker/core/anker_scene_node.cpp:47-48 | on a list without duplicates, erasing removes exactly `x` and keeps it free of duplicates |
| SceneForest.EraseAppend | code/anker/core/anker_scene_node.cpp:47-48 | erasing an element of the front part of a list leaves the back part alone |
| SceneForest.DetachMembers | code/anker/core/anker_scene_node.cpp:45-52 | after a node leaves its parent's list, every list holds what it held before except that node, without duplicates |
| SceneForest.MoveLinked | code/anker/core/anker_scene_node.cpp:45-59 | moving a node under another keeps every parent listing its children once and every listed child naming its parent |
| SceneForest.DescendantLift | code/anker/core/anker_scene_node.cpp:38-43 | when the new parent is below the node, the node's own parent is neither the new parent, nor its parent, nor below it |
| SceneForest.LiftedNotBelow | code/anker/core/anker_scene_node.cpp:38-43 | once the descendant has been moved up to the node's old parent, the node is no longer on its walk |
| SceneForest.SetParentKeeps | code/anker/core/anker_scene_node.cpp:28-59 | `setParent` to any other node or to none keeps the links consistent and acyclic and the set of nodes unchanged |
| SceneForest.SetParentEffect | code/anker/core/anker_scene_node.cpp:28-59 | after `setParent(p)` the parent is `p`; nothing changes when `p` was the parent; otherwise the node is appended to `p`'s list and erased from its old parent's, which also receives `p` when `p` was a descendant; no other parent link changes except that descendant's |
| SceneForest.SetParentWithin | code/anker/core/anker_scene_node.cpp:28-59 | `setParent` changes parent links only inside the node's old subtree |
| SceneForest.SetParentLiftsDescendant | code/anker/core/anker_scene_node.cpp:36-43 | re-parenting under a descendant gives that descendant the node's old parent and puts the node below it, no longer above it |
| SceneForest.SetParentSplit | code/anker/core/anker_scene_node.cpp:36-59 | `setParent` is a plain move, preceded by a plain move of the descendant to the node's old parent when the new parent lay below the node |
| SceneForest.ChildrenDescMember | code/anker/core/anker_scene_node.hpp:74-79 | a node lies in the subtrees below a list of children iff it lies below one of them |
| SceneForest.ChildrenDescSnoc | code/anker/core/anker_scene_node.hpp:74-79 | one more child adds that child's subtree |
| SceneForest.DescSubset | code/anker/core/anker_scene_node.hpp:68-79 | the subtree of a node on or below `x` lies inside `x`'s |
| SceneForest.ChildDescSmaller | code/anker/core/anker_scene_node.hpp:68-79 | a child's subtree is strictly smaller than its parent's, the measure on which invalidation recurses |
| SceneForest.BelowChild | code/anker/core/anker_scene_node.hpp:74-79 | every proper descendant lies below one of the children |
| SceneForest.ChildrenDescInside | code/anker/core/anker_scene_node.hpp:74-79 | the subtrees below a node's children lie inside its subtree and do not contain it |
| SceneForest.DescInsideChildren | code/anker/core/anker_scene_node.hpp:74-79 | every proper descendant of a node lies below one of its children |
| SceneForest.DescSplit | code/anker/core/anker_scene_node.hpp:68-79 | a subtree is its root plus the subtrees of its children |
| SceneForest.DescBelow | code/anker/core/anker_scene_node.hpp:74-79 | the proper descendants are exactly the subtrees below the children |
| SceneForest.NextChild | code/anker/core/anker_scene_node.hpp:74-79 | the i-th child is a node with a smaller subtree that extends the subtrees of the children before it |
| SceneForest.ChildInChildrenDesc | code/anker/core/anker_scene_node.hpp:74-79 | every node whose parent is `n` lies in the subtrees below `n`'s children |
| SceneForest.GrandparentNotBelow | code/anker/core/anker_scene_node.cpp:21-23 | a child's grandparent is not below the child, so forwarding it to its grandparent moves nothing else first |
| SceneForest.ForwardingStart | code/anker/core/anker_scene_node.cpp:21 | before the destructor's loop nothing has been forwarded |
| SceneForest.ForwardingFacts | code/anker/core/anker_scene_node.cpp:21-23 | during the loop the node keeps its parent, its list holds the children not yet forwarded, and the next child still names it |
| SceneForest.ForwardIsMove | code/anker/core/anker_scene_node.cpp:21-23 | handing a child to the node's parent is a plain move |
| SceneForest.ForwardMove | code/anker/core/anker_scene_node.cpp:21-23 | one more loop step moves exactly the next child to the back of the parent's list |
| SceneForest.ForwardStep | code/anker/core/anker_scene_node.cpp:21-23 | one more loop step is exactly `child->setParent(m_parent)` |
| SceneForest.ForwardingKeeps | code/anker/core/anker_scene_node.cpp:17-23 | the destructor's loop keeps the links consistent and acyclic |
| SceneForest.ForwardedAll | code/anker/core/anker_scene_node.cpp:21-23 | after the loop the node keeps its parent and has no children |
| SceneForest.FinishParents | code/anker/core/anker_scene_node.cpp:21-25 | the parent links after the loop, `clearParent()` and removal are those of `Destroyed` |
| SceneForest.FinishChildren | code/anker/core/anker_scene_node.cpp:21-25 | the child lists after the loop, `clearParent()` and removal are those of `Destroyed` |
| SceneForest.DestroyFinish | code/anker/core/anker_scene_node.cpp:17-26 | the loop, `clearParent()` and removal give `Destroyed`: the children appended in order to the parent's list and naming it, the node gone from its parent's list and from the arena |
| SceneForest.DestroyedKeeps | code/anker/core/anker_scene_node.cpp:17-26 | the destructor keeps the links consistent and acyclic |
| SceneForest.RemoveDetached | code/anker/core/anker_scene_node.cpp:25-26 | dropping a node without parent or children keeps the links consistent and acyclic |
| SceneForest.AddRootKeeps | code/anker/core/anker_scene_node.cpp:7-10 | a fresh childless root keeps the links consistent and acyclic |
| SceneForest.FreshNotAncestor | code/anker/core/anker_scene_node.cpp:12-15 | no walk from an old node meets a fresh node |
| SceneForest.NewLeafSetParent | code/anker/core/anker_scene_node.cpp:12-15 | a fresh node given a parent becomes that parent's last child, and no other link changes |
| SceneForest.ClearParentFacts | code/anker/core/anker_scene_node.hpp:49 | `clearParent()` makes the node a root and leaves its own children alone |
| SceneForest.LeafDesc | code/anker/core/anker_scene_node.hpp:74-79 | a childless node is its own whole subtree |
| SceneForest.SelfParentMakesLoop | code/anker/core/anker_scene_node.cpp:28-59 | `setParent(this)` as written makes the node its own parent, so the forest is no longer acyclic |
| SceneForest.SelfLoopNotRooted | code/anker/core/anker_scene_node.cpp:87 | the walk up from a node that is its own parent never reaches a root |
| SceneForest.SelfLoopAvoids | code/anker/core/anker_scene_node.cpp:87 | the walk up from a node that is its own parent never meets another node |
| SceneForest.SelfParentWalkNeverEnds | code/anker/core/anker_scene_node.cpp:86-92 | after `setParent(this)` as written, the loop check at any child of the node neither reaches a root nor returns to the child, so it never ends |
| SceneForest.SetParentWalksEnd | code/anker/core/anker_scene_node.cpp:28-95 | after `setParent` with a new parent other than the node, the walk from every node ends at a root and `validateParentChildLink` passes |
| SceneForest.ValidLinkHolds | code/anker/core/anker_scene_node.cpp:61-95 | in a consistent acyclic forest `validateParentChildLink` holds at every node, so the check in `setParent` never fires |
| SceneForest.LinkHoldsIffNoLoop | code/anker/core/anker_scene_node.cpp:68-95 | in a consistent forest the check holds at a node exactly when the node is on no loop |
| SceneForest.LinkedLocal | code/anker/core/anker_scene_node.cpp:70-84 | in a consistent forest the parent lists the node and every child names it |
| SceneNodes.ClearedCoherent | code/anker/core/anker_scene_node.hpp:68-79 | clearing caches keeps every cache valid, clears exactly the named ones and keeps the others |
| SceneNodes.ClearedTwice | code/anker/core/anker_scene_node.hpp:68-79 | clearing two sets one after the other is clearing their union |
| SceneNodes.ClearedSplit | code/anker/core/anker_scene_node.hpp:68-72 | clearing a node and then the rest of a set is clearing the set |
| SceneNodes.ClearedAbsorb | code/anker/core/anker_scene_node.cpp:34-43 | clearing a subset of what was cleared changes nothing |
| SceneNodes.ClearedIdle | code/anker/core/anker_scene_node.hpp:68-79 | clearing empty caches changes nothing |
| SceneNodes.RelinkCoherent | code/anker/core/anker_scene_node.cpp:34-59 | changing parent links keeps caches valid once every node whose parent changed is cleared |
| SceneNodes.LocalCoherent | code/anker/core/anker_scene_node.hpp:28-32 | changing a local transform keeps caches valid once its children's caches are cleared |
| SceneNodes.RemoveCoherent | code/anker/core/anker_scene_node.cpp:25-26 | removing a node that is nobody's parent keeps the other caches valid |
| SceneNodes.ClearInv | code/anker/core/anker_scene_node.hpp:68-79 | clearing any caches keeps the arena invariant |
| SceneNodes.FillInv | code/anker/core/anker_scene_node.hpp:34-40 | filling a cache with the parent's local transform keeps the arena invariant |
| SceneNodes.LocalInv | code/anker/core/anker_scene_node.hpp:28-32 | `setLocalTransform` with the caches below the node cleared keeps the arena invariant |
| SceneNodes.AddRootInv | code/anker/core/anker_scene_node.cpp:7-10 | a fresh root with the next id, default transform and empty cache keeps the arena invariant |
| SceneNodes.SetParentInv | code/anker/core/anker_scene_node.cpp:28-59 | `setParent` with the caches of the node's old subtree cleared keeps the arena invariant |
| SceneNodes.RemoveInv | code/anker/core/anker_scene_node.cpp:25-26 | dropping a childless root keeps the arena invariant |
| SceneNodes.SceneGraph.constructor | code/anker/core/anker_scene_node.hpp:81-87 | an empty arena satisfies the invariant |
| SceneNodes.SceneGraph.InvalidateCachedParentTransform | code/anker/core/anker_scene_node.hpp:68-72 | the caches of the node and of its whole subtree are cleared, and nothing else changes |
| SceneNodes.SceneGraph.InvalidateCachedParentTransformInChildren | code/anker/core/anker_scene_node.hpp:74-79 | the caches strictly below the node are cleared, child by child, and nothing else changes |
| SceneNodes.SceneGraph.SetLocalTransform | code/anker/core/anker_scene_node.hpp:28-32 | the caches strictly below the node are cleared and the node takes the new local transform; links unchanged |
| SceneNodes.SceneGraph.ParentTransform | code/anker/core/anker_scene_node.hpp:34-40 | the result is the parent's local transform, or the identity for a root, and the node's cache then holds it |
| SceneNodes.SceneGraph.OnAncestorWalk | code/anker/core/anker_scene_node.cpp:38-43 | the walk reports `true` exactly when `target` is on the walk from `start` |
| SceneNodes.SceneGraph.SetParent | code/anker/core/anker_scene_node.cpp:28-59 | the links become `SetParentState`, the node's parent is `p`, the caches of its old subtree are cleared unless `p` already was the parent, and the invariant holds |
| SceneNodes.SceneGraph.Relink | code/anker/core/anker_scene_node.cpp:45-59 | the links become `Move`: the node leaves its old parent's list, takes `p`, and is appended to `p`'s list |
| SceneNodes.SceneGraph.ClearParent | code/anker/core/anker_scene_node.hpp:49 | the node becomes a root, keeps its children, and the invariant holds; a node that had a parent has the caches of its subtree cleared, and a root keeps every cache |
| SceneNodes.SceneGraph.AddChild | code/anker/core/anker_scene_node.hpp:57 | the child moves under the node as `setParent` says and is listed by it; the caches of its subtree are cleared unless it was already a child of the node |
| SceneNodes.SceneGraph.RemoveChild | code/anker/core/anker_scene_node.hpp:58-63 | a child of the node becomes a root with the caches of its subtree cleared; any other node leaves links and caches as they were; afterwards the node is not its parent |
| SceneNodes.SceneGraph.AddNode | code/anker/core/anker_scene_node.cpp:7-10 | a fresh root without children or cache and with the given local transform is added |
| SceneNodes.SceneGraph.NewRoot | code/anker/core/anker_scene_node.hpp:81-87 | a node with the default members is added under the next id |
| SceneNodes.SceneGraph.AddNodeWithParent | code/anker/core/anker_scene_node.cpp:12-15 | a fresh node with the given transform becomes the last child of `p` |
| SceneNodes.SceneGraph.Destroy | code/anker/core/anker_scene_node.cpp:17-26 | the links become `Destroyed`: the children, in order, handed to the node's parent, and the node removed; the invariant holds |
| SceneNodes.SceneGraph.Forget | code/anker/core/anker_scene_node.cpp:17-26 | the node's storage leaves the arena |
| SceneNodes.SceneGraph.ValidateParentChildLink | code/anker/core/anker_scene_node.cpp:68-95 | the result is `true` exactly when the parent lists the node, every child names it and the walk up does not return to it |

## Left out

- The Direct3D 11 calls are not modelled: buffer, shader and texture creation and the draw calls at the ends of gizmo and text `draw`. These are foreign graphics API calls. `GizmoRenderer.Draw` only empties the lists, and the device's status is an input wherever the source returns it.
- The filesystem, the platform input layer and the clock are parameters. This covers `Platform::inputValue`, the data sources' `exists`/`load`/`modifiedFiles`, and the time given to `DataLoader::tick`. They are I/O.
- The JSON parser (rapidjson) and base64 decoding are not modelled. Documents are given as a JSON value datatype or as the field values the loader reads, and tile data as its decoded 32-bit words. These are external libraries.
- `addMapToScene` and `loadMap` (code/anker/game/anker_map.cpp:587-618) are not modelled. They create scenes and cameras through the engine. Neither is the map's object, collision and entity layer content beyond reporting `Ok`. Those are entt registry calls.
- Scene nodes created by `TmjLoader` are recorded as entries (name, parent index, offset) and are not modelled as `SceneNode` components. The entity created for each tile layer is not modelled.
- The tileset's `Rect2` arithmetic and the quad positions are modelled symbolically, as a grid cell, a texture cell and a corner name. The `Rect2` type is not part of this model, and neither are the float sizes it is built from.
- `globalTransform` and `setGlobalTransform` (code/anker/core/anker_scene_node.hpp:42-46) are not modelled. They use `Transform2D` multiplication and `inverse`, which are not part of this model. The transform itself is a value with no operations.
- `linkSceneNodeWithEntity`, `registerSceneNodeCallbacks`, `unregisterSceneNodeCallbacks` and `serialize` (code/anker/core/anker_scene_node.cpp:97-124) are not modelled. They are entt callbacks and an ImGui widget.
- The `ANKER_ERROR` and `ANKER_CHECK` log messages are not modelled; only their early returns are.
- `SceneNodes.SceneGraph.ValidateParentChildLink` requires that the loop walk ends. On a parent loop that does not pass through the node, the source's walk never terminates; `setParent(this)` creates such a loop for every child of the node (see Findings).
- `SceneNodes.SceneGraph.SetParent` and `SceneNodes.SceneGraph.AddChild` require the new parent to differ from the node. `setParent(this)` is not rejected by the source; see Findings.
- `SceneNodes.SceneGraph.Destroy` states the new links and local transforms but only the key set of the caches. Which caches of the forwarded children end up cleared is not stated.
- `Status::fromString` (code/anker/common/anker_status.hpp:66) is not modelled. It calls an overload that is not part of this model. The macro-generated `from_string` is modelled instead.
- Entity names are compared as strings, not as `entt::hashed_string` values, and component ids are distinct constants, not `entt::type_hash` values. Hash collisions are not modelled.
- `radialDeadzone`, `isMouseInput`, the `Actions` aggregate and `playerMove` are not modelled. They need `sqrt` and `clampLength`, which are not part of this model.
- `Actions.Action.Tick` takes the input values as functions. The caller that passes a value as a second argument, `tick(dt, value)`, does not match the declaration at code/anker/core/anker_actions.hpp:39 (`void tick(float dt)`), so the declaration is followed.
- Part of `anker_asset_cache.hpp` is not modelled: the font and audio caches and their load functions. The `.cpp` does not implement them, so the `.cpp` is followed.
- The DrawCircle, DrawSolidCircle, DrawTransform and DrawPoint callbacks of the physics debug draw are not modelled. Their bodies are empty.
- The glyph-data transform of `loadFontFromTTF` is not modelled: the packed-char and texture setup of code/anker/graphics/anker_font_system.cpp:40-68. These are stb_truetype calls; `FontSystem.LoadFontFromTTF` keeps only their statuses.
- `fs::path::relative` and path normalisation are not modelled. `MapLoader.ReplaceFilename` is plain string work on '/'.
- `MapTiles.SortTilesetsCorrect` and `MapLoader.MapPreconditions` require distinct "firstgid" values. The source's `>=` comparator is not a strict weak ordering otherwise.
- `MapLoader.MapPreconditions` requires `ColumnsNonZero`, which excludes a tileset document with "columns": 0. So do `MapLoader.TilesetResult`, `MapLoader.Outcomes`, `MapLoader.TilesetsResult`, `MapLoader.TilesetsResultMeaning` and `MapLoader.TmjLoader.ReadTilesetEntries`, `ReadTilesets`, `LoadTilesetsAsWritten` and `LoadTilesets`, and through `MapPreconditions` also `MapResult`, `MapResultAsWritten`, `MapResultsAgree`, `LoadedMapTilesets` and `MapLoader.TmjLoader.Load`. For such a tileset the source divides by zero in 32-bit unsigned arithmetic (`tileCountTotal / tileset.tileCount.x`, code/anker/game/anker_map.cpp:163). That is undefined behaviour, and the model gives it no value.
- `MapLoader.ConvertCoordinates` requires a non-zero tile size. `MapLoader.MapPreconditions`, and so `MapLoader.TmjLoader.Load`, excludes "tilewidth": 0, and the `TmjLoader` invariant keeps `tileSize != 0.0`. The source's float division by a zero tile size (code/anker/game/anker_map.cpp:551-556) gives infinities or NaN; floating point is not modelled.
- `MapLoader.MapPreconditions` requires `TreeResolves`, and so do `MapLoader.TmjLoader.Load`, `MapLoader.TmjLoader.LoadLayers` and `MapLoader.LayersResult`. It demands that every non-empty tile of every tile layer in the tree has a tileset whose first id is at most its global id, and lies inside that tileset's grid. The source gives no defined result otherwise: a global id below every first id makes `m_tilesets[findTilesetIndex(gid)]` read past the end (code/anker/game/anker_map.cpp:320-322), and one beyond its tileset's grid fails the `ANKER_ASSERT` at code/anker/game/anker_map.cpp:89-92. `TreeResolves` also asks this of layers the walk never reaches: those after a failing layer, and tile layers that fail their format check. That is more than the source needs.
- The vertex buffers of the gizmo and text renderers hold at most 1024 vertices (code/anker/graphics/anker_gizmo_renderer.cpp:29; anker_text_renderer.cpp:31). This capacity is not modelled, because the lists are unbounded sequences.
- LayerColor (`MapLoader.LayerColor`) reads "tintcolor" with hexadecimal digit values, the corrected half of the `colorFromHtml` finding; as written, "#ff0000" gives a red channel of 918/255. `MapLoader.LayerColorAsWritten` is the colour as written, and `MapLoader.LayerColorAgreement` and `MapLoader.LayerColorsPartOnLetters` show where the two agree and where they part.
- TileLayerResult (`MapLoader.TileLayerResult`) checks the word count against the exact `width * height`, the corrected half of the 32-bit product finding; as written, a 65536 by 65536 layer without data is accepted. `MapTiles.TileLayerStatusMeaning` shows the two checks agree below 2^32.
- LoadTileLayer (`MapLoader.TmjLoader.LoadTileLayer`) uses the same exact-product check as `TileLayerResult`.
- EnterLayer (`MapLoader.TmjLoader.EnterLayer`) pushes the corrected `LayerColor`, not the colour `colorFromHtml` writes as written.
- LoadLayer (`MapLoader.TmjLoader.LoadLayer`) and its specification `LayerResult` use the corrected tint and word-count checks.
- LoadLayers (`MapLoader.TmjLoader.LoadLayers`) and its specification `LayersResult` use the corrected tint and word-count checks.
- TileLayerInheritsStacks (`MapLoader.TileLayerInheritsStacks`) states the product of the corrected layer colours.
- Load (`MapLoader.TmjLoader.Load`) calls the corrected `LoadTilesets`, so a failing tileset entry stops the load; as written, `load` goes on to the layers with the tilesets read so far. `MapLoader.MapResultAsWritten` is the load with `loadTilesets` as written and the corrected tint and word-count checks, and `MapLoader.MapResultsAgree` and `MapLoader.AsWrittenLoadIgnoresTilesetFailure` relate the two. It also uses the corrected tint and word-count checks.
- LoadedMapTilesets (`MapLoader.LoadedMapTilesets`) is about the corrected load. As written, a map with a failing tileset entry loads `Ok` with fewer tilesets than entries.

## Findings

| source | as written | input that shows it | evidently intended | confidence | as-written member | corrected member |
|---|---|---|---|---|---|---|
| code/anker/common/anker_math.cpp:20-35 | each lower-cased digit is replaced by `c - '0'` and accepted when it lies in '0'..'f' | "#ffffff": every digit value is 54, so every channel is 918/255, above 1 | hexadecimal digits with values 0-15, so "#ffffff" is white | high, not executed | Math.LetterDigitsOverflow | Math.HexChannelsInUnitRange |
| code/anker/core/anker_actions.cpp:24-32 | `down()` is tested before `m_consumed` is cleared, and a tick that finds the input released sets `m_previousTime` to 0 | a press held for several ticks and then released: the releasing tick leaves `previousTime == 0`, so `upThisFrame()` and `tapped()` are false | the releasing tick keeps the press length in `m_previousTime`, so `upThisFrame()` fires and `tapped()` reports a short press | medium, not executed | Actions.Action.Tick | Actions.Action.TickReportingRelease |
| code/anker/graphics/anker_font_system.cpp:76-81 | the range check is `glyph <= CharEnd` with `CharEnd == 128` | the entry (128, 32) writes slot 96 * 96, past the end of the 96 x 96 table | `glyph < CharEnd`, so every written slot is inside the table | high, not executed | FontSystem.AsWrittenAdmitsOutOfBounds | FontSystem.CopyKerning |
| code/anker/game/anker_map.cpp:113-140 | the tileset loop's status stops the loop, but the function then returns `Ok` | a "tilesets" entry without "firstgid": the loop reports a `FormatError`, and `load` goes on to the layers with the tilesets read so far | the loop's status is returned, as `loadLayers` returns its own | high, not executed | MapLoader.TmjLoader.LoadTilesetsAsWritten | MapLoader.TmjLoader.LoadTilesets |
| code/anker/game/anker_map.cpp:265-276 | the expected word count is `width * height` computed in 32-bit unsigned arithmetic | width = height = 65536 with empty data: the product wraps to 0 and the layer is accepted | the product computed without wrap-around, so the data holds one word per grid cell | low, not executed | MapTiles.WrappedDimensionsAccepted | MapTiles.TileLayerStatusMeaning |
| code/anker/core/anker_scene_node.cpp:28-59 | `setParent` does not reject the node itself as its new parent; the ancestor walk finds it at once, and the recursive call changes nothing | `node.setParent(&node)` or `node.addChild(&node)`: the node becomes its own parent and child, and the links form a loop | `setParent(this)` is rejected, so the links stay acyclic | medium, not executed | SceneForest.SelfParentMakesLoop | SceneNodes.SceneGraph.SetParent |
| code/anker/core/anker_asset_cache.cpp:62-83 | `reloadModifiedAssets` writes `*it->second = *loadVertexShaderUncached(...)` (line 69) and `*loadPixelShaderUncached(...)` (line 74) without checking either pointer | a vertex shader whose first compile failed is cached as null by `loadVertexShader`, and a modified path for it makes line 69 dereference that null entry; a pixel shader edited so that it no longer compiles makes line 74 dereference the null result | a null entry is skipped and a failed recompile keeps the old shader | high, not executed | AssetCache.FailedShaderBreaksReload | AssetCache.Cacher.ReloadModifiedAssets |
| code/anker/core/anker_scene_node.cpp:86-92 | the loop check of `validateParentChildLink` walks up the parent links until it meets a root or the node itself | after `a.setParent(&a)`, the check at any child `c` of `a` walks to `a` and stays there, never ending | `setParent(this)` is rejected, so every walk ends at a root and the check passes | medium, not executed | SceneForest.SelfParentWalkNeverEnds | SceneForest.SetParentWalksEnd |
