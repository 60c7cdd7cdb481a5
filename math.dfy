/** Vector and rectangle values, and `colorFromHtml`
    (code/anker/common/anker_math.cpp). Floats are modelled as reals. */
module Math {
  import opened Wrappers
  import opened Ascii

  datatype Vec2 = Vec2(x: real, y: real) {
    function Plus(o: Vec2): Vec2 { Vec2(x + o.x, y + o.y) }
    function Div(c: real): Vec2 requires c != 0.0 { Vec2(x / c, y / c) }
  }

  /** A colour: `glm::vec4`. */
  datatype Vec4 = Vec4(x: real, y: real, z: real, w: real) {
    function Scale(c: real): Vec4 { Vec4(x * c, y * c, z * c, w * c) }
  }

  /** A `Rect2`, seen through its corner accessors: `topLeft()` and friends
      in texture space, `topLeftWorld()` and friends in world space. */
  datatype Rect2 = Rect2(
    topLeft: Vec2, topRight: Vec2, bottomLeft: Vec2, bottomRight: Vec2,
    topLeftWorld: Vec2, topRightWorld: Vec2, bottomLeftWorld: Vec2, bottomRightWorld: Vec2)

  // ---------------------------------------------------------------------
  // colorFromHtml

  /** The input after the optional leading '#'. */
  function StripHash(input: seq<Byte>): seq<Byte> {
    if |input| > 0 && input[0] == '#' then input[1..] else input
  }

  /** The value `c - '0'` that each lower-cased digit is replaced by. */
  function DigitValue(c: Byte): int {
    c as int - '0' as int
  }

  /** The `all_of` test on a lower-cased digit. */
  predicate InDigitRange(c: Byte) {
    '0' <= c <= 'f'
  }

  /** A channel: `(16 * hi + lo) / 255` over the digit values. */
  function Channel(hi: int, lo: int): real {
    (16 * hi + lo) as real / 255.0
  }

  /** What `colorFromHtml` writes, or `None` when it returns false. */
  function HtmlColor(input: seq<Byte>): Option<Vec4> {
    var t := StripHash(input);
    if |t| != 6 then None
    else
      var d := Lowered(t);
      if exists i | 0 <= i < 6 :: !InDigitRange(d[i]) then None
      else Some(Vec4(Channel(DigitValue(d[0]), DigitValue(d[1])),
                     Channel(DigitValue(d[2]), DigitValue(d[3])),
                     Channel(DigitValue(d[4]), DigitValue(d[5])),
                     1.0))
  }

  /** `colorFromHtml(color, input)`: on success `color` receives the parsed
      value; on failure it is left untouched. */
  method ColorFromHtml(color: Vec4, input: seq<Byte>) returns (ok: bool, color': Vec4)
    ensures ok <==> HtmlColor(input).Some?
    ensures ok ==> color' == HtmlColor(input).value
    ensures !ok ==> color' == color
  {
    var view := input;
    if |view| > 0 && view[0] == '#' {
      view := view[1..];
    }
    if |view| != 6 {
      return false, color;
    }

    var digits := new int[6];
    var i := 0;
    while i < 6
      invariant 0 <= i <= 6
      invariant forall j | 0 <= j < i :: digits[j] == ToLowerChar(view[j]) as int
    {
      digits[i] := ToLowerChar(view[i]) as int;
      i := i + 1;
    }

    i := 0;
    while i < 6
      invariant 0 <= i <= 6
      invariant forall j | 0 <= j < i :: '0' as int <= digits[j] <= 'f' as int
    {
      if !('0' as int <= digits[i] <= 'f' as int) {
        assert !InDigitRange(Lowered(view)[i]);
        return false, color;
      }
      i := i + 1;
    }

    i := 0;
    while i < 6
      invariant 0 <= i <= 6
      invariant forall j | 0 <= j < i :: digits[j] == DigitValue(Lowered(view)[j])
      invariant forall j | i <= j < 6 :: digits[j] == ToLowerChar(view[j]) as int
    {
      digits[i] := digits[i] - '0' as int;
      i := i + 1;
    }

    color' := Vec4(Channel(digits[0], digits[1]),
                   Channel(digits[2], digits[3]),
                   Channel(digits[4], digits[5]),
                   1.0);
    ok := true;
  }

  /** The bytes `colorFromHtml` accepts, stated without lower-casing: '0'..'F'
      (decimal digits, ":;<=>?@" and 'A'..'F') and '['..'f' ("[\\]^_`" and
      'a'..'f'). */
  predicate Accepted(c: Byte) {
    '0' <= c <= 'F' || '[' <= c <= 'f'
  }

  lemma AcceptedIsInDigitRangeLowered(c: Byte)
    ensures Accepted(c) <==> InDigitRange(ToLowerChar(c))
  {
  }

  /** An input parses exactly when it is six accepted bytes, optionally after
      one '#'. */
  lemma HtmlColorAccepts(input: seq<Byte>)
    ensures HtmlColor(input).Some? <==>
              || (|input| == 6 && input[0] != '#' && forall i | 0 <= i < 6 :: Accepted(input[i]))
              || (|input| == 7 && input[0] == '#' && forall i | 1 <= i < 7 :: Accepted(input[i]))
  {
    var t := StripHash(input);
    if |t| == 6 {
      forall i | 0 <= i < 6 ensures Accepted(t[i]) <==> InDigitRange(Lowered(t)[i]) {
        AcceptedIsInDigitRangeLowered(t[i]);
      }
      if input[0] == '#' && |input| == 7 {
        forall i | 1 <= i < 7 ensures input[i] == t[i - 1] { }
        assert (forall i | 1 <= i < 7 :: Accepted(input[i])) <==> (forall i | 0 <= i < 6 :: Accepted(t[i])) by {
          if forall i | 0 <= i < 6 :: Accepted(t[i]) {
            forall i | 1 <= i < 7 ensures Accepted(input[i]) { assert Accepted(t[i - 1]); }
          }
        }
      }
    }
  }

  /** A single leading '#' makes no difference to a six-byte input. */
  lemma HashIsOptional(body: seq<Byte>)
    requires |body| == 6
    ensures HtmlColor(['#'] + body) == HtmlColor(body)
  {
    assert StripHash(['#'] + body) == body;
    if body[0] == '#' {
      assert !InDigitRange(Lowered(body)[0]);
    }
  }

  /** Upper- and lower-case spellings give the same result. */
  lemma HtmlColorCaseInsensitive(s: seq<Byte>, t: seq<Byte>)
    requires Lowered(s) == Lowered(t)
    ensures HtmlColor(s) == HtmlColor(t)
  {
    assert |s| == |Lowered(s)| == |t|;
    if |s| > 0 {
      assert ToLowerChar(s[0]) == Lowered(s)[0] == ToLowerChar(t[0]);
      assert s[0] == '#' <==> t[0] == '#';
      var s', t' := StripHash(s), StripHash(t);
      if |s'| == 6 {
        forall i | 0 <= i < 6 ensures Lowered(s')[i] == Lowered(t')[i] {
          if s[0] == '#' {
            assert Lowered(s')[i] == Lowered(s)[i + 1];
            assert Lowered(t')[i] == Lowered(t)[i + 1];
          }
        }
        assert Lowered(s') == Lowered(t');
      }
    }
  }

  /** On success every channel is its integer numerator over 255, taken from
      the lower-cased digits as `c - '0'`, and the alpha channel is 1. */
  lemma HtmlColorChannels(input: seq<Byte>)
    requires HtmlColor(input).Some?
    ensures var c := HtmlColor(input).value; var d := Lowered(StripHash(input));
            && |d| == 6
            && c.w == 1.0
            && c.x * 255.0 == (16 * DigitValue(d[0]) + DigitValue(d[1])) as real
            && c.y * 255.0 == (16 * DigitValue(d[2]) + DigitValue(d[3])) as real
            && c.z * 255.0 == (16 * DigitValue(d[4]) + DigitValue(d[5])) as real
  {
  }

  /** For input made of decimal digits every channel lies in [0, 1]. */
  lemma DecimalChannelsInUnitRange(input: seq<Byte>)
    requires |StripHash(input)| == 6
    requires forall i | 0 <= i < 6 :: '0' <= StripHash(input)[i] <= '9'
    ensures HtmlColor(input).Some?
    ensures var c := HtmlColor(input).value;
            0.0 <= c.x <= 1.0 && 0.0 <= c.y <= 1.0 && 0.0 <= c.z <= 1.0
  {
    var d := Lowered(StripHash(input));
    assert forall i | 0 <= i < 6 :: d[i] == StripHash(input)[i];
    assert forall i | 0 <= i < 6 :: 0 <= DigitValue(d[i]) <= 9;
  }

  /** The digit value of 'a'..'f' is 49..54, not 10..15: "ffffff" yields
      red = 918/255, above 1. */
  lemma LetterDigitsOverflow()
    ensures DigitValue('a') == 49 && DigitValue('f') == 54
    ensures HtmlColor("ffffff") == Some(Vec4(918.0 / 255.0, 918.0 / 255.0, 918.0 / 255.0, 1.0))
    ensures HtmlColor("ffffff").value.x > 1.0
  {
    var d := Lowered("ffffff");
    assert forall i | 0 <= i < 6 :: d[i] == 'f';
  }

  // ---------------------------------------------------------------------
  // The evident intent: hexadecimal digits.

  predicate IsHexDigit(c: Byte) {
    '0' <= c <= '9' || 'a' <= c <= 'f'
  }

  /** The value of a lower-case hexadecimal digit. */
  function HexValue(c: Byte): (v: int)
    requires IsHexDigit(c)
    ensures 0 <= v < 16
    ensures 'a' <= c ==> v == c as int - 'a' as int + 10
  {
    if c <= '9' then c as int - '0' as int else c as int - 'a' as int + 10
  }

  /** `colorFromHtml` with hexadecimal digits: only 0-9, a-f and A-F are
      accepted. */
  function HtmlColorHex(input: seq<Byte>): Option<Vec4> {
    var t := StripHash(input);
    if |t| != 6 then None
    else
      var d := Lowered(t);
      if exists i | 0 <= i < 6 :: !IsHexDigit(d[i]) then None
      else Some(Vec4(Channel(HexValue(d[0]), HexValue(d[1])),
                     Channel(HexValue(d[2]), HexValue(d[3])),
                     Channel(HexValue(d[4]), HexValue(d[5])),
                     1.0))
  }

  /** Every channel of a hexadecimal colour lies in [0, 1]; "ffffff" is
      white; the parse agrees with the one as written on decimal input. */
  lemma HexChannelsInUnitRange(input: seq<Byte>)
    ensures HtmlColorHex(input).Some? ==>
              var c := HtmlColorHex(input).value;
              0.0 <= c.x <= 1.0 && 0.0 <= c.y <= 1.0 && 0.0 <= c.z <= 1.0 && c.w == 1.0
    ensures HtmlColorHex("ffffff") == Some(Vec4(1.0, 1.0, 1.0, 1.0))
    ensures (|StripHash(input)| == 6 && forall i | 0 <= i < 6 :: '0' <= StripHash(input)[i] <= '9') ==>
              HtmlColorHex(input) == HtmlColor(input)
  {
    var f := Lowered("ffffff");
    assert forall i | 0 <= i < 6 :: f[i] == 'f';
    var t := StripHash(input);
    if |t| == 6 && (forall i | 0 <= i < 6 :: '0' <= t[i] <= '9') {
      var d := Lowered(t);
      assert forall i | 0 <= i < 6 :: d[i] == t[i] && HexValue(d[i]) == DigitValue(d[i]);
    }
  }
}
