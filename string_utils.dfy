/** The ASCII helpers of `Anker::Ascii` (code/anker/common/anker_string_utils.hpp).

    A C++ `char` is one byte. The model keeps its bit pattern read as an
    unsigned value, 0..255, as a Dafny `char`. Whether the platform's `char`
    is signed does not matter for these helpers: the only ranges they test,
    'A'..'Z' and 'a'..'z', lie in 0..127, where both readings agree, and
    `isAscii` itself converts to `unsigned char` first. */
module Ascii {

  /** A byte of a `std::string`. */
  type Byte = c: char | c as int < 256

  predicate IsUpper(c: Byte) { 'A' <= c <= 'Z' }

  predicate IsLower(c: Byte) { 'a' <= c <= 'z' }

  /** `isAscii(s)`: every byte, read as `unsigned char`, is at most 127. */
  predicate IsAscii(s: seq<Byte>) {
    forall i | 0 <= i < |s| :: s[i] as int <= 127
  }

  /** `toLowerChar`: an upper-case letter becomes the lower-case letter at the
      same position in the alphabet; every other byte is returned unchanged. */
  function ToLowerChar(c: Byte): (r: Byte)
    ensures !IsUpper(r)
    ensures IsUpper(c) ==> IsLower(r) && r as int - 'a' as int == c as int - 'A' as int
    ensures !IsUpper(c) ==> r == c
  {
    if 'A' <= c <= 'Z' then (c as int + ('a' as int - 'A' as int)) as char else c
  }

  /** `toUpperChar`: a lower-case letter becomes the upper-case letter at the
      same position; every other byte is returned unchanged. */
  function ToUpperChar(c: Byte): (r: Byte)
    ensures !IsLower(r)
    ensures IsLower(c) ==> IsUpper(r) && r as int - 'A' as int == c as int - 'a' as int
    ensures !IsLower(c) ==> r == c
  {
    if 'a' <= c <= 'z' then (c as int - ('a' as int - 'A' as int)) as char else c
  }

  /** The two char helpers undo each other on letters and are idempotent. */
  lemma CaseRoundTrip(c: Byte)
    ensures IsUpper(c) ==> ToUpperChar(ToLowerChar(c)) == c
    ensures IsLower(c) ==> ToLowerChar(ToUpperChar(c)) == c
    ensures ToLowerChar(ToLowerChar(c)) == ToLowerChar(c)
    ensures ToUpperChar(ToUpperChar(c)) == ToUpperChar(c)
  {
  }

  /** The result of `toLower` on a string: `toLowerChar` at every position. */
  function Lowered(s: seq<Byte>): seq<Byte> {
    seq(|s|, i requires 0 <= i < |s| => ToLowerChar(s[i]))
  }

  /** The result of `toUpper` on a string. */
  function Uppered(s: seq<Byte>): seq<Byte> {
    seq(|s|, i requires 0 <= i < |s| => ToUpperChar(s[i]))
  }

  /** Lowering keeps the length, leaves no upper-case letter, and is
      idempotent; likewise for raising. Changing case also preserves
      ASCII-ness. */
  lemma CaseMappingProperties(s: seq<Byte>)
    ensures |Lowered(s)| == |s| && |Uppered(s)| == |s|
    ensures forall i | 0 <= i < |s| :: !IsUpper(Lowered(s)[i]) && !IsLower(Uppered(s)[i])
    ensures Lowered(Lowered(s)) == Lowered(s)
    ensures Uppered(Uppered(s)) == Uppered(s)
    ensures IsAscii(s) ==> IsAscii(Lowered(s)) && IsAscii(Uppered(s))
  {
  }

  /** `toLower(s)`: transforms the string in place. */
  method ToLower(s: array<Byte>)
    modifies s
    ensures s[..] == Lowered(old(s[..]))
  {
    var i := 0;
    while i < s.Length
      invariant 0 <= i <= s.Length
      invariant forall j | 0 <= j < i :: s[j] == ToLowerChar(old(s[j]))
      invariant forall j | i <= j < s.Length :: s[j] == old(s[j])
    {
      s[i] := ToLowerChar(s[i]);
      i := i + 1;
    }
  }

  /** `toUpper(s)`: transforms the string in place. */
  method ToUpper(s: array<Byte>)
    modifies s
    ensures s[..] == Uppered(old(s[..]))
  {
    var i := 0;
    while i < s.Length
      invariant 0 <= i <= s.Length
      invariant forall j | 0 <= j < i :: s[j] == ToUpperChar(old(s[j]))
      invariant forall j | i <= j < s.Length :: s[j] == old(s[j])
    {
      s[i] := ToUpperChar(s[i]);
      i := i + 1;
    }
  }
}
