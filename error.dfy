/** The `Error` enum and its name table (code/anker/common/anker_error.hpp). */
module Errors {
  import opened Wrappers
  import EnumUtils

  /** The seven error values, `Ok` first. */
  datatype Error =
    | Ok
    | UnknownError
    | NotImplementedError
    | ReadError
    | WriteError
    | FormatError
    | GraphicsError

  /** The underlying `uint8_t` value. */
  function Ordinal(e: Error): (n: nat)
    ensures n <= 6
    ensures n == 0 <==> e == Ok
  {
    match e
    case Ok => 0
    case UnknownError => 1
    case NotImplementedError => 2
    case ReadError => 3
    case WriteError => 4
    case FormatError => 5
    case GraphicsError => 6
  }

  /** `ErrorEntries`. `Ok` is listed under the name "NoError". */
  function Entries(): seq<(Error, string)> {
    [ (Ok, "NoError"),
      (UnknownError, "UnknownError"),
      (NotImplementedError, "NotImplementedError"),
      (ReadError, "ReadError"),
      (WriteError, "WriteError"),
      (FormatError, "FormatError"),
      (GraphicsError, "GraphicsError") ]
  }

  /** The values run 0..6 in declaration order, one table entry each. */
  lemma OrdinalsAreTablePositions(e: Error, d: Error)
    ensures Ordinal(e) < |Entries()| && Entries()[Ordinal(e)].0 == e
    ensures Ordinal(e) == Ordinal(d) ==> e == d
  {
  }

  lemma EntriesDistinct()
    ensures EnumUtils.DistinctTable(Entries())
  {
  }

  /** `to_string` on an `Error`. */
  function ErrorName(e: Error): string {
    EnumUtils.ToString(Entries(), e)
  }

  /** The name of `Ok` is "NoError", and the enumerator's own spelling "Ok"
      is not accepted by `from_string`. */
  lemma OkIsNamedNoError()
    ensures ErrorName(Ok) == "NoError"
    ensures EnumUtils.FirstNamed(Entries(), "Ok") == None
  {
    assert Entries()[0] == (Ok, "NoError");
    assert forall i | 0 <= i < |Entries()| :: |Entries()[i].1| != |"Ok"|;
  }

  /** `to_string` and `from_string` are inverse on all seven values. */
  lemma ErrorRoundTrip(e: Error)
    ensures ErrorName(e) == Entries()[Ordinal(e)].1
    ensures EnumUtils.FirstNamed(Entries(), ErrorName(e)) == Some(e)
  {
    EntriesDistinct();
    OrdinalsAreTablePositions(e, e);
    EnumUtils.RoundTrip(Entries(), Ordinal(e));
  }
}
