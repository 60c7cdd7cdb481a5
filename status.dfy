/** `ErrorCode`, its name table and the `Status` wrapper
    (code/anker/common/anker_status.hpp). */
module Status {
  import opened Wrappers
  import EnumUtils

  /** The seven error codes, `OK` first. */
  datatype ErrorCode =
    | OK
    | UnknownError
    | NotImplementedError
    | ReadError
    | WriteError
    | FormatError
    | GraphicsError

  /** The underlying `uint8_t` value of a code. */
  function Ordinal(c: ErrorCode): (n: nat)
    ensures n <= 6
    ensures n == 0 <==> c == OK
  {
    match c
    case OK => 0
    case UnknownError => 1
    case NotImplementedError => 2
    case ReadError => 3
    case WriteError => 4
    case FormatError => 5
    case GraphicsError => 6
  }

  /** `ErrorCodeEntries`: one entry per code, in enumerator order. */
  function Entries(): seq<(ErrorCode, string)> {
    [ (OK, "OK"),
      (UnknownError, "UnknownError"),
      (NotImplementedError, "NotImplementedError"),
      (ReadError, "ReadError"),
      (WriteError, "WriteError"),
      (FormatError, "FormatError"),
      (GraphicsError, "GraphicsError") ]
  }

  /** The values run 0..6 in declaration order: the entry at position
      `Ordinal(c)` is the entry of `c`, so distinct codes have distinct
      values. */
  lemma OrdinalsAreTablePositions(c: ErrorCode, d: ErrorCode)
    ensures Ordinal(c) < |Entries()| && Entries()[Ordinal(c)].0 == c
    ensures Ordinal(c) == Ordinal(d) ==> c == d
  {
  }

  lemma EntriesDistinct()
    ensures EnumUtils.DistinctTable(Entries())
  {
  }

  /** `to_string` on an `ErrorCode`. */
  function CodeName(c: ErrorCode): string {
    EnumUtils.ToString(Entries(), c)
  }

  /** `to_string` and `from_string` are inverse on all seven codes, and the
      name of `OK` is "OK". */
  lemma CodeRoundTrip(c: ErrorCode)
    ensures CodeName(c) == Entries()[Ordinal(c)].1
    ensures EnumUtils.FirstNamed(Entries(), CodeName(c)) == Some(c)
    ensures CodeName(OK) == "OK"
  {
    EntriesDistinct();
    OrdinalsAreTablePositions(c, c);
    EnumUtils.RoundTrip(Entries(), Ordinal(c));
    OrdinalsAreTablePositions(OK, OK);
    EnumUtils.RoundTrip(Entries(), 0);
  }

  /** A `Status` holds one code; it converts to true exactly on `OK`. */
  datatype Status = Status(code: ErrorCode) {
    predicate IsOk() { code == OK }
  }

  /** The default constructor leaves `code` at its initialiser `OK`. */
  function DefaultStatus(): (s: Status)
    ensures s.code == OK && s.IsOk()
  {
    Status(OK)
  }

  /** `Status(code)`: truthy iff the code is `OK`. */
  function FromCode(c: ErrorCode): (s: Status)
    ensures s.code == c
    ensures s.IsOk() <==> Ordinal(c) == 0
  {
    Status(c)
  }

  /** The defaulted `operator==` compares the codes. */
  lemma StatusEquality(a: Status, b: Status)
    ensures a == b <==> a.code == b.code
    ensures FromCode(a.code) == a
  {
  }

  /** `ANKER_TRY(s); ...; return rest;`: a failing status is returned as it
      is, a successful one falls through to the rest of the function. */
  function Try(s: Status, rest: Status): (r: Status)
    ensures !s.IsOk() ==> r == s
    ensures s.IsOk() ==> r == rest
  {
    if !s.IsOk() then s else rest
  }

  /** A function body made of `ANKER_TRY(steps[0]); ...; return OK;`. */
  function TrySequence(steps: seq<Status>): Status {
    if |steps| == 0 then DefaultStatus() else Try(steps[0], TrySequence(steps[1..]))
  }

  /** Such a body succeeds iff every step succeeds, and otherwise returns the
      first failing status unchanged. */
  lemma {:induction false} TrySequenceFirstFailure(steps: seq<Status>)
    ensures TrySequence(steps).IsOk() <==> forall i | 0 <= i < |steps| :: steps[i].IsOk()
    ensures !TrySequence(steps).IsOk() ==>
              exists i | 0 <= i < |steps| :: TrySequence(steps) == steps[i]
                && forall j | 0 <= j < i :: steps[j].IsOk()
  {
    if |steps| > 0 {
      TrySequenceFirstFailure(steps[1..]);
      if steps[0].IsOk() {
        forall i | 0 <= i < |steps| - 1 ensures steps[1..][i] == steps[i + 1] { }
        if !TrySequence(steps).IsOk() {
          var i :| 0 <= i < |steps[1..]| && TrySequence(steps[1..]) == steps[1..][i]
                   && forall j | 0 <= j < i :: steps[1..][j].IsOk();
          assert TrySequence(steps) == steps[i + 1];
          forall j | 0 <= j < i + 1 ensures steps[j].IsOk() {
            if j > 0 { assert steps[j] == steps[1..][j - 1]; }
          }
        }
      } else {
        assert TrySequence(steps) == steps[0];
      }
    }
  }
}
