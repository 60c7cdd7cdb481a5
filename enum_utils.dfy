/** Bit flags over an enum (`Flags<Enum>`, `ANKER_ENUM_FLAGS`) and the
    table-driven enum/string conversions generated by
    `ANKER_ENUM_TO_FROM_STRING` (code/anker/common/anker_enum_utils.hpp). */
module EnumFlags {

  /** The mask type. Flag enums are `enum class` types whose underlying type
      is `int`; their bitwise operators on two's complement values are the
      operators on 32-bit vectors. */
  type Mask = bv32

  /** The value of a `Flags<Enum>`: only its mask. */
  datatype Flags = Flags(mask: Mask) {

    /** `explicit operator bool`. */
    predicate IsSet() { mask != 0 }

    /** `operator!`. */
    predicate IsEmpty() { mask == 0 }

    /** `operator~`. */
    function Complement(): Flags { Flags(!mask) }

    /** `operator|` on two flag sets. */
    function Or(other: Flags): Flags { Flags(mask | other.mask) }

    /** `operator&` on two flag sets. */
    function And(other: Flags): Flags { Flags(mask & other.mask) }
  }

  /** `b` is a mask with exactly one bit set. */
  predicate IsBit(b: Mask) {
    b != 0 && b & (b - 1) == 0
  }

  /** The single bit `b` is set in `f`. */
  predicate Has(f: Flags, b: Mask) {
    f.mask & b != 0
  }

  /** The default constructor: an empty mask. */
  function DefaultFlags(): (f: Flags)
    ensures f.mask == 0 && !f.IsSet() && f.IsEmpty()
  {
    Flags(0)
  }

  /** The converting constructor `Flags(Enum bit)`: an enumerator is stored as
      its own value. */
  function FromEnum(bit: Mask): (f: Flags)
    ensures f.mask == bit
    ensures f.IsSet() <==> bit != 0
  {
    Flags(bit)
  }

  /** Conversion to `bool` and `operator!` are each other's negation, and a
      mask converts to true exactly when one of its bits is set. */
  lemma BoolAndNot(f: Flags)
    ensures f.IsSet() <==> !f.IsEmpty()
    ensures f.IsSet() <==> exists b: Mask :: IsBit(b) && Has(f, b)
  {
    if f.IsSet() {
      LowestBit(f);
    }
  }

  /** A non-empty mask has its lowest set bit, `m & -m`, set. */
  lemma LowestBit(f: Flags)
    requires f.IsSet()
    ensures IsBit(f.mask & (0 - f.mask)) && Has(f, f.mask & (0 - f.mask))
  {
  }

  /** `|`, `&` and `~` act bit by bit: a bit is in `a | b` iff it is in
      either, in `a & b` iff it is in both, and in `~a` iff it is not in
      `a`. */
  lemma BitwiseMeaning(a: Flags, b: Flags, k: Mask)
    requires IsBit(k)
    ensures Has(a.Or(b), k) <==> Has(a, k) || Has(b, k)
    ensures Has(a.And(b), k) <==> Has(a, k) && Has(b, k)
    ensures Has(a.Complement(), k) <==> !Has(a, k)
  {
  }

  /** `|` and `&` are commutative and idempotent, and the empty set is the
      unit of `|` and absorbs under `&`. */
  lemma OrAndAlgebra(a: Flags, b: Flags)
    ensures a.Or(b) == b.Or(a) && a.And(b) == b.And(a)
    ensures a.Or(a) == a && a.And(a) == a
    ensures a.Or(DefaultFlags()) == a && a.And(DefaultFlags()).IsEmpty()
  {
  }

  /** `~` is an involution. */
  lemma ComplementInvolution(a: Flags)
    ensures a.Complement().Complement() == a
  {
  }

  /** A set and its complement share no bit, and together they cover all
      32. */
  lemma ComplementPartition(a: Flags)
    ensures a.And(a.Complement()).IsEmpty()
    ensures a.Or(a.Complement()).Complement().IsEmpty()
  {
  }

  /** The mixed operators that `ANKER_ENUM_FLAGS` and the free templates
      define: `e1 | e2`, `e1 & e2` (two enumerators) and `e | f`, `e & f`
      (an enumerator and a flag set) all equal the corresponding operation on
      the wrapped values. */
  function EnumOr(a: Mask, b: Mask): (f: Flags)
    ensures f == FromEnum(a).Or(FromEnum(b)) && f.mask == a | b
  {
    FromEnum(a).Or(FromEnum(b))
  }

  function EnumAnd(a: Mask, b: Mask): (f: Flags)
    ensures f == FromEnum(a).And(FromEnum(b)) && f.mask == a & b
  {
    FromEnum(a).And(FromEnum(b))
  }

  function EnumOrFlags(bit: Mask, flags: Flags): (f: Flags)
    ensures f.mask == bit | flags.mask && f == FromEnum(bit).Or(flags)
  {
    flags.Or(FromEnum(bit))
  }

  function EnumAndFlags(bit: Mask, flags: Flags): (f: Flags)
    ensures f.mask == bit & flags.mask && f == FromEnum(bit).And(flags)
  {
    flags.And(FromEnum(bit))
  }

  /** A `Flags` variable, for the compound assignments that update the mask
      in place. */
  class FlagsVar {
    var mask: Mask

    constructor (init: Flags)
      ensures mask == init.mask
    {
      mask := init.mask;
    }

    function Value(): Flags
      reads this
    {
      Flags(mask)
    }

    /** `operator|=`: afterwards the variable equals `old | other`. */
    method OrAssign(other: Flags)
      modifies this
      ensures Value() == old(Value()).Or(other)
    {
      mask := mask | other.mask;
    }

    /** `operator&=`: afterwards the variable equals `old & other`. */
    method AndAssign(other: Flags)
      modifies this
      ensures Value() == old(Value()).And(other)
    {
      mask := mask & other.mask;
    }
  }
}

module EnumUtils {
  import opened Wrappers

  // ---------------------------------------------------------------------
  // ANKER_ENUM_TO_FROM_STRING
  //
  // An entries table is a sequence of (enumerator, name) pairs. Names are
  // compared as `entt::hashed_string` values in the source; this model
  // compares the strings themselves (hash collisions are not modelled).

  /** An entries table whose enumerators are pairwise distinct and whose names
      are pairwise distinct. */
  predicate DistinctTable<E(==)>(entries: seq<(E, string)>) {
    && (forall i, j | 0 <= i < j < |entries| :: entries[i].0 != entries[j].0)
    && (forall i, j | 0 <= i < j < |entries| :: entries[i].1 != entries[j].1)
  }

  /** The name stored for `e` by the `unordered_map` built from the table:
      the range constructor keeps the first pair with a given key. */
  function LookupName<E(==)>(entries: seq<(E, string)>, e: E): (r: Option<string>)
    ensures r == None <==> forall i | 0 <= i < |entries| :: entries[i].0 != e
    ensures r.Some? ==> exists i | 0 <= i < |entries| :: entries[i] == (e, r.value)
                                  && forall j | 0 <= j < i :: entries[j].0 != e
  {
    if |entries| == 0 then None
    else if entries[0].0 == e then Some(entries[0].1)
    else
      var r := LookupName(entries[1..], e);
      assert r.Some? ==> exists i | 0 <= i < |entries| :: entries[i] == (e, r.value)
                                  && forall j | 0 <= j < i :: entries[j].0 != e by {
        if r.Some? {
          var i :| 0 <= i < |entries[1..]| && entries[1..][i] == (e, r.value)
                   && forall j | 0 <= j < i :: entries[1..][j].0 != e;
          assert entries[i + 1] == (e, r.value);
          forall j | 0 <= j < i + 1 ensures entries[j].0 != e {
            if j > 0 { assert entries[j] == entries[1..][j - 1]; }
          }
        }
      }
      r
  }

  /** `to_string(e)`: the table name of `e`, or "invalid" when `e` has no
      entry. */
  function ToString<E(==)>(entries: seq<(E, string)>, e: E): (s: string)
    ensures (forall i | 0 <= i < |entries| :: entries[i].0 != e) ==> s == "invalid"
    ensures forall i | 0 <= i < |entries| && entries[i].0 == e
              && (forall j | 0 <= j < i :: entries[j].0 != e) :: s == entries[i].1
  {
    match LookupName(entries, e)
    case Some(name) => name
    case None => "invalid"
  }

  /** The index of the first entry named `input`, or `|entries|` (the end
      iterator) when no entry carries that name: the `find_if` of
      `from_string`. */
  method FindName<E>(entries: seq<(E, string)>, input: string) returns (k: nat)
    ensures k <= |entries|
    ensures forall j | 0 <= j < k :: entries[j].1 != input
    ensures k < |entries| ==> entries[k].1 == input
  {
    k := 0;
    while k < |entries| && entries[k].1 != input
      invariant k <= |entries|
      invariant forall j | 0 <= j < k :: entries[j].1 != input
    {
      k := k + 1;
    }
  }

  /** `from_string(result, input)`: on a name match the out-parameter becomes
      the enumerator of the first matching entry and the call returns true;
      otherwise it returns false and the out-parameter keeps its value. */
  method FromString<E>(entries: seq<(E, string)>, result: E, input: string) returns (ok: bool, result': E)
    ensures ok <==> exists i | 0 <= i < |entries| :: entries[i].1 == input
    ensures !ok ==> result' == result
    ensures ok ==> exists i | 0 <= i < |entries| :: entries[i].1 == input && result' == entries[i].0
                     && forall j | 0 <= j < i :: entries[j].1 != input
  {
    var k := FindName(entries, input);
    if k < |entries| {
      ok, result' := true, entries[k].0;
    } else {
      ok, result' := false, result;
    }
  }

  /** The enumerator `from_string` selects, as a function: the first entry
      named `input`. */
  function FirstNamed<E>(entries: seq<(E, string)>, input: string): (r: Option<E>)
    ensures r == None <==> forall i | 0 <= i < |entries| :: entries[i].1 != input
    ensures r.Some? ==> exists i | 0 <= i < |entries| :: entries[i] == (r.value, input)
                          && forall j | 0 <= j < i :: entries[j].1 != input
  {
    if |entries| == 0 then None
    else if entries[0].1 == input then Some(entries[0].0)
    else
      var r := FirstNamed(entries[1..], input);
      assert r.Some? ==> exists i | 0 <= i < |entries| :: entries[i] == (r.value, input)
                          && forall j | 0 <= j < i :: entries[j].1 != input by {
        if r.Some? {
          var i :| 0 <= i < |entries[1..]| && entries[1..][i] == (r.value, input)
                   && forall j | 0 <= j < i :: entries[1..][j].1 != input;
          assert entries[i + 1] == (r.value, input);
          forall j | 0 <= j < i + 1 ensures entries[j].1 != input {
            if j > 0 { assert entries[j] == entries[1..][j - 1]; }
          }
        }
      }
      r
  }

  /** In a table with distinct enumerators and distinct names, every entry
      survives the round trip: `to_string` gives its name, and that name
      leads `from_string` back to its enumerator. */
  lemma {:induction false} RoundTrip<E>(entries: seq<(E, string)>, i: nat)
    requires DistinctTable(entries)
    requires i < |entries|
    ensures ToString(entries, entries[i].0) == entries[i].1
    ensures FirstNamed(entries, entries[i].1) == Some(entries[i].0)
  {
    if i > 0 {
      RoundTrip(entries[1..], i - 1);
      assert entries[1..][i - 1] == entries[i];
      assert entries[0].0 != entries[i].0 && entries[0].1 != entries[i].1;
    }
  }
}
