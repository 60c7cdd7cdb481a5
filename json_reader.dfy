/** `JsonReader` (code/anker/common/anker_serialize_json.hpp): reading a
    parsed JSON document by navigating a stack of values whose top is the
    current value. The parser is not modelled; the document is a value of
    the `Json` datatype. Callbacks and nested reads are functions of the
    value they are given. */
module JsonReader {
  import opened Wrappers
  import EnumUtils

  /** A JSON value. Object members keep their document order; a number is
      an integer or a floating-point value, as rapidjson distinguishes. */
  datatype Json =
    | JNull
    | JBool(b: bool)
    | JInt(i: int)
    | JReal(r: real)
    | JString(s: string)
    | JArray(elements: seq<Json>)
    | JObject(members: seq<(string, Json)>)

  /** One step down the document: to the member at a position of an
      object, or to the element at a position of an array. */
  datatype Step = Member(member: nat) | Element(element: nat)

  /** The position of the first member named `key`: what `FindMember(key)`
      finds. */
  function FirstIndex(members: seq<(string, Json)>, key: string): (r: Option<nat>)
    ensures r.None? <==> forall j | 0 <= j < |members| :: members[j].0 != key
    ensures r.Some? ==> r.value < |members| && members[r.value].0 == key
                        && forall j | 0 <= j < r.value :: members[j].0 != key
  {
    if |members| == 0 then None
    else if members[0].0 == key then Some(0)
    else match FirstIndex(members[1..], key)
      case None => None
      case Some(j) => Some(j + 1)
  }

  /** `FindMember(key)`: the value of the first member named `key`. */
  function FindMember(members: seq<(string, Json)>, key: string): (r: Option<Json>)
    ensures r.None? <==> forall j | 0 <= j < |members| :: members[j].0 != key
    ensures r.Some? ==> exists j | 0 <= j < |members| :: members[j] == (key, r.value)
                          && forall j' | 0 <= j' < j :: members[j'].0 != key
  {
    match FirstIndex(members, key)
    case None => None
    case Some(j) => Some(members[j].1)
  }

  /** The value one step below `v`, if there is one. */
  function Child(v: Json, step: Step): Option<Json> {
    match (v, step)
    case (JObject(members), Member(i)) => if i < |members| then Some(members[i].1) else None
    case (JArray(elements), Element(i)) => if i < |elements| then Some(elements[i]) else None
    case _ => None
  }

  /** The stack a reader holds after following `path` from `root`: the root
      first, then the value reached by each step. */
  predicate Follows(values: seq<Json>, root: Json, path: seq<Step>) {
    && |values| == |path| + 1 && values[0] == root
    && forall i | 0 <= i < |path| :: Child(values[i], path[i]) == Some(values[i + 1])
  }

  /** The value at the end of `path`, when every step exists. */
  function Resolve(root: Json, path: seq<Step>): Option<Json>
    decreases |path|
  {
    if |path| == 0 then Some(root)
    else match Resolve(root, path[..|path| - 1])
      case None => None
      case Some(v) => Child(v, path[|path| - 1])
  }

  /** The top of a stack that follows `path` is the value `path` resolves
      to. */
  lemma {:induction false} FollowsResolves(values: seq<Json>, root: Json, path: seq<Step>)
    requires Follows(values, root, path)
    ensures Resolve(root, path) == Some(values[|values| - 1])
  {
    if |path| > 0 {
      var n := |path| - 1;
      assert Follows(values[..n + 1], root, path[..n]);
      FollowsResolves(values[..n + 1], root, path[..n]);
    }
  }

  /** Stepping out of bounds fails however the path goes on. */
  lemma {:induction false} MissingStaysMissing(root: Json, path: seq<Step>, more: seq<Step>)
    requires Resolve(root, path).None?
    ensures Resolve(root, path + more).None?
    decreases |more|
  {
    if |more| > 0 {
      var m := more[..|more| - 1];
      assert (path + more)[..|path + more| - 1] == path + m;
      MissingStaysMissing(root, path, m);
    } else {
      assert path + more == path;
    }
  }

  /** The primitive reads; rapidjson asserts the value has the type read. */
  function GetBool(v: Json): bool requires v.JBool? { v.b }
  function GetString(v: Json): string requires v.JString? { v.s }

  /** `GetInt` asserts that the value is an integer that fits in 32 bits. */
  predicate IsInt32(v: Json) {
    v.JInt? && -0x8000_0000 <= v.i < 0x8000_0000
  }

  class Reader {
    var values: seq<Json>
    ghost const root: Json
    ghost var path: seq<Step>

    ghost predicate Valid()
      reads this
    {
      Follows(values, root, path)
    }

    function Current(): Json
      requires Valid()
      reads this
    {
      values[|values| - 1]
    }

    /** The reader starts with only the document root on its stack. */
    constructor (doc: Json)
      ensures Valid() && root == doc && values == [doc] && path == []
    {
      root := doc;
      values := [doc];
      path := [];
    }

    predicate IsArray()
      requires Valid()
      reads this
    {
      Current().JArray?
    }

    predicate IsObject()
      requires Valid()
      reads this
    {
      Current().JObject?
    }

    /** `arrayLength()`; `GetArray` asserts the current value is an array. */
    function ArrayLength(): (n: nat)
      requires Valid() && IsArray()
      reads this
      ensures n == |Current().elements|
    {
      |Current().elements|
    }

    /** `pushKey(key)`: when the current object has the key, its (first)
        value is pushed and the result is true; otherwise nothing changes. */
    method PushKey(key: string) returns (found: bool)
      requires Valid() && IsObject()
      modifies this
      ensures Valid()
      ensures found <==> exists j | 0 <= j < |old(Current()).members| :: old(Current()).members[j].0 == key
      ensures found ==> values == old(values) + [FindMember(old(Current()).members, key).value]
                          && path == old(path) + [Member(FirstIndex(old(Current()).members, key).value)]
      ensures !found ==> values == old(values) && path == old(path)
    {
      var r := FirstIndex(Current().members, key);
      if r.Some? {
        values := values + [Current().members[r.value].1];
        path := path + [Member(r.value)];
        return true;
      }
      return false;
    }

    /** `popKey()` and `popIndex()`: the top of the stack is dropped. Only a
        stack above the root can be popped and still have a current value. */
    method Pop()
      requires Valid() && |values| >= 2
      modifies this
      ensures Valid()
      ensures values == old(values)[..|old(values)| - 1] && path == old(path)[..|old(path)| - 1]
    {
      values := values[..|values| - 1];
      path := path[..|path| - 1];
    }

    /** `pushIndex(index)`: pushes the element and returns true when the
        index is within the current array; otherwise nothing changes. */
    method PushIndex(index: nat)
      returns (found: bool)
      requires Valid() && IsArray() && index < 0x1_0000_0000
      modifies this
      ensures Valid()
      ensures found <==> index < |old(Current()).elements|
      ensures found ==> values == old(values) + [old(Current()).elements[index]] && path == old(path) + [Element(index)]
      ensures !found ==> values == old(values) && path == old(path)
    {
      if index < |Current().elements| {
        values := values + [Current().elements[index]];
        path := path + [Element(index)];
        return true;
      }
      return false;
    }

    /** `field(key, outValue)`: when the key exists, `outValue` becomes what
        `read` makes of its value and the result is true; otherwise false
        with `outValue` untouched. The stack is as before either way. */
    method Field<T>(key: string, read: Json -> T, outValue: T) returns (found: bool, outValue': T)
      requires Valid() && IsObject()
      modifies this
      ensures Valid() && values == old(values) && path == old(path)
      ensures found <==> FindMember(old(Current()).members, key).Some?
      ensures found ==> outValue' == read(FindMember(old(Current()).members, key).value)
      ensures !found ==> outValue' == outValue
    {
      found := PushKey(key);
      if found {
        outValue' := read(Current());
        Pop();
      } else {
        outValue' := outValue;
      }
    }

    /** `arrayElement(index, outValue)`: as `field`, for an array element. */
    method ArrayElement<T>(index: nat, read: Json -> T, outValue: T) returns (found: bool, outValue': T)
      requires Valid() && IsArray() && index < 0x1_0000_0000
      modifies this
      ensures Valid() && values == old(values) && path == old(path)
      ensures found <==> index < |old(Current()).elements|
      ensures found ==> outValue' == read(old(Current()).elements[index])
      ensures !found ==> outValue' == outValue
    {
      found := PushIndex(index);
      if found {
        outValue' := read(Current());
        Pop();
      } else {
        outValue' := outValue;
      }
    }

    /** The array `forEach(f)`: f is called with 0, 1, ... in order, each
        time with that element on top of the stack; the results of the calls
        are returned, and the stack is restored. */
    method ForEachElement<R>(f: (nat, Json) -> R) returns (calls: seq<R>)
      requires Valid() && IsArray()
      modifies this
      ensures Valid() && values == old(values) && path == old(path)
      ensures |calls| == |Current().elements|
      ensures forall i | 0 <= i < |calls| :: calls[i] == f(i, Current().elements[i])
    {
      var elements := Current().elements;
      calls := [];
      var i := 0;
      while i < |elements|
        invariant Valid() && values == old(values) && path == old(path)
        invariant 0 <= i <= |elements| && IsArray() && elements == Current().elements
        invariant |calls| == i && forall j | 0 <= j < i :: calls[j] == f(j, elements[j])
      {
        values := values + [elements[i]];
        path := path + [Element(i)];
        calls := calls + [f(i, Current())];
        Pop();
        i := i + 1;
      }
    }

    /** The object `forEach(f)`: f is called with each member's key, in
        document order, with that member's value on top of the stack. */
    method ForEachMember<R>(f: (string, Json) -> R) returns (calls: seq<R>)
      requires Valid() && IsObject()
      modifies this
      ensures Valid() && values == old(values) && path == old(path)
      ensures |calls| == |Current().members|
      ensures forall i | 0 <= i < |calls| :: calls[i] == f(Current().members[i].0, Current().members[i].1)
    {
      var members := Current().members;
      calls := [];
      for i := 0 to |members|
        invariant Valid() && values == old(values) && path == old(path)
        invariant IsObject() && members == Current().members
        invariant |calls| == i && forall j | 0 <= j < i :: calls[j] == f(members[j].0, members[j].1)
      {
        values := values + [members[i].1];
        path := path + [Member(i)];
        calls := calls + [f(members[i].0, Current())];
        Pop();
      }
    }

    /** `forEach(key, f)` for an array at `key`: false, with no call, when
        the key is missing. */
    method ForEachElementAtKey<R>(key: string, f: (nat, Json) -> R) returns (found: bool, calls: seq<R>)
      requires Valid() && IsObject()
      requires FindMember(Current().members, key).Some? ==> FindMember(Current().members, key).value.JArray?
      modifies this
      ensures Valid() && values == old(values) && path == old(path)
      ensures found <==> FindMember(Current().members, key).Some?
      ensures !found ==> calls == []
      ensures found ==> var a := FindMember(Current().members, key).value.elements;
                        |calls| == |a| && forall i | 0 <= i < |a| :: calls[i] == f(i, a[i])
    {
      found := PushKey(key);
      calls := [];
      if found {
        calls := ForEachElement(f);
        Pop();
      }
    }

    /** `forEach(key, f)` for an object at `key`. */
    method ForEachMemberAtKey<R>(key: string, f: (string, Json) -> R) returns (found: bool, calls: seq<R>)
      requires Valid() && IsObject()
      requires FindMember(Current().members, key).Some? ==> FindMember(Current().members, key).value.JObject?
      modifies this
      ensures Valid() && values == old(values) && path == old(path)
      ensures found <==> FindMember(Current().members, key).Some?
      ensures !found ==> calls == []
      ensures found ==> var o := FindMember(Current().members, key).value.members;
                        |calls| == |o| && forall i | 0 <= i < |o| :: calls[i] == f(o[i].0, o[i].1)
    {
      found := PushKey(key);
      calls := [];
      if found {
        calls := ForEachMember(f);
        Pop();
      }
    }

    /** `forEach(index, f)` for an array at position `index`: false, with no
        call, when the index is out of range. */
    method ForEachElementAtIndex<R>(index: nat, f: (nat, Json) -> R) returns (found: bool, calls: seq<R>)
      requires Valid() && IsArray() && index < 0x1_0000_0000
      requires index < |Current().elements| ==> Current().elements[index].JArray?
      modifies this
      ensures Valid() && values == old(values) && path == old(path)
      ensures found <==> index < |Current().elements|
      ensures !found ==> calls == []
      ensures found ==> var a := Current().elements[index].elements;
                        |calls| == |a| && forall i | 0 <= i < |a| :: calls[i] == f(i, a[i])
    {
      found := PushIndex(index);
      calls := [];
      if found {
        calls := ForEachElement(f);
        Pop();
      }
    }

    /** `forEach(index, f)` for an object at position `index`. */
    method ForEachMemberAtIndex<R>(index: nat, f: (string, Json) -> R) returns (found: bool, calls: seq<R>)
      requires Valid() && IsArray() && index < 0x1_0000_0000
      requires index < |Current().elements| ==> Current().elements[index].JObject?
      modifies this
      ensures Valid() && values == old(values) && path == old(path)
      ensures found <==> index < |Current().elements|
      ensures !found ==> calls == []
      ensures found ==> var o := Current().elements[index].members;
                        |calls| == |o| && forall i | 0 <= i < |o| :: calls[i] == f(o[i].0, o[i].1)
    {
      found := PushIndex(index);
      calls := [];
      if found {
        calls := ForEachMember(f);
        Pop();
      }
    }
  }

  /** Reading an enumerator that has a name table: the string value is
      looked up with `from_string`; an unknown name leaves `outValue` as it
      was. */
  function ReadEnum<E>(entries: seq<(E, string)>, v: Json, outValue: E): (r: E)
    requires v.JString?
    ensures EnumUtils.FirstNamed(entries, v.s).None? ==> r == outValue
    ensures EnumUtils.FirstNamed(entries, v.s).Some? ==>
              exists i | 0 <= i < |entries| :: entries[i] == (r, v.s)
  {
    match EnumUtils.FirstNamed(entries, v.s)
    case Some(e) => e
    case None => outValue
  }

  /** Reading an enumerator without a name table: its integer value. */
  function ReadEnumInt(v: Json): (r: int)
    requires IsInt32(v)
    ensures -0x8000_0000 <= r < 0x8000_0000 && JInt(r) == v
  {
    v.i
  }

  /** What `JsonWriter` writes for an enumerator with a name table (its
      `to_string` name) reads back as the same enumerator, whatever the
      out-value held, when the table's enumerators and names are distinct. */
  lemma EnumRoundTrip<E>(entries: seq<(E, string)>, i: nat, outValue: E)
    requires EnumUtils.DistinctTable(entries) && i < |entries|
    ensures ReadEnum(entries, JString(EnumUtils.ToString(entries, entries[i].0)), outValue) == entries[i].0
  {
    EnumUtils.RoundTrip(entries, i);
  }
}
