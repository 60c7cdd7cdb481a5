/** Component type identities shared by the registry and the static
    component table. */
module ComponentTypes {

  /** The component types the engine registers. */
  datatype ComponentType =
    | EntityName | SceneNode | Transform2D | Camera | Sprite | PhysicsBody
    | PlayerController | Follower | EditorCamera | MapLayer | Parallax

  /** `entt::type_hash<Component>()`. The real value is a hash of the type
      name; the model only relies on distinct types having distinct ids. */
  function TypeHash(t: ComponentType): int {
    match t
    case EntityName => 1
    case SceneNode => 2
    case Transform2D => 3
    case Camera => 4
    case Sprite => 5
    case PhysicsBody => 6
    case PlayerController => 7
    case Follower => 8
    case EditorCamera => 9
    case MapLayer => 10
    case Parallax => 11
  }

  lemma TypeHashInjective(t: ComponentType, u: ComponentType)
    ensures TypeHash(t) == TypeHash(u) ==> t == u
  {
  }
}

/** The editor's `ComponentRegistry`
    (code/anker/core/anker_component_registry.cpp). */
module ComponentRegistry {
  import opened Wrappers
  import opened ComponentTypes

  /** `ComponentInfo` without its `std::function` members. */
  datatype ComponentInfo = ComponentInfo(name: string, sortOrder: int, id: int, hideInEditor: bool)

  /** `std::upper_bound` by sort order, stated as a function: the number of
      leading keys that are not greater than `x`. */
  function FirstAbove(keys: seq<int>, x: int): (p: nat)
    ensures p <= |keys|
  {
    if |keys| == 0 || keys[0] > x then 0 else 1 + FirstAbove(keys[1..], x)
  }

  predicate NonDecreasing(keys: seq<int>) {
    forall a, b | 0 <= a < b < |keys| :: keys[a] <= keys[b]
  }

  /** In a non-decreasing sequence the upper bound is the unique split point
      with every key before it at most `x` and every key after it above. */
  lemma {:induction false} FirstAboveSplits(keys: seq<int>, x: int, p: nat)
    requires NonDecreasing(keys)
    requires p <= |keys|
    requires forall i | 0 <= i < p :: keys[i] <= x
    requires forall i | p <= i < |keys| :: keys[i] > x
    ensures FirstAbove(keys, x) == p
  {
    if |keys| > 0 && p > 0 {
      FirstAboveSplits(keys[1..], x, p - 1);
    }
  }

  /** `std::upper_bound` (a binary search) over a non-decreasing key
      sequence. */
  method UpperBound(keys: seq<int>, x: int) returns (p: nat)
    requires NonDecreasing(keys)
    ensures p == FirstAbove(keys, x)
    ensures forall i | 0 <= i < p :: keys[i] <= x
    ensures forall i | p <= i < |keys| :: keys[i] > x
  {
    var lo, hi := 0, |keys|;
    while lo < hi
      invariant 0 <= lo <= hi <= |keys|
      invariant forall i | 0 <= i < lo :: keys[i] <= x
      invariant forall i | hi <= i < |keys| :: keys[i] > x
    {
      var mid := lo + (hi - lo) / 2;
      if keys[mid] <= x {
        lo := mid + 1;
      } else {
        hi := mid;
      }
    }
    p := lo;
    FirstAboveSplits(keys, x, p);
  }

  /** Info `i` comes before info `j` in `m_sortedInfos`: by sort order, and
      by registration order among equal sort orders. */
  predicate Precedes(infos: seq<ComponentInfo>, i: nat, j: nat)
    requires i < |infos| && j < |infos|
  {
    infos[i].sortOrder < infos[j].sortOrder
    || (infos[i].sortOrder == infos[j].sortOrder && i < j)
  }

  /** `m_sortedInfos` lists every info of `infos` once, ordered by sort order
      and then by registration. */
  predicate SortedValid(infos: seq<ComponentInfo>, sorted: seq<nat>) {
    && |sorted| == |infos|
    && (forall k | 0 <= k < |sorted| :: sorted[k] < |infos|)
    && (forall i | 0 <= i < |infos| :: i in sorted)
    && (forall a, b | 0 <= a < b < |sorted| :: Precedes(infos, sorted[a], sorted[b]))
  }

  /** The two lookup maps send each registered id and name to its info and
      hold nothing else. */
  predicate MapsValid(infos: seq<ComponentInfo>, byId: map<int, nat>, byName: map<string, nat>) {
    && |byId| == |infos| && |byName| == |infos|
    && (forall id | id in byId :: byId[id] < |infos| && infos[byId[id]].id == id)
    && (forall i | 0 <= i < |infos| :: infos[i].id in byId && byId[infos[i].id] == i)
    && (forall n | n in byName :: byName[n] < |infos| && infos[byName[n]].name == n)
    && (forall i | 0 <= i < |infos| :: infos[i].name in byName && byName[infos[i].name] == i)
  }

  /** The infos along a sequence of indices. */
  function Along(infos: seq<ComponentInfo>, sorted: seq<nat>): (r: seq<ComponentInfo>)
    requires forall k | 0 <= k < |sorted| :: sorted[k] < |infos|
    ensures |r| == |sorted| && forall k | 0 <= k < |sorted| :: r[k] == infos[sorted[k]]
  {
    if |sorted| == 0 then [] else [infos[sorted[0]]] + Along(infos, sorted[1..])
  }

  function SortOrders(infos: seq<ComponentInfo>): (r: seq<int>)
    ensures |r| == |infos| && forall k | 0 <= k < |infos| :: r[k] == infos[k].sortOrder
  {
    if |infos| == 0 then [] else [infos[0].sortOrder] + SortOrders(infos[1..])
  }

  /** Along a valid `m_sortedInfos` the sort orders do not decrease. */
  lemma SortedKeysNonDecreasing(infos: seq<ComponentInfo>, sorted: seq<nat>)
    requires SortedValid(infos, sorted)
    ensures NonDecreasing(SortOrders(Along(infos, sorted)))
  {
    var keys := SortOrders(Along(infos, sorted));
    forall a, b | 0 <= a < b < |keys| ensures keys[a] <= keys[b] {
      assert Precedes(infos, sorted[a], sorted[b]);
    }
  }

  /** Appending a new info and inserting its index at the upper bound of its
      sort order keeps `m_sortedInfos` valid. */
  lemma InsertKeepsOrder(infos: seq<ComponentInfo>, sorted: seq<nat>, info: ComponentInfo, p: nat)
    requires SortedValid(infos, sorted)
    requires p <= |sorted|
    requires forall i | 0 <= i < p :: infos[sorted[i]].sortOrder <= info.sortOrder
    requires forall i | p <= i < |sorted| :: infos[sorted[i]].sortOrder > info.sortOrder
    ensures SortedValid(infos + [info], sorted[..p] + [|infos|] + sorted[p..])
  {
    var infos', sorted' := infos + [info], sorted[..p] + [|infos|] + sorted[p..];
    InsertedPrecedes(infos, sorted, info, p, infos', sorted');
    InsertedCovers(infos, sorted, info, p, infos', sorted');
  }

  lemma InsertedPrecedes(infos: seq<ComponentInfo>, sorted: seq<nat>, info: ComponentInfo, p: nat,
                         infos': seq<ComponentInfo>, sorted': seq<nat>)
    requires SortedValid(infos, sorted)
    requires p <= |sorted|
    requires forall i | 0 <= i < p :: infos[sorted[i]].sortOrder <= info.sortOrder
    requires forall i | p <= i < |sorted| :: infos[sorted[i]].sortOrder > info.sortOrder
    requires infos' == infos + [info] && sorted' == sorted[..p] + [|infos|] + sorted[p..]
    ensures forall a, b | 0 <= a < b < |sorted'| :: Precedes(infos', sorted'[a], sorted'[b])
  {
    forall k | 0 <= k < |sorted| ensures infos'[sorted[k]] == infos[sorted[k]] { }
    forall a, b | 0 <= a < b < |sorted'| ensures Precedes(infos', sorted'[a], sorted'[b]) {
      if b < p {
        assert sorted'[a] == sorted[a] && sorted'[b] == sorted[b];
        assert Precedes(infos, sorted[a], sorted[b]);
      } else if b == p {
        assert sorted'[a] == sorted[a];
      } else if a == p {
        assert sorted'[b] == sorted[b - 1];
      } else if a < p {
        assert sorted'[a] == sorted[a] && sorted'[b] == sorted[b - 1];
        assert Precedes(infos, sorted[a], sorted[b - 1]);
      } else {
        assert sorted'[a] == sorted[a - 1] && sorted'[b] == sorted[b - 1];
        assert Precedes(infos, sorted[a - 1], sorted[b - 1]);
      }
    }
  }

  lemma InsertedCovers(infos: seq<ComponentInfo>, sorted: seq<nat>, info: ComponentInfo, p: nat,
                       infos': seq<ComponentInfo>, sorted': seq<nat>)
    requires SortedValid(infos, sorted)
    requires p <= |sorted|
    requires infos' == infos + [info] && sorted' == sorted[..p] + [|infos|] + sorted[p..]
    ensures |sorted'| == |infos'|
    ensures forall k | 0 <= k < |sorted'| :: sorted'[k] < |infos'|
    ensures forall i | 0 <= i < |infos'| :: i in sorted'
  {
    forall i | 0 <= i < |infos'| ensures i in sorted' {
      if i < |infos| {
        assert i in sorted;
        var k :| 0 <= k < |sorted| && sorted[k] == i;
        if k < p { assert sorted'[k] == i; } else { assert sorted'[k + 1] == i; }
      } else {
        assert sorted'[p] == i;
      }
    }
  }

  lemma FirstAboveIsEnd(infos: seq<ComponentInfo>, sorted: seq<nat>, x: int)
    requires SortedValid(infos, sorted)
    requires forall i | 0 <= i < |infos| :: infos[i].sortOrder <= x
    ensures FirstAbove(SortOrders(Along(infos, sorted)), x) == |sorted|
  {
    SortedKeysNonDecreasing(infos, sorted);
    var keys := SortOrders(Along(infos, sorted));
    assert forall k | 0 <= k < |sorted| :: keys[k] == infos[sorted[k]].sortOrder;
    FirstAboveSplits(keys, x, |keys|);
  }

  /** Entering a new info whose id and name are both unregistered keeps the
      maps valid. */
  lemma EnterKeepsMaps(infos: seq<ComponentInfo>, byId: map<int, nat>, byName: map<string, nat>, info: ComponentInfo)
    requires MapsValid(infos, byId, byName)
    requires info.id !in byId && info.name !in byName
    ensures MapsValid(infos + [info], byId[info.id := |infos|], byName[info.name := |infos|])
  {
    var infos' := infos + [info];
    forall i | 0 <= i < |infos| ensures infos'[i] == infos[i] { }
  }

  /** The infos the registry constructor registers, in call order. Only
      `EntityName` carries the `Hidden` reflection attribute, so only "Name"
      is hidden in the editor. */
  function DefaultInfos(): (r: seq<ComponentInfo>)
    ensures |r| == 6
  {
    [ ComponentInfo("Name", -2, TypeHash(EntityName), true),
      ComponentInfo("Transform2D", -1, TypeHash(Transform2D), false),
      ComponentInfo("Camera", 0, TypeHash(Camera), false),
      ComponentInfo("Sprite", 0, TypeHash(Sprite), false),
      ComponentInfo("PhysicsBody", 0, TypeHash(PhysicsBody), false),
      ComponentInfo("EditorCamera", 0, TypeHash(EditorCamera), false) ]
  }

  /** The indices `0, 1, ..., n - 1`. */
  function Range(n: nat): (r: seq<nat>)
    ensures |r| == n && forall i | 0 <= i < n :: r[i] == i
  {
    if n == 0 then [] else Range(n - 1) + [n - 1]
  }

  /** The six default components have distinct ids and names, and sort
      orders that never decrease. */
  lemma DefaultInfosDistinct()
    ensures forall i, j | 0 <= i < j < 6 :: DefaultInfos()[i].id != DefaultInfos()[j].id
    ensures forall i, j | 0 <= i < j < 6 :: DefaultInfos()[i].name != DefaultInfos()[j].name
    ensures forall i, j | 0 <= i < j < 6 :: DefaultInfos()[i].sortOrder <= DefaultInfos()[j].sortOrder
  {
  }

  lemma DefaultInfosWhole()
    ensures DefaultInfos()[..6] == DefaultInfos()
  {
  }

  /** Before the `k`-th default registration, its id and name are new and
      its upper bound is the end of the sorted view. */
  lemma DefaultStep(infos: seq<ComponentInfo>, sorted: seq<nat>, byId: map<int, nat>, byName: map<string, nat>, k: nat)
    requires k < 6 && SortedValid(infos, sorted) && MapsValid(infos, byId, byName)
    requires infos == DefaultInfos()[..k] && sorted == Range(k)
    ensures DefaultInfos()[k].id !in byId && DefaultInfos()[k].name !in byName
    ensures FirstAbove(SortOrders(Along(infos, sorted)), DefaultInfos()[k].sortOrder) == k
  {
    var d := DefaultInfos();
    DefaultInfosDistinct();
    assert forall i | 0 <= i < |infos| :: infos[i] == d[i];
    FirstAboveIsEnd(infos, sorted, d[k].sortOrder);
  }

  lemma DefaultStepResult(k: nat)
    requires k < 6
    ensures Range(k)[..k] + [k] + Range(k)[k..] == Range(k + 1)
    ensures DefaultInfos()[..k] + [DefaultInfos()[k]] == DefaultInfos()[..k + 1]
  {
    assert Range(k)[..k] == Range(k) && Range(k)[k..] == [];
  }

  /** The `m_sortedInfos.insert(std::upper_bound(...), info)` step on its
      own: the index of the new info goes in at the upper bound of its sort
      order, which keeps the sorted view valid. */
  method InsertSorted(infos: seq<ComponentInfo>, sorted: seq<nat>, info: ComponentInfo)
    returns (p: nat, sorted': seq<nat>)
    requires SortedValid(infos, sorted)
    ensures p == FirstAbove(SortOrders(Along(infos, sorted)), info.sortOrder) && p <= |sorted|
    ensures sorted' == sorted[..p] + [|infos|] + sorted[p..]
    ensures SortedValid(infos + [info], sorted')
  {
    SortedKeysNonDecreasing(infos, sorted);
    var keys := SortOrders(Along(infos, sorted));
    p := UpperBound(keys, info.sortOrder);
    assert forall k | 0 <= k < |sorted| :: keys[k] == infos[sorted[k]].sortOrder;
    InsertKeepsOrder(infos, sorted, info, p);
    var n: nat := |infos|;
    sorted' := sorted[..p] + [n] + sorted[p..];
  }

  /** The registry. Infos are owned in registration order by `infos`;
      a `const ComponentInfo*` is an index into `infos`. */
  class Registry {
    var infos: seq<ComponentInfo>
    var sortedInfos: seq<nat>
    var byId: map<int, nat>
    var byName: map<string, nat>

    /** The invariant `addComponentInfo` maintains and checks: equal sizes,
        the sorted view, and the two lookup maps. */
    ghost predicate Valid()
      reads this
    {
      SortedValid(infos, sortedInfos) && MapsValid(infos, byId, byName)
    }

    /** `componentByID`: the registered info with that id, or null. */
    function ComponentById(id: int): (r: Option<ComponentInfo>)
      reads this
      requires Valid()
      ensures r.None? <==> forall i | 0 <= i < |infos| :: infos[i].id != id
      ensures r.Some? ==> r.value.id == id && r.value in infos
    {
      if id in byId then Some(infos[byId[id]]) else None
    }

    /** `componentByName`: the registered info with that name, or null. */
    function ComponentByName(name: string): (r: Option<ComponentInfo>)
      reads this
      requires Valid()
      ensures r.None? <==> forall i | 0 <= i < |infos| :: infos[i].name != name
      ensures r.Some? ==> r.value.name == name && r.value in infos
    {
      if name in byName then Some(infos[byName[name]]) else None
    }

    /** `components()`: the infos in sorted order, each once. */
    function Components(): (r: seq<ComponentInfo>)
      reads this
      requires Valid()
      ensures |r| == |infos|
      ensures NonDecreasing(SortOrders(r))
      ensures forall i | 0 <= i < |infos| :: infos[i] in r
    {
      SortedKeysNonDecreasing(infos, sortedInfos);
      var r := Along(infos, sortedInfos);
      assert forall i | 0 <= i < |infos| :: infos[i] in r by {
        forall i | 0 <= i < |infos| ensures infos[i] in r {
          assert i in sortedInfos;
          var k :| 0 <= k < |sortedInfos| && sortedInfos[k] == i;
          assert r[k] == infos[i];
        }
      }
      r
    }

    /** The constructor's six `registerComponent` calls: Name (sort order
        -2), Transform2D (-1), Camera, Sprite, PhysicsBody and EditorCamera
        (0 each), one after the other. Each is an `addComponentInfo` of a fresh
        id and name whose sort order is not below any registered one, so the
        sorted view lists them in exactly the call order. */
    constructor ()
      ensures Valid()
      ensures infos == DefaultInfos() && sortedInfos == Range(6)
    {
      infos, sortedInfos, byId, byName := [], [], map[], map[];
      new;
      var d := DefaultInfos();
      DefaultInfosDistinct();
      for k := 0 to 6
        invariant Valid()
        invariant infos == d[..k] && sortedInfos == Range(k)
      {
        DefaultStep(infos, sortedInfos, byId, byName, k);
        AddComponentInfo(d[k]);
        DefaultStepResult(k);
      }
      DefaultInfosWhole();
    }

    /** `addComponentInfo(info)`. An info whose id or name is already
        registered fails the check and changes nothing. Otherwise the info is
        appended to `m_infos`, inserted into `m_sortedInfos` after every info
        whose sort order is not above its own, and entered in both maps. */
    method AddComponentInfo(info: ComponentInfo)
      requires Valid()
      modifies this
      ensures Valid()
      ensures (info.id !in old(byId) && info.name !in old(byName)) ==>
                ComponentById(info.id) == Some(info) && ComponentByName(info.name) == Some(info)
      ensures (info.id in old(byId) || info.name in old(byName)) ==>
                infos == old(infos) && sortedInfos == old(sortedInfos)
                && byId == old(byId) && byName == old(byName)
      ensures (info.id !in old(byId) && info.name !in old(byName)) ==>
                var p := FirstAbove(SortOrders(Along(old(infos), old(sortedInfos))), info.sortOrder);
                && infos == old(infos) + [info]
                && p <= |old(sortedInfos)|
                && sortedInfos == old(sortedInfos)[..p] + [|old(infos)|] + old(sortedInfos)[p..]
                && byId == old(byId)[info.id := |old(infos)|]
                && byName == old(byName)[info.name := |old(infos)|]
    {
      if info.id in byId || info.name in byName {
        return;
      }
      var n := |infos|;
      var p, sorted' := InsertSorted(infos, sortedInfos, info);
      EnterKeepsMaps(infos, byId, byName, info);
      infos := infos + [info];
      sortedInfos := sorted';
      byId := byId[info.id := n];
      byName := byName[info.name := n];
    }
  }
}
