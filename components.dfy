/** The static component table of code/anker/core/anker_components.cpp and
    its two lookup maps. A `const ComponentInfo*` into the table is modelled
    as an index into `Components()`. */
module Components {
  import opened Wrappers
  import opened EnumFlags
  import opened ComponentTypes

  /** `ComponentFlag::None` and `ComponentFlag::HideInInspector`. */
  const FlagNone: Mask := 0
  const HideInInspector: Mask := 1

  /** `ComponentInfo` without its function pointers. */
  datatype ComponentInfo = ComponentInfo(name: string, id: int, flags: Flags)

  /** `registerComponent<Component>(name, flags)`. */
  function Register(t: ComponentType, name: string, flag: Mask): ComponentInfo {
    ComponentInfo(name, TypeHash(t), FromEnum(flag))
  }

  /** The `Components` array, in declaration order. */
  function Components(): (r: seq<ComponentInfo>)
    ensures |r| == 11
  {
    [ Register(EntityName, "Name", HideInInspector),
      Register(SceneNode, "SceneNode", FlagNone),
      Register(Transform2D, "Transform2D", FlagNone),
      Register(Camera, "Camera", FlagNone),
      Register(Sprite, "Sprite", FlagNone),
      Register(PhysicsBody, "PhysicsBody", FlagNone),
      Register(PlayerController, "PlayerController", FlagNone),
      Register(Follower, "Follower", FlagNone),
      Register(EditorCamera, "EditorCamera", FlagNone),
      Register(MapLayer, "MapLayer", FlagNone),
      Register(Parallax, "Parallax", FlagNone) ]
  }

  function Ids(t: seq<ComponentInfo>): (r: seq<int>)
    ensures |r| == |t| && forall i | 0 <= i < |t| :: r[i] == t[i].id
  {
    seq(|t|, i requires 0 <= i < |t| => t[i].id)
  }

  function Names(t: seq<ComponentInfo>): (r: seq<string>)
    ensures |r| == |t| && forall i | 0 <= i < |t| :: r[i] == t[i].name
  {
    seq(|t|, i requires 0 <= i < |t| => t[i].name)
  }

  /** The last position holding `k`, if any. */
  function LastWith<K(==)>(keys: seq<K>, k: K): (r: Option<nat>)
    ensures r.None? <==> forall i | 0 <= i < |keys| :: keys[i] != k
    ensures r.Some? ==> r.value < |keys| && keys[r.value] == k
                        && forall j | r.value < j < |keys| :: keys[j] != k
  {
    if |keys| == 0 then None
    else if keys[|keys| - 1] == k then Some(|keys| - 1)
    else LastWith(keys[..|keys| - 1], k)
  }

  /** The map-building loops of `ComponentsById` and `ComponentsByName`:
      `map[key(info)] = &info` over the table in order, so for a key shared by
      several entries the last one wins. */
  method BuildIndex<K(==)>(keys: seq<K>) returns (m: map<K, nat>)
    ensures forall k :: k in m <==> LastWith(keys, k).Some?
    ensures forall k | k in m :: LastWith(keys, k) == Some(m[k])
  {
    m := map[];
    var i := 0;
    while i < |keys|
      invariant 0 <= i <= |keys|
      invariant forall k :: k in m <==> LastWith(keys[..i], k).Some?
      invariant forall k | k in m :: LastWith(keys[..i], k) == Some(m[k])
    {
      assert keys[..i + 1][..i] == keys[..i];
      m := m[keys[i] := i];
      i := i + 1;
    }
    assert keys[..i] == keys;
  }

  /** The behaviour of `LastWith` on a table whose keys are pairwise
      distinct: each entry is found at its own position. */
  lemma LastWithDistinct<K>(keys: seq<K>, i: nat)
    requires forall a, b | 0 <= a < b < |keys| :: keys[a] != keys[b]
    requires i < |keys|
    ensures LastWith(keys, keys[i]) == Some(i)
  {
  }

  /** `componentById(id)`: the table entry that `ComponentsById` maps `id`
      to, or null. */
  function ComponentById(id: int): (r: Option<ComponentInfo>)
    ensures r.None? <==> forall i | 0 <= i < 11 :: Components()[i].id != id
    ensures r.Some? ==> r.value.id == id && r.value in Components()
  {
    match LastWith(Ids(Components()), id)
    case Some(i) => Some(Components()[i])
    case None => None
  }

  /** `componentByName(name)`: the entry that `ComponentsByName` maps `name`
      to, or null. */
  function ComponentByName(name: string): (r: Option<ComponentInfo>)
    ensures r.None? <==> forall i | 0 <= i < 11 :: Components()[i].name != name
    ensures r.Some? ==> r.value.name == name && r.value in Components()
  {
    match LastWith(Names(Components()), name)
    case Some(i) => Some(Components()[i])
    case None => None
  }

  /** The lookups over the maps the static initialisers build agree with
      `componentById` and `componentByName`. */
  method LookupsAgree(id: int, name: string) returns (byId: Option<ComponentInfo>, byName: Option<ComponentInfo>)
    ensures byId == ComponentById(id) && byName == ComponentByName(name)
  {
    var t := Components();
    var idMap := BuildIndex(Ids(t));
    var nameMap := BuildIndex(Names(t));
    byId := if id in idMap then Some(t[idMap[id]]) else None;
    byName := if name in nameMap then Some(t[nameMap[name]]) else None;
  }

  /** The table's ids and names are pairwise distinct, so every entry is
      found under its own id and its own name. */
  lemma EveryEntryFound(i: nat)
    requires i < 11
    ensures ComponentById(Components()[i].id) == Some(Components()[i])
    ensures ComponentByName(Components()[i].name) == Some(Components()[i])
  {
    IdsDistinct();
    NamesDistinct();
    LastWithDistinct(Ids(Components()), i);
    LastWithDistinct(Names(Components()), i);
  }

  /** No two table entries share an id. */
  lemma IdsDistinct()
    ensures forall a, b | 0 <= a < b < 11 :: Ids(Components())[a] != Ids(Components())[b]
  {
    var t := Components();
    forall a, b | 0 <= a < b < 11 ensures t[a].id != t[b].id {
      TypeHashInjective(
        [EntityName, SceneNode, Transform2D, Camera, Sprite, PhysicsBody,
         PlayerController, Follower, EditorCamera, MapLayer, Parallax][a],
        [EntityName, SceneNode, Transform2D, Camera, Sprite, PhysicsBody,
         PlayerController, Follower, EditorCamera, MapLayer, Parallax][b]);
    }
  }

  /** No two table entries share a name. */
  lemma NamesDistinct()
    ensures forall a, b | 0 <= a < b < 11 :: Names(Components())[a] != Names(Components())[b]
  {
  }

  /** Only "Name" carries `HideInInspector`; every other entry has no flag
      set. */
  lemma OnlyNameHidden()
    ensures forall i | 0 <= i < 11 ::
              Has(Components()[i].flags, HideInInspector) <==> Components()[i].name == "Name"
    ensures forall i | 1 <= i < 11 :: Components()[i].flags.IsEmpty()
  {
  }

  /** `components()`: the whole table, in declaration order. */
  function ComponentList(): (r: seq<ComponentInfo>)
    ensures |r| == 11 && r[0].name == "Name" && r[10].name == "Parallax"
    ensures Names(r) == ["Name", "SceneNode", "Transform2D", "Camera", "Sprite", "PhysicsBody",
                         "PlayerController", "Follower", "EditorCamera", "MapLayer", "Parallax"]
  {
    Components()
  }
}
