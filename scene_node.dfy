/** The scene graph of `SceneNode` objects
    (code/anker/core/anker_scene_node.hpp, anker_scene_node.cpp): one class
    holding every node of the arena, each node's parent pointer, child
    list, local transform and cached parent transform. A node is named by
    its id; the arena's fields are the nodes' fields indexed by id. */
module SceneNodes {
  import opened Wrappers
  import opened Math
  import opened SceneForest

  /** `Transform2D` (code/anker/core/anker_transform.hpp:7-13). */
  datatype Transform2D = Transform2D(position: Vec2, rotation: real, scale: Vec2, layer: nat)

  /** `Transform2D{}`: at the origin, unrotated, unit scale, layer 0. */
  const Identity := Transform2D(Vec2(0.0, 0.0), 0.0, Vec2(1.0, 1.0), 0)

  type Locals = map<NodeId, Transform2D>
  type Caches = map<NodeId, Option<Transform2D>>

  /** What `parentTransform()` computes for `n` when its cache is empty:
      the parent's local transform, or `Transform2D{}` for a root. */
  function ParentLocal(par: Parents, local: Locals, n: NodeId): Transform2D {
    if n in par && par[n].Some? && par[n].value in local then local[par[n].value] else Identity
  }

  /** The cache invariant: a filled cache holds what a fresh
      `parentTransform()` would give, which is the parent's local transform
      alone; ancestors above the parent do not enter it. Invalidation still
      clears the whole subtree. */
  predicate Coherent(par: Parents, local: Locals, cache: Caches) {
    forall n | n in cache && cache[n].Some? :: cache[n].value == ParentLocal(par, local, n)
  }

  /** The caches after every node of `s` is invalidated. */
  function Cleared(cache: Caches, s: set<NodeId>): Caches {
    map n | n in cache :: if n in s then None else cache[n]
  }

  /** Invalidating caches never makes one stale. */
  lemma ClearedCoherent(par: Parents, local: Locals, cache: Caches, s: set<NodeId>)
    requires Coherent(par, local, cache)
    ensures Coherent(par, local, Cleared(cache, s))
    ensures Cleared(cache, s).Keys == cache.Keys
    ensures forall n | n in cache && n in s :: Cleared(cache, s)[n] == None
    ensures forall n | n in cache && n !in s :: Cleared(cache, s)[n] == cache[n]
  {
  }

  /** Invalidating `a` and then `b` is invalidating both at once. */
  lemma ClearedTwice(cache: Caches, a: set<NodeId>, b: set<NodeId>)
    ensures Cleared(Cleared(cache, a), b) == Cleared(cache, a + b)
  {
  }

  /** Invalidating one node and then the rest of a set is invalidating
      the set. */
  lemma ClearedSplit(cache: Caches, s: set<NodeId>, n: NodeId)
    requires n in s
    ensures Cleared(Cleared(cache, {n}), s - {n}) == Cleared(cache, s)
  {
    ClearedTwice(cache, {n}, s - {n});
    assert {n} + (s - {n}) == s;
  }

  /** Invalidating a subtree inside one already invalidated changes nothing. */
  lemma ClearedAbsorb(cache: Caches, a: set<NodeId>, b: set<NodeId>)
    requires b <= a
    ensures Cleared(Cleared(cache, a), b) == Cleared(cache, a)
  {
  }

  /** Invalidating caches that are already empty changes nothing. */
  lemma ClearedIdle(cache: Caches, s: set<NodeId>)
    requires forall n | n in s && n in cache :: cache[n].None?
    ensures Cleared(cache, s) == cache
  {
  }

  /** Re-linking parents stays coherent once every node whose parent link
      changed has its cache cleared. */
  lemma RelinkCoherent(par: Parents, par': Parents, local: Locals, cache: Caches, s: set<NodeId>)
    requires Coherent(par, local, cache)
    requires forall n | n in par' && n !in s :: n in par && par'[n] == par[n]
    requires cache.Keys <= par'.Keys
    ensures Coherent(par', local, Cleared(cache, s))
  {
    forall n | n in Cleared(cache, s) && Cleared(cache, s)[n].Some?
      ensures Cleared(cache, s)[n].value == ParentLocal(par', local, n)
    {
      assert ParentLocal(par', local, n) == ParentLocal(par, local, n);
    }
  }

  /** Changing `x`'s local transform stays coherent once the caches of all
      of `x`'s children are cleared. */
  lemma LocalCoherent(par: Parents, local: Locals, x: NodeId, t: Transform2D, cache: Caches, s: set<NodeId>)
    requires Coherent(par, local, cache)
    requires forall n | n in par && par[n] == Some(x) :: n in s
    ensures Coherent(par, local[x := t], Cleared(cache, s))
  {
    forall n | n in Cleared(cache, s) && Cleared(cache, s)[n].Some?
      ensures Cleared(cache, s)[n].value == ParentLocal(par, local[x := t], n)
    {
      assert ParentLocal(par, local[x := t], n) == ParentLocal(par, local, n);
    }
  }

  /** Removing a node that is nobody's parent keeps the others coherent. */
  lemma RemoveCoherent(par: Parents, local: Locals, cache: Caches, x: NodeId)
    requires Coherent(par, local, cache)
    requires forall n | n in par && n != x :: par[n] != Some(x)
    ensures Coherent(par - {x}, local - {x}, cache - {x})
  {
    forall n | n in cache - {x} && (cache - {x})[n].Some?
      ensures (cache - {x})[n].value == ParentLocal(par - {x}, local - {x}, n)
    {
      assert ParentLocal(par - {x}, local - {x}, n) == ParentLocal(par, local, n);
    }
  }

  /** The class invariants of the arena as a value: consistent, acyclic
      parent and child links over the arena's nodes, a local transform and
      a cache slot per node, ids below `nextId`, and coherent caches. */
  ghost predicate GraphInv(f: Forest, local: Locals, cache: Caches, nextId: nat) {
    && Linked(f)
    && Acyclic(f.parent)
    && local.Keys == f.parent.Keys
    && cache.Keys == f.parent.Keys
    && (forall n | n in f.parent :: n < nextId)
    && Coherent(f.parent, local, cache)
  }

  /** Invalidating any set of caches keeps the invariant. */
  lemma ClearInv(f: Forest, local: Locals, cache: Caches, nextId: nat, s: set<NodeId>)
    requires GraphInv(f, local, cache, nextId)
    ensures GraphInv(f, local, Cleared(cache, s), nextId)
  {
  }

  /** Filling `x`'s cache with its parent's local transform keeps the
      invariant. */
  lemma FillInv(f: Forest, local: Locals, cache: Caches, nextId: nat, x: NodeId)
    requires GraphInv(f, local, cache, nextId) && x in f.parent
    ensures GraphInv(f, local, cache[x := Some(ParentLocal(f.parent, local, x))], nextId)
  {
  }

  /** `setLocalTransform`: a new local transform for `x`, with the caches
      strictly below `x` cleared, keeps the invariant. */
  lemma LocalInv(f: Forest, local: Locals, cache: Caches, nextId: nat, x: NodeId, t: Transform2D)
    requires GraphInv(f, local, cache, nextId) && x in f.parent
    ensures GraphInv(f, local[x := t], Cleared(cache, Desc(f.parent, x) - {x}), nextId)
  {
    ChildInChildrenDesc(f, x);
    DescBelow(f, x);
    LocalCoherent(f.parent, local, x, t, cache, Desc(f.parent, x) - {x});
  }

  /** A fresh root with the next id, the default transform and an empty
      cache keeps the invariant. */
  lemma AddRootInv(f: Forest, local: Locals, cache: Caches, nextId: nat)
    requires GraphInv(f, local, cache, nextId)
    ensures nextId !in f.parent
    ensures GraphInv(Forest(f.parent[nextId := None], f.children[nextId := []]),
                     local[nextId := Identity], cache[nextId := None], nextId + 1)
  {
    AddRootKeeps(f, nextId);
    var par' := f.parent[nextId := None];
    var local' := local[nextId := Identity];
    var cache' := cache[nextId := None];
    forall n | n in cache' && cache'[n].Some?
      ensures cache'[n].value == ParentLocal(par', local', n)
    {
      assert ParentLocal(par', local', n) == ParentLocal(f.parent, local, n);
    }
  }

  /** `setParent(p)` on `x`, with the caches of `x`'s old subtree cleared,
      keeps the invariant. */
  lemma SetParentInv(f: Forest, local: Locals, cache: Caches, nextId: nat, x: NodeId, p: Option<NodeId>)
    requires GraphInv(f, local, cache, nextId) && x in f.parent
    requires p.None? || (p.value in f.parent && p.value != x)
    ensures GraphInv(SetParentState(f, x, p), local, Cleared(cache, Desc(f.parent, x)), nextId)
  {
    SetParentKeeps(f, x, p);
    SetParentWithin(f, x, p);
    RelinkCoherent(f.parent, SetParentState(f, x, p).parent, local, cache, Desc(f.parent, x));
  }

  /** Removing a node that is a root without children keeps the invariant. */
  lemma RemoveInv(f: Forest, local: Locals, cache: Caches, nextId: nat, x: NodeId)
    requires GraphInv(f, local, cache, nextId) && x in f.parent
    requires f.parent[x].None? && f.children[x] == []
    ensures GraphInv(Removed(f, x), local - {x}, cache - {x}, nextId)
  {
    RemoveDetached(f, x);
    RemoveCoherent(f.parent, local, cache, x);
  }

  /** The scene-graph arena: every live `SceneNode`, by id. */
  class SceneGraph {
    /** `m_parent` of each node. */
    var parent: Parents
    /** `m_children` of each node. */
    var children: ChildLists
    /** `m_localTransform` of each node. */
    var local: Locals
    /** `m_cachedParentTransform` of each node. */
    var cache: Caches
    /** The id the next node gets. */
    var nextId: NodeId

    ghost function Links(): Forest
      reads this
    {
      Forest(parent, children)
    }

    ghost predicate Valid()
      reads this
    {
      GraphInv(Links(), local, cache, nextId)
    }

    /** An arena without nodes. */
    constructor ()
      ensures Valid()
      ensures parent == map[] && children == map[] && local == map[] && cache == map[] && nextId == 0
    {
      parent := map[];
      children := map[];
      local := map[];
      cache := map[];
      nextId := 0;
    }

    /** `localTransform()`. */
    function LocalTransform(x: NodeId): Transform2D
      reads this
      requires x in local
    {
      local[x]
    }

    /** `parent()`. */
    function Parent(x: NodeId): Option<NodeId>
      reads this
      requires x in parent
    {
      parent[x]
    }

    /** `hasParent()`. */
    predicate HasParent(x: NodeId)
      reads this
      requires x in parent
    {
      parent[x].Some?
    }

    /** `children()`. */
    function Children(x: NodeId): seq<NodeId>
      reads this
      requires x in children
    {
      children[x]
    }

    /** `invalidateCachedParentTransform()`: clears the caches of `n` and
        of every node below it. */
    method InvalidateCachedParentTransform(n: NodeId)
      requires Valid() && n in parent
      modifies this
      ensures Valid()
      ensures parent == old(parent) && children == old(children)
      ensures local == old(local) && nextId == old(nextId)
      ensures cache == Cleared(old(cache), Desc(parent, n))
      decreases Desc(parent, n), 1
    {
      ghost var c0 := cache;
      ClearInv(Links(), local, cache, nextId, {n});
      cache := Cleared(cache, {n});
      InvalidateCachedParentTransformInChildren(n);
      assert n in Desc(parent, n);
      ClearedSplit(c0, Desc(parent, n), n);
    }

    /** `invalidateCachedParentTransformInChildren()`: clears the caches of
        every node strictly below `n`, child by child. */
    method InvalidateCachedParentTransformInChildren(n: NodeId)
      requires Valid() && n in parent
      modifies this
      ensures Valid()
      ensures parent == old(parent) && children == old(children)
      ensures local == old(local) && nextId == old(nextId)
      ensures cache == Cleared(old(cache), Desc(parent, n) - {n})
      decreases Desc(parent, n), 0
    {
      var kids := children[n];
      for i := 0 to |kids|
        invariant Valid()
        invariant parent == old(parent) && children == old(children)
        invariant local == old(local) && nextId == old(nextId)
        invariant cache == Cleared(old(cache), ChildrenDesc(parent, kids[..i]))
      {
        NextChild(Links(), n, i);
        ClearedTwice(old(cache), ChildrenDesc(parent, kids[..i]), Desc(parent, kids[i]));
        InvalidateCachedParentTransform(kids[i]);
      }
      assert kids[..|kids|] == kids;
      DescBelow(Links(), n);
    }

    /** `setLocalTransform(transform)`: the caches strictly below `x` are
        cleared and `x` takes the new local transform. */
    method SetLocalTransform(x: NodeId, t: Transform2D)
      requires Valid() && x in parent
      modifies this
      ensures Valid()
      ensures parent == old(parent) && children == old(children) && nextId == old(nextId)
      ensures local == old(local)[x := t]
      ensures cache == Cleared(old(cache), Desc(parent, x) - {x})
    {
      LocalInv(Links(), local, cache, nextId, x, t);
      InvalidateCachedParentTransformInChildren(x);
      local := local[x := t];
    }

    /** `parentTransform()`: fills an empty cache with the parent's local
        transform (or `Transform2D{}` for a root) and returns the cache. */
    method ParentTransform(x: NodeId) returns (t: Transform2D)
      requires Valid() && x in parent
      modifies this
      ensures Valid()
      ensures t == ParentLocal(parent, local, x)
      ensures parent == old(parent) && children == old(children)
      ensures local == old(local) && nextId == old(nextId)
      ensures cache == old(cache)[x := Some(t)]
    {
      FillInv(Links(), local, cache, nextId, x);
      if cache[x].None? {
        var computed := if parent[x].Some? then local[parent[x].value] else Identity;
        cache := cache[x := Some(computed)];
      }
      t := cache[x].value;
    }

    /** The walk of `setParent` (lines 38-43): follows the parent links from
        `start` and reports whether it meets `target`. */
    method OnAncestorWalk(start: NodeId, target: NodeId) returns (found: bool)
      requires Acyclic(parent) && start in parent
      ensures found <==> OnWalk(parent, target, start)
    {
      ghost var k: nat :| RootedIn(parent, start, k);
      var node := Some(start);
      while node.Some?
        invariant node.Some? ==> RootedIn(parent, node.value, k)
        invariant OnWalk(parent, target, start) <==> node.Some? && OnWalk(parent, target, node.value)
        decreases if node.Some? then k + 1 else 0
      {
        var n := node.value;
        if n == target {
          return true;
        }
        if parent[n].Some? {
          OnWalkUnfold(parent, target, n);
          k := k - 1;
        }
        node := parent[n];
      }
      return false;
    }

    /** `setParent(newParent)`: nothing happens when `p` is already the
        parent; otherwise the caches of `x`'s subtree are cleared, a `p`
        below `x` is first handed to `x`'s old parent, and `x` leaves its
        old parent's list and is appended to `p`'s. */
    method SetParent(x: NodeId, p: Option<NodeId>)
      requires Valid() && x in parent
      requires p.None? || (p.value in parent && p.value != x)
      modifies this
      ensures Valid()
      ensures Links() == SetParentState(old(Links()), x, p)
      ensures parent[x] == p
      ensures local == old(local) && nextId == old(nextId)
      ensures cache == if p == old(parent[x]) then old(cache) else Cleared(old(cache), Desc(old(parent), x))
      decreases if p.Some? && IsAncestor(parent, x, p.value) then 1 else 0
    {
      if p == parent[x] {
        return;
      }
      ghost var f0 := Links();
      SetParentInv(f0, local, cache, nextId, x, p);
      SetParentSplit(f0, x, p);
      InvalidateCachedParentTransform(x);
      var below := false;
      if p.Some? {
        below := OnAncestorWalk(p.value, x);
      }
      if below {
        var y := p.value;
        SetParent(y, parent[x]);
        ClearedAbsorb(old(cache), Desc(f0.parent, x), Desc(f0.parent, y));
      }
      Relink(x, p);
    }

    /** Lines 45-59 of `setParent`: `x` leaves its parent's list, takes `p`
        as its parent and is appended to `p`'s list. */
    method Relink(x: NodeId, p: Option<NodeId>)
      requires x in parent && (parent[x].Some? ==> parent[x].value in children)
      requires p.None? || p.value in children
      modifies this
      ensures Links() == Move(old(Links()), x, p)
      ensures local == old(local) && cache == old(cache) && nextId == old(nextId)
    {
      var q := parent[x];
      if q.Some? {
        children := children[q.value := Erase(children[q.value], x)];
      }
      parent := parent[x := p];
      if p.Some? {
        children := children[p.value := children[p.value] + [x]];
      }
    }

    /** `clearParent()`: `x` becomes a root. */
    method ClearParent(x: NodeId)
      requires Valid() && x in parent
      modifies this
      ensures Valid()
      ensures Links() == SetParentState(old(Links()), x, None)
      ensures parent == old(parent)[x := None] && children[x] == old(children[x])
      ensures local == old(local) && nextId == old(nextId)
      ensures cache == if old(parent[x]).None? then old(cache) else Cleared(old(cache), Desc(old(parent), x))
    {
      ClearParentFacts(Links(), x);
      SetParent(x, None);
    }

    /** `addChild(child)`: `c` moves under `x`. */
    method AddChild(x: NodeId, c: NodeId)
      requires Valid() && x in parent && c in parent && c != x
      modifies this
      ensures Valid()
      ensures Links() == SetParentState(old(Links()), c, Some(x))
      ensures parent[c] == Some(x) && c in children[x]
      ensures local == old(local) && nextId == old(nextId)
      ensures cache == if old(parent[c]) == Some(x) then old(cache) else Cleared(old(cache), Desc(old(parent), c))
    {
      SetParent(c, Some(x));
    }

    /** `removeChild(child)`: `c` becomes a root if `x` is its parent, and
        nothing happens otherwise. */
    method RemoveChild(x: NodeId, c: NodeId)
      requires Valid() && x in parent && c in parent
      modifies this
      ensures Valid()
      ensures old(parent[c]) == Some(x) ==>
                && Links() == SetParentState(old(Links()), c, None)
                && cache == Cleared(old(cache), Desc(old(parent), c))
      ensures old(parent[c]) != Some(x) ==> Links() == old(Links()) && cache == old(cache)
      ensures parent[c] != Some(x) && c !in children[x]
      ensures local == old(local) && nextId == old(nextId)
    {
      if parent[c] == Some(x) {
        ClearParent(c);
      }
    }

    /** `SceneNode(localTransform)`: a fresh root without children, no
        cached parent transform, and local transform `t`. The defaulted
        `SceneNode()` is this with `t == Identity`. */
    method AddNode(t: Transform2D) returns (id: NodeId)
      requires Valid()
      modifies this
      ensures Valid()
      ensures id !in old(parent)
      ensures parent == old(parent)[id := None] && children == old(children)[id := []]
      ensures local == old(local)[id := t] && cache == old(cache)[id := None]
    {
      AddRootInv(Links(), local, cache, nextId);
      id := NewRoot();
      LeafDesc(Links(), id);
      ClearedIdle(cache, Desc(parent, id) - {id});
      SetLocalTransform(id, t);
    }

    /** A node with the default member values of lines 81-87 of
        anker_scene_node.hpp: local transform `Transform2D{}`, no cached
        parent transform, no parent, no children. */
    method NewRoot() returns (id: NodeId)
      modifies this
      ensures id == old(nextId) && nextId == old(nextId) + 1
      ensures parent == old(parent)[id := None] && children == old(children)[id := []]
      ensures local == old(local)[id := Identity] && cache == old(cache)[id := None]
    {
      id := nextId;
      nextId := nextId + 1;
      parent := parent[id := None];
      children := children[id := []];
      local := local[id := Identity];
      cache := cache[id := None];
    }

    /** `SceneNode(localTransform, parent)`: a fresh node with local
        transform `t`, appended to `p`'s children. */
    method AddNodeWithParent(t: Transform2D, p: Option<NodeId>) returns (id: NodeId)
      requires Valid() && (p.None? || p.value in parent)
      modifies this
      ensures Valid()
      ensures id !in old(parent)
      ensures parent == old(parent)[id := p]
      ensures p.Some? ==> children == old(children)[id := []][p.value := old(children)[p.value] + [id]]
      ensures p.None? ==> children == old(children)[id := []]
      ensures local == old(local)[id := t] && cache == old(cache)[id := None]
    {
      id := AddNode(t);
      LeafDesc(Links(), id);
      ClearedIdle(cache, Desc(parent, id));
      NewLeafSetParent(old(Links()), id, p);
      SetParent(id, p);
    }

    /** `~SceneNode()`: the children of `x`, taken from a copy of its list,
        are handed one by one to `x`'s parent, `x` leaves its parent, and
        `x` leaves the arena. */
    method Destroy(x: NodeId)
      requires Valid() && x in parent
      modifies this
      ensures Valid()
      ensures Links() == Destroyed(old(Links()), x)
      ensures local == old(local) - {x} && cache.Keys == old(cache).Keys - {x}
      ensures nextId == old(nextId)
    {
      ghost var f0 := Links();
      var kids := children[x];
      var q := parent[x];
      ForwardingStart(f0, x);
      for i := 0 to |kids|
        invariant Valid()
        invariant Links() == Forwarding(f0, x, i)
        invariant local == old(local) && nextId == old(nextId)
      {
        ForwardStep(f0, x, i);
        SetParent(kids[i], q);
      }
      ForwardedAll(f0, x);
      DestroyFinish(f0, x);
      ClearParent(x);
      RemoveInv(Links(), local, cache, nextId, x);
      Forget(x);
    }

    /** The arena drops the storage of `x`. */
    method Forget(x: NodeId)
      modifies this
      ensures Links() == Removed(old(Links()), x)
      ensures local == old(local) - {x} && cache == old(cache) - {x} && nextId == old(nextId)
    {
      parent := parent - {x};
      children := children - {x};
      local := local - {x};
      cache := cache - {x};
    }

    /** `validateParentChildLink()`: `x`'s parent lists it, every child of
        `x` names it as parent, and the walk up from `x` does not come back
        to it. */
    method ValidateParentChildLink(x: NodeId) returns (ok: bool)
      requires WellFormed(Links()) && x in parent
      requires WalkEnds(parent, x)
      ensures ok <==> LinkHolds(Links(), x)
    {
      if parent[x].Some? && x !in children[parent[x].value] {
        return false;
      }
      var kids := children[x];
      for i := 0 to |kids|
        invariant forall j | 0 <= j < i :: parent[kids[j]] == Some(x)
      {
        if parent[kids[i]] != Some(x) {
          return false;
        }
      }
      ghost var k0: nat :| RootedIn(parent, x, k0) || AncestorIn(parent, x, x, k0);
      ghost var k: int := k0 - 1;
      var node := parent[x];
      if node.Some? {
        AncestorUnfold(parent, x, x);
      }
      while node.Some?
        invariant k >= -1
        invariant node.Some? ==> node.value in parent
        invariant node.Some? && node.value != x ==>
                    k >= 0 && (RootedIn(parent, node.value, k) || AncestorIn(parent, x, node.value, k))
        invariant IsAncestor(parent, x, x) <==> node.Some? && OnWalk(parent, x, node.value)
        decreases k + 1
      {
        var n := node.value;
        if n == x {
          return false;
        }
        if parent[n].Some? {
          OnWalkUnfold(parent, x, n);
        }
        node := parent[n];
        k := k - 1;
      }
      return true;
    }
  }
}
