/** The parent and child links of the scene graph (`SceneNode`,
    code/anker/core/anker_scene_node.cpp), as values.

    The scene nodes live in an arena and are named by ids. A node's
    `m_parent` pointer is an `Option<NodeId>` and its `m_children` vector a
    `seq<NodeId>`. A `Forest` holds the links of every node in the arena;
    the methods of `SceneNodes.SceneGraph` update these links in place, and
    this module states what the updates compute and which invariants they
    keep. */
module SceneForest {
  import opened Wrappers

  type NodeId = nat
  type Parents = map<NodeId, Option<NodeId>>
  type ChildLists = map<NodeId, seq<NodeId>>

  /** The `m_parent` and `m_children` fields of every node. */
  datatype Forest = Forest(parent: Parents, children: ChildLists)

  // ---------------------------------------------------------------------
  // Walking up the parent links

  /** Following parent links from `n` reaches a root within `k` steps. */
  predicate RootedIn(par: Parents, n: NodeId, k: nat)
    decreases k
  {
    n in par && (par[n].None? || (k > 0 && RootedIn(par, par[n].value, k - 1)))
  }

  /** `a` is reached from `n` by following between one and `k + 1` parent
      links. */
  predicate AncestorIn(par: Parents, a: NodeId, n: NodeId, k: nat)
    decreases k
  {
    n in par && par[n].Some? && (par[n].value == a || (k > 0 && AncestorIn(par, a, par[n].value, k - 1)))
  }

  /** `a` is a proper ancestor of `n`. */
  ghost predicate IsAncestor(par: Parents, a: NodeId, n: NodeId) {
    exists k: nat :: AncestorIn(par, a, n, k)
  }

  /** The walk `for (node = n; node; node = node->m_parent)` visits `a`. */
  ghost predicate OnWalk(par: Parents, a: NodeId, n: NodeId) {
    a == n || IsAncestor(par, a, n)
  }

  /** Every walk up the parent links ends at a root: the links form no loop
      and never leave the arena. */
  ghost predicate Acyclic(par: Parents) {
    forall n | n in par :: exists k: nat :: RootedIn(par, n, k)
  }

  /** `n` and its descendants. */
  ghost function Desc(par: Parents, n: NodeId): set<NodeId> {
    set m | m in par && OnWalk(par, n, m)
  }

  lemma {:induction false} RootedMono(par: Parents, n: NodeId, k: nat, k': nat)
    requires RootedIn(par, n, k) && k <= k'
    ensures RootedIn(par, n, k')
    decreases k
  {
    if par[n].Some? {
      RootedMono(par, par[n].value, k - 1, k' - 1);
    }
  }

  /** An ancestor of a node that reaches a root within `k` steps reaches one
      in fewer. */
  lemma {:induction false} AncestorRooted(par: Parents, a: NodeId, n: NodeId, j: nat, k: nat)
    requires AncestorIn(par, a, n, j) && RootedIn(par, n, k)
    ensures k > 0 && RootedIn(par, a, k - 1)
    decreases j
  {
    var m := par[n].value;
    if m != a {
      AncestorRooted(par, a, m, j - 1, k - 1);
      RootedMono(par, a, k - 2, k - 1);
    }
  }

  lemma {:induction false} NotOwnAncestorWithin(par: Parents, n: NodeId, j: nat, k: nat)
    requires RootedIn(par, n, k)
    ensures !AncestorIn(par, n, n, j)
    decreases k
  {
    if AncestorIn(par, n, n, j) {
      AncestorRooted(par, n, n, j, k);
      NotOwnAncestorWithin(par, n, j, k - 1);
    }
  }

  /** In an acyclic forest no node is its own ancestor. */
  lemma NoLoop(par: Parents, n: NodeId)
    requires Acyclic(par) && n in par
    ensures !IsAncestor(par, n, n)
  {
    var k: nat :| RootedIn(par, n, k);
    forall j: nat ensures !AncestorIn(par, n, n, j) {
      NotOwnAncestorWithin(par, n, j, k);
    }
  }

  /** In an acyclic forest no node is its own parent. */
  lemma NotOwnParent(par: Parents, n: NodeId)
    requires Acyclic(par) && n in par
    ensures par[n] != Some(n)
  {
    NoLoop(par, n);
    assert !AncestorIn(par, n, n, 0);
  }

  lemma {:induction false} AncestorMono(par: Parents, a: NodeId, n: NodeId, k: nat, k': nat)
    requires AncestorIn(par, a, n, k) && k <= k'
    ensures AncestorIn(par, a, n, k')
    decreases k
  {
    if par[n].value != a {
      AncestorMono(par, a, par[n].value, k - 1, k' - 1);
    }
  }

  lemma {:induction false} AncestorTrans(par: Parents, a: NodeId, b: NodeId, c: NodeId, i: nat, j: nat)
    requires AncestorIn(par, a, b, i) && AncestorIn(par, b, c, j)
    ensures AncestorIn(par, a, c, i + j + 1)
    decreases j
  {
    var m := par[c].value;
    if m != b {
      AncestorTrans(par, a, b, m, i, j - 1);
    } else {
      AncestorMono(par, a, b, i, i + j);
    }
  }

  /** One step of the walk: `a` is a proper ancestor of `n` iff it is `n`'s
      parent or an ancestor of that parent. */
  lemma AncestorUnfold(par: Parents, a: NodeId, n: NodeId)
    requires n in par && par[n].Some?
    ensures IsAncestor(par, a, n) <==> par[n].value == a || IsAncestor(par, a, par[n].value)
  {
    var m := par[n].value;
    if m == a {
      assert AncestorIn(par, a, n, 0);
    }
    if IsAncestor(par, a, m) {
      var k: nat :| AncestorIn(par, a, m, k);
      assert AncestorIn(par, a, n, k + 1);
    }
    if IsAncestor(par, a, n) && m != a {
      var k: nat :| AncestorIn(par, a, n, k);
      assert AncestorIn(par, a, m, k - 1);
    }
  }

  lemma OnWalkUnfold(par: Parents, a: NodeId, n: NodeId)
    requires n in par && par[n].Some? && a != n
    ensures OnWalk(par, a, n) <==> OnWalk(par, a, par[n].value)
  {
    AncestorUnfold(par, a, n);
  }

  // ---------------------------------------------------------------------
  // Changing one parent link leaves the walks that avoid it alone

  lemma {:induction false} RootedFrame(par: Parents, y: NodeId, v: Option<NodeId>, n: NodeId, k: nat)
    requires n in par && !OnWalk(par, y, n)
    ensures RootedIn(par[y := v], n, k) <==> RootedIn(par, n, k)
    decreases k
  {
    if par[n].Some? && k > 0 {
      var m := par[n].value;
      AncestorUnfold(par, y, n);
      if m in par {
        RootedFrame(par, y, v, m, k - 1);
      }
    }
  }

  lemma {:induction false} AncestorFrame(par: Parents, y: NodeId, v: Option<NodeId>, a: NodeId, n: NodeId, k: nat)
    requires n in par && !OnWalk(par, y, n)
    ensures AncestorIn(par[y := v], a, n, k) <==> AncestorIn(par, a, n, k)
    decreases k
  {
    if par[n].Some? && k > 0 {
      var m := par[n].value;
      AncestorUnfold(par, y, n);
      if m in par {
        AncestorFrame(par, y, v, a, m, k - 1);
      }
    }
  }

  /** After `x`'s parent link is set to `v`, a node that reached a root
      still does, provided `v` does. */
  lemma {:induction false} RootedAfterRelink(par: Parents, x: NodeId, v: Option<NodeId>, n: NodeId, k: nat, kv: nat)
    returns (k': nat)
    requires RootedIn(par, n, k)
    requires v.None? || RootedIn(par[x := v], v.value, kv)
    ensures RootedIn(par[x := v], n, k')
    decreases k
  {
    if n == x {
      k' := if v.None? then 0 else kv + 1;
    } else if par[n].None? {
      k' := 0;
    } else {
      var k'' := RootedAfterRelink(par, x, v, par[n].value, k - 1, kv);
      k' := k'' + 1;
    }
  }

  /** Setting `x`'s parent to a node whose walk does not pass `x` keeps the
      forest acyclic. */
  lemma RelinkAcyclic(par: Parents, x: NodeId, v: Option<NodeId>)
    requires Acyclic(par) && x in par
    requires v.None? || (v.value in par && !OnWalk(par, x, v.value))
    ensures Acyclic(par[x := v])
  {
    var kv: nat := 0;
    if v.Some? {
      kv :| RootedIn(par, v.value, kv);
      RootedFrame(par, x, v, v.value, kv);
    }
    var par' := par[x := v];
    forall n | n in par' ensures exists k: nat :: RootedIn(par', n, k) {
      var k: nat :| RootedIn(par, n, k);
      var k' := RootedAfterRelink(par, x, v, n, k, kv);
    }
  }

  // ---------------------------------------------------------------------
  // Consistent parent and child links

  predicate NoDuplicates(s: seq<NodeId>) {
    forall i, j | 0 <= i < j < |s| :: s[i] != s[j]
  }

  /** Every node with a parent is listed by that parent. */
  predicate ParentsList(f: Forest) {
    forall n {:trigger f.parent[n]} | n in f.parent && f.parent[n].Some? ::
      f.parent[n].value in f.parent && f.parent[n].value in f.children && n in f.children[f.parent[n].value]
  }

  /** Every listed child names the list's owner as its parent. */
  predicate ChildrenPoint(f: Forest) {
    forall n, c {:trigger c in f.children[n]} | n in f.children && c in f.children[n] ::
      c in f.parent && f.parent[c] == Some(n)
  }

  /** No list holds a child twice. */
  predicate ListsDistinct(f: Forest) {
    forall n | n in f.children :: NoDuplicates(f.children[n])
  }

  /** The class invariant "parent and child references are kept
      consistent": every node with a parent is listed in that parent's
      children exactly once, and every listed child names the list's owner as
      its parent. */
  predicate Linked(f: Forest) {
    f.children.Keys == f.parent.Keys && ParentsList(f) && ChildrenPoint(f) && ListsDistinct(f)
  }

  // ---------------------------------------------------------------------
  // std::ranges::find and vector::erase

  /** `erase(std::ranges::find(s, x))`: the first occurrence of `x`
      removed, or `s` itself when `x` does not occur (the case the source
      reports with "Parent-child-invariant broken!"). */
  function Erase(s: seq<NodeId>, x: NodeId): (r: seq<NodeId>)
    ensures x !in s ==> r == s
    ensures x in s ==> |r| == |s| - 1
  {
    if |s| == 0 then s
    else if s[0] == x then s[1..]
    else [s[0]] + Erase(s[1..], x)
  }

  /** Erasing from a list without duplicates removes exactly `x` and keeps
      the list free of duplicates. */
  lemma {:induction false} EraseMembers(s: seq<NodeId>, x: NodeId)
    requires NoDuplicates(s)
    ensures NoDuplicates(Erase(s, x))
    ensures forall y :: y in Erase(s, x) <==> y in s && y != x
  {
    if |s| > 0 {
      assert NoDuplicates(s[1..]) by {
        assert forall j | 0 <= j < |s[1..]| :: s[1..][j] == s[j + 1];
      }
      assert s[0] !in s[1..] by {
        assert forall j | 0 <= j < |s[1..]| :: s[1..][j] == s[j + 1];
      }
      if s[0] != x {
        EraseMembers(s[1..], x);
        var r := Erase(s[1..], x);
        assert forall j | 0 <= j < |[s[0]] + r| :: ([s[0]] + r)[j] == if j == 0 then s[0] else r[j - 1];
      }
    }
  }

  lemma EraseHead(s: seq<NodeId>, x: NodeId)
    requires |s| > 0 && s[0] == x
    ensures Erase(s, x) == s[1..]
  {
  }

  lemma {:induction false} EraseAppend(s: seq<NodeId>, t: seq<NodeId>, x: NodeId)
    requires x in s
    ensures Erase(s + t, x) == Erase(s, x) + t
  {
    assert (s + t)[0] == s[0];
    if s[0] == x {
      assert (s + t)[1..] == s[1..] + t;
    } else {
      assert x in s[1..];
      EraseAppend(s[1..], t, x);
      assert (s + t)[1..] == s[1..] + t;
    }
  }

  // ---------------------------------------------------------------------
  // Moving one node

  /** The children lists after `x` is erased from its parent's list
      (code/anker/core/anker_scene_node.cpp:46-52). */
  function Detach(f: Forest, x: NodeId): ChildLists
    requires x in f.parent
  {
    var q := f.parent[x];
    if q.Some? && q.value in f.children then f.children[q.value := Erase(f.children[q.value], x)]
    else f.children
  }

  /** The links after `x` leaves its parent's list, takes `p` as its parent
      and is pushed to the back of `p`'s list (lines 46-59). */
  function Move(f: Forest, x: NodeId, p: Option<NodeId>): Forest
    requires x in f.parent
  {
    var ch := Detach(f, x);
    Forest(f.parent[x := p], if p.Some? && p.value in ch then ch[p.value := ch[p.value] + [x]] else ch)
  }

  lemma DetachMembers(f: Forest, x: NodeId)
    requires Linked(f) && x in f.parent
    ensures Detach(f, x).Keys == f.children.Keys
    ensures forall n | n in f.children :: NoDuplicates(Detach(f, x)[n])
    ensures forall n, c | n in f.children :: c in Detach(f, x)[n] <==> c in f.children[n] && c != x
  {
    var q := f.parent[x];
    var ch := Detach(f, x);
    if q.Some? {
      EraseMembers(f.children[q.value], x);
    }
    forall n, c | n in f.children ensures c in ch[n] <==> c in f.children[n] && c != x {
      if q != Some(n) {
        assert x !in f.children[n];
      }
    }
  }

  lemma MoveParentsList(f: Forest, x: NodeId, p: Option<NodeId>)
    requires Linked(f) && x in f.parent
    requires p.None? || p.value in f.parent
    ensures ParentsList(Move(f, x, p))
  {
    DetachMembers(f, x);
  }

  lemma MoveChildrenPoint(f: Forest, x: NodeId, p: Option<NodeId>)
    requires Linked(f) && x in f.parent
    requires p.None? || p.value in f.parent
    ensures ChildrenPoint(Move(f, x, p))
  {
    DetachMembers(f, x);
  }

  lemma MoveListsDistinct(f: Forest, x: NodeId, p: Option<NodeId>)
    requires Linked(f) && x in f.parent
    requires p.None? || p.value in f.parent
    ensures ListsDistinct(Move(f, x, p))
  {
    DetachMembers(f, x);
    var r := Move(f, x, p);
    var ch := Detach(f, x);
    forall n | n in r.children ensures NoDuplicates(r.children[n]) {
      if p == Some(n) {
        assert x !in ch[n];
      }
    }
  }

  /** Moving a node keeps the links consistent. */
  lemma MoveLinked(f: Forest, x: NodeId, p: Option<NodeId>)
    requires Linked(f) && x in f.parent
    requires p.None? || p.value in f.parent
    ensures Linked(Move(f, x, p))
  {
    DetachMembers(f, x);
    MoveParentsList(f, x, p);
    MoveChildrenPoint(f, x, p);
    MoveListsDistinct(f, x, p);
  }

  // ---------------------------------------------------------------------
  // setParent (code/anker/core/anker_scene_node.cpp:28-66)

  /** The links after `setParent(p)` on node `x`: nothing changes when `p`
      is already the parent (lines 30-32); when `p` is a proper descendant
      of `x`, `p` is first moved to `x`'s old parent (lines 38-43); then `x`
      moves under `p` (lines 46-59). */
  ghost function SetParentState(f: Forest, x: NodeId, p: Option<NodeId>): Forest
    requires x in f.parent && (p.None? || p.value in f.parent)
  {
    if p == f.parent[x] then f
    else if p.Some? && IsAncestor(f.parent, x, p.value) then Move(Move(f, p.value, f.parent[x]), x, p)
    else Move(f, x, p)
  }

  /** When `y` is a proper descendant of `x`, `x`'s parent is neither `y`,
      nor `y`'s parent, nor below `y`. */
  lemma DescendantLift(par: Parents, x: NodeId, y: NodeId)
    requires Acyclic(par) && x in par && IsAncestor(par, x, y)
    ensures par[x] != Some(y) && par[x] != par[y]
    ensures par[x].Some? ==> par[x].value in par && !OnWalk(par, y, par[x].value)
  {
    NoLoop(par, x);
    var j: nat :| AncestorIn(par, x, y, j);
    assert par[y].Some?;
    if par[x].Some? {
      var q := par[x].value;
      var a: nat :| RootedIn(par, x, a);
      assert RootedIn(par, q, a - 1);
      assert AncestorIn(par, q, x, 0);
      if IsAncestor(par, y, q) {
        var i: nat :| AncestorIn(par, y, q, i);
        AncestorTrans(par, y, q, x, i, 0);
        AncestorTrans(par, x, y, x, j, i + 1);
      }
      if q == y {
        AncestorTrans(par, x, y, x, j, 0);
      }
      if par[y] == Some(q) {
        AncestorUnfold(par, x, y);
        NotOwnParent(par, x);
        if q != x {
          var i: nat :| AncestorIn(par, x, q, i);
          AncestorTrans(par, x, q, x, i, 0);
        }
      }
    }
  }

  /** After the descendant `y` has been moved to `x`'s old parent, `x` is no
      longer on `y`'s walk, so moving `x` under `y` closes no loop. */
  lemma LiftedNotBelow(par: Parents, x: NodeId, y: NodeId)
    requires Acyclic(par) && x in par && IsAncestor(par, x, y)
    ensures !OnWalk(par[y := par[x]], x, y)
  {
    DescendantLift(par, x, y);
    NoLoop(par, x);
    var par1 := par[y := par[x]];
    var j: nat :| AncestorIn(par, x, y, j);
    assert x != y;
    if par[x].Some? {
      var q := par[x].value;
      NotOwnParent(par, x);
      forall k: nat ensures !AncestorIn(par1, x, q, k) {
        AncestorFrame(par, y, par[x], x, q, k);
        if AncestorIn(par, x, q, k) {
          AncestorTrans(par, x, q, x, k, 0);
        }
      }
      AncestorUnfold(par1, x, y);
    }
  }

  /** `setParent` keeps the links consistent and acyclic and the arena's
      node set unchanged. */
  lemma SetParentKeeps(f: Forest, x: NodeId, p: Option<NodeId>)
    requires Linked(f) && Acyclic(f.parent) && x in f.parent
    requires p.None? || (p.value in f.parent && p.value != x)
    ensures Linked(SetParentState(f, x, p)) && Acyclic(SetParentState(f, x, p).parent)
    ensures SetParentState(f, x, p).parent.Keys == f.parent.Keys
  {
    if p == f.parent[x] {
    } else if p.Some? && IsAncestor(f.parent, x, p.value) {
      var y := p.value;
      DescendantLift(f.parent, x, y);
      var f1 := Move(f, y, f.parent[x]);
      MoveLinked(f, y, f.parent[x]);
      RelinkAcyclic(f.parent, y, f.parent[x]);
      LiftedNotBelow(f.parent, x, y);
      MoveLinked(f1, x, p);
      RelinkAcyclic(f1.parent, x, p);
    } else {
      MoveLinked(f, x, p);
      RelinkAcyclic(f.parent, x, p);
    }
  }

  /** What `setParent(p)` does to the links: the node's parent becomes `p`,
      it is removed from its old parent's list and appended at the end of
      `p`'s list; only the node's own parent link changes unless `p` was a
      descendant, in which case `p` alone was first moved to the node's old
      parent. */
  lemma SetParentEffect(f: Forest, x: NodeId, p: Option<NodeId>)
    requires Linked(f) && Acyclic(f.parent) && x in f.parent
    requires p.None? || (p.value in f.parent && p.value != x)
    ensures SetParentState(f, x, p).parent[x] == p
    ensures p == f.parent[x] ==> SetParentState(f, x, p) == f
    ensures p != f.parent[x] && p.Some? ==>
              SetParentState(f, x, p).children[p.value] == f.children[p.value] + [x]
    ensures p != f.parent[x] && f.parent[x].Some? ==>
              SetParentState(f, x, p).children[f.parent[x].value]
              == Erase(f.children[f.parent[x].value], x)
                 + (if p.Some? && IsAncestor(f.parent, x, p.value) then [p.value] else [])
    ensures p != f.parent[x] && !(p.Some? && IsAncestor(f.parent, x, p.value)) ==>
              SetParentState(f, x, p).parent == f.parent[x := p]
    ensures p != f.parent[x] && p.Some? && IsAncestor(f.parent, x, p.value) ==>
              SetParentState(f, x, p).parent == f.parent[p.value := f.parent[x]][x := p]
  {
    if p != f.parent[x] {
      if p.Some? && IsAncestor(f.parent, x, p.value) {
        var y := p.value;
        DescendantLift(f.parent, x, y);
        LiftedNotBelow(f.parent, x, y);
        NotOwnParent(f.parent, y);
        var f1 := Move(f, y, f.parent[x]);
        assert f1.children[y] == f.children[y];
        if f.parent[x].Some? {
          var q := f.parent[x].value;
          assert f1.children[q] == f.children[q] + [y];
          EraseAppend(f.children[q], [y], x);
        }
      }
    }
  }

  /** `setParent(p)` on `x` changes parent links only inside `x`'s old
      subtree. */
  lemma SetParentWithin(f: Forest, x: NodeId, p: Option<NodeId>)
    requires Linked(f) && Acyclic(f.parent) && x in f.parent
    requires p.None? || (p.value in f.parent && p.value != x)
    ensures forall n | n in SetParentState(f, x, p).parent && n !in Desc(f.parent, x) ::
              n in f.parent && SetParentState(f, x, p).parent[n] == f.parent[n]
  {
    SetParentKeeps(f, x, p);
    SetParentEffect(f, x, p);
    if p != f.parent[x] && p.Some? && IsAncestor(f.parent, x, p.value) {
      assert p.value in Desc(f.parent, x);
    }
    assert x in Desc(f.parent, x);
  }

  /** The descendant case of `setParent(p)` moves `p` up: afterwards `p`'s
      parent is the node's old parent and the node hangs below `p`. */
  lemma SetParentLiftsDescendant(f: Forest, x: NodeId, y: NodeId)
    requires Linked(f) && Acyclic(f.parent) && x in f.parent && y in f.parent && y != x
    requires IsAncestor(f.parent, x, y)
    ensures SetParentState(f, x, Some(y)).parent[y] == f.parent[x]
    ensures !IsAncestor(SetParentState(f, x, Some(y)).parent, x, y)
    ensures IsAncestor(SetParentState(f, x, Some(y)).parent, y, x)
  {
    DescendantLift(f.parent, x, y);
    SetParentEffect(f, x, Some(y));
    SetParentKeeps(f, x, Some(y));
    var r := SetParentState(f, x, Some(y));
    assert AncestorIn(r.parent, y, x, 0);
    NoLoop(r.parent, y);
    if IsAncestor(r.parent, x, y) {
      var i: nat :| AncestorIn(r.parent, x, y, i);
      AncestorTrans(r.parent, y, x, y, 0, i);
    }
  }

  // ---------------------------------------------------------------------
  // Subtrees

  /** The nodes of the subtrees below the listed children. */
  ghost function ChildrenDesc(par: Parents, kids: seq<NodeId>): set<NodeId> {
    if |kids| == 0 then {} else ChildrenDesc(par, kids[..|kids| - 1]) + Desc(par, kids[|kids| - 1])
  }

  lemma {:induction false} ChildrenDescMember(par: Parents, kids: seq<NodeId>, m: NodeId)
    ensures m in ChildrenDesc(par, kids) <==> exists i | 0 <= i < |kids| :: m in Desc(par, kids[i])
  {
    if |kids| > 0 {
      var pre := kids[..|kids| - 1];
      ChildrenDescMember(par, pre, m);
      assert forall i | 0 <= i < |pre| :: pre[i] == kids[i];
    }
  }

  /** Extending the prefix of children by one adds that child's subtree. */
  lemma ChildrenDescSnoc(par: Parents, kids: seq<NodeId>, i: nat)
    requires i < |kids|
    ensures ChildrenDesc(par, kids[..i + 1]) == ChildrenDesc(par, kids[..i]) + Desc(par, kids[i])
  {
    assert kids[..i + 1][..i] == kids[..i];
  }

  /** `y` is `x` or below it: its subtree lies inside `x`'s. */
  lemma DescSubset(par: Parents, x: NodeId, y: NodeId)
    requires OnWalk(par, x, y)
    ensures Desc(par, y) <= Desc(par, x)
  {
    forall m | m in Desc(par, y) ensures m in Desc(par, x) {
      if x != y && m != y {
        var i: nat :| AncestorIn(par, x, y, i);
        var j: nat :| AncestorIn(par, y, m, j);
        AncestorTrans(par, x, y, m, i, j);
      } else if x != y {
        var i: nat :| AncestorIn(par, x, y, i);
      }
    }
  }

  /** A child's subtree is a proper part of its parent's: the measure the
      recursion of `invalidateCachedParentTransform` descends on. */
  lemma ChildDescSmaller(par: Parents, n: NodeId, c: NodeId)
    requires Acyclic(par) && c in par && par[c] == Some(n)
    ensures n in par && c in Desc(par, n) - {n}
    ensures Desc(par, c) < Desc(par, n)
  {
    var k: nat :| RootedIn(par, c, k);
    assert RootedIn(par, n, k - 1);
    assert AncestorIn(par, n, c, 0);
    DescSubset(par, n, c);
    NoLoop(par, n);
    if IsAncestor(par, c, n) {
      var j: nat :| AncestorIn(par, c, n, j);
      AncestorTrans(par, n, c, n, 0, j);
    }
    assert n !in Desc(par, c);
  }

  /** Every proper descendant of `n` lies below one of `n`'s children. */
  lemma {:induction false} BelowChild(f: Forest, n: NodeId, m: NodeId, j: nat)
    requires Linked(f) && n in f.parent && AncestorIn(f.parent, n, m, j)
    ensures exists i | 0 <= i < |f.children[n]| :: m in Desc(f.parent, f.children[n][i])
    decreases j
  {
    var q := f.parent[m].value;
    if q == n {
      var i :| 0 <= i < |f.children[n]| && f.children[n][i] == m;
      assert m in Desc(f.parent, f.children[n][i]);
    } else {
      BelowChild(f, n, q, j - 1);
      var i :| 0 <= i < |f.children[n]| && q in Desc(f.parent, f.children[n][i]);
      var c := f.children[n][i];
      if q == c {
        assert AncestorIn(f.parent, c, m, 0);
      } else {
        AncestorUnfold(f.parent, c, m);
      }
      assert m in Desc(f.parent, c);
    }
  }

  /** The subtrees below `n`'s children lie inside `n`'s subtree and do not
      hold `n` itself. */
  lemma ChildrenDescInside(f: Forest, n: NodeId)
    requires Linked(f) && Acyclic(f.parent) && n in f.parent
    ensures ChildrenDesc(f.parent, f.children[n]) <= Desc(f.parent, n) - {n}
  {
    var kids := f.children[n];
    forall m | m in ChildrenDesc(f.parent, kids) ensures m in Desc(f.parent, n) && m != n {
      ChildrenDescMember(f.parent, kids, m);
      var i :| 0 <= i < |kids| && m in Desc(f.parent, kids[i]);
      assert kids[i] in kids;
      ChildDescSmaller(f.parent, n, kids[i]);
      if m == n {
        DescSubset(f.parent, kids[i], n);
      }
    }
  }

  /** Every proper descendant of `n` lies below one of its children. */
  lemma DescInsideChildren(f: Forest, n: NodeId)
    requires Linked(f) && Acyclic(f.parent) && n in f.parent
    ensures Desc(f.parent, n) - {n} <= ChildrenDesc(f.parent, f.children[n])
  {
    var kids := f.children[n];
    forall m | m in Desc(f.parent, n) && m != n ensures m in ChildrenDesc(f.parent, kids) {
      var j: nat :| AncestorIn(f.parent, n, m, j);
      BelowChild(f, n, m, j);
      ChildrenDescMember(f.parent, kids, m);
    }
  }

  /** A subtree is its root plus the subtrees of the root's children: what
      the two mutually recursive invalidation functions clear. */
  lemma DescSplit(f: Forest, n: NodeId)
    requires Linked(f) && Acyclic(f.parent) && n in f.parent
    ensures Desc(f.parent, n) == {n} + ChildrenDesc(f.parent, f.children[n])
  {
    ChildrenDescInside(f, n);
    DescInsideChildren(f, n);
    assert n in Desc(f.parent, n);
  }

  /** The proper descendants of `n` are exactly the subtrees below its
      children. */
  lemma DescBelow(f: Forest, n: NodeId)
    requires Linked(f) && Acyclic(f.parent) && n in f.parent
    ensures ChildrenDesc(f.parent, f.children[n]) == Desc(f.parent, n) - {n}
  {
    ChildrenDescInside(f, n);
    DescInsideChildren(f, n);
  }

  /** The `i`-th child of `n` is in the arena, its subtree is smaller than
      `n`'s, and it extends the subtrees of the children before it. */
  lemma NextChild(f: Forest, n: NodeId, i: nat)
    requires Linked(f) && Acyclic(f.parent) && n in f.parent && i < |f.children[n]|
    ensures f.children[n][i] in f.parent
    ensures Desc(f.parent, f.children[n][i]) < Desc(f.parent, n)
    ensures ChildrenDesc(f.parent, f.children[n][..i + 1])
         == ChildrenDesc(f.parent, f.children[n][..i]) + Desc(f.parent, f.children[n][i])
  {
    var kids := f.children[n];
    assert kids[i] in kids;
    ChildDescSmaller(f.parent, n, kids[i]);
    ChildrenDescSnoc(f.parent, kids, i);
  }

  /** Every node whose parent is `n` lies in the subtrees below `n`'s
      children. */
  lemma ChildInChildrenDesc(f: Forest, n: NodeId)
    requires Linked(f) && n in f.parent
    ensures forall c | c in f.parent && f.parent[c] == Some(n) :: c in ChildrenDesc(f.parent, f.children[n])
  {
    var kids := f.children[n];
    forall c | c in f.parent && f.parent[c] == Some(n) ensures c in ChildrenDesc(f.parent, kids) {
      var i :| 0 <= i < |kids| && kids[i] == c;
      assert c in Desc(f.parent, kids[i]);
      ChildrenDescMember(f.parent, kids, c);
    }
  }

  // ---------------------------------------------------------------------
  // The destructor (code/anker/core/anker_scene_node.cpp:17-26)

  /** The links once the destructor's loop has handed the first `i`
      children of `x` (taken from a copy of its list) to `x`'s parent: they
      name that parent, were appended to its list in order, and left `x`'s
      list. */
  function Forwarding(f: Forest, x: NodeId, i: nat): Forest
    requires x in f.parent && x in f.children && i <= |f.children[x]|
  {
    var kids := f.children[x];
    var q := f.parent[x];
    var ch := f.children[x := kids[i..]];
    Forest(map n | n in f.parent :: if n in kids[..i] then q else f.parent[n],
           if q.Some? && q.value in ch then ch[q.value := f.children[q.value] + kids[..i]] else ch)
  }

  /** The links after the destructor of `x`: every child of `x`, in order,
      was appended to the list of `x`'s parent and names that parent, `x`
      left its parent's list, and `x` is gone from the arena; no other link
      changed. */
  function Destroyed(f: Forest, x: NodeId): Forest
    requires x in f.parent && x in f.children
  {
    var kids := f.children[x];
    var q := f.parent[x];
    Forest(map n | n in f.parent && n != x :: if n in kids then q else f.parent[n],
           map n | n in f.children && n != x ::
             if Some(n) == q then Erase(f.children[n], x) + kids else f.children[n])
  }

  /** The arena without `x`. */
  function Removed(f: Forest, x: NodeId): Forest {
    Forest(f.parent - {x}, f.children - {x})
  }

  /** The grandparent of `c` is not below `c`. */
  lemma GrandparentNotBelow(par: Parents, x: NodeId, c: NodeId)
    requires Acyclic(par) && c in par && par[c] == Some(x) && x in par
    ensures par[x] != Some(c)
    ensures par[x].Some? ==> par[x].value in par && !OnWalk(par, c, par[x].value)
  {
    assert AncestorIn(par, x, c, 0);
    DescendantLift(par, x, c);
  }

  /** Before the loop nothing has been forwarded. */
  lemma ForwardingStart(f: Forest, x: NodeId)
    requires Linked(f) && x in f.parent
    ensures Forwarding(f, x, 0) == f
  {
    var kids := f.children[x];
    assert kids[..0] == [] && kids[0..] == kids;
    var g := Forwarding(f, x, 0);
    assert g.parent == f.parent;
    if f.parent[x].Some? {
      assert f.children[f.parent[x].value] + [] == f.children[f.parent[x].value];
    }
  }

  /** During the destructor's loop `x` keeps its parent, its list holds the
      children not yet forwarded, and the next one still names `x`. */
  lemma ForwardingFacts(f: Forest, x: NodeId, i: nat)
    requires Linked(f) && Acyclic(f.parent) && x in f.parent && i < |f.children[x]|
    ensures f.parent[x] != Some(x) && x !in f.children[x]
    ensures f.children[x][i] in f.parent
    ensures Forwarding(f, x, i).parent[x] == f.parent[x]
    ensures Forwarding(f, x, i).children[x] == f.children[x][i..]
    ensures Forwarding(f, x, i).parent[f.children[x][i]] == Some(x)
    ensures f.children[x][i] !in f.children[x][..i]
  {
    var kids := f.children[x];
    NotOwnParent(f.parent, x);
    assert kids[i] in kids;
    assert forall j | 0 <= j < i :: kids[..i][j] == kids[j];
  }

  /** Handing the next child to `x`'s parent is a plain move: the parent is
      not below the child, so no descendant is moved first. */
  lemma ForwardIsMove(g: Forest, x: NodeId, c: NodeId)
    requires Acyclic(g.parent) && x in g.parent && c in g.parent && g.parent[c] == Some(x)
    ensures g.parent[x] != Some(c)
    ensures g.parent[x].None? || g.parent[x].value in g.parent
    ensures SetParentState(g, c, g.parent[x]) == Move(g, c, g.parent[x])
  {
    NotOwnParent(g.parent, x);
    GrandparentNotBelow(g.parent, x, c);
  }

  /** One more step of the loop moves exactly the next child. */
  lemma ForwardMove(f: Forest, x: NodeId, i: nat)
    requires Linked(f) && Acyclic(f.parent) && x in f.parent && i < |f.children[x]|
    ensures f.children[x][i] in Forwarding(f, x, i).parent
    ensures Move(Forwarding(f, x, i), f.children[x][i], f.parent[x]) == Forwarding(f, x, i + 1)
  {
    ForwardingFacts(f, x, i);
    ForwardMoveParents(f, x, i);
    ForwardMoveChildren(f, x, i);
  }

  lemma ForwardMoveParents(f: Forest, x: NodeId, i: nat)
    requires x in f.parent && x in f.children && i < |f.children[x]| && f.children[x][i] in f.parent
    ensures Move(Forwarding(f, x, i), f.children[x][i], f.parent[x]).parent == Forwarding(f, x, i + 1).parent
  {
    var kids := f.children[x];
    var c := kids[i];
    var m := Move(Forwarding(f, x, i), c, f.parent[x]);
    var h := Forwarding(f, x, i + 1);
    assert kids[..i + 1] == kids[..i] + [c];
    forall n | n in f.parent ensures m.parent[n] == h.parent[n] {
      assert n in kids[..i + 1] <==> n in kids[..i] || n == c;
    }
  }

  lemma ForwardMoveChildren(f: Forest, x: NodeId, i: nat)
    requires x in f.parent && x in f.children && i < |f.children[x]| && f.children[x][i] in f.parent
    requires f.parent[x] != Some(x)
    requires f.parent[x].Some? ==> f.parent[x].value in f.children
    requires Forwarding(f, x, i).parent[f.children[x][i]] == Some(x)
    ensures Move(Forwarding(f, x, i), f.children[x][i], f.parent[x]).children == Forwarding(f, x, i + 1).children
  {
    var kids := f.children[x];
    var q := f.parent[x];
    var c := kids[i];
    EraseHead(kids[i..], c);
    assert kids[i..][1..] == kids[i + 1..];
    assert kids[..i + 1] == kids[..i] + [c];
    if q.Some? {
      assert (f.children[q.value] + kids[..i]) + [c] == f.children[q.value] + kids[..i + 1];
    }
  }

  /** Forwarding one more child is exactly `child->setParent(m_parent)`. */
  lemma ForwardStep(f: Forest, x: NodeId, i: nat)
    requires Linked(f) && Acyclic(f.parent) && x in f.parent && i < |f.children[x]|
    requires Acyclic(Forwarding(f, x, i).parent)
    ensures f.children[x][i] in Forwarding(f, x, i).parent
    ensures f.parent[x].None? || f.parent[x].value in Forwarding(f, x, i).parent
    ensures f.parent[x] != Some(f.children[x][i])
    ensures SetParentState(Forwarding(f, x, i), f.children[x][i], f.parent[x]) == Forwarding(f, x, i + 1)
  {
    ForwardingFacts(f, x, i);
    ForwardMove(f, x, i);
    ForwardIsMove(Forwarding(f, x, i), x, f.children[x][i]);
  }

  /** The destructor's loop keeps the links consistent and acyclic. */
  lemma {:induction false} ForwardingKeeps(f: Forest, x: NodeId, i: nat)
    requires Linked(f) && Acyclic(f.parent) && x in f.parent && i <= |f.children[x]|
    ensures Linked(Forwarding(f, x, i)) && Acyclic(Forwarding(f, x, i).parent)
    decreases i
  {
    if i == 0 {
      ForwardingStart(f, x);
    } else {
      ForwardingKeeps(f, x, i - 1);
      ForwardStep(f, x, i - 1);
      SetParentKeeps(Forwarding(f, x, i - 1), f.children[x][i - 1], f.parent[x]);
    }
  }

  /** After the loop, `x` still has its parent and its list is empty. */
  lemma ForwardedAll(f: Forest, x: NodeId)
    requires Linked(f) && Acyclic(f.parent) && x in f.parent
    ensures x !in f.children[x]
    ensures Forwarding(f, x, |f.children[x]|).parent[x] == f.parent[x]
    ensures Forwarding(f, x, |f.children[x]|).children[x] == []
  {
    var kids := f.children[x];
    assert kids[..|kids|] == kids && kids[|kids|..] == [];
    NotOwnParent(f.parent, x);
  }

  /** `clearParent()` after the loop and the removal from the arena leave
      the parent links of `Destroyed`. */
  lemma FinishParents(f: Forest, x: NodeId, g: Forest, h: Forest)
    requires x in f.parent && x in f.children
    requires g.parent == map n | n in f.parent :: if n in f.children[x] then f.parent[x] else f.parent[n]
    requires h.parent == g.parent[x := None]
    ensures Removed(h, x).parent == Destroyed(f, x).parent
  {
  }

  /** ... and its children lists. */
  lemma FinishChildren(f: Forest, x: NodeId, g: Forest, h: Forest)
    requires x in f.parent && x in f.children && f.parent[x] != Some(x)
    requires f.parent[x].Some? ==> f.parent[x].value in f.children && x in f.children[f.parent[x].value]
    requires var q := f.parent[x];
             var ch := f.children[x := []];
             g.children == if q.Some? then ch[q.value := f.children[q.value] + f.children[x]] else ch
    requires var q := f.parent[x];
             h.children == if q.Some? then g.children[q.value := Erase(g.children[q.value], x)] else g.children
    ensures Removed(h, x).children == Destroyed(f, x).children
  {
    var q := f.parent[x];
    var r := Removed(h, x).children;
    var d := Destroyed(f, x).children;
    assert r.Keys == d.Keys;
    forall n | n in d ensures r[n] == d[n] {
      if Some(n) == q {
        EraseAppend(f.children[n], f.children[x], x);
      }
    }
  }

  /** After the loop, `clearParent()` and the removal from the arena give
      the closed form `Destroyed`. */
  lemma DestroyFinish(f: Forest, x: NodeId)
    requires Linked(f) && Acyclic(f.parent) && x in f.parent
    ensures x in Forwarding(f, x, |f.children[x]|).parent
    ensures Removed(SetParentState(Forwarding(f, x, |f.children[x]|), x, None), x) == Destroyed(f, x)
  {
    var kids := f.children[x];
    ForwardedAll(f, x);
    NotOwnParent(f.parent, x);
    assert kids[..|kids|] == kids;
    var g := Forwarding(f, x, |kids|);
    var h := SetParentState(g, x, None);
    FinishParents(f, x, g, h);
    FinishChildren(f, x, g, h);
  }

  /** The destructor keeps the links consistent and acyclic. */
  lemma DestroyedKeeps(f: Forest, x: NodeId)
    requires Linked(f) && Acyclic(f.parent) && x in f.parent
    ensures Linked(Destroyed(f, x)) && Acyclic(Destroyed(f, x).parent)
  {
    var kids := f.children[x];
    ForwardingKeeps(f, x, |kids|);
    DestroyFinish(f, x);
    ForwardedAll(f, x);
    var g := Forwarding(f, x, |kids|);
    SetParentKeeps(g, x, None);
    ClearParentFacts(g, x);
    var h := SetParentState(g, x, None);
    assert h.parent[x].None? && h.children[x] == [];
    RemoveDetached(h, x);
  }

  /** Removing a node that has neither parent nor children keeps the links
      consistent and acyclic. */
  lemma RemoveDetached(f: Forest, x: NodeId)
    requires Linked(f) && Acyclic(f.parent) && x in f.parent
    requires f.parent[x].None? && f.children[x] == []
    ensures Linked(Removed(f, x)) && Acyclic(Removed(f, x).parent)
  {
    RemoveDetachedLinked(f, x);
    var par := f.parent - {x};
    forall n | n in par ensures exists k: nat :: RootedIn(par, n, k) {
      var k: nat :| RootedIn(f.parent, n, k);
      RootedWithout(f, x, n, k);
    }
  }

  lemma RemoveDetachedLinked(f: Forest, x: NodeId)
    requires Linked(f) && x in f.parent
    requires f.parent[x].None? && f.children[x] == []
    ensures Linked(Removed(f, x))
  {
    var r := Removed(f, x);
    forall n | n in r.parent && r.parent[n].Some?
      ensures r.parent[n].value in r.parent && r.parent[n].value in r.children
      ensures n in r.children[r.parent[n].value]
    {
      var m := f.parent[n].value;
      assert n in f.children[m];
    }
    forall n, c | n in r.children && c in r.children[n]
      ensures c in r.parent && r.parent[c] == Some(n)
    {
      assert f.parent[c] == Some(n);
    }
  }

  lemma {:induction false} RootedWithout(f: Forest, x: NodeId, n: NodeId, k: nat)
    requires Linked(f) && x in f.parent && f.children[x] == []
    requires RootedIn(f.parent, n, k) && n != x
    ensures RootedIn(f.parent - {x}, n, k)
    decreases k
  {
    if f.parent[n].Some? {
      var m := f.parent[n].value;
      assert n in f.children[m];
      RootedWithout(f, x, m, k - 1);
    }
  }

  // ---------------------------------------------------------------------
  // Adding a node (code/anker/core/anker_scene_node.cpp:7-15)

  /** A fresh root without children keeps the links consistent and the
      forest acyclic. */
  lemma AddRootKeeps(f: Forest, id: NodeId)
    requires Linked(f) && Acyclic(f.parent) && id !in f.parent
    ensures Linked(Forest(f.parent[id := None], f.children[id := []]))
    ensures Acyclic(f.parent[id := None])
  {
    var par' := f.parent[id := None];
    forall n | n in par' ensures exists k: nat :: RootedIn(par', n, k) {
      if n == id {
        assert RootedIn(par', n, 0);
      } else {
        var k: nat :| RootedIn(f.parent, n, k);
        var k' := RootedAfterRelink(f.parent, id, None, n, k, 0);
      }
    }
  }

  /** No walk from an old node meets a fresh childless node. */
  lemma {:induction false} FreshNotAncestor(f: Forest, id: NodeId, m: NodeId, k: nat)
    requires Linked(f) && id !in f.parent
    ensures !AncestorIn(f.parent[id := None], id, m, k)
    decreases k
  {
    if k > 0 && m in f.parent && f.parent[m].Some? {
      FreshNotAncestor(f, id, f.parent[m].value, k - 1);
    }
  }

  /** `SceneNode(localTransform, parent)` on a fresh node: it becomes the
      last child of `p`, and no other link changes. */
  lemma NewLeafSetParent(f: Forest, id: NodeId, p: Option<NodeId>)
    requires Linked(f) && id !in f.parent && (p.None? || p.value in f.parent)
    ensures SetParentState(Forest(f.parent[id := None], f.children[id := []]), id, p)
            == Forest(f.parent[id := p],
                      if p.Some? then f.children[id := []][p.value := f.children[p.value] + [id]]
                      else f.children[id := []])
  {
    var g := Forest(f.parent[id := None], f.children[id := []]);
    if p.Some? {
      if IsAncestor(g.parent, id, p.value) {
        var k: nat :| AncestorIn(g.parent, id, p.value, k);
        FreshNotAncestor(f, id, p.value, k);
      }
      assert g.parent[id := p] == f.parent[id := p];
    }
  }

  /** `setParent` as two plain moves: when `p` is below `x`, `p` first
      moves to `x`'s old parent (which is not below `p`), then `x` moves
      under `p`. */
  lemma SetParentSplit(f: Forest, x: NodeId, p: Option<NodeId>)
    requires Linked(f) && Acyclic(f.parent) && x in f.parent
    requires p.None? || (p.value in f.parent && p.value != x)
    requires p != f.parent[x]
    ensures p.Some? && IsAncestor(f.parent, x, p.value) ==>
              && f.parent[x] != Some(p.value)
              && (f.parent[x].None? || f.parent[x].value in f.parent)
              && !(f.parent[x].Some? && IsAncestor(f.parent, p.value, f.parent[x].value))
              && Desc(f.parent, p.value) <= Desc(f.parent, x)
              && SetParentState(f, x, p) == Move(SetParentState(f, p.value, f.parent[x]), x, p)
    ensures !(p.Some? && IsAncestor(f.parent, x, p.value)) ==> SetParentState(f, x, p) == Move(f, x, p)
  {
    if p.Some? && IsAncestor(f.parent, x, p.value) {
      DescendantLift(f.parent, x, p.value);
      DescSubset(f.parent, x, p.value);
    }
  }

  /** `clearParent()` leaves the node a root and its own child list as it
      was. */
  lemma ClearParentFacts(f: Forest, x: NodeId)
    requires Linked(f) && Acyclic(f.parent) && x in f.parent
    ensures SetParentState(f, x, None).parent == f.parent[x := None]
    ensures SetParentState(f, x, None).children[x] == f.children[x]
  {
    NotOwnParent(f.parent, x);
  }

  /** A node without children is its own whole subtree. */
  lemma LeafDesc(f: Forest, n: NodeId)
    requires Linked(f) && Acyclic(f.parent) && n in f.parent && f.children[n] == []
    ensures Desc(f.parent, n) == {n}
  {
    DescSplit(f, n);
  }

  /** `setParent(this)` as written: the walk of lines 38-43 meets the node
      at once and the recursive call changes nothing, so the node becomes
      its own parent and the links form a loop. */
  lemma SelfParentMakesLoop(f: Forest, x: NodeId)
    requires Linked(f) && Acyclic(f.parent) && x in f.parent
    ensures SetParentState(f, x, Some(x)).parent[x] == Some(x)
    ensures IsAncestor(SetParentState(f, x, Some(x)).parent, x, x)
    ensures !Acyclic(SetParentState(f, x, Some(x)).parent)
  {
    NotOwnParent(f.parent, x);
    NoLoop(f.parent, x);
    var par' := SetParentState(f, x, Some(x)).parent;
    assert par' == f.parent[x := Some(x)];
    assert AncestorIn(par', x, x, 0);
    if Acyclic(par') {
      var k: nat :| RootedIn(par', x, k);
      NotOwnAncestorWithin(par', x, 0, k);
    }
  }

  // ---------------------------------------------------------------------
  // validateParentChildLink (code/anker/core/anker_scene_node.cpp:68-95)

  /** Every id the links mention is a node of the arena, so the walks and
      lookups of `validateParentChildLink` are defined. */
  predicate WellFormed(f: Forest) {
    && f.children.Keys == f.parent.Keys
    && (forall n | n in f.parent && f.parent[n].Some? :: f.parent[n].value in f.parent)
    && (forall n, c | n in f.children && c in f.children[n] :: c in f.parent)
  }

  /** What `validateParentChildLink` checks at `x`: its parent lists it,
      every child names it as parent, and its ancestor walk does not come
      back to it. */
  ghost predicate LinkHolds(f: Forest, x: NodeId)
    requires WellFormed(f) && x in f.parent
  {
    && (f.parent[x].Some? ==> x in f.children[f.parent[x].value])
    && (forall c | c in f.children[x] :: f.parent[c] == Some(x))
    && !IsAncestor(f.parent, x, x)
  }

  /** In a consistent acyclic forest the check passes at every node, so the
      check `setParent` runs under `ANKER_CHECK_SCENE_NODE_INVARIANT_ENABLED`
      (lines 61-65) never fires. */
  lemma ValidLinkHolds(f: Forest, x: NodeId)
    requires Linked(f) && Acyclic(f.parent) && x in f.parent
    ensures WellFormed(f) && LinkHolds(f, x)
  {
    NoLoop(f.parent, x);
  }

  /** A link-consistent forest passes the check at `x` exactly when `x` is
      not on a loop. */
  lemma LinkHoldsIffNoLoop(f: Forest, x: NodeId)
    requires Linked(f) && x in f.parent
    ensures WellFormed(f) && (LinkHolds(f, x) <==> !IsAncestor(f.parent, x, x))
  {
    LinkedLocal(f, x);
  }

  /** The two link conditions the check tests at `x` hold in every
      link-consistent forest. */
  lemma LinkedLocal(f: Forest, x: NodeId)
    requires Linked(f) && x in f.parent
    ensures WellFormed(f)
    ensures f.parent[x].Some? ==> x in f.children[f.parent[x].value]
    ensures forall c | c in f.children[x] :: f.parent[c] == Some(x)
  {
    assert ParentsList(f) && ChildrenPoint(f);
  }

  /** The walk of `validateParentChildLink`'s loop check ends: at a root, or
      back at `x`. */
  ghost predicate WalkEnds(par: Parents, x: NodeId) {
    exists k: nat :: RootedIn(par, x, k) || AncestorIn(par, x, x, k)
  }

  /** A node that is its own parent never reaches a root. */
  lemma {:induction false} SelfLoopNotRooted(par: Parents, x: NodeId, k: nat)
    requires x in par && par[x] == Some(x)
    ensures !RootedIn(par, x, k)
    decreases k
  {
    if k > 0 {
      SelfLoopNotRooted(par, x, k - 1);
    }
  }

  /** The walk from a node that is its own parent never meets another
      node. */
  lemma {:induction false} SelfLoopAvoids(par: Parents, a: NodeId, x: NodeId, k: nat)
    requires x in par && par[x] == Some(x) && a != x
    ensures !AncestorIn(par, a, x, k)
    decreases k
  {
    if k > 0 {
      SelfLoopAvoids(par, a, x, k - 1);
    }
  }

  /** After `setParent(this)` as written, the loop check of
      `validateParentChildLink` at any child of the node walks up to the
      node and stays there: the walk neither reaches a root nor comes back
      to the child. */
  lemma SelfParentWalkNeverEnds(f: Forest, x: NodeId, c: NodeId)
    requires Linked(f) && Acyclic(f.parent) && x in f.parent
    requires c in f.parent && f.parent[c] == Some(x)
    ensures !WalkEnds(SetParentState(f, x, Some(x)).parent, c)
  {
    NotOwnParent(f.parent, x);
    NotOwnParent(f.parent, c);
    var par' := SetParentState(f, x, Some(x)).parent;
    assert par' == f.parent[x := Some(x)];
    assert par'[c] == Some(x);
    forall k: nat ensures !RootedIn(par', c, k) && !AncestorIn(par', c, c, k) {
      if k > 0 {
        SelfLoopNotRooted(par', x, k - 1);
        SelfLoopAvoids(par', c, x, k - 1);
      }
    }
  }

  /** With a new parent other than the node itself, `setParent` leaves
      every walk ending at a root, so `validateParentChildLink` terminates
      and passes at every node. */
  lemma SetParentWalksEnd(f: Forest, x: NodeId, p: Option<NodeId>, n: NodeId)
    requires Linked(f) && Acyclic(f.parent) && x in f.parent
    requires p.None? || (p.value in f.parent && p.value != x)
    requires n in f.parent
    ensures WalkEnds(SetParentState(f, x, p).parent, n)
    ensures WellFormed(SetParentState(f, x, p)) && LinkHolds(SetParentState(f, x, p), n)
  {
    SetParentKeeps(f, x, p);
    var f' := SetParentState(f, x, p);
    var k: nat :| RootedIn(f'.parent, n, k);
    ValidLinkHolds(f', n);
  }
}
