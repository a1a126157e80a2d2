/** The ownership tree of a grid's columns, as a value.

    Every unit (a leaf column or a column group) lives in an arena slot and
    is named by its slot number. A unit records its kind, its link upward (to
    the grid's root, to a group, or none once removed), the ordered ids of
    its children, and its key if one was set. The grid itself holds the
    ordered top-level ids and the key registry.

    A group is always created after its children, so every child id is
    smaller than its group's id: that orders the tree and bounds every walk
    down or up it. */
module ColumnTree {
  import opened Common

  datatype Kind = Leaf | Group

  /** Where a unit hangs: nowhere (removed), at the grid's root, or in a group. */
  datatype Link = Detached | Root | Under(group: nat)

  datatype Node = Node(kind: Kind, parent: Link, children: seq<nat>, key: Option<string>)

  datatype State = State(nodes: seq<Node>, top: seq<nat>, keys: map<string, nat>)

  /* ---------------------------------------------------------------------- */
  /* Well-formedness                                                         */
  /* ---------------------------------------------------------------------- */

  /** Children are created before their group. */
  ghost predicate ChildrenBelow(n: seq<Node>) {
    forall i, c :: 0 <= i < |n| && c in n[i].children ==> c < i
  }

  /** The links of unit `i` agree in both directions. */
  ghost predicate LinkedAt(n: seq<Node>, i: nat)
    requires i < |n|
  {
    NoDup(n[i].children) &&
    (n[i].kind == Leaf ==> n[i].children == []) &&
    (n[i].parent == Detached ==> n[i].children == []) &&
    (forall c :: c in n[i].children ==> c < |n| && n[c].parent == Under(i)) &&
    (n[i].parent.Under? ==> n[i].parent.group < |n| && i in n[n[i].parent.group].children)
  }

  /** Every id names a unit of the arena. */
  ghost predicate InArena(n: seq<Node>, ids: seq<nat>) {
    forall k :: 0 <= k < |ids| ==> ids[k] < |n|
  }

  /** The top-level list holds exactly the units linked to the root, once each. */
  ghost predicate TopRooted(st: State) {
    NoDup(st.top) &&
    InArena(st.nodes, st.top) &&
    (forall k :: 0 <= k < |st.top| ==> st.nodes[st.top[k]].parent == Root) &&
    (forall i :: 0 <= i < |st.nodes| && st.nodes[i].parent == Root ==> i in st.top)
  }

  /** The tree's structure, without the rules about emptiness and keys. */
  ghost predicate Shaped(st: State) {
    ChildrenBelow(st.nodes) &&
    TopRooted(st) &&
    (forall i :: 0 <= i < |st.nodes| ==> LinkedAt(st.nodes, i))
  }

  predicate Attached(st: State, x: nat)
    requires x < |st.nodes|
  {
    st.nodes[x].parent != Detached
  }

  /** No attached group is empty, except possibly group `g`. */
  ghost predicate FilledExcept(st: State, g: nat) {
    forall i :: 0 <= i < |st.nodes| && i != g && st.nodes[i].kind == Group && st.nodes[i].parent != Detached ==>
      st.nodes[i].children != []
  }

  /** No attached group is empty. */
  ghost predicate Filled(st: State) {
    forall i :: 0 <= i < |st.nodes| && st.nodes[i].kind == Group && st.nodes[i].parent != Detached ==>
      st.nodes[i].children != []
  }

  /** The registry binds each key to the leaf carrying it, and every attached
      keyed unit is registered. Groups never carry keys. */
  ghost predicate KeysOk(st: State) {
    (forall k :: k in st.keys ==>
      st.keys[k] < |st.nodes| && st.nodes[st.keys[k]].kind == Leaf && st.nodes[st.keys[k]].key == Some(k)) &&
    (forall i :: 0 <= i < |st.nodes| && st.nodes[i].parent != Detached && st.nodes[i].key.Some? ==>
      st.nodes[i].key.value in st.keys && st.keys[st.nodes[i].key.value] == i) &&
    (forall i :: 0 <= i < |st.nodes| && st.nodes[i].kind == Group ==> st.nodes[i].key == None)
  }

  ghost predicate Valid(st: State) {
    Shaped(st) && Filled(st) && KeysOk(st)
  }

  /* ---------------------------------------------------------------------- */
  /* Queries                                                                 */
  /* ---------------------------------------------------------------------- */

  /** One more than the largest id in `ids`; a termination measure. */
  function Bound(ids: seq<nat>): (r: nat)
    ensures forall x :: x in ids ==> x < r
    ensures r == 0 || r - 1 in ids
  {
    if ids == [] then 0
    else
      var b := Bound(ids[1..]);
      assert forall x :: x in ids ==> x == ids[0] || x in ids[1..];
      if ids[0] + 1 > b then ids[0] + 1 else b
  }

  /** The leaves under unit `i`, depth first and left to right. */
  function LeavesOf(n: seq<Node>, i: nat): seq<nat>
    requires ChildrenBelow(n) && i < |n|
    decreases i, 1, 0
  {
    if n[i].kind == Leaf then [i]
    else
      assert forall k :: 0 <= k < |n[i].children| ==> n[i].children[k] in n[i].children;
      LeavesOfAll(n, n[i].children)
  }

  /** The leaves under each of `ids` in turn. */
  function LeavesOfAll(n: seq<Node>, ids: seq<nat>): seq<nat>
    requires ChildrenBelow(n) && InArena(n, ids)
    decreases Bound(ids), 0, |ids|
  {
    if ids == [] then []
    else
      assert ids[0] in ids;
      LeavesOf(n, ids[0]) + LeavesOfAll(n, ids[1..])
  }

  /** The flattened column order: the leaves of each top-level unit in turn. */
  function Columns(st: State): seq<nat>
    requires ChildrenBelow(st.nodes) && InArena(st.nodes, st.top)
  {
    LeavesOfAll(st.nodes, st.top)
  }

  /** A unit's leaves never include anything but leaf columns. */
  lemma {:induction false} LeavesAreLeaves(n: seq<Node>, i: nat)
    requires ChildrenBelow(n) && i < |n|
    ensures forall y :: y in LeavesOf(n, i) ==> y < |n| && n[y].kind == Leaf
    decreases i, 1, 0
  {
    if n[i].kind == Group {
      assert forall k :: 0 <= k < |n[i].children| ==> n[i].children[k] in n[i].children;
      LeavesOfAllAreLeaves(n, n[i].children);
    }
  }

  lemma {:induction false} LeavesOfAllAreLeaves(n: seq<Node>, ids: seq<nat>)
    requires ChildrenBelow(n) && InArena(n, ids)
    ensures forall y :: y in LeavesOfAll(n, ids) ==> y < |n| && n[y].kind == Leaf
    decreases Bound(ids), 0, |ids|
  {
    if ids != [] {
      assert ids[0] in ids;
      LeavesAreLeaves(n, ids[0]);
      LeavesOfAllAreLeaves(n, ids[1..]);
    }
  }

  /* ---------------------------------------------------------------------- */
  /* Each attached column exactly once                                       */
  /* ---------------------------------------------------------------------- */

  /** Every unit's links agree in both directions. */
  ghost predicate Linked(n: seq<Node>) {
    forall u :: 0 <= u < |n| ==> LinkedAt(n, u)
  }

  /** Unit `i` is `y` itself or one of `y`'s ancestors. */
  ghost predicate Reaches(n: seq<Node>, y: nat, i: nat)
    decreases |n| - y
  {
    y < |n| &&
    (y == i || (n[y].parent.Under? && y < n[y].parent.group < |n| && Reaches(n, n[y].parent.group, i)))
  }

  /** Walking up only meets larger ids. */
  lemma {:induction false} ReachesOnlyUp(n: seq<Node>, y: nat, d: nat)
    requires d < y
    ensures !Reaches(n, y, d)
    decreases |n| - y
  {
    if y < |n| && n[y].parent.Under? && y < n[y].parent.group < |n| {
      ReachesOnlyUp(n, n[y].parent.group, d);
    }
  }

  /** The ancestors of one unit form a chain: of two of them, one is above
      the other. */
  lemma {:induction false} ReachesLinear(n: seq<Node>, y: nat, c: nat, d: nat)
    requires Reaches(n, y, c)
    ensures Reaches(n, y, d) ==> Reaches(n, c, d) || Reaches(n, d, c)
    decreases |n| - y
  {
    if y != c && y != d {
      ReachesLinear(n, n[y].parent.group, c, d);
    }
  }

  /** Reaching a child means reaching its group. */
  lemma {:induction false} ReachesUp(n: seq<Node>, y: nat, c: nat, i: nat)
    requires Reaches(n, y, c) && c < i < |n| && n[c].parent == Under(i)
    ensures Reaches(n, y, i)
    decreases |n| - y
  {
    if y != c {
      ReachesUp(n, n[y].parent.group, c, i);
    } else {
      assert Reaches(n, i, i);
    }
  }

  /** Two distinct units hanging at the same place are not one above the other. */
  lemma SiblingsApart(n: seq<Node>, c: nat, d: nat)
    requires ChildrenBelow(n) && Linked(n)
    requires c < |n| && d < |n| && c != d && n[c].parent == n[d].parent && n[c].parent != Detached
    ensures !Reaches(n, c, d)
  {
    if n[c].parent.Under? {
      assert LinkedAt(n, d);
      ReachesOnlyUp(n, n[c].parent.group, d);
    }
  }

  /** Every leaf under unit `i` has `i` among its ancestors. */
  lemma {:induction false} LeavesReach(n: seq<Node>, i: nat)
    requires ChildrenBelow(n) && Linked(n) && i < |n|
    ensures forall y :: y in LeavesOf(n, i) ==> Reaches(n, y, i)
    decreases i, 1, 0
  {
    if n[i].kind == Group {
      var ch := n[i].children;
      assert LinkedAt(n, i);
      assert forall k :: 0 <= k < |ch| ==> ch[k] in ch;
      LeavesOfAllReach(n, ch);
      assert LeavesOf(n, i) == LeavesOfAll(n, ch);
      forall y | y in LeavesOf(n, i) ensures Reaches(n, y, i) {
        var c :| c in ch && Reaches(n, y, c);
        ReachesUp(n, y, c, i);
      }
    }
  }

  lemma {:induction false} LeavesOfAllReach(n: seq<Node>, ids: seq<nat>)
    requires ChildrenBelow(n) && Linked(n) && InArena(n, ids)
    ensures forall y :: y in LeavesOfAll(n, ids) ==> exists c :: c in ids && Reaches(n, y, c)
    decreases Bound(ids), 0, |ids|
  {
    if ids != [] {
      assert ids[0] in ids;
      LeavesReach(n, ids[0]);
      LeavesOfAllReach(n, ids[1..]);
      assert LeavesOfAll(n, ids) == LeavesOf(n, ids[0]) + LeavesOfAll(n, ids[1..]);
      forall y | y in LeavesOfAll(n, ids) ensures exists c :: c in ids && Reaches(n, y, c) {
        if y in LeavesOf(n, ids[0]) {
          assert Reaches(n, y, ids[0]);
        } else {
          var c :| c in ids[1..] && Reaches(n, y, c);
          assert c in ids;
        }
      }
    }
  }

  /** The leaves under one unit are listed once each. */
  lemma {:induction false} LeavesOnce(n: seq<Node>, i: nat)
    requires ChildrenBelow(n) && Linked(n) && i < |n|
    ensures NoDup(LeavesOf(n, i))
    decreases i, 1, 0
  {
    if n[i].kind == Group {
      var ch := n[i].children;
      assert LinkedAt(n, i);
      assert forall k :: 0 <= k < |ch| ==> ch[k] in ch;
      LeavesOfAllOnce(n, ch, Under(i));
    }
  }

  /** Distinct units hanging at the same place have disjoint leaves, so
      flattening them lists every leaf once. */
  lemma {:induction false} LeavesOfAllOnce(n: seq<Node>, ids: seq<nat>, up: Link)
    requires ChildrenBelow(n) && Linked(n) && InArena(n, ids) && NoDup(ids)
    requires up != Detached && forall k :: 0 <= k < |ids| ==> n[ids[k]].parent == up
    ensures NoDup(LeavesOfAll(n, ids))
    decreases Bound(ids), 0, |ids|
  {
    if ids != [] {
      var c, rest := ids[0], ids[1..];
      assert c in ids;
      assert NoDup(rest) by {
        forall i, j | 0 <= i < j < |rest| ensures rest[i] != rest[j] {
          assert rest[i] == ids[i + 1] && rest[j] == ids[j + 1];
        }
      }
      LeavesOnce(n, c);
      LeavesOfAllOnce(n, rest, up);
      LeavesReach(n, c);
      LeavesOfAllReach(n, rest);
      forall y, d | y in LeavesOf(n, c) && d in rest ensures !Reaches(n, y, d) {
        var k :| 0 <= k < |rest| && rest[k] == d;
        assert d == ids[k + 1] && d != c;
        SiblingsApart(n, c, d);
        SiblingsApart(n, d, c);
        ReachesLinear(n, y, c, d);
      }
      NoDupConcat(LeavesOf(n, c), LeavesOfAll(n, rest));
    }
  }

  /** The leaves under a unit listed in `ids` are among the leaves of `ids`. */
  lemma {:induction false} LeavesWithin(n: seq<Node>, ids: seq<nat>, u: nat)
    requires ChildrenBelow(n) && InArena(n, ids) && u in ids
    ensures u < |n|
    ensures forall y :: y in LeavesOf(n, u) ==> y in LeavesOfAll(n, ids)
  {
    assert ids[0] in ids;
    if ids[0] != u {
      assert InArena(n, ids[1..]) by {
        assert forall k :: 0 <= k < |ids| - 1 ==> ids[1..][k] == ids[k + 1];
      }
      LeavesWithin(n, ids[1..], u);
    }
  }

  /** A leaf under an attached unit is a column of the grid. */
  lemma {:induction false} AttachedInColumns(st: State, u: nat, y: nat)
    requires Shaped(st) && u < |st.nodes| && Attached(st, u) && y in LeavesOf(st.nodes, u)
    ensures y in Columns(st)
    decreases |st.nodes| - u
  {
    var n := st.nodes;
    assert LinkedAt(n, u);
    if n[u].parent == Root {
      LeavesWithin(n, st.top, u);
    } else {
      var g := n[u].parent.group;
      assert LinkedAt(n, g);
      var ch := n[g].children;
      assert InArena(n, ch) by {
        assert forall k :: 0 <= k < |ch| ==> ch[k] in ch;
      }
      LeavesWithin(n, ch, u);
      AttachedInColumns(st, g, y);
    }
  }

  /** The column order lists every attached leaf column of the grid, each
      exactly once, and nothing else. */
  lemma ColumnsExact(st: State)
    requires Valid(st)
    ensures NoDup(Columns(st))
    ensures forall x: nat :: x in Columns(st) <==> x < |st.nodes| && st.nodes[x].kind == Leaf && Attached(st, x)
  {
    var n := st.nodes;
    LeavesOfAllOnce(n, st.top, Root);
    LeavesOfAllAreLeaves(n, st.top);
    LeavesOfAllReach(n, st.top);
    forall x | x in Columns(st) ensures x < |n| && Attached(st, x) {
      var c :| c in st.top && Reaches(n, x, c);
      var k :| 0 <= k < |st.top| && st.top[k] == c;
      assert n[c].parent == Root;
    }
    forall x: nat | x < |n| && n[x].kind == Leaf && Attached(st, x) ensures x in Columns(st) {
      AttachedInColumns(st, x, x);
    }
  }

  /** The unit the registry binds to `k`, if any. */
  function ColumnByKey(st: State, k: string): (r: Option<nat>)
    requires KeysOk(st)
    ensures r.Some? ==> r.value < |st.nodes| && st.nodes[r.value].kind == Leaf && st.nodes[r.value].key == Some(k)
    ensures r == None ==> forall i :: 0 <= i < |st.nodes| && Attached(st, i) ==> st.nodes[i].key != Some(k)
  {
    if k in st.keys then Some(st.keys[k]) else None
  }

  /* ---------------------------------------------------------------------- */
  /* Operations                                                              */
  /* ---------------------------------------------------------------------- */

  /** A grid with no columns. */
  function Empty(): (r: State)
    ensures Valid(r) && Columns(r) == [] && r.top == []
  {
    State([], [], map[])
  }

  /** addColumn: a new unkeyed leaf, last at top level; its id is `|st.nodes|`. */
  function AddLeaf(st: State): State
  {
    State(st.nodes + [Node(Leaf, Root, [], None)], st.top + [|st.nodes|], st.keys)
  }

  /* ---------------------------------------------------------------------- */
  /* Facts about the leaf order                                              */
  /* ---------------------------------------------------------------------- */

  /** `n2` keeps the kind and children of every unit of `n1` (it may add units
      and change links and keys). */
  ghost predicate SameShape(n1: seq<Node>, n2: seq<Node>) {
    |n1| <= |n2| &&
    forall i :: 0 <= i < |n1| ==> n2[i].kind == n1[i].kind && n2[i].children == n1[i].children
  }

  lemma {:induction false} LeavesOfFrame(n1: seq<Node>, n2: seq<Node>, i: nat)
    requires ChildrenBelow(n1) && ChildrenBelow(n2) && SameShape(n1, n2) && i < |n1|
    ensures LeavesOf(n2, i) == LeavesOf(n1, i)
    decreases i, 1, 0
  {
    if n1[i].kind == Group {
      assert forall k :: 0 <= k < |n1[i].children| ==> n1[i].children[k] in n1[i].children;
      LeavesOfAllFrame(n1, n2, n1[i].children);
    }
  }

  lemma {:induction false} LeavesOfAllFrame(n1: seq<Node>, n2: seq<Node>, ids: seq<nat>)
    requires ChildrenBelow(n1) && ChildrenBelow(n2) && SameShape(n1, n2)
    requires InArena(n1, ids)
    ensures LeavesOfAll(n2, ids) == LeavesOfAll(n1, ids)
    decreases Bound(ids), 0, |ids|
  {
    if ids != [] {
      assert ids[0] in ids;
      LeavesOfFrame(n1, n2, ids[0]);
      LeavesOfAllFrame(n1, n2, ids[1..]);
    }
  }

  lemma {:induction false} LeavesOfAllAppend(n: seq<Node>, s: seq<nat>, t: seq<nat>)
    requires ChildrenBelow(n) && InArena(n, s) && InArena(n, t)
    ensures InArena(n, s + t)
    ensures LeavesOfAll(n, s + t) == LeavesOfAll(n, s) + LeavesOfAll(n, t)
  {
    var u := s + t;
    assert InArena(n, u) by {
      forall k | 0 <= k < |u| ensures u[k] < |n| {
        if k < |s| { assert u[k] == s[k]; } else { assert u[k] == t[k - |s|]; }
      }
    }
    if s == [] {
      assert u == t;
    } else {
      assert u[0] == s[0] && u[1..] == s[1..] + t;
      LeavesOfAllAppend(n, s[1..], t);
      assert LeavesOfAll(n, u) == LeavesOf(n, s[0]) + LeavesOfAll(n, s[1..] + t);
    }
  }

  lemma LeavesOfAllSingle(n: seq<Node>, x: nat)
    requires ChildrenBelow(n) && x < |n|
    ensures InArena(n, [x])
    ensures LeavesOfAll(n, [x]) == LeavesOf(n, x)
  {
    assert [x][1..] == [];
    assert LeavesOfAll(n, [x]) == LeavesOf(n, x) + LeavesOfAll(n, []);
  }

  lemma InArenaSlice(n: seq<Node>, s: seq<nat>, i: nat, j: nat)
    requires InArena(n, s) && i <= j <= |s|
    ensures InArena(n, s[..i]) && InArena(n, s[i..j]) && InArena(n, s[j..])
  {
    assert forall k :: 0 <= k < j - i ==> s[i..j][k] == s[i + k];
    assert forall k :: 0 <= k < |s| - j ==> s[j..][k] == s[j + k];
  }

  lemma AddLeafShaped(st: State)
    requires Shaped(st)
    ensures Shaped(AddLeaf(st))
  {
    var r := AddLeaf(st);
    var id := |st.nodes|;
    assert forall i :: 0 <= i < id ==> r.nodes[i] == st.nodes[i];
    forall i | 0 <= i < |r.nodes| ensures LinkedAt(r.nodes, i) {
      if i < id {
        assert LinkedAt(st.nodes, i);
      }
    }
    assert NoDup(r.top) by {
      forall k | 0 <= k < |st.top| ensures st.top[k] != id {}
    }
  }

  /** addColumn keeps the tree well formed, appends the new leaf to the top
      level and to the flattened column order, and binds no key. */
  lemma AddLeafAppends(st: State)
    requires Valid(st)
    ensures Valid(AddLeaf(st))
    ensures AddLeaf(st).top == st.top + [|st.nodes|]
    ensures Columns(AddLeaf(st)) == Columns(st) + [|st.nodes|]
  {
    AddLeafShaped(st);
    AddLeafFilledKeys(st);
    AddLeafColumns(st);
  }

  lemma AddLeafFilledKeys(st: State)
    requires Valid(st)
    ensures Filled(AddLeaf(st)) && KeysOk(AddLeaf(st))
  {
    var r := AddLeaf(st);
    assert forall i :: 0 <= i < |st.nodes| ==> r.nodes[i] == st.nodes[i];
  }

  lemma AddLeafColumns(st: State)
    requires ChildrenBelow(st.nodes) && InArena(st.nodes, st.top)
    ensures ChildrenBelow(AddLeaf(st).nodes) && InArena(AddLeaf(st).nodes, AddLeaf(st).top)
    ensures Columns(AddLeaf(st)) == Columns(st) + [|st.nodes|]
  {
    var r := AddLeaf(st);
    var id := |st.nodes|;
    assert SameShape(st.nodes, r.nodes);
    assert ChildrenBelow(r.nodes) by {
      assert forall i :: 0 <= i < id ==> r.nodes[i] == st.nodes[i];
    }
    LeavesOfAllFrame(st.nodes, r.nodes, st.top);
    LeavesOfAllAppend(r.nodes, st.top, [id]);
    assert LeavesOfAll(r.nodes, [id]) == [id];
  }
}
