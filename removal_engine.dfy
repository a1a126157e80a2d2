/** `removeColumn` / `removeColumnByKey`: a leaf column is detached from the
    group or root holding it and its key is unregistered; every group left
    without children is then detached in turn, walking up the ancestors. */
module RemovalEngine {
  import opened Common
  import opened ColumnTree

  /* ---------------------------------------------------------------------- */
  /* Detaching one unit                                                      */
  /* ---------------------------------------------------------------------- */

  /** Unit `x` leaves the group or root that holds it and is marked removed. */
  function Detach(st: State, x: nat): (r: State)
    requires Shaped(st) && x < |st.nodes| && Attached(st, x)
    ensures |r.nodes| == |st.nodes| && r.keys == st.keys
  {
    var nd := st.nodes[x];
    var n1 := st.nodes[x := nd.(parent := Detached)];
    if nd.parent == Root then
      State(n1, Without(st.top, x), st.keys)
    else
      assert LinkedAt(st.nodes, x);
      var g := nd.parent.group;
      State(n1[g := n1[g].(children := Without(n1[g].children, x))], st.top, st.keys)
  }

  /** `s` is `st` with unit `x` cut out of every child list and of the top
      level, and marked removed; nothing else differs. */
  ghost predicate CutOut(st: State, s: State, x: nat) {
    |s.nodes| == |st.nodes| && x < |st.nodes| &&
    s.top == Without(st.top, x) && s.keys == st.keys &&
    s.nodes[x].parent == Detached &&
    forall i :: 0 <= i < |st.nodes| ==>
      s.nodes[i].kind == st.nodes[i].kind && s.nodes[i].key == st.nodes[i].key &&
      s.nodes[i].children == Without(st.nodes[i].children, x) &&
      (i != x ==> s.nodes[i].parent == st.nodes[i].parent)
  }

  /** Detaching a unit takes it out of exactly the one list that held it. */
  lemma DetachCuts(st: State, x: nat)
    requires Shaped(st) && x < |st.nodes| && Attached(st, x)
    ensures CutOut(st, Detach(st, x), x)
  {
    var s := Detach(st, x);
    var p := st.nodes[x].parent;
    assert LinkedAt(st.nodes, x);
    forall i | 0 <= i < |st.nodes| && !(p == Under(i))
      ensures Without(st.nodes[i].children, x) == st.nodes[i].children
    {
      assert LinkedAt(st.nodes, i);
      WithoutMembers(st.nodes[i].children, x);
    }
    if p != Root {
      forall k | 0 <= k < |st.top| ensures st.top[k] != x {}
      WithoutMembers(st.top, x);
    }
  }

  /** Cutting out a unit without children keeps the tree's structure. */
  lemma CutShaped(st: State, s: State, x: nat)
    requires Shaped(st) && CutOut(st, s, x) && st.nodes[x].children == []
    ensures Shaped(s)
  {
    WithoutNoDup(st.top, x);
    WithoutMembers(st.top, x);
    forall i, c | 0 <= i < |s.nodes| && c in s.nodes[i].children ensures c < i {
      WithoutMembers(st.nodes[i].children, x);
    }
    assert InArena(s.nodes, s.top) by {
      forall k | 0 <= k < |s.top| ensures s.top[k] < |s.nodes| {
        assert s.top[k] in s.top;
        var m :| 0 <= m < |st.top| && st.top[m] == s.top[k];
      }
    }
    forall k | 0 <= k < |s.top| ensures s.nodes[s.top[k]].parent == Root {
      assert s.top[k] in s.top;
      var m :| 0 <= m < |st.top| && st.top[m] == s.top[k];
    }
    forall i | 0 <= i < |s.nodes| && s.nodes[i].parent == Root ensures i in s.top {
      assert st.nodes[i].parent == Root;
    }
    forall i | 0 <= i < |s.nodes| ensures LinkedAt(s.nodes, i) {
      assert LinkedAt(st.nodes, i);
      WithoutNoDup(st.nodes[i].children, x);
      WithoutMembers(st.nodes[i].children, x);
      if s.nodes[i].parent.Under? {
        var q := s.nodes[i].parent.group;
        assert LinkedAt(st.nodes, q);
        WithoutMembers(st.nodes[q].children, x);
      }
    }
  }

  lemma InArenaWithout(n: seq<Node>, ids: seq<nat>, x: nat)
    requires InArena(n, ids)
    ensures InArena(n, Without(ids, x))
  {
    var w := Without(ids, x);
    WithoutMembers(ids, x);
    forall k | 0 <= k < |w| ensures w[k] < |n| {
      assert w[k] in w;
      var m :| 0 <= m < |ids| && ids[m] == w[k];
    }
  }

  /** Every child list of `n2` is that of `n1` with `x` taken out, and the
      kinds agree. */
  ghost predicate ChildrenCut(n1: seq<Node>, n2: seq<Node>, x: nat) {
    |n2| == |n1| && x < |n1| &&
    forall i :: 0 <= i < |n1| ==> n2[i].kind == n1[i].kind && n2[i].children == Without(n1[i].children, x)
  }

  /** Cutting `x`, whose own leaves are at most `[x]`, out of every child
      list takes `x` out of every other unit's leaves and leaves the rest of
      them in order. */
  lemma {:induction false} CutLeaves(n1: seq<Node>, n2: seq<Node>, x: nat, i: nat)
    requires ChildrenBelow(n1) && ChildrenBelow(n2) && ChildrenCut(n1, n2, x)
    requires Without(LeavesOf(n1, x), x) == []
    requires i < |n1| && i != x
    ensures LeavesOf(n2, i) == Without(LeavesOf(n1, i), x)
    decreases i, 1, 0
  {
    if n1[i].kind == Group {
      assert forall k :: 0 <= k < |n1[i].children| ==> n1[i].children[k] in n1[i].children;
      CutLeavesAll(n1, n2, x, n1[i].children);
    }
  }

  lemma {:induction false} CutLeavesAll(n1: seq<Node>, n2: seq<Node>, x: nat, ids: seq<nat>)
    requires ChildrenBelow(n1) && ChildrenBelow(n2) && ChildrenCut(n1, n2, x)
    requires Without(LeavesOf(n1, x), x) == []
    requires InArena(n1, ids)
    ensures InArena(n2, Without(ids, x))
    ensures LeavesOfAll(n2, Without(ids, x)) == Without(LeavesOfAll(n1, ids), x)
    decreases Bound(ids), 0, |ids|
  {
    InArenaWithout(n1, ids, x);
    if ids != [] {
      assert ids[0] in ids;
      var rest := Without(ids[1..], x);
      assert InArena(n1, ids[1..]);
      CutLeavesAll(n1, n2, x, ids[1..]);
      WithoutAppend(LeavesOf(n1, ids[0]), LeavesOfAll(n1, ids[1..]), x);
      if ids[0] == x {
        assert Without(ids, x) == rest;
      } else {
        CutLeaves(n1, n2, x, ids[0]);
        assert Without(ids, x) == [ids[0]] + rest;
        assert ([ids[0]] + rest)[1..] == rest;
      }
    }
  }

  /** The leaf-order effect of a detach: the unit's own leaves leave the
      flattened order, and every other unit loses exactly those leaves. */
  lemma DetachLeaves(st: State, x: nat)
    requires Shaped(st) && x < |st.nodes| && Attached(st, x) && st.nodes[x].children == []
    ensures Shaped(Detach(st, x))
    ensures forall i :: 0 <= i < |st.nodes| && i != x ==>
      LeavesOf(Detach(st, x).nodes, i) == Without(LeavesOf(st.nodes, i), x)
    ensures Columns(Detach(st, x)) == Without(Columns(st), x)
  {
    var s := Detach(st, x);
    DetachCuts(st, x);
    CutShaped(st, s, x);
    assert ChildrenCut(st.nodes, s.nodes, x);
    assert Without(LeavesOf(st.nodes, x), x) == [] by {
      if st.nodes[x].kind == Group {
        assert LeavesOf(st.nodes, x) == LeavesOfAll(st.nodes, []);
      }
    }
    forall i | 0 <= i < |st.nodes| && i != x
      ensures LeavesOf(s.nodes, i) == Without(LeavesOf(st.nodes, i), x)
    {
      CutLeaves(st.nodes, s.nodes, x, i);
    }
    CutLeavesAll(st.nodes, s.nodes, x, st.top);
  }

  /** Detaching an empty group changes no unit's leaves and not the
      flattened order. */
  lemma DetachEmptyGroupLeaves(st: State, g: nat)
    requires Shaped(st) && g < |st.nodes| && Attached(st, g)
    requires st.nodes[g].kind == Group && st.nodes[g].children == []
    ensures Shaped(Detach(st, g))
    ensures forall i :: 0 <= i < |st.nodes| ==> LeavesOf(Detach(st, g).nodes, i) == LeavesOf(st.nodes, i)
    ensures Columns(Detach(st, g)) == Columns(st)
  {
    DetachLeaves(st, g);
    var s := Detach(st, g);
    assert LeavesOf(s.nodes, g) == LeavesOfAll(s.nodes, []);
    assert LeavesOf(st.nodes, g) == LeavesOfAll(st.nodes, []);
    forall i | 0 <= i < |st.nodes| && i != g ensures LeavesOf(s.nodes, i) == LeavesOf(st.nodes, i) {
      LeavesAreLeaves(st.nodes, i);
      WithoutMembers(LeavesOf(st.nodes, i), g);
    }
    LeavesOfAllAreLeaves(st.nodes, st.top);
    WithoutMembers(Columns(st), g);
  }

  /** A detach leaves every other group non-empty that was, except the
      group that held the detached unit. */
  lemma DetachFilled(st: State, x: nat)
    requires Shaped(st) && x < |st.nodes| && Attached(st, x) && st.nodes[x].children == []
    requires FilledExcept(st, x)
    ensures st.nodes[x].parent.Under? ==> FilledExcept(Detach(st, x), st.nodes[x].parent.group)
    ensures st.nodes[x].parent == Root ==> Filled(Detach(st, x))
  {
    var s := Detach(st, x);
    DetachCuts(st, x);
    var p := st.nodes[x].parent;
    forall i | 0 <= i < |s.nodes| && !(p == Under(i)) && s.nodes[i].kind == Group && s.nodes[i].parent != Detached
      ensures s.nodes[i].children != []
    {
      assert LinkedAt(st.nodes, i);
      assert x !in st.nodes[i].children;
    }
  }

  /* ---------------------------------------------------------------------- */
  /* The upward cascade                                                      */
  /* ---------------------------------------------------------------------- */

  /** Starting at group `g`: while the current unit is an attached group
      with no children, detach it and move on to the group that held it. */
  function PruneUp(st: State, g: nat): (r: State)
    requires Shaped(st) && g < |st.nodes|
    ensures Shaped(r) && |r.nodes| == |st.nodes| && r.keys == st.keys
    decreases |st.nodes| - g
  {
    if st.nodes[g].kind == Group && Attached(st, g) && st.nodes[g].children == [] then
      var up := st.nodes[g].parent;
      DetachCuts(st, g);
      CutShaped(st, Detach(st, g), g);
      if up.Under? then
        assert LinkedAt(st.nodes, g);
        PruneUp(Detach(st, g), up.group)
      else
        Detach(st, g)
    else
      st
  }

  /** One step of the cascade, as the loop that performs it sees it. */
  lemma PruneUpStep(st: State, g: nat)
    requires Shaped(st) && g < |st.nodes|
    ensures var nd := st.nodes[g];
      if nd.kind == Group && nd.parent != Detached && nd.children == [] then
        Shaped(Detach(st, g)) &&
        (nd.parent.Under? ==> g < nd.parent.group < |st.nodes| && PruneUp(st, g) == PruneUp(Detach(st, g), nd.parent.group)) &&
        (nd.parent == Root ==> PruneUp(st, g) == Detach(st, g))
      else PruneUp(st, g) == st
  {
    if st.nodes[g].kind == Group && st.nodes[g].parent != Detached && st.nodes[g].children == [] {
      DetachCuts(st, g);
      CutShaped(st, Detach(st, g), g);
      assert LinkedAt(st.nodes, g);
    }
  }

  /** The cascade changes no unit's kind, key, children order or leaves; it
      only detaches units, and only empty groups. */
  ghost predicate Pruned(st: State, s: State) {
    ChildrenBelow(st.nodes) && ChildrenBelow(s.nodes) && |s.nodes| == |st.nodes| && s.keys == st.keys &&
    forall i :: 0 <= i < |st.nodes| ==>
      s.nodes[i].kind == st.nodes[i].kind && s.nodes[i].key == st.nodes[i].key &&
      LeavesOf(s.nodes, i) == LeavesOf(st.nodes, i) &&
      (Attached(s, i) ==> Attached(st, i)) &&
      (Attached(st, i) && !Attached(s, i) ==> st.nodes[i].kind == Group && LeavesOf(st.nodes, i) == [])
  }

  lemma PrunedTrans(s1: State, s2: State, s3: State)
    requires Pruned(s1, s2) && Pruned(s2, s3)
    ensures Pruned(s1, s3)
  {
    forall i | 0 <= i < |s1.nodes| && Attached(s1, i) && !Attached(s3, i)
      ensures s1.nodes[i].kind == Group && LeavesOf(s1.nodes, i) == []
    {
      if Attached(s2, i) {
        assert LeavesOf(s2.nodes, i) == [];
      }
    }
  }

  /** The cascade only detaches empty groups and keeps the leaf order. */
  lemma {:induction false} PruneUpPrunes(st: State, g: nat)
    requires Shaped(st) && g < |st.nodes|
    ensures Pruned(st, PruneUp(st, g))
    ensures Columns(PruneUp(st, g)) == Columns(st)
    decreases |st.nodes| - g
  {
    if st.nodes[g].kind == Group && Attached(st, g) && st.nodes[g].children == [] {
      var s := Detach(st, g);
      DetachCuts(st, g);
      DetachEmptyGroupLeaves(st, g);
      assert LeavesOf(st.nodes, g) == LeavesOfAll(st.nodes, []);
      assert Pruned(st, s);
      var up := st.nodes[g].parent;
      if up.Under? {
        assert LinkedAt(st.nodes, g);
        PruneUpPrunes(s, up.group);
        PrunedTrans(st, s, PruneUp(s, up.group));
      }
    }
  }

  /** The cascade leaves no attached group empty, given that `g` was the
      only possibly empty one when it started. */
  lemma {:induction false} PruneUpFills(st: State, g: nat)
    requires Shaped(st) && g < |st.nodes| && FilledExcept(st, g)
    ensures Filled(PruneUp(st, g))
    decreases |st.nodes| - g
  {
    if st.nodes[g].kind == Group && Attached(st, g) && st.nodes[g].children == [] {
      DetachCuts(st, g);
      CutShaped(st, Detach(st, g), g);
      DetachFilled(st, g);
      var up := st.nodes[g].parent;
      if up.Under? {
        assert LinkedAt(st.nodes, g);
        PruneUpFills(Detach(st, g), up.group);
      }
    }
  }

  /* ---------------------------------------------------------------------- */
  /* Removal                                                                 */
  /* ---------------------------------------------------------------------- */

  /** Takes the key of unit `c`, if it has one, out of the registry. */
  function Unregister(st: State, c: nat): (r: State)
    requires c < |st.nodes|
    ensures r.nodes == st.nodes && r.top == st.top
  {
    match st.nodes[c].key
    case None => st
    case Some(k) => st.(keys := st.keys - {k})
  }

  /** Removal of the attached leaf column `c`: detach it, prune the groups
      it leaves empty, and unregister its key. */
  function Remove(st: State, c: nat): State
    requires Shaped(st) && c < |st.nodes| && st.nodes[c].kind == Leaf && Attached(st, c)
  {
    var p := st.nodes[c].parent;
    assert LinkedAt(st.nodes, c);
    DetachCuts(st, c);
    CutShaped(st, Detach(st, c), c);
    var s := Detach(st, c);
    if p.Under? then
      assert LinkedAt(st.nodes, c);
      Unregister(PruneUp(s, p.group), c)
    else
      Unregister(s, c)
  }

  /** The state of a removal before its key is unregistered. */
  lemma RemoveStages(st: State, c: nat) returns (s: State, s2: State)
    requires Shaped(st) && c < |st.nodes| && st.nodes[c].kind == Leaf && Attached(st, c)
    ensures st.nodes[c].children == []
    ensures s == Detach(st, c) && CutOut(st, s, c) && Shaped(s)
    ensures Shaped(s2) && Pruned(s, s2) && Columns(s2) == Columns(s)
    ensures Remove(st, c) == Unregister(s2, c)
    ensures st.nodes[c].parent == Root ==> s2 == s
    ensures st.nodes[c].parent.Under? ==> st.nodes[c].parent.group < |st.nodes| && s2 == PruneUp(s, st.nodes[c].parent.group)
  {
    assert LinkedAt(st.nodes, c);
    DetachCuts(st, c);
    s := Detach(st, c);
    CutShaped(st, s, c);
    var p := st.nodes[c].parent;
    if p.Under? {
      assert LinkedAt(st.nodes, c);
      s2 := PruneUp(s, p.group);
      PruneUpPrunes(s, p.group);
    } else {
      s2 := s;
    }
  }

  /** Removal leaves no attached group empty. */
  lemma RemoveFilled(st: State, c: nat)
    requires Shaped(st) && Filled(st) && c < |st.nodes| && st.nodes[c].kind == Leaf && Attached(st, c)
    ensures Filled(Remove(st, c))
  {
    var s, s2 := RemoveStages(st, c);
    DetachFilled(st, c);
    if st.nodes[c].parent.Under? {
      PruneUpFills(s, st.nodes[c].parent.group);
    }
  }

  /** Detaching units, without touching kinds, keys or the registry, keeps
      the registry consistent. */
  lemma ShrinkKeysOk(st: State, s: State)
    requires KeysOk(st) && |s.nodes| == |st.nodes| && s.keys == st.keys
    requires forall i :: 0 <= i < |st.nodes| ==>
      s.nodes[i].kind == st.nodes[i].kind && s.nodes[i].key == st.nodes[i].key && (Attached(s, i) ==> Attached(st, i))
    ensures KeysOk(s)
  {
  }

  /** Unregistering the key of a detached column that the registry binds it
      to keeps the registry consistent. */
  lemma UnregisterKeysOk(s: State, c: nat)
    requires KeysOk(s) && c < |s.nodes| && !Attached(s, c)
    requires s.nodes[c].key.Some? ==> s.nodes[c].key.value in s.keys && s.keys[s.nodes[c].key.value] == c
    ensures KeysOk(Unregister(s, c))
  {
  }

  /** Removal keeps the registry consistent. */
  lemma RemoveKeysOk(st: State, c: nat)
    requires Shaped(st) && KeysOk(st) && c < |st.nodes| && st.nodes[c].kind == Leaf && Attached(st, c)
    ensures KeysOk(Remove(st, c))
  {
    var s, s2 := RemoveStages(st, c);
    ShrinkKeysOk(st, s);
    ShrinkKeysOk(s, s2);
    UnregisterKeysOk(s2, c);
  }

  /** Removal keeps the tree well formed: no attached group is left empty
      and the registry still binds each key to the leaf carrying it. */
  lemma RemoveValid(st: State, c: nat)
    requires Valid(st) && c < |st.nodes| && st.nodes[c].kind == Leaf && Attached(st, c)
    ensures Valid(Remove(st, c))
  {
    var s, s2 := RemoveStages(st, c);
    RemoveFilled(st, c);
    RemoveKeysOk(st, c);
  }

  /** After removal the column is detached, keeps its key, and neither the
      top level nor any group lists it. */
  lemma RemoveDetaches(st: State, c: nat)
    requires Shaped(st) && c < |st.nodes| && st.nodes[c].kind == Leaf && Attached(st, c)
    ensures |Remove(st, c).nodes| == |st.nodes|
    ensures !Attached(Remove(st, c), c) && Remove(st, c).nodes[c].key == st.nodes[c].key
    ensures c !in Remove(st, c).top
    ensures forall i :: 0 <= i < |Remove(st, c).nodes| ==> c !in Remove(st, c).nodes[i].children
  {
    var s, s2 := RemoveStages(st, c);
    var r := Remove(st, c);
    assert !Attached(s, c);
    forall i | 0 <= i < |r.nodes| ensures c !in r.nodes[i].children {
      assert LinkedAt(r.nodes, i);
    }
  }

  /** After removal the column's key no longer finds anything, and every
      other key finds what it found before. */
  lemma RemoveUnregisters(st: State, c: nat)
    requires Valid(st) && c < |st.nodes| && st.nodes[c].kind == Leaf && Attached(st, c)
    ensures Valid(Remove(st, c))
    ensures st.nodes[c].key.Some? ==> ColumnByKey(Remove(st, c), st.nodes[c].key.value) == None
    ensures forall k :: Some(k) != st.nodes[c].key ==> ColumnByKey(Remove(st, c), k) == ColumnByKey(st, k)
  {
    RemoveValid(st, c);
    RemoveKeys(st, c);
  }

  /** Removal takes the column's own key, and only that, out of the registry. */
  lemma RemoveKeys(st: State, c: nat)
    requires Shaped(st) && c < |st.nodes| && st.nodes[c].kind == Leaf && Attached(st, c)
    ensures st.nodes[c].key.None? ==> Remove(st, c).keys == st.keys
    ensures st.nodes[c].key.Some? ==> Remove(st, c).keys == st.keys - {st.nodes[c].key.value}
  {
    var s, s2 := RemoveStages(st, c);
  }

  /** Removal takes exactly the removed column out of the flattened order
      and keeps every other column in its order. */
  lemma RemoveColumns(st: State, c: nat)
    requires Valid(st) && c < |st.nodes| && st.nodes[c].kind == Leaf && Attached(st, c)
    ensures Valid(Remove(st, c))
    ensures Columns(Remove(st, c)) == Without(Columns(st), c)
  {
    RemoveValid(st, c);
    var s, s2 := RemoveStages(st, c);
    DetachLeaves(st, c);
  }

  /** An attached unit of a well-formed tree has at least one leaf. */
  lemma {:induction false} AttachedHasLeaves(st: State, u: nat)
    requires Valid(st) && u < |st.nodes| && Attached(st, u)
    ensures LeavesOf(st.nodes, u) != []
    decreases u
  {
    if st.nodes[u].kind == Group {
      var ch := st.nodes[u].children;
      assert LinkedAt(st.nodes, u);
      assert InArena(st.nodes, ch) by {
        forall k | 0 <= k < |ch| ensures ch[k] < |st.nodes| {
          assert ch[k] in ch;
        }
      }
      InArenaSlice(st.nodes, ch, 1, 1);
      assert ch != [] && ch[0] in ch;
      assert st.nodes[ch[0]].parent == Under(u);
      AttachedHasLeaves(st, ch[0]);
      assert LeavesOf(st.nodes, u) == LeavesOf(st.nodes, ch[0]) + LeavesOfAll(st.nodes, ch[1..]);
    }
  }

  /** What removal does to every other unit: it loses the removed column
      from its leaves, it is never attached anew, and it is detached only
      when no other leaf was left under it. */
  lemma RemoveTrims(st: State, c: nat)
    requires Shaped(st) && c < |st.nodes| && st.nodes[c].kind == Leaf && Attached(st, c)
    ensures Shaped(Remove(st, c)) && |Remove(st, c).nodes| == |st.nodes|
    ensures forall u :: 0 <= u < |st.nodes| ==>
      Remove(st, c).nodes[u].kind == st.nodes[u].kind && Remove(st, c).nodes[u].key == st.nodes[u].key
    ensures forall u :: 0 <= u < |st.nodes| && u != c ==>
      LeavesOf(Remove(st, c).nodes, u) == Without(LeavesOf(st.nodes, u), c)
    ensures forall u :: 0 <= u < |st.nodes| && Attached(Remove(st, c), u) ==> Attached(st, u)
    ensures forall u :: 0 <= u < |st.nodes| && u != c && Attached(st, u) && !Attached(Remove(st, c), u) ==>
      Without(LeavesOf(st.nodes, u), c) == []
  {
    var s, s2 := RemoveStages(st, c);
    DetachLeaves(st, c);
  }

  /** The cascade, stated outright: after removing column `c`, a unit stays
      attached exactly when it was attached and still has a leaf other than
      `c`. A group whose only leaf was `c` is detached, however deep, and a
      detached unit has no children. */
  lemma RemoveCascade(st: State, c: nat)
    requires Valid(st) && c < |st.nodes| && st.nodes[c].kind == Leaf && Attached(st, c)
    ensures |Remove(st, c).nodes| == |st.nodes|
    ensures forall u :: 0 <= u < |st.nodes| && u != c ==>
      (Attached(Remove(st, c), u) <==> Attached(st, u) && Without(LeavesOf(st.nodes, u), c) != [])
    ensures forall u :: 0 <= u < |st.nodes| && !Attached(Remove(st, c), u) ==> Remove(st, c).nodes[u].children == []
  {
    RemoveValid(st, c);
    RemoveTrims(st, c);
    var r := Remove(st, c);
    forall u | 0 <= u < |st.nodes| && u != c && Attached(r, u)
      ensures Without(LeavesOf(st.nodes, u), c) != []
    {
      AttachedHasLeaves(r, u);
    }
    forall u | 0 <= u < |st.nodes| && !Attached(r, u) ensures r.nodes[u].children == [] {
      assert LinkedAt(r.nodes, u);
    }
  }

  /** Removing a column from a group that holds other children leaves that
      group attached, with its remaining children in their order. */
  lemma RemoveFromLargerGroup(st: State, c: nat)
    requires Valid(st) && c < |st.nodes| && st.nodes[c].kind == Leaf && st.nodes[c].parent.Under?
    requires st.nodes[c].parent.group < |st.nodes| && |st.nodes[st.nodes[c].parent.group].children| >= 2
    ensures var g := st.nodes[c].parent.group;
      |Remove(st, c).nodes| == |st.nodes| && Attached(Remove(st, c), g) &&
      Remove(st, c).nodes[g].children == Without(st.nodes[g].children, c)
  {
    var g := st.nodes[c].parent.group;
    var s, s2 := RemoveStages(st, c);
    var ch := st.nodes[g].children;
    assert LinkedAt(st.nodes, c) && LinkedAt(st.nodes, g);
    var p := IndexOf(ch, c);
    WithoutAt(ch, p);
    assert |Without(ch, c)| == |ch| - 1;
    assert g != c;
  }
}
