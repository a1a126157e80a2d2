/** The grid as an object: its arena of units, its top-level order and its
    key registry are fields that the operations update in place. Each
    operation is proved against the value-level definition in ColumnTree,
    KeyRegistry, MergeEngine or RemovalEngine. */
module Grids {
  import opened Common
  import opened ColumnTree
  import KeyRegistry
  import MergeEngine
  import RemovalEngine

  /** A handle on a column or column group: the grid that created it and its
      slot there. Two handles are the same unit exactly when both agree. */
  datatype Ref = Ref(grid: Grid, id: nat)

  class Grid {
    var nodes: seq<Node>
    var top: seq<nat>
    var keys: map<string, nat>

    /** The grid's state as a value. */
    function Model(): State
      reads this
    {
      State(nodes, top, keys)
    }

    ghost predicate Valid()
      reads this
    {
      ColumnTree.Valid(Model())
    }

    /** The key a handle's unit carries in the grid that created it. */
    function KeyOf(u: Ref): Option<string>
      reads u.grid
      requires u.id < |u.grid.nodes|
    {
      u.grid.nodes[u.id].key
    }

    /** A new grid has no columns. */
    constructor()
      ensures Valid() && Model() == Empty()
    {
      nodes, top, keys := [], [], map[];
    }

    /** addColumn: a new unkeyed leaf column, last at top level. */
    method AddColumn() returns (c: Ref)
      requires Valid()
      modifies this
      ensures Valid() && Model() == AddLeaf(old(Model()))
      ensures c == Ref(this, old(|nodes|))
      ensures top == old(top) + [c.id] && Columns(Model()) == old(Columns(Model())) + [c.id]
    {
      AddLeafAppends(Model());
      c := Ref(this, |nodes|);
      nodes := nodes + [Node(Leaf, Root, [], None)];
      top := top + [c.id];
    }

    /** Column.setKey on leaf `c` of this grid. */
    method SetKey(c: nat, k: string) returns (out: Outcome)
      requires Valid() && c < |nodes| && nodes[c].kind == Leaf
      modifies this
      ensures Valid()
      ensures KeyRegistry.SetKey(old(Model()), c, k).Ok? ==>
        out == Pass && Model() == KeyRegistry.SetKey(old(Model()), c, k).value
      ensures KeyRegistry.SetKey(old(Model()), c, k).Err? ==>
        out == Fail(KeyRegistry.SetKey(old(Model()), c, k).error) && Model() == old(Model())
    {
      if nodes[c].key.Some? {
        return Fail(StateError);
      }
      if k in keys {
        return Fail(DuplicateKey(k));
      }
      KeyRegistry.SetKeyValid(Model(), c, k);
      nodes := nodes[c := nodes[c].(key := Some(k))];
      keys := keys[k := c];
      out := Pass;
    }

    /** getColumnByKey: the column the registry binds to `k`, if any. */
    method GetColumnByKey(k: string) returns (r: Option<Ref>)
      requires Valid()
      ensures ColumnByKey(Model(), k).None? ==> r == None
      ensures ColumnByKey(Model(), k).Some? ==> r == Some(Ref(this, ColumnByKey(Model(), k).value))
    {
      if k in keys {
        r := Some(Ref(this, keys[k]));
      } else {
        r := None;
      }
    }

    /** mergeColumns(a, b): both must be top-level units of this grid; the
        new group takes `a`'s place with children [a, b]. */
    method MergeColumns(a: Ref, b: Ref) returns (r: Result<Ref>)
      requires Valid() && a.id < |a.grid.nodes| && b.id < |b.grid.nodes| && a != b
      modifies this
      ensures Valid()
      ensures !(a.grid == this && a.id in old(top)) ==>
        r == Err(InvalidArg(old(KeyOf(a)))) && Model() == old(Model())
      ensures a.grid == this && a.id in old(top) && !(b.grid == this && b.id in old(top)) ==>
        r == Err(InvalidArg(old(KeyOf(b)))) && Model() == old(Model())
      ensures a.grid == this && a.id in old(top) && b.grid == this && b.id in old(top) ==>
        a.id < old(|nodes|) && b.id < old(|nodes|) &&
        r == Ok(Ref(this, old(|nodes|))) && Model() == MergeEngine.Merge(old(Model()), a.id, b.id)
    {
      if !(a.grid == this && a.id in top) {
        return Err(InvalidArg(a.grid.nodes[a.id].key));
      }
      if !(b.grid == this && b.id in top) {
        return Err(InvalidArg(b.grid.nodes[b.id].key));
      }
      MergeEngine.MergeValid(Model(), a.id, b.id);
      var g := |nodes|;
      var pa := IndexOf(top, a.id);
      nodes := nodes[a.id := nodes[a.id].(parent := Under(g))];
      nodes := nodes[b.id := nodes[b.id].(parent := Under(g))];
      nodes := nodes + [Node(Group, Root, [a.id, b.id], None)];
      top := Without(top[pa := g], b.id);
      r := Ok(Ref(this, g));
    }

    /** Detaches unit `x` from the group or root holding it. */
    method DetachUnit(x: nat)
      requires Shaped(Model()) && x < |nodes| && Attached(Model(), x)
      modifies this
      ensures Model() == RemovalEngine.Detach(old(Model()), x)
    {
      var nd := nodes[x];
      assert LinkedAt(nodes, x);
      nodes := nodes[x := nd.(parent := Detached)];
      if nd.parent == Root {
        top := Without(top, x);
      } else {
        var g := nd.parent.group;
        nodes := nodes[g := nodes[g].(children := Without(nodes[g].children, x))];
      }
    }

    /** Walks up from group `g`, detaching each attached group left without
        children, and stops at the first group that still has some. */
    method PruneFrom(g0: nat)
      requires Shaped(Model()) && g0 < |nodes|
      modifies this
      ensures Model() == RemovalEngine.PruneUp(old(Model()), g0)
    {
      ghost var target := RemovalEngine.PruneUp(Model(), g0);
      ghost var size := |nodes|;
      var g := g0;
      var going := true;
      while going
        invariant Shaped(Model()) && g < |nodes| && |nodes| == size
        invariant going ==> RemovalEngine.PruneUp(Model(), g) == target
        invariant !going ==> Model() == target
        decreases size - g, going
      {
        RemovalEngine.PruneUpStep(Model(), g);
        if nodes[g].kind == Group && nodes[g].parent != Detached && nodes[g].children == [] {
          var up := nodes[g].parent;
          DetachUnit(g);
          if up.Under? {
            g := up.group;
          } else {
            going := false;
          }
        } else {
          going := false;
        }
      }
    }

    /** The removal of attached leaf `x`: detach it, prune the groups above
        it that are left without children, then unregister its key. */
    method RemoveAttached(x: nat)
      requires Valid() && x < |nodes| && nodes[x].kind == Leaf && Attached(Model(), x)
      modifies this
      ensures Valid() && Model() == RemovalEngine.Remove(old(Model()), x)
    {
      RemovalEngine.RemoveValid(Model(), x);
      ghost var s, s2 := RemovalEngine.RemoveStages(Model(), x);
      var p := nodes[x].parent;
      var key := nodes[x].key;
      DetachUnit(x);
      if p.Under? {
        PruneFrom(p.group);
      }
      if key.Some? {
        keys := keys - {key.value};
      }
    }

    /** removeColumn: fails on null, and on a column that is not reachable in
        this grid (another grid's, or one already removed), naming its key. */
    method RemoveColumn(c: Option<Ref>) returns (out: Outcome)
      requires Valid()
      requires c.Some? ==> c.value.id < |c.value.grid.nodes| && c.value.grid.nodes[c.value.id].kind == Leaf
      modifies this
      ensures Valid()
      ensures c.None? ==> out == Fail(NullArg("column")) && Model() == old(Model())
      ensures c.Some? && !(c.value.grid == this && old(Attached(Model(), c.value.id))) ==>
        out == Fail(InvalidArg(old(KeyOf(c.value)))) && Model() == old(Model())
      ensures c.Some? && c.value.grid == this && old(Attached(Model(), c.value.id)) ==>
        out == Pass && Model() == RemovalEngine.Remove(old(Model()), c.value.id)
    {
      if c.None? {
        return Fail(NullArg("column"));
      }
      var u := c.value;
      if !(u.grid == this && nodes[u.id].parent != Detached) {
        return Fail(InvalidArg(u.grid.nodes[u.id].key));
      }
      RemoveAttached(u.id);
      out := Pass;
    }

    /** removeColumnByKey: fails on null and on a key that finds no column of
        this grid; otherwise removes the column the key finds. */
    method RemoveColumnByKey(k: Option<string>) returns (out: Outcome)
      requires Valid()
      modifies this
      ensures Valid()
      ensures k.None? ==> out == Fail(NullArg("columnKey")) && Model() == old(Model())
      ensures k.Some? && k.value !in old(keys) ==> out == Fail(InvalidArg(k)) && Model() == old(Model())
      ensures k.Some? && k.value in old(keys) && !old(Attached(Model(), keys[k.value])) ==>
        out == Fail(InvalidArg(k)) && Model() == old(Model())
      ensures k.Some? && k.value in old(keys) && old(Attached(Model(), keys[k.value])) ==>
        out == Pass && Model() == RemovalEngine.Remove(old(Model()), old(keys[k.value]))
    {
      if k.None? {
        return Fail(NullArg("columnKey"));
      }
      if k.value !in keys {
        return Fail(InvalidArg(k));
      }
      out := RemoveColumn(Some(Ref(this, keys[k.value])));
    }

    /** getColumns: the leaf columns, left to right; every column attached
        to this grid appears, once. */
    method GetColumns() returns (cols: seq<Ref>)
      requires Valid()
      ensures |cols| == |Columns(Model())|
      ensures forall i :: 0 <= i < |cols| ==> cols[i] == Ref(this, Columns(Model())[i])
      ensures forall i :: 0 <= i < |cols| ==> cols[i].id < |nodes| && nodes[cols[i].id].kind == Leaf
      ensures forall i, j :: 0 <= i < j < |cols| ==> cols[i] != cols[j]
      ensures forall x :: 0 <= x < |nodes| && nodes[x].kind == Leaf && nodes[x].parent != Detached ==>
        Ref(this, x) in cols
    {
      var ids := Columns(Model());
      LeavesOfAllAreLeaves(nodes, top);
      ColumnsExact(Model());
      cols := ToRefs(ids);
      forall i | 0 <= i < |cols| ensures cols[i].id < |nodes| && nodes[cols[i].id].kind == Leaf {
        assert cols[i].id == ids[i] && ids[i] in ids;
      }
      forall i, j | 0 <= i < j < |cols| ensures cols[i] != cols[j] {
        assert cols[i].id == ids[i] && cols[j].id == ids[j];
      }
      forall x | 0 <= x < |nodes| && nodes[x].kind == Leaf && nodes[x].parent != Detached
        ensures Ref(this, x) in cols
      {
        assert x in ids;
        var k :| 0 <= k < |ids| && ids[k] == x;
        assert cols[k] == Ref(this, x);
      }
    }

    /** The units the grid's root holds, in order: the top-level columns. */
    method TopLevelColumns() returns (units: seq<Ref>)
      requires Valid()
      ensures |units| == |top|
      ensures forall i :: 0 <= i < |units| ==> units[i] == Ref(this, top[i])
      ensures forall i :: 0 <= i < |units| ==> units[i].id < |nodes| && nodes[units[i].id].parent == Root
    {
      units := ToRefs(top);
      forall i | 0 <= i < |units| ensures units[i].id < |nodes| && nodes[units[i].id].parent == Root {
        assert units[i].id == top[i];
      }
    }

    /** ColumnGroup.getChildColumns: the children of unit `u`, in order; each
        one names `u` as its group. */
    method ChildColumns(u: Ref) returns (units: seq<Ref>)
      requires Valid() && u.grid == this && u.id < |nodes|
      ensures |units| == |nodes[u.id].children|
      ensures forall i :: 0 <= i < |units| ==> units[i] == Ref(this, nodes[u.id].children[i])
      ensures forall i :: 0 <= i < |units| ==> units[i].id < |nodes| && nodes[units[i].id].parent == Under(u.id)
    {
      var ch := nodes[u.id].children;
      assert LinkedAt(nodes, u.id);
      units := ToRefs(ch);
      forall i | 0 <= i < |units| ensures units[i].id < |nodes| && nodes[units[i].id].parent == Under(u.id) {
        assert units[i].id == ch[i] && ch[i] in ch;
      }
    }

    /** Where unit `u` hangs: at the grid's root exactly when the top level
        lists it, in a group that lists it among its children, or nowhere,
        listed by nothing, once removed. */
    method ParentOf(u: Ref) returns (p: Link)
      requires Valid() && u.grid == this && u.id < |nodes|
      ensures p == nodes[u.id].parent
      ensures p == Root <==> u.id in top
      ensures p.Under? ==> p.group < |nodes| && u.id in nodes[p.group].children
      ensures p == Detached ==> forall i :: 0 <= i < |nodes| ==> u.id !in nodes[i].children
    {
      p := nodes[u.id].parent;
      assert LinkedAt(nodes, u.id);
      if u.id in top {
        var k :| 0 <= k < |top| && top[k] == u.id;
      }
      if p == Detached {
        forall i | 0 <= i < |nodes| ensures u.id !in nodes[i].children {
          assert LinkedAt(nodes, i);
        }
      }
    }

    /** Handles on the units `ids` of this grid, in order. */
    method ToRefs(ids: seq<nat>) returns (units: seq<Ref>)
      ensures |units| == |ids|
      ensures forall i :: 0 <= i < |ids| ==> units[i] == Ref(this, ids[i])
    {
      units := [];
      for i := 0 to |ids|
        invariant |units| == i
        invariant forall j :: 0 <= j < i ==> units[j] == Ref(this, ids[j])
      {
        units := units + [Ref(this, ids[i])];
      }
    }
  }
}
