/** `mergeColumns`: two top-level units become the children of a new group,
    which takes the first unit's place at top level. */
module MergeEngine {
  import opened Common
  import opened ColumnTree

  /** The merge of two distinct top-level units `a` and `b`: a new group, id
      `|st.nodes|`, with children [a, b] in that order, stands where `a` stood
      at top level, and `b` leaves the top level. */
  function Merge(st: State, a: nat, b: nat): State
    requires a < |st.nodes| && b < |st.nodes| && a in st.top && b in st.top && a != b
  {
    var g := |st.nodes|;
    var n := st.nodes[a := st.nodes[a].(parent := Under(g))][b := st.nodes[b].(parent := Under(g))];
    State(n + [Node(Group, Root, [a, b], None)], MergedTop(st.top, a, b, g), st.keys)
  }

  /** The top level after a merge: `g` in `a`'s place, `b` taken out. */
  function MergedTop(t: seq<nat>, a: nat, b: nat, g: nat): seq<nat>
    requires a in t
  {
    Without(t[IndexOf(t, a) := g], b)
  }

  /** The new unit stands at `a`'s position; `b` is gone; the other units
      keep their relative order. */
  lemma MergedTopSplit(t: seq<nat>, a: nat, b: nat, g: nat)
    requires NoDup(t) && a in t && b in t && a != b && g !in t
    ensures var pa, pb := IndexOf(t, a), IndexOf(t, b);
      MergedTop(t, a, b, g) ==
        if pa < pb then t[..pa] + [g] + t[pa + 1..pb] + t[pb + 1..]
        else t[..pb] + t[pb + 1..pa] + [g] + t[pa + 1..]
  {
    ReplaceThenRemove(t, IndexOf(t, a), IndexOf(t, b), g);
  }

  /** What the leaf-order lemmas need of a merge's arguments: two distinct
      top-level units of a tree whose children precede their groups. Every
      valid tree and pair of distinct top-level units meets it. */
  ghost predicate CanMerge(st: State, a: nat, b: nat) {
    ChildrenBelow(st.nodes) && NoDup(st.top) && InArena(st.nodes, st.top) &&
    a in st.top && b in st.top && a != b && a < |st.nodes| && b < |st.nodes|
  }

  /** The merged arena still has every child before its group, keeps the kind
      and children of every old unit, and lists only its own units at top level. */
  lemma MergeOrdered(st: State, a: nat, b: nat)
    requires CanMerge(st, a, b)
    ensures a < |st.nodes| && b < |st.nodes|
    ensures ChildrenBelow(Merge(st, a, b).nodes) && SameShape(st.nodes, Merge(st, a, b).nodes)
    ensures InArena(Merge(st, a, b).nodes, Merge(st, a, b).top)
  {
    var r := Merge(st, a, b);
    var g := |st.nodes|;
    assert a < g && b < g by {
      var ka, kb := IndexOf(st.top, a), IndexOf(st.top, b);
    }
    assert SameShape(st.nodes, r.nodes);
    assert ChildrenBelow(r.nodes) by {
      forall i, c | 0 <= i < |r.nodes| && c in r.nodes[i].children ensures c < i {
        if i < g {
          assert r.nodes[i].children == st.nodes[i].children;
        }
      }
    }
    assert InArena(r.nodes, r.top) by {
      var t := st.top[IndexOf(st.top, a) := g];
      WithoutMembers(t, b);
      forall k | 0 <= k < |r.top| ensures r.top[k] < |r.nodes| {
        assert r.top[k] in r.top;
        assert r.top[k] in t;
        var m :| 0 <= m < |t| && t[m] == r.top[k];
      }
    }
  }

  /** The top level after a merge lists the new group and the untouched
      top-level units, each once. */
  lemma MergeTopRooted(st: State, a: nat, b: nat)
    requires TopRooted(st) && a in st.top && b in st.top && a != b
    ensures a < |st.nodes| && b < |st.nodes|
    ensures TopRooted(Merge(st, a, b))
  {
    var r := Merge(st, a, b);
    var g := |st.nodes|;
    var pa := IndexOf(st.top, a);
    var t := st.top[pa := g];
    WithoutMembers(t, b);
    assert a < g && b < g;
    assert g !in st.top by {
      forall k | 0 <= k < |st.top| ensures st.top[k] != g {}
    }
    ReplaceNoDup(st.top, pa, g);
    WithoutNoDup(t, b);
    forall k | 0 <= k < |r.top| ensures r.top[k] < |r.nodes| && r.nodes[r.top[k]].parent == Root {
      var x := r.top[k];
      assert x in r.top;
      assert x in t && x != b;
      var m :| 0 <= m < |t| && t[m] == x;
      if m != pa {
        assert x == st.top[m] && x != a;
      }
    }
    forall i | 0 <= i < |r.nodes| && r.nodes[i].parent == Root ensures i in r.top {
      if i == g {
        assert t[pa] == g;
      } else {
        assert i != a && i != b && st.nodes[i].parent == Root;
        assert i in st.top;
        var m := IndexOf(st.top, i);
        assert m != pa && t[m] == i;
      }
    }
  }

  /** The links of an old unit `i` still agree after a merge. */
  lemma MergeLinkedAt(st: State, a: nat, b: nat, i: nat)
    requires Shaped(st) && a < |st.nodes| && b < |st.nodes| && a in st.top && b in st.top && a != b
    requires st.nodes[a].parent == Root && st.nodes[b].parent == Root
    requires i < |st.nodes|
    ensures LinkedAt(Merge(st, a, b).nodes, i)
  {
    var r := Merge(st, a, b);
    assert LinkedAt(st.nodes, i);
    assert r.nodes[i].children == st.nodes[i].children && r.nodes[i].kind == st.nodes[i].kind;
    forall c | c in r.nodes[i].children ensures c < |r.nodes| && r.nodes[c].parent == Under(i) {
      assert st.nodes[c].parent == Under(i);
    }
    if r.nodes[i].parent.Under? && i != a && i != b {
      assert LinkedAt(st.nodes, st.nodes[i].parent.group);
    }
  }

  /** Every unit's links still agree after a merge. */
  lemma MergeShaped(st: State, a: nat, b: nat)
    requires Shaped(st) && a in st.top && b in st.top && a != b
    ensures a < |st.nodes| && b < |st.nodes|
    ensures Shaped(Merge(st, a, b))
  {
    MergeTopRooted(st, a, b);
    var g := |st.nodes|;
    assert st.nodes[a].parent == Root && st.nodes[b].parent == Root by {
      var ka, kb := IndexOf(st.top, a), IndexOf(st.top, b);
    }
    MergeOrdered(st, a, b);
    forall i | 0 <= i < g + 1 ensures LinkedAt(Merge(st, a, b).nodes, i) {
      if i < g {
        MergeLinkedAt(st, a, b, i);
      }
    }
  }

  /** Merging keeps the tree well formed: the new group is attached with its
      two children, and the registry is untouched. */
  lemma MergeValid(st: State, a: nat, b: nat)
    requires Valid(st) && a in st.top && b in st.top && a != b
    ensures a < |st.nodes| && b < |st.nodes|
    ensures Valid(Merge(st, a, b))
    ensures Merge(st, a, b).keys == st.keys
    ensures var g := |st.nodes|;
      |Merge(st, a, b).nodes| == g + 1 &&
      Merge(st, a, b).nodes[g] == Node(Group, Root, [a, b], None) &&
      Merge(st, a, b).nodes[a].parent == Under(g) && Merge(st, a, b).nodes[b].parent == Under(g)
  {
    MergeShaped(st, a, b);
    var r := Merge(st, a, b);
    var g := |st.nodes|;
    assert forall i :: 0 <= i < g ==>
      r.nodes[i].kind == st.nodes[i].kind && r.nodes[i].children == st.nodes[i].children &&
      r.nodes[i].key == st.nodes[i].key &&
      (r.nodes[i].parent == Detached <==> st.nodes[i].parent == Detached);
  }

  /** The new group stands at the first argument's top-level position; the
      other argument is gone from the top level; every other top-level unit
      keeps its relative order. */
  lemma MergeTopLevel(st: State, a: nat, b: nat)
    requires NoDup(st.top) && InArena(st.nodes, st.top) && a in st.top && b in st.top && a != b
    ensures a < |st.nodes| && b < |st.nodes|
    ensures var pa, pb, g := IndexOf(st.top, a), IndexOf(st.top, b), |st.nodes|;
      Merge(st, a, b).top ==
        if pa < pb then st.top[..pa] + [g] + st.top[pa + 1..pb] + st.top[pb + 1..]
        else st.top[..pb] + st.top[pb + 1..pa] + [g] + st.top[pa + 1..]
  {
    var g := |st.nodes|;
    assert g !in st.top by {
      forall k | 0 <= k < |st.top| ensures st.top[k] != g {}
    }
    MergedTopSplit(st.top, a, b, g);
  }

  /** Merging changes no unit's leaves. */
  lemma MergeLeaves(st: State, a: nat, b: nat)
    requires CanMerge(st, a, b)
    ensures ChildrenBelow(Merge(st, a, b).nodes)
    ensures forall i :: 0 <= i < |st.nodes| ==> LeavesOf(Merge(st, a, b).nodes, i) == LeavesOf(st.nodes, i)
  {
    MergeOrdered(st, a, b);
    var r := Merge(st, a, b);
    forall i | 0 <= i < |st.nodes| ensures LeavesOf(r.nodes, i) == LeavesOf(st.nodes, i) {
      LeavesOfFrame(st.nodes, r.nodes, i);
    }
  }

  /** The new group's leaves are the first argument's leaves followed by the
      second's. */
  lemma MergeGroupLeaves(st: State, a: nat, b: nat)
    requires CanMerge(st, a, b)
    ensures a < |st.nodes| && b < |st.nodes|
    ensures ChildrenBelow(Merge(st, a, b).nodes) && |Merge(st, a, b).nodes| == |st.nodes| + 1
    ensures LeavesOf(Merge(st, a, b).nodes, |st.nodes|) == LeavesOf(st.nodes, a) + LeavesOf(st.nodes, b)
  {
    MergeOrdered(st, a, b);
    var r := Merge(st, a, b);
    var g := |st.nodes|;
    assert r.nodes[g].children == [a, b];
    LeavesOfFrame(st.nodes, r.nodes, a);
    LeavesOfFrame(st.nodes, r.nodes, b);
    assert LeavesOfAll(r.nodes, [b]) == LeavesOf(r.nodes, b) + LeavesOfAll(r.nodes, []);
    assert LeavesOf(r.nodes, g) == LeavesOf(r.nodes, a) + LeavesOfAll(r.nodes, [b]);
  }

  /** The leaves of the units at `s`, cut around positions `i` < `j`. */
  lemma LeavesAroundTwo(n: seq<Node>, s: seq<nat>, i: nat, j: nat)
    requires ChildrenBelow(n) && InArena(n, s) && i < j < |s|
    ensures s[i] < |n| && s[j] < |n|
    ensures LeavesOfAll(n, s) ==
      LeavesOfAll(n, s[..i]) + LeavesOf(n, s[i]) + LeavesOfAll(n, s[i + 1..j]) +
      LeavesOf(n, s[j]) + LeavesOfAll(n, s[j + 1..])
  {
    SplitTwo(s, i, j);
    var x, y, z := s[..i], s[i + 1..j], s[j + 1..];
    InArenaSlice(n, s, i, i + 1);
    InArenaSlice(n, s, i + 1, j);
    InArenaSlice(n, s, j, j + 1);
    assert s[i + 1..][..j - i - 1] == y && s[j + 1..] == s[i + 1..][j - i..];
    InArenaSlice(n, s[i + 1..], j - i - 1, j - i);
    LeavesOfAllSingle(n, s[i]);
    LeavesOfAllSingle(n, s[j]);
    LeavesOfAllAppend(n, x, [s[i]]);
    LeavesOfAllAppend(n, x + [s[i]], y);
    LeavesOfAllAppend(n, x + [s[i]] + y, [s[j]]);
    LeavesOfAllAppend(n, x + [s[i]] + y + [s[j]], z);
  }

  /** The flattened order of a state `r` whose top level is `top` with the
      unit at `pa` replaced by the new unit `g` and the one at a later `pb`
      dropped, where `g`'s leaves are `l`. */
  lemma ColumnsWithNewBefore(n: seq<Node>, r: State, top: seq<nat>, pa: nat, pb: nat, g: nat, l: seq<nat>)
    requires ChildrenBelow(n) && ChildrenBelow(r.nodes) && SameShape(n, r.nodes) && g < |r.nodes|
    requires InArena(n, top) && pa < pb < |top|
    requires r.top == top[..pa] + [g] + top[pa + 1..pb] + top[pb + 1..] && LeavesOf(r.nodes, g) == l
    ensures InArena(n, top[..pa]) && InArena(n, top[pa + 1..pb]) && InArena(n, top[pb + 1..])
    ensures InArena(r.nodes, r.top)
    ensures Columns(r) ==
      LeavesOfAll(n, top[..pa]) + l + LeavesOfAll(n, top[pa + 1..pb]) + LeavesOfAll(n, top[pb + 1..])
  {
    var n2, x, y, z := r.nodes, top[..pa], top[pa + 1..pb], top[pb + 1..];
    InArenaSlice(n, top, pa, pa + 1);
    InArenaSlice(n, top, pa + 1, pb);
    InArenaSlice(n, top, pb, pb + 1);
    assert InArena(n2, x) && InArena(n2, y) && InArena(n2, z);
    LeavesOfAllFrame(n, n2, x);
    LeavesOfAllFrame(n, n2, y);
    LeavesOfAllFrame(n, n2, z);
    LeavesOfAllSingle(n2, g);
    LeavesOfAllAppend(n2, x, [g]);
    LeavesOfAllAppend(n2, x + [g], y);
    LeavesOfAllAppend(n2, x + [g] + y, z);
  }

  /** The same when the dropped unit at `pb` comes before the replaced one
      at `pa`. */
  lemma ColumnsWithNewAfter(n: seq<Node>, r: State, top: seq<nat>, pa: nat, pb: nat, g: nat, l: seq<nat>)
    requires ChildrenBelow(n) && ChildrenBelow(r.nodes) && SameShape(n, r.nodes) && g < |r.nodes|
    requires InArena(n, top) && pb < pa < |top|
    requires r.top == top[..pb] + top[pb + 1..pa] + [g] + top[pa + 1..] && LeavesOf(r.nodes, g) == l
    ensures InArena(n, top[..pb]) && InArena(n, top[pb + 1..pa]) && InArena(n, top[pa + 1..])
    ensures InArena(r.nodes, r.top)
    ensures Columns(r) ==
      LeavesOfAll(n, top[..pb]) + LeavesOfAll(n, top[pb + 1..pa]) + l + LeavesOfAll(n, top[pa + 1..])
  {
    var n2, x, y, z := r.nodes, top[..pb], top[pb + 1..pa], top[pa + 1..];
    InArenaSlice(n, top, pb, pb + 1);
    InArenaSlice(n, top, pb + 1, pa);
    InArenaSlice(n, top, pa, pa + 1);
    assert InArena(n2, x) && InArena(n2, y) && InArena(n2, z);
    LeavesOfAllFrame(n, n2, x);
    LeavesOfAllFrame(n, n2, y);
    LeavesOfAllFrame(n, n2, z);
    LeavesOfAllSingle(n2, g);
    LeavesOfAllAppend(n2, x, y);
    LeavesOfAllAppend(n2, x + y, [g]);
    LeavesOfAllAppend(n2, x + y + [g], z);
  }

  /** The flattened column order after merging `a`, at top-level position
      `pa`, with a later unit `b`, at position `pb`. */
  lemma MergeColumnsForward(st: State, a: nat, b: nat, pa: nat, pb: nat)
    requires CanMerge(st, a, b) && pa == IndexOf(st.top, a) && pb == IndexOf(st.top, b) && pa < pb
    ensures a < |st.nodes| && b < |st.nodes| && st.top[pa] == a && st.top[pb] == b
    ensures InArena(st.nodes, st.top[..pa]) && InArena(st.nodes, st.top[pa + 1..pb]) &&
      InArena(st.nodes, st.top[pb + 1..])
    ensures ChildrenBelow(Merge(st, a, b).nodes) && InArena(Merge(st, a, b).nodes, Merge(st, a, b).top)
    ensures Columns(Merge(st, a, b)) ==
      LeavesOfAll(st.nodes, st.top[..pa]) + (LeavesOf(st.nodes, a) + LeavesOf(st.nodes, b)) +
      LeavesOfAll(st.nodes, st.top[pa + 1..pb]) + LeavesOfAll(st.nodes, st.top[pb + 1..])
  {
    MergeOrdered(st, a, b);
    MergeGroupLeaves(st, a, b);
    MergeTopLevel(st, a, b);
    ColumnsWithNewBefore(st.nodes, Merge(st, a, b), st.top, pa, pb, |st.nodes|,
      LeavesOf(st.nodes, a) + LeavesOf(st.nodes, b));
  }

  /** The flattened column order after merging `a`, at top-level position
      `pa`, with an earlier unit `b`, at position `pb`. */
  lemma MergeColumnsBackward(st: State, a: nat, b: nat, pa: nat, pb: nat)
    requires CanMerge(st, a, b) && pa == IndexOf(st.top, a) && pb == IndexOf(st.top, b) && pb < pa
    ensures a < |st.nodes| && b < |st.nodes| && st.top[pa] == a && st.top[pb] == b
    ensures InArena(st.nodes, st.top[..pb]) && InArena(st.nodes, st.top[pb + 1..pa]) &&
      InArena(st.nodes, st.top[pa + 1..])
    ensures ChildrenBelow(Merge(st, a, b).nodes) && InArena(Merge(st, a, b).nodes, Merge(st, a, b).top)
    ensures Columns(Merge(st, a, b)) ==
      LeavesOfAll(st.nodes, st.top[..pb]) + LeavesOfAll(st.nodes, st.top[pb + 1..pa]) +
      (LeavesOf(st.nodes, a) + LeavesOf(st.nodes, b)) + LeavesOfAll(st.nodes, st.top[pa + 1..])
  {
    MergeOrdered(st, a, b);
    MergeGroupLeaves(st, a, b);
    MergeTopLevel(st, a, b);
    ColumnsWithNewAfter(st.nodes, Merge(st, a, b), st.top, pa, pb, |st.nodes|,
      LeavesOf(st.nodes, a) + LeavesOf(st.nodes, b));
  }

  /** Merging two top-level units that stand side by side, in that order,
      leaves the flattened column order as it was. */
  lemma MergeAdjacentKeepsOrder(st: State, a: nat, b: nat)
    requires CanMerge(st, a, b)
    requires IndexOf(st.top, b) == IndexOf(st.top, a) + 1
    ensures ChildrenBelow(Merge(st, a, b).nodes) && InArena(Merge(st, a, b).nodes, Merge(st, a, b).top)
    ensures Columns(Merge(st, a, b)) == Columns(st)
  {
    var pa, pb := IndexOf(st.top, a), IndexOf(st.top, b);
    MergeColumnsForward(st, a, b, pa, pb);
    LeavesAroundTwo(st.nodes, st.top, pa, pb);
    var n := st.nodes;
    assert st.top[pa + 1..pb] == [];
    Regroup(LeavesOfAll(n, st.top[..pa]), LeavesOf(n, a), LeavesOfAll(n, st.top[pa + 1..pb]),
      LeavesOf(n, b), LeavesOfAll(n, st.top[pb + 1..]));
  }

  lemma Regroup(x: seq<nat>, p: seq<nat>, y: seq<nat>, q: seq<nat>, z: seq<nat>)
    requires y == []
    ensures x + (p + q) + y + z == x + p + y + q + z
  {
  }

  /** Merging never adds or drops a column: the flattened order after a merge
      is a permutation of the order before it. */
  lemma MergeKeepsColumns(st: State, a: nat, b: nat)
    requires CanMerge(st, a, b)
    ensures ChildrenBelow(Merge(st, a, b).nodes) && InArena(Merge(st, a, b).nodes, Merge(st, a, b).top)
    ensures multiset(Columns(Merge(st, a, b))) == multiset(Columns(st))
  {
    var pa, pb := IndexOf(st.top, a), IndexOf(st.top, b);
    if pa < pb {
      MergeKeepsForward(st, a, b, pa, pb);
    } else {
      MergeKeepsBackward(st, a, b, pa, pb);
    }
  }

  lemma MergeKeepsForward(st: State, a: nat, b: nat, pa: nat, pb: nat)
    requires CanMerge(st, a, b) && pa == IndexOf(st.top, a) && pb == IndexOf(st.top, b) && pa < pb
    ensures ChildrenBelow(Merge(st, a, b).nodes) && InArena(Merge(st, a, b).nodes, Merge(st, a, b).top)
    ensures multiset(Columns(Merge(st, a, b))) == multiset(Columns(st))
  {
    MergeColumnsForward(st, a, b, pa, pb);
    PermutedForward(st.nodes, st.top, pa, pb, Columns(Merge(st, a, b)));
  }

  lemma MergeKeepsBackward(st: State, a: nat, b: nat, pa: nat, pb: nat)
    requires CanMerge(st, a, b) && pa == IndexOf(st.top, a) && pb == IndexOf(st.top, b) && pb < pa
    ensures ChildrenBelow(Merge(st, a, b).nodes) && InArena(Merge(st, a, b).nodes, Merge(st, a, b).top)
    ensures multiset(Columns(Merge(st, a, b))) == multiset(Columns(st))
  {
    MergeColumnsBackward(st, a, b, pa, pb);
    PermutedBackward(st.nodes, st.top, pb, pa, Columns(Merge(st, a, b)));
  }

  /** Pulling the leaves of the unit at `j` up behind those of the unit at
      an earlier `i` keeps the leaves of `t`. */
  lemma PermutedForward(n: seq<Node>, t: seq<nat>, i: nat, j: nat, c: seq<nat>)
    requires ChildrenBelow(n) && InArena(n, t) && i < j < |t| && t[i] < |n| && t[j] < |n|
    requires InArena(n, t[..i]) && InArena(n, t[i + 1..j]) && InArena(n, t[j + 1..])
    requires c == LeavesOfAll(n, t[..i]) + (LeavesOf(n, t[i]) + LeavesOf(n, t[j])) +
      LeavesOfAll(n, t[i + 1..j]) + LeavesOfAll(n, t[j + 1..])
    ensures multiset(c) == multiset(LeavesOfAll(n, t))
  {
    LeavesAroundTwo(n, t, i, j);
    RegroupForward(c, LeavesOfAll(n, t), LeavesOfAll(n, t[..i]), LeavesOf(n, t[i]),
      LeavesOfAll(n, t[i + 1..j]), LeavesOf(n, t[j]), LeavesOfAll(n, t[j + 1..]));
  }

  /** Pushing the leaves of the unit at `i` down behind those of the unit at
      a later `j` keeps the leaves of `t`. */
  lemma PermutedBackward(n: seq<Node>, t: seq<nat>, i: nat, j: nat, c: seq<nat>)
    requires ChildrenBelow(n) && InArena(n, t) && i < j < |t| && t[i] < |n| && t[j] < |n|
    requires InArena(n, t[..i]) && InArena(n, t[i + 1..j]) && InArena(n, t[j + 1..])
    requires c == LeavesOfAll(n, t[..i]) + LeavesOfAll(n, t[i + 1..j]) +
      (LeavesOf(n, t[j]) + LeavesOf(n, t[i])) + LeavesOfAll(n, t[j + 1..])
    ensures multiset(c) == multiset(LeavesOfAll(n, t))
  {
    LeavesAroundTwo(n, t, i, j);
    RegroupBackward(c, LeavesOfAll(n, t), LeavesOfAll(n, t[..i]), LeavesOf(n, t[i]),
      LeavesOfAll(n, t[i + 1..j]), LeavesOf(n, t[j]), LeavesOfAll(n, t[j + 1..]));
  }

  /** Moving a later piece `q` of a sequence up next to an earlier piece `p`
      keeps its elements. */
  lemma RegroupForward(after: seq<nat>, before: seq<nat>, x: seq<nat>, p: seq<nat>, y: seq<nat>, q: seq<nat>, z: seq<nat>)
    requires before == x + p + y + q + z && after == x + (p + q) + y + z
    ensures multiset(after) == multiset(before)
  {
    assert multiset(before) == multiset(x) + multiset(p) + multiset(y) + multiset(q) + multiset(z);
    assert multiset(after) == multiset(x) + multiset(p) + multiset(q) + multiset(y) + multiset(z);
  }

  /** Moving an earlier piece `p` of a sequence down next to a later piece
      `q`, after it, keeps its elements. */
  lemma RegroupBackward(after: seq<nat>, before: seq<nat>, x: seq<nat>, p: seq<nat>, y: seq<nat>, q: seq<nat>, z: seq<nat>)
    requires before == x + p + y + q + z && after == x + y + (q + p) + z
    ensures multiset(after) == multiset(before)
  {
    assert multiset(before) == multiset(x) + multiset(p) + multiset(y) + multiset(q) + multiset(z);
    assert multiset(after) == multiset(x) + multiset(y) + multiset(q) + multiset(p) + multiset(z);
  }
}
