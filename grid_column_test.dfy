/** The scenarios of GridColumnTest.java, each stated as a method whose
    postcondition is what that scenario asserts: a grid with three columns is
    built as in `init()`, the scenario's calls are made on it, and the values
    the assertions inspect are returned. */
module GridColumnScenarios {
  import opened Common
  import opened ColumnTree
  import opened Grids
  import KeyRegistry
  import MergeEngine
  import RemovalEngine

  /** An unkeyed top-level leaf column. */
  function NewLeaf(): Node {
    Node(Leaf, Root, [], None)
  }

  /** The state `init()` leaves: three unkeyed top-level columns. */
  function Three(): State {
    State([NewLeaf(), NewLeaf(), NewLeaf()], [0, 1, 2], map[])
  }

  /** The state after merging the first and third columns of `Three()`. */
  function OneMerge(): State {
    State([Node(Leaf, Under(3), [], None), NewLeaf(), Node(Leaf, Under(3), [], None), Node(Group, Root, [0, 2], None)],
      [3, 1], map[])
  }

  /** The state after then merging that group with the second column. */
  function TwoMerges(): State {
    State([Node(Leaf, Under(3), [], None), Node(Leaf, Under(4), [], None), Node(Leaf, Under(3), [], None),
      Node(Group, Under(4), [0, 2], None), Node(Group, Root, [3, 1], None)], [4], map[])
  }

  /** The state after merging the first and second columns of `Three()`. */
  function FirstTwoMerged(): State {
    State([Node(Leaf, Under(3), [], None), Node(Leaf, Under(3), [], None), NewLeaf(), Node(Group, Root, [0, 1], None)],
      [3, 2], map[])
  }

  lemma MergeFirstTwo()
    ensures MergeEngine.CanMerge(Three(), 0, 1) && MergeEngine.Merge(Three(), 0, 1) == FirstTwoMerged()
  {
    ThreeMergeable();
    assert MergeEngine.MergedTop([0, 1, 2], 0, 1, 3) == [3, 2] by {
      assert IndexOf([0, 1, 2], 0) == 0;
      assert Without([3, 1, 2], 1) == [3, 2];
    }
  }

  lemma ThreeMergeable()
    ensures forall a, b :: 0 <= a < 3 && 0 <= b < 3 && a != b ==> MergeEngine.CanMerge(Three(), a, b)
  {
  }

  lemma FirstMerge()
    ensures MergeEngine.CanMerge(Three(), 0, 2) && MergeEngine.Merge(Three(), 0, 2) == OneMerge()
  {
    ThreeMergeable();
    assert MergeEngine.MergedTop([0, 1, 2], 0, 2, 3) == [3, 1] by {
      assert IndexOf([0, 1, 2], 0) == 0;
      assert Without([3, 1, 2], 2) == [3, 1];
    }
  }

  lemma SecondMerge()
    ensures MergeEngine.CanMerge(OneMerge(), 3, 1) && MergeEngine.Merge(OneMerge(), 3, 1) == TwoMerges()
  {
    OneMergeMergeable();
    assert MergeEngine.MergedTop([3, 1], 3, 1, 4) == [4] by {
      assert IndexOf([3, 1], 3) == 0;
      assert Without([4, 1], 1) == [4];
    }
  }

  lemma OneMergeMergeable()
    ensures MergeEngine.CanMerge(OneMerge(), 3, 1)
  {
    assert ChildrenBelow(OneMerge().nodes);
  }

  lemma TwoMergesColumns()
    ensures ChildrenBelow(TwoMerges().nodes) && InArena(TwoMerges().nodes, TwoMerges().top)
    ensures Columns(TwoMerges()) == [0, 2, 1]
  {
    var n := TwoMerges().nodes;
    assert LeavesOf(n, 2) == [2] && LeavesOfAll(n, [2]) == [2];
    assert LeavesOf(n, 3) == [0, 2];
    assert LeavesOf(n, 1) == [1] && LeavesOfAll(n, [1]) == [1];
    assert LeavesOf(n, 4) == [0, 2, 1];
  }

  /** `init()`: a new grid and three columns added to it. */
  method Init() returns (g: Grid, first: Ref, second: Ref, third: Ref)
    ensures fresh(g) && g.Valid()
    ensures first == Ref(g, 0) && second == Ref(g, 1) && third == Ref(g, 2)
    ensures g.Model() == Three()
  {
    g := new Grid();
    first := g.AddColumn();
    second := g.AddColumn();
    third := g.AddColumn();
  }

  /** setKey_getByKey: each key finds the column it was set on. */
  method SetKeyGetByKey() returns (first: Ref, second: Ref, byFoo: Option<Ref>, byBar: Option<Ref>)
    ensures first != second && byFoo == Some(first) && byBar == Some(second)
  {
    var g, third;
    g, first, second, third := Init();
    var o1 := g.SetKey(first.id, "foo");
    var o2 := g.SetKey(second.id, "bar");
    byFoo := g.GetColumnByKey("foo");
    byBar := g.GetColumnByKey("bar");
  }

  /** changeKey_throws: a second setKey on the same column fails with a
      state error. */
  method ChangeKeyThrows() returns (o1: Outcome, o2: Outcome)
    ensures o1 == Pass && o2 == Fail(StateError)
  {
    var g, first, second, third := Init();
    o1 := g.SetKey(first.id, "foo");
    o2 := g.SetKey(first.id, "bar");
  }

  /** duplicateKey_throws: a key already bound to one column cannot be set on
      another. */
  method DuplicateKeyThrows() returns (o1: Outcome, o2: Outcome)
    ensures o1 == Pass && o2 == Fail(DuplicateKey("foo"))
  {
    var g, first, second, third := Init();
    o1 := g.SetKey(first.id, "foo");
    o2 := g.SetKey(second.id, "foo");
  }

  /** merged_column_order: merging the first and third columns, then the new
      group and the second column, leaves one top-level group, and the
      columns in the order first, third, second. */
  method MergedColumnOrder() returns (first: Ref, second: Ref, third: Ref, merged: Ref, secondMerge: Ref,
      before: seq<Ref>, afterFirst: seq<Ref>, afterSecond: seq<Ref>, cols: seq<Ref>)
    ensures before == [first, second, third]
    ensures afterFirst == [merged, second]
    ensures afterSecond == [secondMerge]
    ensures cols == [first, third, second]
  {
    var g;
    g, first, second, third := Init();
    before := g.TopLevelColumns();
    assert before == [before[0], before[1], before[2]];
    merged, afterFirst := MergeFirstAndThird(g);
    secondMerge, afterSecond := MergeGroupAndSecond(g);
    cols := ColumnsAfterMerges(g);
  }

  /** The columns at the end of merged_column_order. */
  method ColumnsAfterMerges(g: Grid) returns (cols: seq<Ref>)
    requires g.Valid() && g.Model() == TwoMerges()
    ensures cols == [Ref(g, 0), Ref(g, 2), Ref(g, 1)]
  {
    TwoMergesColumns();
    cols := g.GetColumns();
    assert cols == [cols[0], cols[1], cols[2]];
  }

  /** The first merge of merged_column_order, on the grid `init()` built. */
  method MergeFirstAndThird(g: Grid) returns (merged: Ref, top: seq<Ref>)
    requires g.Valid() && g.Model() == Three()
    modifies g
    ensures g.Valid() && g.Model() == OneMerge()
    ensures merged == Ref(g, 3) && top == [merged, Ref(g, 1)]
  {
    FirstMerge();
    var r := g.MergeColumns(Ref(g, 0), Ref(g, 2));
    merged := r.value;
    top := g.TopLevelColumns();
    assert top == [top[0], top[1]];
  }

  /** The second merge of merged_column_order. */
  method MergeGroupAndSecond(g: Grid) returns (merged: Ref, top: seq<Ref>)
    requires g.Valid() && g.Model() == OneMerge()
    modifies g
    ensures g.Valid() && g.Model() == TwoMerges()
    ensures merged == Ref(g, 4) && top == [merged]
  {
    SecondMerge();
    var r := g.MergeColumns(Ref(g, 3), Ref(g, 1));
    merged := r.value;
    top := g.TopLevelColumns();
    assert top == [top[0]];
  }

  /** cant_merge_columns_not_in_grid: a column of another grid is refused. */
  method CantMergeColumnsNotInGrid() returns (r: Result<Ref>)
    ensures r == Err(InvalidArg(None))
  {
    var g, first, second, third := Init();
    var other, o1, o2, o3 := Init();
    r := g.MergeColumns(first, o1);
  }

  /** cant_merge_already_merged_columns: a column already inside a group is
      no longer top-level, so merging it again is refused. */
  method CantMergeAlreadyMergedColumns() returns (r1: Result<Ref>, r2: Result<Ref>)
    ensures r1.Ok? && r2 == Err(InvalidArg(None))
  {
    var g, first, second, third := Init();
    r1 := g.MergeColumns(first, second);
    r2 := g.MergeColumns(first, third);
  }

  /** A leaf column hanging at `p`, with key `k`. */
  function LeafAt(p: Link, k: Option<string>): Node {
    Node(Leaf, p, [], k)
  }

  /** `init()` followed by setKey("first") on the first column. */
  function Keyed(): State {
    State([LeafAt(Root, Some("first")), NewLeaf(), NewLeaf()], [0, 1, 2], map["first" := 0])
  }

  /** `Keyed()` after removing the first column. */
  function KeyedRemoved(): State {
    State([LeafAt(Detached, Some("first")), NewLeaf(), NewLeaf()], [1, 2], map[])
  }

  lemma RemoveKeyedFirst()
    requires Valid(Keyed())
    ensures RemovalEngine.Remove(Keyed(), 0) == KeyedRemoved()
  {
    var s, s2 := RemovalEngine.RemoveStages(Keyed(), 0);
    DetachKeyedFirst();
    assert KeyedRemoved().keys == map["first" := 0] - {"first"};
  }

  lemma DetachKeyedFirst()
    requires Shaped(Keyed())
    ensures RemovalEngine.Detach(Keyed(), 0) == KeyedRemoved().(keys := map["first" := 0])
  {
    assert Without([0, 1, 2], 0) == [1, 2];
  }

  /** The failure messages the scenarios check. */
  lemma ColumnNullMessage()
    ensures Message(NullArg("column")) == "column should not be null"
  {
  }

  lemma ColumnKeyNullMessage()
    ensures Message(NullArg("columnKey")) == "columnKey should not be null"
  {
  }

  lemma WrongNotPartMessage()
    ensures Message(InvalidArg(Some("wrong"))) == "The column with key 'wrong' is not part of this Grid"
  {
  }

  lemma FirstNotPartMessage()
    ensures Message(InvalidArg(Some("first"))) == "The column with key 'first' is not part of this Grid"
  {
  }

  /** setKey("first") on the first column of the grid `init()` built. */
  method KeyFirst(g: Grid)
    requires g.Valid() && g.Model() == Three()
    modifies g
    ensures g.Valid() && g.Model() == Keyed()
  {
    var o := g.SetKey(0, "first");
  }

  /** removeColumnByKey: removing by key unregisters the key. */
  method RemoveColumnByKey() returns (out: Outcome, found: Option<Ref>)
    ensures out == Pass && found == None
  {
    var g, first, second, third := Init();
    KeyFirst(g);
    RemoveKeyedFirst();
    out := g.RemoveColumnByKey(Some("first"));
    found := g.GetColumnByKey("first");
  }

  /** removeColumnByNullKey_throws. */
  method RemoveColumnByNullKey() returns (out: Outcome)
    ensures out == Fail(NullArg("columnKey")) && Message(out.error) == "columnKey should not be null"
  {
    var g, first, second, third := Init();
    out := g.RemoveColumnByKey(None);
    ColumnKeyNullMessage();
  }

  /** removeColumn: removing the column itself unregisters its key. */
  method RemoveColumn() returns (out: Outcome, found: Option<Ref>)
    ensures out == Pass && found == None
  {
    var g, first, second, third := Init();
    KeyFirst(g);
    RemoveKeyedFirst();
    out := g.RemoveColumn(Some(first));
    found := g.GetColumnByKey("first");
  }

  /** removeNullColumn_throws. */
  method RemoveNullColumn() returns (out: Outcome)
    ensures out == Fail(NullArg("column")) && Message(out.error) == "column should not be null"
  {
    var g, first, second, third := Init();
    out := g.RemoveColumn(None);
    ColumnNullMessage();
  }

  /** removeInvalidColumnByKey_throws: a key no column carries. */
  method RemoveInvalidColumnByKey() returns (out: Outcome)
    ensures out == Fail(InvalidArg(Some("wrong")))
    ensures Message(out.error) == "The column with key 'wrong' is not part of this Grid"
  {
    var g, first, second, third := Init();
    out := g.RemoveColumnByKey(Some("wrong"));
    WrongNotPartMessage();
  }

  /** removeColumnByKeyTwice_throws: the key is gone after the first removal. */
  method RemoveColumnByKeyTwice() returns (o1: Outcome, o2: Outcome)
    ensures o1 == Pass && o2 == Fail(InvalidArg(Some("first")))
    ensures Message(o2.error) == "The column with key 'first' is not part of this Grid"
  {
    var g, first, second, third := Init();
    KeyFirst(g);
    RemoveKeyedFirst();
    o1 := g.RemoveColumnByKey(Some("first"));
    o2 := g.RemoveColumnByKey(Some("first"));
    FirstNotPartMessage();
  }

  /** removeInvalidColumn_throws: a keyed column of another grid. */
  method RemoveInvalidColumn() returns (out: Outcome)
    ensures out == Fail(InvalidArg(Some("wrong")))
    ensures Message(out.error) == "The column with key 'wrong' is not part of this Grid"
  {
    var g, first, second, third := Init();
    var g2, wrong, w2, w3 := Init();
    var o := g2.SetKey(wrong.id, "wrong");
    out := g.RemoveColumn(Some(wrong));
    WrongNotPartMessage();
  }

  /** removeColumnTwice_throws: a removed column keeps its key but is no
      longer part of the grid. */
  method RemoveColumnTwice() returns (o1: Outcome, o2: Outcome)
    ensures o1 == Pass && o2 == Fail(InvalidArg(Some("first")))
    ensures Message(o2.error) == "The column with key 'first' is not part of this Grid"
  {
    var g, first, second, third := Init();
    KeyFirst(g);
    RemoveKeyedFirst();
    o1 := g.RemoveColumn(Some(first));
    o2 := g.RemoveColumn(Some(first));
    FirstNotPartMessage();
  }

  /** `FirstTwoMerged()` followed by setKey("first") on the first column. */
  function MergedKeyed(): State {
    State([LeafAt(Under(3), Some("first")), LeafAt(Under(3), None), NewLeaf(), Node(Group, Root, [0, 1], None)],
      [3, 2], map["first" := 0])
  }

  /** `MergedKeyed()` after removing the first column: the group keeps the
      second. */
  function MergedKeyedRemoved(): State {
    State([LeafAt(Detached, Some("first")), LeafAt(Under(3), None), NewLeaf(), Node(Group, Root, [1], None)],
      [3, 2], map[])
  }

  lemma RemoveMergedKeyedFirst()
    requires Valid(MergedKeyed())
    ensures RemovalEngine.Remove(MergedKeyed(), 0) == MergedKeyedRemoved()
  {
    var s, s2 := RemovalEngine.RemoveStages(MergedKeyed(), 0);
    DetachMergedKeyedFirst();
    RemovalEngine.PruneUpStep(s, 3);
    assert MergedKeyedRemoved().keys == map["first" := 0] - {"first"};
  }

  /** `MergedKeyed()` with the first column detached, its key still registered. */
  function MergedKeyedDetached(): State {
    MergedKeyedRemoved().(keys := map["first" := 0])
  }

  lemma DetachMergedKeyedFirst()
    requires Shaped(MergedKeyed())
    ensures RemovalEngine.Detach(MergedKeyed(), 0) == MergedKeyedDetached()
  {
    assert Without([0, 1], 0) == [1];
  }

  /** `FirstTwoMerged()` after removing the first column. */
  function PairOneLeft(): State {
    State([LeafAt(Detached, None), LeafAt(Under(3), None), NewLeaf(), Node(Group, Root, [1], None)], [3, 2], map[])
  }

  /** `PairOneLeft()` after removing the second column: the group, left
      empty, is detached as well. */
  function PairGone(): State {
    State([LeafAt(Detached, None), LeafAt(Detached, None), NewLeaf(), Node(Group, Detached, [], None)], [2], map[])
  }

  lemma RemovePairFirst()
    requires Valid(FirstTwoMerged())
    ensures RemovalEngine.Remove(FirstTwoMerged(), 0) == PairOneLeft()
  {
    var s, s2 := RemovalEngine.RemoveStages(FirstTwoMerged(), 0);
    DetachPairFirst();
    RemovalEngine.PruneUpStep(s, 3);
  }

  lemma DetachPairFirst()
    requires Shaped(FirstTwoMerged())
    ensures RemovalEngine.Detach(FirstTwoMerged(), 0) == PairOneLeft()
  {
    assert Without([0, 1], 0) == [1];
  }

  lemma RemovePairSecond()
    requires Valid(PairOneLeft())
    ensures RemovalEngine.Remove(PairOneLeft(), 1) == PairGone()
  {
    var s, s2 := RemovalEngine.RemoveStages(PairOneLeft(), 1);
    DetachPairSecond();
    PrunePair();
  }

  /** `PairOneLeft()` with the second column detached: the group is left empty. */
  function PairEmptied(): State {
    State([LeafAt(Detached, None), LeafAt(Detached, None), NewLeaf(), Node(Group, Root, [], None)], [3, 2], map[])
  }

  lemma DetachPairSecond()
    requires Shaped(PairOneLeft())
    ensures RemovalEngine.Detach(PairOneLeft(), 1) == PairEmptied()
  {
    assert Without([1], 1) == [];
  }

  lemma PrunePair()
    requires Shaped(PairEmptied())
    ensures RemovalEngine.PruneUp(PairEmptied(), 3) == PairGone()
  {
    RemovalEngine.PruneUpStep(PairEmptied(), 3);
    DetachPairGroup();
  }

  lemma DetachPairGroup()
    requires Shaped(PairEmptied())
    ensures RemovalEngine.Detach(PairEmptied(), 3) == PairGone()
  {
    assert Without([3, 2], 3) == [2];
  }

  /** `TwoMerges()` after removing the first column. */
  function NestedFirstGone(): State {
    State([LeafAt(Detached, None), LeafAt(Under(4), None), LeafAt(Under(3), None),
      Node(Group, Under(4), [2], None), Node(Group, Root, [3, 1], None)], [4], map[])
  }

  /** Then after removing the second column. */
  function NestedSecondGone(): State {
    State([LeafAt(Detached, None), LeafAt(Detached, None), LeafAt(Under(3), None),
      Node(Group, Under(4), [2], None), Node(Group, Root, [3], None)], [4], map[])
  }

  /** Then after removing the third column: both groups are detached. */
  function NestedAllGone(): State {
    State([LeafAt(Detached, None), LeafAt(Detached, None), LeafAt(Detached, None),
      Node(Group, Detached, [], None), Node(Group, Detached, [], None)], [], map[])
  }

  lemma RemoveNestedFirst()
    requires Valid(TwoMerges())
    ensures RemovalEngine.Remove(TwoMerges(), 0) == NestedFirstGone()
  {
    var s, s2 := RemovalEngine.RemoveStages(TwoMerges(), 0);
    DetachNestedFirst();
    RemovalEngine.PruneUpStep(s, 3);
  }

  lemma DetachNestedFirst()
    requires Shaped(TwoMerges())
    ensures RemovalEngine.Detach(TwoMerges(), 0) == NestedFirstGone()
  {
    assert Without([0, 2], 0) == [2];
  }

  lemma RemoveNestedSecond()
    requires Valid(NestedFirstGone())
    ensures RemovalEngine.Remove(NestedFirstGone(), 1) == NestedSecondGone()
  {
    var s, s2 := RemovalEngine.RemoveStages(NestedFirstGone(), 1);
    DetachNestedSecond();
    RemovalEngine.PruneUpStep(s, 4);
  }

  lemma DetachNestedSecond()
    requires Shaped(NestedFirstGone())
    ensures RemovalEngine.Detach(NestedFirstGone(), 1) == NestedSecondGone()
  {
    assert Without([3, 1], 1) == [3];
  }

  lemma RemoveNestedThird()
    requires Valid(NestedSecondGone())
    ensures RemovalEngine.Remove(NestedSecondGone(), 2) == NestedAllGone()
  {
    var s, s2 := RemovalEngine.RemoveStages(NestedSecondGone(), 2);
    DetachNestedThird();
    PruneNested();
  }

  /** `NestedSecondGone()` with the third column detached: the inner group
      is left empty. */
  function InnerEmptied(): State {
    State([LeafAt(Detached, None), LeafAt(Detached, None), LeafAt(Detached, None),
      Node(Group, Under(4), [], None), Node(Group, Root, [3], None)], [4], map[])
  }

  /** Then with the inner group detached: the outer group is left empty. */
  function OuterEmptied(): State {
    State([LeafAt(Detached, None), LeafAt(Detached, None), LeafAt(Detached, None),
      Node(Group, Detached, [], None), Node(Group, Root, [], None)], [4], map[])
  }

  lemma DetachNestedThird()
    requires Shaped(NestedSecondGone())
    ensures RemovalEngine.Detach(NestedSecondGone(), 2) == InnerEmptied()
  {
    assert Without([2], 2) == [];
  }

  lemma PruneNested()
    requires Shaped(InnerEmptied())
    ensures RemovalEngine.PruneUp(InnerEmptied(), 3) == NestedAllGone()
  {
    PruneInner();
    PruneOuter();
  }

  lemma PruneInner()
    requires Shaped(InnerEmptied())
    ensures Shaped(OuterEmptied())
    ensures RemovalEngine.PruneUp(InnerEmptied(), 3) == RemovalEngine.PruneUp(OuterEmptied(), 4)
  {
    RemovalEngine.PruneUpStep(InnerEmptied(), 3);
    DetachInner();
  }

  lemma PruneOuter()
    requires Shaped(OuterEmptied())
    ensures RemovalEngine.PruneUp(OuterEmptied(), 4) == NestedAllGone()
  {
    RemovalEngine.PruneUpStep(OuterEmptied(), 4);
    DetachOuter();
  }

  lemma DetachInner()
    requires Shaped(InnerEmptied())
    ensures RemovalEngine.Detach(InnerEmptied(), 3) == OuterEmptied()
  {
    assert Without([3], 3) == [];
  }

  lemma DetachOuter()
    requires Shaped(OuterEmptied())
    ensures RemovalEngine.Detach(OuterEmptied(), 4) == NestedAllGone()
  {
    assert Without([4], 4) == [];
  }

  /** mergeColumns(first, second) on the grid `init()` built. */
  method MergeFirstAndSecond(g: Grid) returns (merged: Ref)
    requires g.Valid() && g.Model() == Three()
    modifies g
    ensures g.Valid() && g.Model() == FirstTwoMerged() && merged == Ref(g, 3)
  {
    MergeFirstTwo();
    var r := g.MergeColumns(Ref(g, 0), Ref(g, 1));
    merged := r.value;
  }

  /** setKey("first") on the first column, once it sits in the group. */
  method KeyMergedFirst(g: Grid)
    requires g.Valid() && g.Model() == FirstTwoMerged()
    modifies g
    ensures g.Valid() && g.Model() == MergedKeyed()
  {
    var o := g.SetKey(0, "first");
  }

  /** removeMergedColumn: the removed column leaves its group, which keeps
      the other one, and its key is unregistered. */
  method RemoveMergedColumn() returns (first: Ref, second: Ref, children: seq<Ref>, found: Option<Ref>)
    ensures children == [second] && first !in children && found == None
  {
    var g, third;
    g, first, second, third := Init();
    var merged := MergeFirstAndSecond(g);
    KeyMergedFirst(g);
    RemoveKeyedFromGroup(g);
    children := g.ChildColumns(merged);
    assert children == [children[0]];
    found := g.GetColumnByKey("first");
  }

  /** removeColumn(first) once the keyed first column sits in the group. */
  method RemoveKeyedFromGroup(g: Grid)
    requires g.Valid() && g.Model() == MergedKeyed()
    modifies g
    ensures g.Valid() && g.Model() == MergedKeyedRemoved()
  {
    RemoveMergedKeyedFirst();
    var o := g.RemoveColumn(Some(Ref(g, 0)));
  }

  /** Both columns of the group of `FirstTwoMerged()` removed in turn. */
  method RemovePair(g: Grid)
    requires g.Valid() && g.Model() == FirstTwoMerged()
    modifies g
    ensures g.Valid() && g.Model() == PairGone()
  {
    RemovePairFirst();
    var o1 := g.RemoveColumn(Some(Ref(g, 0)));
    RemovePairSecond();
    var o2 := g.RemoveColumn(Some(Ref(g, 1)));
  }

  /** removeMergedColumns_columnGroupIsRemoved: a group emptied by removing
      its columns is itself taken out of the grid. */
  method RemoveMergedColumnsColumnGroupIsRemoved() returns (parentBefore: Link, children: seq<Ref>, parentAfter: Link)
    ensures parentBefore == Root && children == [] && parentAfter == Detached
  {
    var g, first, second, third := Init();
    var merged := MergeFirstAndSecond(g);
    parentBefore := g.ParentOf(merged);
    RemovePair(g);
    children := g.ChildColumns(merged);
    parentAfter := g.ParentOf(merged);
  }

  /** The first two removals of removeAllMergedColumns_columnGroupsAreRemoved. */
  method RemoveNestedLeaves(g: Grid)
    requires g.Valid() && g.Model() == TwoMerges()
    modifies g
    ensures g.Valid() && g.Model() == NestedSecondGone()
  {
    RemoveNestedFirst();
    var o1 := g.RemoveColumn(Some(Ref(g, 0)));
    RemoveNestedSecond();
    var o2 := g.RemoveColumn(Some(Ref(g, 1)));
  }

  /** The last removal, which empties the inner group and then the outer one. */
  method RemoveNestedLast(g: Grid)
    requires g.Valid() && g.Model() == NestedSecondGone()
    modifies g
    ensures g.Valid() && g.Model() == NestedAllGone()
  {
    RemoveNestedThird();
    var o := g.RemoveColumn(Some(Ref(g, 2)));
  }

  /** Where both groups of merged_column_order hang, and what they hold. */
  method GroupsOf(g: Grid, inner: Ref, outer: Ref)
    returns (innerParent: Link, outerParent: Link, innerSize: nat, outerSize: nat)
    requires g.Valid() && inner == Ref(g, 3) && outer == Ref(g, 4) && |g.nodes| == 5
    ensures innerParent == g.nodes[3].parent && outerParent == g.nodes[4].parent
    ensures innerSize == |g.nodes[3].children| && outerSize == |g.nodes[4].children|
  {
    innerParent := g.ParentOf(inner);
    outerParent := g.ParentOf(outer);
    var innerChildren := g.ChildColumns(inner);
    var outerChildren := g.ChildColumns(outer);
    innerSize, outerSize := |innerChildren|, |outerChildren|;
  }

  /** removeAllMergedColumns_columnGroupsAreRemoved: removing every column
      of two nested groups takes both groups out of the grid. */
  method RemoveAllMergedColumnsColumnGroupsAreRemoved() returns (merged: Ref, secondMerge: Ref,
      mergedParent: Link, secondParent: Link, mergedSize: nat, mergedAfter: Link, secondSize: nat, secondAfter: Link)
    ensures mergedParent == Under(secondMerge.id) && secondParent == Root
    ensures mergedSize == 0 && mergedAfter == Detached && secondSize == 0 && secondAfter == Detached
  {
    var g, first, second, third := Init();
    var top;
    merged, top := MergeFirstAndThird(g);
    secondMerge, top := MergeGroupAndSecond(g);
    var n1, n2;
    mergedParent, secondParent, n1, n2 := GroupsOf(g, merged, secondMerge);
    RemoveNestedLeaves(g);
    RemoveNestedLast(g);
    mergedAfter, secondAfter, mergedSize, secondSize := GroupsOf(g, merged, secondMerge);
  }
}
