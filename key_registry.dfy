/** The key registry: `Column.setKey` records a key on a leaf column once, and
    the grid binds it so that `getColumnByKey` finds that column. */
module KeyRegistry {
  import opened Common
  import opened ColumnTree

  /** Records `k` on leaf `c` and binds it in the registry. */
  function BindKey(st: State, c: nat, k: string): State
    requires c < |st.nodes|
  {
    State(st.nodes[c := st.nodes[c].(key := Some(k))], st.top, st.keys[k := c])
  }

  /** setKey on leaf `c`: fails when `c` already has a key, then when another
      unit already holds `k`; otherwise binds it. */
  function SetKey(st: State, c: nat, k: string): Result<State>
    requires c < |st.nodes|
  {
    if st.nodes[c].key.Some? then Err(StateError)
    else if k in st.keys then Err(DuplicateKey(k))
    else Ok(BindKey(st, c, k))
  }

  /** A successful setKey keeps the tree well formed and changes neither the
      top level nor the column order. */
  lemma SetKeyValid(st: State, c: nat, k: string)
    requires Valid(st) && c < |st.nodes| && st.nodes[c].kind == Leaf
    requires SetKey(st, c, k).Ok?
    ensures Valid(SetKey(st, c, k).value)
    ensures SetKey(st, c, k).value.top == st.top
    ensures Columns(SetKey(st, c, k).value) == Columns(st)
  {
    BindKeyShaped(st, c, k);
    BindKeyKeysOk(st, c, k);
    BindKeyColumns(st, c, k);
  }

  lemma BindKeyShaped(st: State, c: nat, k: string)
    requires Shaped(st) && Filled(st) && c < |st.nodes|
    ensures Shaped(BindKey(st, c, k)) && Filled(BindKey(st, c, k))
  {
    var r := BindKey(st, c, k);
    assert forall i :: 0 <= i < |st.nodes| ==>
      r.nodes[i].kind == st.nodes[i].kind && r.nodes[i].parent == st.nodes[i].parent &&
      r.nodes[i].children == st.nodes[i].children;
    forall i | 0 <= i < |r.nodes| ensures LinkedAt(r.nodes, i) {
      assert LinkedAt(st.nodes, i);
    }
  }

  lemma BindKeyKeysOk(st: State, c: nat, k: string)
    requires KeysOk(st) && c < |st.nodes| && st.nodes[c].kind == Leaf
    requires st.nodes[c].key == None && k !in st.keys
    ensures KeysOk(BindKey(st, c, k))
  {
    var r := BindKey(st, c, k);
    forall k' | k' in r.keys
      ensures r.keys[k'] < |r.nodes| && r.nodes[r.keys[k']].kind == Leaf && r.nodes[r.keys[k']].key == Some(k')
    {
      if k' != k {
        assert r.keys[k'] == st.keys[k'];
        assert st.nodes[st.keys[k']].key == Some(k');
      }
    }
  }

  lemma BindKeyColumns(st: State, c: nat, k: string)
    requires ChildrenBelow(st.nodes) && InArena(st.nodes, st.top) && c < |st.nodes|
    ensures ChildrenBelow(BindKey(st, c, k).nodes) && InArena(BindKey(st, c, k).nodes, BindKey(st, c, k).top)
    ensures Columns(BindKey(st, c, k)) == Columns(st)
  {
    var r := BindKey(st, c, k);
    assert SameShape(st.nodes, r.nodes);
    LeavesOfAllFrame(st.nodes, r.nodes, st.top);
  }

  /** After setKey(k) on `c`, looking up `k` finds `c`, and every other key
      still finds what it found before. */
  lemma SetKeyThenLookup(st: State, c: nat, k: string)
    requires Valid(st) && c < |st.nodes| && st.nodes[c].kind == Leaf
    requires SetKey(st, c, k).Ok?
    ensures Valid(SetKey(st, c, k).value)
    ensures ColumnByKey(SetKey(st, c, k).value, k) == Some(c)
    ensures forall k' :: k' != k ==> ColumnByKey(SetKey(st, c, k).value, k') == ColumnByKey(st, k')
  {
    SetKeyValid(st, c, k);
  }

  /** setKey succeeds exactly on an unkeyed column and a key that lookup
      does not find. In terms of the columns themselves: a key carried by an
      attached column is always refused, and a key no column carries is
      always accepted on an unkeyed column. */
  lemma SetKeySucceedsWhen(st: State, c: nat, k: string)
    requires Valid(st) && c < |st.nodes| && st.nodes[c].kind == Leaf
    ensures SetKey(st, c, k).Ok? <==> st.nodes[c].key == None && ColumnByKey(st, k) == None
    ensures (exists d :: 0 <= d < |st.nodes| && Attached(st, d) && st.nodes[d].key == Some(k)) ==>
      SetKey(st, c, k).Err?
    ensures st.nodes[c].key == None && (forall d :: 0 <= d < |st.nodes| ==> st.nodes[d].key != Some(k)) ==>
      SetKey(st, c, k).Ok?
  {
    if k in st.keys {
      var d := st.keys[k];
      assert d < |st.nodes| && st.nodes[d].key == Some(k);
    }
  }

  /** A key is set once: after a successful setKey, every further setKey on
      the same column fails with a state error, whatever the key. */
  lemma SetKeyOnce(st: State, c: nat, k: string, k2: string)
    requires Valid(st) && c < |st.nodes| && st.nodes[c].kind == Leaf
    requires SetKey(st, c, k).Ok?
    ensures SetKey(SetKey(st, c, k).value, c, k2) == Err(StateError)
  {
  }

  /** A bound key cannot be bound again: setKey of the same key on another,
      unkeyed column fails with a duplicate-key error, and the first binding
      is what a lookup still finds. */
  lemma SetKeyDuplicateRejected(st: State, c: nat, d: nat, k: string)
    requires Valid(st) && c < |st.nodes| && st.nodes[c].kind == Leaf
    requires d < |st.nodes| && d != c && st.nodes[d].key == None
    requires SetKey(st, c, k).Ok?
    ensures SetKey(SetKey(st, c, k).value, d, k) == Err(DuplicateKey(k))
    ensures Valid(SetKey(st, c, k).value)
    ensures ColumnByKey(SetKey(st, c, k).value, k) == Some(c)
  {
    SetKeyValid(st, c, k);
  }
}
