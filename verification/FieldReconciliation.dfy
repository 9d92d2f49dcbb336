/** The reconciliation of a field's children with an update request, row by row: existing children are
    updated in place, new ones inserted with their subtree, the others archived. */
module FieldReconciliation {
  import opened FieldOrder

  /** A field of an update request: its key and its child fields. */
  datatype Input = Input(key: string, children: seq<Input>)

  /** The validator refuses sibling inputs with the same key. */
  predicate DistinctKeys(inputs: seq<Input>) {
    && (forall i, j :: 0 <= i < j < |inputs| ==> inputs[i].key != inputs[j].key)
    && (forall i :: 0 <= i < |inputs| ==> DistinctKeys(inputs[i].children))
  }

  predicate IsLevel(rows: Rows, parent: string, depth: nat) {
    if parent == "" then depth == 0 else parent in rows && depth == rows[parent].depth + 1
  }

  predicate SameKey(rows: Rows, x: string, y: string) { x in rows && y in rows && rows[x].key == rows[y].key }

  /** Generated ids are never empty and never repeat. */
  ghost predicate Generates(newId: string -> string) {
    && (forall k :: newId(k) != "")
    && (forall j, k :: newId(j) == newId(k) ==> j == k)
  }

  /** Keys are unique in a model, an id generated for a key names the row of that key, and parents are one level up. */
  ghost predicate Linked(rows: Rows, newId: string -> string) {
    && (forall x, y :: SameKey(rows, x, y) ==> x == y)
    && (forall k :: newId(k) in rows ==> rows[newId(k)].key == k)
    && (forall x :: x in rows ==> x != "" && IsLevel(rows, rows[x].parent, rows[x].depth))
  }

  /** No active row at this depth or below holds a negative position. */
  ghost predicate Clean(rows: Rows, depth: nat) {
    forall x :: x in rows && rows[x].active && rows[x].depth >= depth ==> rows[x].position >= 0
  }

  /** Rows keep their key, parent and depth; those above `depth`, and at `depth` under another parent,
      do not change at all; new rows at `depth` are children of `parent`. */
  ghost predicate Framed(was: Rows, rows: Rows, parent: string, depth: nat) {
    && (forall x :: x in was ==> x in rows && rows[x].key == was[x].key && rows[x].parent == was[x].parent && rows[x].depth == was[x].depth)
    && (forall x :: x in was && (was[x].depth < depth || (was[x].depth == depth && was[x].parent != parent)) ==> rows[x] == was[x])
    && (forall x :: x in rows && x !in was ==> rows[x].depth >= depth && (rows[x].depth == depth ==> rows[x].parent == parent))
  }

  /** Rows are only added, at `depth` no more than one. */
  ghost predicate Grown(was: Rows, rows: Rows, id: string, depth: nat) {
    && (forall x :: x in was ==> x in rows && rows[x] == was[x])
    && (forall x :: x in rows && x !in was ==>
          rows[x].active && rows[x].position >= 0 && rows[x].depth >= depth
            && (x != id ==> rows[x].depth > depth && rows[x].parent !in was && rows[x].parent != ""))
  }

  /** A row is added under an id and a key that are free. */
  lemma {:induction false} InsertedLinked(rows: Rows, newId: string -> string, row: Row)
    requires Generates(newId) && Linked(rows, newId) && newId(row.key) !in rows && IsLevel(rows, row.parent, row.depth)
    requires forall y :: y in rows ==> rows[y].key != row.key
    ensures Linked(rows[newId(row.key) := row], newId)
  {
    var next := rows[newId(row.key) := row];
    forall x, y | SameKey(next, x, y) ensures x == y {
      if x in rows && y in rows { assert SameKey(rows, x, y); }
    }
    forall x | x in next ensures x != "" && IsLevel(next, next[x].parent, next[x].depth) {
      if x != newId(row.key) { assert IsLevel(rows, rows[x].parent, rows[x].depth); }
    }
  }

  lemma {:induction false} InsertedDistinct(rows: Rows, id: string, row: Row)
    requires DistinctSiblings(rows) && id !in rows
    requires forall y :: y in ActiveChildren(rows, row.parent) ==> rows[y].position != row.position
    ensures DistinctSiblings(rows[id := row])
  {
    var next := rows[id := row];
    forall x, y | Siblings(next, x, y) ensures next[x].position != next[y].position {
      if x in rows && y in rows { assert Siblings(rows, x, y); }
      else if x == id { assert y in ActiveChildren(rows, row.parent); }
      else { assert x in ActiveChildren(rows, row.parent); }
    }
  }

  /** Nothing is a child of an id that is not in the table. */
  lemma {:induction false} NoOrphans(rows: Rows, newId: string -> string, id: string)
    requires Linked(rows, newId) && id !in rows && id != ""
    ensures ActiveChildren(rows, id) == {}
  {
    forall x | x in rows ensures rows[x].parent != id { assert IsLevel(rows, rows[x].parent, rows[x].depth); }
  }

  lemma {:induction false} GrownTwice(a: Rows, b: Rows, c: Rows, id: string, child: string, depth: nat)
    requires Grown(a, b, id, depth) && Grown(b, c, child, depth + 1) && id in b && id !in a && id != ""
    requires child in c ==> c[child].parent == id
    ensures Grown(a, c, id, depth)
  {
    forall x | x in c && x !in a
      ensures c[x].active && c[x].position >= 0 && c[x].depth >= depth
      ensures x != id ==> c[x].depth > depth && c[x].parent !in a && c[x].parent != ""
    {
      if x in b { assert c[x] == b[x]; }
    }
  }

  function KeysIn(rows: Rows): set<string> { set x | x in rows :: rows[x].key }

  function TreeKeys(input: Input): set<string>
    decreases input, 1
  {
    {input.key} + ListKeys(input.children)
  }

  function ListKeys(inputs: seq<Input>): set<string>
    decreases inputs, 0
  {
    if inputs == [] then {} else TreeKeys(inputs[0]) + ListKeys(inputs[1..])
  }

  /** No key of the tree is taken, and none occurs twice in it. */
  predicate KeysFree(input: Input, taken: set<string>)
    decreases input, 1
  {
    input.key !in taken && ListKeysFree(input.children, taken + {input.key})
  }

  predicate ListKeysFree(inputs: seq<Input>, taken: set<string>)
    decreases inputs, 0
  {
    inputs == [] || (KeysFree(inputs[0], taken) && ListKeysFree(inputs[1..], taken + TreeKeys(inputs[0])))
  }

  lemma InsertedKeys(rows: Rows, id: string, row: Row)
    requires id !in rows
    ensures KeysIn(rows[id := row]) == KeysIn(rows) + {row.key}
  {
    var next := rows[id := row];
    assert next[id].key == row.key;
    forall k | k in KeysIn(rows) ensures k in KeysIn(next) {
      var x :| x in rows && rows[x].key == k;
      assert next[x] == rows[x];
    }
  }

  /** The tree of an input has been inserted: its root as this row, nothing else on its level. */
  ghost predicate TreeCreated(was: Rows, rows: Rows, newId: string -> string, input: Input, row: Row) {
    var id := newId(input.key);
    && Linked(rows, newId) && DistinctSiblings(rows) && Grown(was, rows, id, row.depth)
    && id !in was && id in rows && rows[id] == row
    && KeysFree(input, KeysIn(was)) && KeysIn(rows) == KeysIn(was) + TreeKeys(input)
  }

  lemma CreatedCommitted(was: Rows, rows: Rows, newId: string -> string, input: Input, row: Row)
    requires Committed(was) && TreeCreated(was, rows, newId, input, row)
    ensures Committed(rows)
  {
  }

  /** CreateFieldTree: the new row, then its children at the positions 0, 1, 2, ... It fails exactly on a taken key. */
  method CreateFieldTree(t: FieldTable, newId: string -> string, input: Input, parent: string, depth: nat,
      position: int) returns (error: WriteError)
    requires Generates(newId) && Linked(t.rows, newId) && DistinctSiblings(t.rows) && IsLevel(t.rows, parent, depth)
    requires position >= 0
    requires forall y :: y in ActiveChildren(t.rows, parent) ==> t.rows[y].position != position
    modifies t
    ensures error == if KeysFree(input, KeysIn(old(t.rows))) then NoError else KeyTaken
    ensures error.NoError? ==> TreeCreated(old(t.rows), t.rows, newId, input, Row(input.key, parent, true, position, depth))
    decreases input, 1
  {
    ghost var before := t.rows;
    var row := Row(input.key, parent, true, position, depth);
    error := t.InsertRow(newId(input.key), row);
    InsertRefusedIff(before, newId, row);
    if error.NoError? {
      StartCreating(before, newId, input, row);
      error := CreateChildren(t, newId, before, input, row);
    }
  }

  method CreateChildren(t: FieldTable, newId: string -> string, ghost before: Rows, input: Input, row: Row)
    returns (error: WriteError)
    requires Generates(newId) && Creating(before, t.rows, newId, input, row, 0)
    modifies t
    ensures error == if KeysFree(input, KeysIn(before)) then NoError else KeyTaken
    ensures error.NoError? ==> TreeCreated(before, t.rows, newId, input, row)
    decreases input, 0
  {
    for i := 0 to |input.children|
      invariant Creating(before, t.rows, newId, input, row, i)
    {
      ghost var here := t.rows;
      error := CreateFieldTree(t, newId, input.children[i], newId(input.key), row.depth + 1, i);
      if !error.NoError? { return; }
      CreatedOneMore(before, here, t.rows, newId, input, row, i);
    }
    return NoError;
  }

  lemma InsertRefusedIff(rows: Rows, newId: string -> string, row: Row)
    requires Linked(rows, newId)
    ensures newId(row.key) in rows || (exists y :: y in rows && rows[y].key == row.key) <==> row.key in KeysIn(rows)
  {
  }

  /** The row of the field and the trees of its first n children are in place. */
  ghost predicate Creating(before: Rows, rows: Rows, newId: string -> string, input: Input, row: Row, n: nat)
    requires n <= |input.children|
  {
    var id := newId(input.key);
    && Linked(rows, newId) && DistinctSiblings(rows) && Grown(before, rows, id, row.depth)
    && id !in before && id != "" && id in rows && rows[id] == row
    && (forall y :: y in ActiveChildren(rows, id) ==> rows[y].position < n)
    && KeysLeft(input, KeysIn(before), KeysIn(rows), n)
  }

  /** The keys still to come, and whether all of them are free. */
  predicate KeysLeft(input: Input, taken: set<string>, here: set<string>, n: nat)
    requires n <= |input.children|
  {
    && here + ListKeys(input.children[n..]) == taken + TreeKeys(input)
    && (KeysFree(input, taken) <==> ListKeysFree(input.children[n..], here))
  }

  lemma {:induction false} KeysOneMore(input: Input, taken: set<string>, here: set<string>, n: nat)
    requires n < |input.children| && KeysLeft(input, taken, here, n) && KeysFree(input.children[n], here)
    ensures KeysLeft(input, taken, here + TreeKeys(input.children[n]), n + 1)
  {
    assert input.children[n..][1..] == input.children[n + 1..];
  }

  lemma {:induction false} StartCreating(before: Rows, newId: string -> string, input: Input, row: Row)
    requires Generates(newId) && Linked(before, newId) && DistinctSiblings(before)
    requires IsLevel(before, row.parent, row.depth)
    requires row.active && row.position >= 0 && row.key == input.key
    requires newId(input.key) !in before && forall y :: y in before ==> before[y].key != row.key
    requires forall y :: y in ActiveChildren(before, row.parent) ==> before[y].position != row.position
    ensures Creating(before, before[newId(input.key) := row], newId, input, row, 0)
  {
    var id := newId(input.key);
    InsertedKeys(before, id, row);
    InsertedLinked(before, newId, row);
    InsertedDistinct(before, id, row);
    NoOrphans(before, newId, id);
    assert ActiveChildren(before[id := row], id) == {};
    assert input.children[0..] == input.children;
  }

  lemma {:induction false} CreatedOneMore(before: Rows, here: Rows, rows: Rows, newId: string -> string, input: Input,
      row: Row, n: nat)
    requires n < |input.children| && Creating(before, here, newId, input, row, n)
    requires TreeCreated(here, rows, newId, input.children[n], Row(input.children[n].key, newId(input.key), true, n, row.depth + 1))
    ensures Creating(before, rows, newId, input, row, n + 1)
  {
    var id, child := newId(input.key), input.children[n];
    GrownTwice(before, here, rows, id, newId(child.key), row.depth);
    forall y | y in ActiveChildren(rows, id) ensures rows[y].position < n + 1 {
      if y in here { assert y in ActiveChildren(here, id); }
    }
    KeysOneMore(input, KeysIn(before), KeysIn(here), n);
  }

  // ---- archiving a subtree ----

  /** The row `x` or one of its descendants, at any depth. */
  predicate Under(rows: Rows, x: string, y: string)
    decreases if y in rows then rows[y].depth + 1 else 0
  {
    && y in rows
    && (y == x || (rows[y].parent in rows && rows[rows[y].parent].depth < rows[y].depth && Under(rows, x, rows[y].parent)))
  }

  function Subtree(rows: Rows, x: string): set<string> { set y | y in rows && Under(rows, x, y) }

  lemma {:induction false} UnderIsDeeper(rows: Rows, x: string, y: string)
    requires x in rows && Under(rows, x, y)
    ensures y == x || rows[y].depth > rows[x].depth
    decreases rows[y].depth
  {
    if y != x { UnderIsDeeper(rows, x, rows[y].parent); }
  }

  /** A set that holds a row and the children of all its members holds the whole subtree. */
  lemma {:induction false} ClosedHoldsSubtree(rows: Rows, ids: set<string>, x: string, y: string)
    requires x in ids && (forall z :: z in rows && rows[z].parent in ids ==> z in ids) && Under(rows, x, y)
    ensures y in ids
    decreases rows[y].depth
  {
    if y != x { ClosedHoldsSubtree(rows, ids, x, rows[y].parent); }
  }

  function Archived(rows: Rows, ids: set<string>): Rows {
    map x | x in rows :: if x in ids then rows[x].(active := false) else rows[x]
  }

  lemma {:induction false} ArchivedKeeps(rows: Rows, newId: string -> string, ids: set<string>)
    requires Linked(rows, newId) && DistinctSiblings(rows)
    ensures Linked(Archived(rows, ids), newId) && DistinctSiblings(Archived(rows, ids))
  {
    var next := Archived(rows, ids);
    forall x, y | SameKey(next, x, y) ensures x == y { assert SameKey(rows, x, y); }
    forall x, y | Siblings(next, x, y) ensures next[x].position != next[y].position { assert Siblings(rows, x, y); }
    forall x | x in next ensures IsLevel(next, next[x].parent, next[x].depth) { assert IsLevel(rows, rows[x].parent, rows[x].depth); }
  }

  /** The recursive query over parent ids: children of rows found so far are added until there are none. */
  method CollectSubtree(t: FieldTable, ghost newId: string -> string, x: string) returns (ids: set<string>)
    requires Linked(t.rows, newId) && x in t.rows
    ensures ids == Subtree(t.rows, x)
  {
    ids := {x};
    var more := set y | y in t.rows.Keys - ids && t.rows[y].parent in ids;
    while more != {}
      invariant x in ids && ids <= t.rows.Keys && forall y :: y in ids ==> Under(t.rows, x, y)
      invariant more == set y | y in t.rows.Keys - ids && t.rows[y].parent in ids
      decreases t.rows.Keys - ids
    {
      forall y | y in more ensures Under(t.rows, x, y) && y !in ids { assert IsLevel(t.rows, t.rows[y].parent, t.rows[y].depth); }
      var y :| y in more;
      ids := ids + more;
      more := set y | y in t.rows.Keys - ids && t.rows[y].parent in ids;
    }
    assert forall z :: z in t.rows && t.rows[z].parent in ids ==> z in ids || z in more;
    forall y | Under(t.rows, x, y) ensures y in ids { ClosedHoldsSubtree(t.rows, ids, x, y); }
  }

  /** ArchiveFieldTree: the row and all of its descendants, at any depth, and nothing beside or above them. */
  method ArchiveFieldTree(t: FieldTable, ghost newId: string -> string, x: string)
    requires Linked(t.rows, newId) && DistinctSiblings(t.rows) && x in t.rows
    modifies t
    ensures t.rows == Archived(old(t.rows), Subtree(old(t.rows), x))
    ensures Linked(t.rows, newId) && DistinctSiblings(t.rows) && (Committed(old(t.rows)) ==> Committed(t.rows))
    ensures !t.rows[x].active && t.rows.Keys == old(t.rows).Keys
    ensures forall y :: Under(old(t.rows), x, y) ==> !t.rows[y].active
    ensures forall y :: y in t.rows && y != x && t.rows[y].depth <= t.rows[x].depth ==> t.rows[y] == old(t.rows)[y]
    ensures forall y :: y in t.rows ==>
      t.rows[y].(active := old(t.rows)[y].active) == old(t.rows)[y] && (t.rows[y].active ==> old(t.rows)[y].active)
  {
    ArchivedKeeps(t.rows, newId, Subtree(t.rows, x));
    forall y | Under(t.rows, x, y) ensures y == x || t.rows[y].depth > t.rows[x].depth { UnderIsDeeper(t.rows, x, y); }
    var subtree := CollectSubtree(t, newId, x);
    t.rows := map y | y in t.rows :: if y in subtree then t.rows[y].(active := false) else t.rows[y];
  }

  // ---- reconciliation ----

  /** The child with this key, if `parent` has one. */
  method FindChild(t: FieldTable, parent: string, key: string) returns (found: bool, x: string)
    ensures found ==> x in t.rows && t.rows[x].parent == parent && t.rows[x].key == key
    ensures !found ==> forall y :: y in t.rows && t.rows[y].parent == parent ==> t.rows[y].key != key
  {
    if exists y :: y in t.rows.Keys && t.rows[y].parent == parent && t.rows[y].key == key {
      x :| x in t.rows.Keys && t.rows[x].parent == parent && t.rows[x].key == key;
      return true, x;
    }
    return false, "";
  }

  /** Input i is the active child at position i. */
  ghost predicate HasChildAt(rows: Rows, parent: string, key: string, i: int) {
    exists x :: x in ActiveChildren(rows, parent) && rows[x].key == key && rows[x].position == i
  }

  /** The first n inputs are in place; the other active children still hold negative positions. */
  ghost predicate Reconciled(rows: Rows, parent: string, inputs: seq<Input>, n: nat)
    requires n <= |inputs|
  {
    && (forall i :: 0 <= i < n ==> HasChildAt(rows, parent, inputs[i].key, i))
    && (forall x :: x in ActiveChildren(rows, parent) ==>
          rows[x].position < n && (rows[x].position >= 0 ==> rows[x].key == inputs[rows[x].position].key))
  }

  lemma {:induction false} RepositionedLinked(rows: Rows, newId: string -> string, x: string, position: int)
    requires Linked(rows, newId) && x in rows
    ensures Linked(rows[x := rows[x].(position := position)], newId)
  {
    var next := rows[x := rows[x].(position := position)];
    forall a, b | SameKey(next, a, b) ensures a == b { assert SameKey(rows, a, b); }
    forall a | a in next ensures IsLevel(next, next[a].parent, next[a].depth) { assert IsLevel(rows, rows[a].parent, rows[a].depth); }
  }

  lemma {:induction false} RepositionedDistinct(rows: Rows, x: string, position: int)
    requires DistinctSiblings(rows) && x in rows && forall y :: Siblings(rows, x, y) ==> rows[y].position != position
    ensures DistinctSiblings(rows[x := rows[x].(position := position)])
  {
    var next := rows[x := rows[x].(position := position)];
    forall a, b | Siblings(next, a, b) ensures next[a].position != next[b].position {
      assert Siblings(rows, a, b) && Siblings(rows, b, a);
    }
  }

  lemma {:induction false} PreparedLinked(rows: Rows, newId: string -> string, parent: string)
    requires Linked(rows, newId)
    ensures Linked(Prepared(rows, parent, rows.Keys), newId)
  {
    var next := Prepared(rows, parent, rows.Keys);
    forall a, b | SameKey(next, a, b) ensures a == b { assert SameKey(rows, a, b); }
    forall a | a in next ensures IsLevel(next, next[a].parent, next[a].depth) { assert IsLevel(rows, rows[a].parent, rows[a].depth); }
  }

  lemma {:induction false} PreparedFrame(rows: Rows, newId: string -> string, parent: string, depth: nat,
      inputs: seq<Input>)
    requires Linked(rows, newId) && Clean(rows, depth) && parent in rows && depth == rows[parent].depth + 1
    ensures NonNegative(rows, parent)
    ensures var p := Prepared(rows, parent, rows.Keys);
      Framed(rows, p, parent, depth) && Clean(p, depth + 1) && Reconciled(p, parent, inputs, 0)
  {
    forall x | x in ActiveChildren(rows, parent) ensures rows[x].depth == depth {
      assert IsLevel(rows, rows[x].parent, rows[x].depth);
    }
    var p := Prepared(rows, parent, rows.Keys);
    assert ActiveChildren(p, parent) == ActiveChildren(rows, parent);
  }

  lemma {:induction false} FramedTwice(a: Rows, b: Rows, c: Rows, parent: string, child: string, depth: nat)
    requires Framed(a, b, parent, depth) && Framed(b, c, child, depth + 1)
    ensures Framed(a, c, parent, depth)
  {
    forall x | x in c && x !in a ensures c[x].depth >= depth && (c[x].depth == depth ==> c[x].parent == parent) {
      if x in b { assert c[x].depth == b[x].depth && c[x].parent == b[x].parent; }
    }
  }

  /** Work below the children of `parent` leaves its children, and so their order, alone. */
  lemma {:induction false} DeeperKeepsChildren(b: Rows, c: Rows, newId: string -> string, parent: string, child: string,
      depth: nat, inputs: seq<Input>, n: nat)
    requires Framed(b, c, child, depth + 1) && Linked(b, newId) && Linked(c, newId) && n <= |inputs|
    requires parent in b && b[parent].depth + 1 == depth && Reconciled(b, parent, inputs, n)
    ensures ActiveChildren(c, parent) == ActiveChildren(b, parent) && Reconciled(c, parent, inputs, n)
  {
    forall x | x in c && c[x].parent == parent ensures x in b && c[x] == b[x] {
      assert IsLevel(c, c[x].parent, c[x].depth);
    }
    forall x | x in b && b[x].parent == parent ensures c[x] == b[x] {
      assert IsLevel(b, b[x].parent, b[x].depth);
    }
    SameChildrenReconciled(b, c, parent, inputs, n);
  }

  lemma {:induction false} SameChildrenReconciled(b: Rows, c: Rows, parent: string, inputs: seq<Input>, n: nat)
    requires n <= |inputs| && Reconciled(b, parent, inputs, n) && ActiveChildren(c, parent) == ActiveChildren(b, parent)
    requires forall x :: x in ActiveChildren(b, parent) ==> c[x] == b[x]
    ensures Reconciled(c, parent, inputs, n)
  {
    forall i | 0 <= i < n ensures HasChildAt(c, parent, inputs[i].key, i) {
      assert HasChildAt(b, parent, inputs[i].key, i);
      var x :| x in ActiveChildren(b, parent) && b[x].key == inputs[i].key && b[x].position == i;
      assert x in ActiveChildren(c, parent);
    }
  }

  lemma {:induction false} PlacedReconciled(rows: Rows, parent: string, inputs: seq<Input>, n: nat, x: string)
    requires DistinctKeys(inputs) && n < |inputs| && Reconciled(rows, parent, inputs, n)
    requires x in ActiveChildren(rows, parent) && rows[x].key == inputs[n].key
    ensures Reconciled(rows[x := rows[x].(position := n)], parent, inputs, n + 1)
  {
    var next := rows[x := rows[x].(position := n)];
    assert ActiveChildren(next, parent) == ActiveChildren(rows, parent);
    forall i | 0 <= i < n + 1 ensures HasChildAt(next, parent, inputs[i].key, i) {
      if i < n {
        assert HasChildAt(rows, parent, inputs[i].key, i);
        var w :| w in ActiveChildren(rows, parent) && rows[w].key == inputs[i].key && rows[w].position == i;
        assert w != x && next[w] == rows[w] && w in ActiveChildren(next, parent);
      } else {
        assert x in ActiveChildren(next, parent) && next[x].position == n;
      }
    }
  }

  lemma {:induction false} GrownReconciled(rows: Rows, next: Rows, parent: string, depth: nat, inputs: seq<Input>,
      n: nat, id: string)
    requires n < |inputs| && Reconciled(rows, parent, inputs, n) && Grown(rows, next, id, depth) && parent in rows
    requires id !in rows && id in next && next[id] == Row(inputs[n].key, parent, true, n, depth)
    ensures Reconciled(next, parent, inputs, n + 1)
  {
    forall x | x in ActiveChildren(next, parent) && x != id ensures x in ActiveChildren(rows, parent) && next[x] == rows[x] {}
    forall i | 0 <= i < n + 1 ensures HasChildAt(next, parent, inputs[i].key, i) {
      if i < n {
        assert HasChildAt(rows, parent, inputs[i].key, i);
        var w :| w in ActiveChildren(rows, parent) && rows[w].key == inputs[i].key && rows[w].position == i;
        assert w in ActiveChildren(next, parent);
      } else {
        assert id in ActiveChildren(next, parent);
      }
    }
  }

  lemma {:induction false} GrownFramed(was: Rows, rows: Rows, next: Rows, parent: string, depth: nat, id: string)
    requires Framed(was, rows, parent, depth) && Clean(rows, depth + 1) && Grown(rows, next, id, depth)
    requires id in next && next[id].parent == parent
    ensures Framed(was, next, parent, depth) && Clean(next, depth + 1)
  {
  }

  /** The state of the reconciliation of one parent after n inputs. */
  ghost predicate Underway(was: Rows, rows: Rows, newId: string -> string, parent: string, depth: nat,
      inputs: seq<Input>, n: nat)
    requires n <= |inputs|
  {
    && Linked(rows, newId) && DistinctSiblings(rows) && parent in rows && depth == rows[parent].depth + 1
    && Framed(was, rows, parent, depth) && Clean(rows, depth + 1) && Reconciled(rows, parent, inputs, n)
  }

  lemma {:induction false} GrownUnderway(was: Rows, rows: Rows, next: Rows, newId: string -> string, parent: string,
      depth: nat, inputs: seq<Input>, n: nat, id: string)
    requires n < |inputs| && Underway(was, rows, newId, parent, depth, inputs, n) && Grown(rows, next, id, depth)
    requires Linked(next, newId) && DistinctSiblings(next)
    requires id !in rows && id in next && next[id] == Row(inputs[n].key, parent, true, n, depth)
    ensures Underway(was, next, newId, parent, depth, inputs, n + 1)
  {
    GrownReconciled(rows, next, parent, depth, inputs, n, id);
    GrownFramed(was, rows, next, parent, depth, id);
  }

  lemma {:induction false} PlacedFramed(was: Rows, rows: Rows, parent: string, depth: nat, x: string, n: nat)
    requires Framed(was, rows, parent, depth) && Clean(rows, depth + 1) && x in rows && rows[x].parent == parent
    requires rows[x].depth == depth
    ensures Framed(was, rows[x := rows[x].(position := n)], parent, depth)
    ensures Clean(rows[x := rows[x].(position := n)], depth + 1)
  {
  }

  lemma {:induction false} PlacedUnderway(was: Rows, rows: Rows, newId: string -> string, parent: string, depth: nat,
      inputs: seq<Input>, n: nat, x: string)
    requires DistinctKeys(inputs) && n < |inputs| && Underway(was, rows, newId, parent, depth, inputs, n)
    requires x in ActiveChildren(rows, parent) && rows[x].key == inputs[n].key
    ensures forall y :: Siblings(rows, x, y) ==> rows[y].position != n
    ensures Underway(was, rows[x := rows[x].(position := n)], newId, parent, depth, inputs, n + 1)
    ensures x != "" && rows[x].depth == depth && x != parent
  {
    assert IsLevel(rows, rows[x].parent, rows[x].depth);
    forall y | Siblings(rows, x, y) ensures rows[y].position != n { assert y in ActiveChildren(rows, parent); }
    RepositionedLinked(rows, newId, x, n);
    RepositionedDistinct(rows, x, n);
    PlacedReconciled(rows, parent, inputs, n, x);
    PlacedFramed(was, rows, parent, depth, x, n);
  }

  lemma {:induction false} DeeperUnderway(was: Rows, rows: Rows, next: Rows, newId: string -> string, parent: string,
      depth: nat, inputs: seq<Input>, n: nat, x: string)
    requires n <= |inputs| && Underway(was, rows, newId, parent, depth, inputs, n)
    requires Linked(next, newId) && DistinctSiblings(next) && Clean(next, depth + 1) && Framed(rows, next, x, depth + 1)
    ensures Underway(was, next, newId, parent, depth, inputs, n)
  {
    FramedTwice(was, rows, next, parent, x, depth);
    DeeperKeepsChildren(rows, next, newId, parent, x, depth, inputs, n);
  }

  /** One input: a child that exists takes position n and is reconciled in turn, a new one is created there. */
  method ReconcileOne(t: FieldTable, newId: string -> string, ghost was: Rows, parent: string, depth: nat,
      inputs: seq<Input>, n: nat)
    returns (error: WriteError)
    requires Generates(newId) && DistinctKeys(inputs) && n < |inputs|
    requires Underway(was, t.rows, newId, parent, depth, inputs, n)
    modifies t
    ensures error.NoError? || error.KeyTaken?
    ensures error.NoError? ==> Underway(was, t.rows, newId, parent, depth, inputs, n + 1)
    decreases inputs, 0
  {
    ghost var here := t.rows;
    var found, x := FindChild(t, parent, inputs[n].key);
    if found {
      if !t.rows[x].active { return KeyTaken; }
      PlacedUnderway(was, here, newId, parent, depth, inputs, n, x);
      error := t.SetPosition(x, n);
      ghost var placed := t.rows;
      error := ReconcileChildren(t, newId, x, depth + 1, inputs[n].children);
      if !error.NoError? { return; }
      DeeperUnderway(was, placed, t.rows, newId, parent, depth, inputs, n + 1, x);
    } else {
      error := CreateFieldTree(t, newId, inputs[n], parent, depth, n);
      if !error.NoError? { return; }
      GrownUnderway(was, here, t.rows, newId, parent, depth, inputs, n, newId(inputs[n].key));
    }
  }

  /** reconcileChildren: no write on the way makes two active siblings collide, whatever the nesting; at
      the end the active children of `parent` are the inputs in their order, at the positions 0, 1, 2, ... */
  method ReconcileChildren(t: FieldTable, newId: string -> string, parent: string, depth: nat, inputs: seq<Input>)
    returns (error: WriteError)
    requires Generates(newId) && DistinctKeys(inputs) && Linked(t.rows, newId) && DistinctSiblings(t.rows)
    requires parent in t.rows && depth == t.rows[parent].depth + 1 && Clean(t.rows, depth)
    modifies t
    ensures error.NoError? || error.KeyTaken?
    ensures error.NoError? ==> Linked(t.rows, newId) && DistinctSiblings(t.rows) && Clean(t.rows, depth)
    ensures error.NoError? ==> Framed(old(t.rows), t.rows, parent, depth) && Reconciled(t.rows, parent, inputs, |inputs|)
    ensures error.NoError? ==> NonNegative(t.rows, parent) && (Committed(old(t.rows)) ==> Committed(t.rows))
    decreases inputs, 1
  {
    ghost var was := t.rows;
    PreparedFrame(was, newId, parent, depth, inputs);
    error := t.PrepareFieldOrder(parent);
    PreparedLinked(was, newId, parent);
    PreparedDistinct(was, parent, was.Keys);
    for n := 0 to |inputs|
      invariant Underway(was, t.rows, newId, parent, depth, inputs, n)
    {
      error := ReconcileOne(t, newId, was, parent, depth, inputs, n);
      if !error.NoError? { return; }
    }
    ArchiveLeftover(t, newId, was, parent, depth, inputs);
    forall x | x in t.rows && t.rows[x].active && t.rows[x].depth >= depth ensures t.rows[x].position >= 0 {
      if t.rows[x].depth == depth && t.rows[x].parent == parent { assert x in ActiveChildren(t.rows, parent); }
    }
    if Committed(was) { FramedCommitted(was, t.rows, parent, depth); }
    return NoError;
  }

  /** What lies above the frame keeps its positions. */
  lemma FramedCommitted(was: Rows, rows: Rows, parent: string, depth: nat)
    requires Committed(was) && Framed(was, rows, parent, depth) && Clean(rows, depth) && DistinctSiblings(rows)
    ensures Committed(rows)
  {
  }

  lemma {:induction false} ArchivedChildren(rows: Rows, next: Rows, newId: string -> string, parent: string, depth: nat,
      inputs: seq<Input>, x: string)
    requires Linked(rows, newId) && parent in rows && depth == rows[parent].depth + 1
    requires Reconciled(rows, parent, inputs, |inputs|)
    requires x in ActiveChildren(rows, parent) && rows[x].position < 0 && next.Keys == rows.Keys && !next[x].active
    requires next[x].depth == rows[x].depth && next[x].parent == rows[x].parent
    requires forall y :: y in next && y != x && next[y].depth <= next[x].depth ==> next[y] == rows[y]
    requires forall y :: y in next ==> next[y].depth == rows[y].depth && next[y].parent == rows[y].parent
    ensures ActiveChildren(next, parent) == ActiveChildren(rows, parent) - {x}
    ensures Reconciled(next, parent, inputs, |inputs|)
  {
    forall y | y in rows && rows[y].parent == parent ensures rows[y].depth == depth {
      assert IsLevel(rows, rows[y].parent, rows[y].depth);
    }
    assert ActiveChildren(next, parent) == ActiveChildren(rows, parent) - {x};
    FewerChildrenReconciled(rows, next, parent, inputs, x);
  }

  lemma {:induction false} FewerChildrenReconciled(rows: Rows, next: Rows, parent: string, inputs: seq<Input>,
      x: string)
    requires Reconciled(rows, parent, inputs, |inputs|) && x in rows && rows[x].position < 0
    requires ActiveChildren(next, parent) == ActiveChildren(rows, parent) - {x}
    requires forall y :: y in ActiveChildren(next, parent) ==> next[y] == rows[y]
    ensures Reconciled(next, parent, inputs, |inputs|)
  {
    forall i | 0 <= i < |inputs| ensures HasChildAt(next, parent, inputs[i].key, i) {
      assert HasChildAt(rows, parent, inputs[i].key, i);
      var w :| w in ActiveChildren(rows, parent) && rows[w].key == inputs[i].key && rows[w].position == i;
      assert w in ActiveChildren(next, parent);
    }
  }

  lemma {:induction false} ArchivedFramed(was: Rows, rows: Rows, next: Rows, parent: string, depth: nat, x: string)
    requires Framed(was, rows, parent, depth) && Clean(rows, depth + 1) && x in rows && rows[x].depth == depth
    requires rows[x].parent == parent
    requires next.Keys == rows.Keys
    requires forall y :: y in next && y != x && rows[y].depth <= depth ==> next[y] == rows[y]
    requires forall y :: y in next ==> next[y].(active := rows[y].active) == rows[y] && (next[y].active ==> rows[y].active)
    ensures Framed(was, next, parent, depth) && Clean(next, depth + 1)
  {
  }

  lemma {:induction false} ArchivedUnderway(was: Rows, rows: Rows, next: Rows, newId: string -> string, parent: string,
      depth: nat, inputs: seq<Input>, x: string)
    requires Underway(was, rows, newId, parent, depth, inputs, |inputs|) && x in ActiveChildren(rows, parent)
    requires rows[x].position < 0
    requires Linked(next, newId) && DistinctSiblings(next) && next.Keys == rows.Keys && !next[x].active
    requires forall y :: y in next && y != x && next[y].depth <= next[x].depth ==> next[y] == rows[y]
    requires forall y :: y in next ==> next[y].(active := rows[y].active) == rows[y] && (next[y].active ==> rows[y].active)
    ensures Underway(was, next, newId, parent, depth, inputs, |inputs|)
    ensures ActiveChildren(next, parent) == ActiveChildren(rows, parent) - {x}
  {
    assert IsLevel(rows, rows[x].parent, rows[x].depth);
    ArchivedChildren(rows, next, newId, parent, depth, inputs, x);
    ArchivedFramed(was, rows, next, parent, depth, x);
  }

  /** The active children no input names are archived with their subtrees. */
  method ArchiveLeftover(t: FieldTable, ghost newId: string -> string, ghost was: Rows, parent: string, depth: nat,
      inputs: seq<Input>)
    requires Underway(was, t.rows, newId, parent, depth, inputs, |inputs|)
    modifies t
    ensures Underway(was, t.rows, newId, parent, depth, inputs, |inputs|) && NonNegative(t.rows, parent)
  {
    var todo := set x | x in ActiveChildren(t.rows, parent) && t.rows[x].position < 0;
    while todo != {}
      invariant Underway(was, t.rows, newId, parent, depth, inputs, |inputs|)
      invariant forall x :: x in todo <==> x in ActiveChildren(t.rows, parent) && t.rows[x].position < 0
      decreases todo
    {
      var x :| x in todo;
      ghost var here := t.rows;
      ArchiveFieldTree(t, newId, x);
      ArchivedUnderway(was, here, t.rows, newId, parent, depth, inputs, x);
      todo := todo - {x};
    }
  }
}
