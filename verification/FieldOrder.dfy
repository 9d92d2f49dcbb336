/** The order of sibling fields: positions under a unique index, the two-phase reorder, the
    reconciliation of child fields, and the order the model designer shows.
    The parent of a root field is the empty text, as in the index. */
module FieldOrder {
  import opened Wrappers

  datatype Row = Row(key: string, parent: string, active: bool, position: int, depth: nat)

  type Rows = map<string, Row>

  function ActiveChildren(rows: Rows, parent: string): set<string> {
    set x | x in rows && rows[x].active && rows[x].parent == parent
  }

  predicate Siblings(rows: Rows, x: string, y: string) {
    x in rows && y in rows && x != y && rows[x].active && rows[y].active && rows[x].parent == rows[y].parent
  }

  /** The unique index on (parent, position) of active rows. */
  ghost predicate DistinctSiblings(rows: Rows) {
    forall x, y :: Siblings(rows, x, y) ==> rows[x].position != rows[y].position
  }

  ghost predicate NonNegative(rows: Rows, parent: string) {
    forall x :: x in ActiveChildren(rows, parent) ==> rows[x].position >= 0
  }

  /** What every committed state satisfies. */
  ghost predicate Committed(rows: Rows) {
    DistinctSiblings(rows) && forall x :: x in rows && rows[x].active ==> rows[x].position >= 0
  }

  // ---- phase one: every active sibling moves to -position - 1, row by row ----

  function Prepared(rows: Rows, parent: string, done: set<string>): Rows {
    map x | x in rows :: if x in done && x in ActiveChildren(rows, parent) then rows[x].(position := -rows[x].position - 1) else rows[x]
  }

  /** In whatever order the rows are visited, no two active siblings ever share a position. */
  lemma {:induction false} PreparedDistinct(rows: Rows, parent: string, done: set<string>)
    requires DistinctSiblings(rows) && NonNegative(rows, parent)
    ensures DistinctSiblings(Prepared(rows, parent, done))
  {
    var p := Prepared(rows, parent, done);
    forall x, y | Siblings(p, x, y) ensures p[x].position != p[y].position {
      assert Siblings(rows, x, y);
      if rows[x].parent == parent { assert x in ActiveChildren(rows, parent) && y in ActiveChildren(rows, parent); }
    }
  }

  // ---- phase two: the listed fields take the positions 0, 1, 2, ... ----

  predicate DistinctIds(ids: seq<string>) { forall i, j :: 0 <= i < j < |ids| ==> ids[i] != ids[j] }

  function IndexOf(ids: seq<string>, x: string): (i: nat)
    requires x in ids
    ensures i < |ids| && ids[i] == x
  {
    if ids[0] == x then 0 else 1 + IndexOf(ids[1..], x)
  }

  lemma {:induction false} IndexOfDistinct(ids: seq<string>, i: nat)
    requires DistinctIds(ids) && i < |ids|
    ensures IndexOf(ids, ids[i]) == i
  {
  }

  /** The rows after the first n writes of a reorder. */
  function Placed(rows: Rows, parent: string, ids: seq<string>, n: nat): Rows
    requires n <= |ids|
  {
    map x | x in rows ::
      if x in ActiveChildren(rows, parent)
      then rows[x].(position := if x in ids[..n] then IndexOf(ids[..n], x) else -rows[x].position - 1)
      else rows[x]
  }

  lemma {:induction false} PlacedDistinct(rows: Rows, parent: string, ids: seq<string>, n: nat)
    requires DistinctSiblings(rows) && NonNegative(rows, parent) && n <= |ids|
    ensures DistinctSiblings(Placed(rows, parent, ids, n))
  {
    var p := Placed(rows, parent, ids, n);
    forall x, y | Siblings(p, x, y) ensures p[x].position != p[y].position {
      assert Siblings(rows, x, y);
      if rows[x].parent == parent { assert x in ActiveChildren(rows, parent) && y in ActiveChildren(rows, parent); }
    }
  }

  lemma {:induction false} PlacedOneMore(rows: Rows, parent: string, ids: seq<string>, n: nat)
    requires DistinctIds(ids) && n < |ids| && ids[n] in ActiveChildren(rows, parent)
    ensures Placed(rows, parent, ids, n + 1) == Placed(rows, parent, ids, n)[ids[n] := rows[ids[n]].(position := n)]
  {
    assert ids[..n + 1] == ids[..n] + [ids[n]];
    forall x | x in ids[..n + 1] ensures IndexOf(ids[..n + 1], x) == if x == ids[n] then n else IndexOf(ids[..n], x) {
      var i :| 0 <= i < n + 1 && ids[..n + 1][i] == x;
      IndexOfDistinct(ids[..n + 1], i);
      if i < n { assert ids[..n][i] == x; IndexOfDistinct(ids[..n], i); }
    }
  }

  // ---- the order a list of siblings is read in ----

  /** `ids` lists the active children of `parent` by position. */
  predicate IsOrder(rows: Rows, parent: string, ids: seq<string>) {
    && (forall x :: x in ids ==> x in ActiveChildren(rows, parent))
    && (forall x :: x in ActiveChildren(rows, parent) ==> x in ids)
    && (forall i, j :: 0 <= i < j < |ids| ==> ids[i] in rows && ids[j] in rows && rows[ids[i]].position < rows[ids[j]].position)
  }

  predicate Increasing(rows: Rows, ids: seq<string>) {
    && (forall x :: x in ids ==> x in rows)
    && (forall i, j :: 0 <= i < j < |ids| ==> rows[ids[i]].position < rows[ids[j]].position)
  }

  function SetOf(ids: seq<string>): set<string> { set x | x in ids }

  lemma {:induction false} LastIsGreatest(rows: Rows, ids: seq<string>, x: string)
    requires Increasing(rows, ids) && x in ids
    ensures rows[x].position <= rows[ids[|ids| - 1]].position
    ensures rows[x].position == rows[ids[|ids| - 1]].position ==> x == ids[|ids| - 1]
  {
  }

  lemma {:induction false} WithoutLast(rows: Rows, ids: seq<string>)
    requires Increasing(rows, ids) && ids != []
    ensures Increasing(rows, ids[..|ids| - 1]) && SetOf(ids[..|ids| - 1]) == SetOf(ids) - {ids[|ids| - 1]}
  {
    var init, last := ids[..|ids| - 1], ids[|ids| - 1];
    assert ids == init + [last];
    forall x | x in init ensures x != last && x in ids {
      var i :| 0 <= i < |init| && init[i] == x;
      assert rows[ids[i]].position < rows[ids[|ids| - 1]].position;
    }
  }

  lemma {:induction false} IncreasingAgree(rows: Rows, a: seq<string>, b: seq<string>)
    requires Increasing(rows, a) && Increasing(rows, b) && SetOf(a) == SetOf(b) && |a| == |b|
    ensures a == b
  {
    if a != [] {
      var x := a[|a| - 1];
      assert x in SetOf(a) && x in b;
      var y := b[|b| - 1];
      assert y in SetOf(b) && y in a;
      LastIsGreatest(rows, a, y);
      LastIsGreatest(rows, b, x);
      WithoutLast(rows, a);
      WithoutLast(rows, b);
      IncreasingAgree(rows, a[..|a| - 1], b[..|b| - 1]);
      assert a == a[..|a| - 1] + [x] && b == b[..|b| - 1] + [y];
    }
  }

  /** Positions determine the order. */
  lemma {:induction false} OrderIsUnique(rows: Rows, parent: string, a: seq<string>, b: seq<string>)
    requires IsOrder(rows, parent, a) && IsOrder(rows, parent, b)
    ensures a == b
  {
    assert SetOf(a) == ActiveChildren(rows, parent) == SetOf(b);
    OrderedDistinct(rows, parent, a);
    OrderedDistinct(rows, parent, b);
    DistinctSize(a);
    DistinctSize(b);
    IncreasingAgree(rows, a, b);
  }

  // ---- the checks on a request ----

  predicate SameStringSet(left: seq<string>, right: seq<string>) {
    |left| == |right| && forall x :: x in right ==> x in left
  }

  /** What UpdateFieldOrder asks of a request before it writes. */
  predicate Accepts(current: seq<string>, base: seq<string>, ids: seq<string>) {
    DistinctIds(base) && DistinctIds(ids) && "" !in base && "" !in ids && base == current && SameStringSet(current, ids)
  }

  lemma {:induction false} DistinctSize(ids: seq<string>)
    requires DistinctIds(ids)
    ensures |SetOf(ids)| == |ids|
  {
    if ids != [] {
      DistinctSize(ids[1..]);
      assert ids == [ids[0]] + ids[1..];
      assert SetOf(ids) == {ids[0]} + SetOf(ids[1..]);
    }
  }

  lemma {:induction false} SubsetOfSameSize(a: set<string>, b: set<string>)
    requires a <= b && |a| == |b|
    ensures a == b
  {
    assert b == a + (b - a);
  }

  lemma {:induction false} DistinctMultiset(ids: seq<string>)
    requires DistinctIds(ids)
    ensures multiset(ids) == multiset(SetOf(ids))
  {
    if ids != [] {
      DistinctMultiset(ids[1..]);
      assert ids == [ids[0]] + ids[1..];
      assert SetOf(ids) == {ids[0]} + SetOf(ids[1..]) && ids[0] !in SetOf(ids[1..]);
    }
  }

  /** The baseline and the set checks accept exactly the permutations of the current order. */
  lemma {:induction false} AcceptsExactlyPermutations(current: seq<string>, base: seq<string>, ids: seq<string>)
    requires DistinctIds(current) && "" !in current
    ensures Accepts(current, base, ids) <==> base == current && multiset(ids) == multiset(current)
  {
    DistinctSize(current);
    DistinctMultiset(current);
    if DistinctIds(ids) {
      DistinctSize(ids);
      DistinctMultiset(ids);
      if SameStringSet(current, ids) { SubsetOfSameSize(SetOf(ids), SetOf(current)); }
    }
    if multiset(ids) == multiset(current) {
      assert |multiset(ids)| == |ids| && |multiset(current)| == |current|;
      forall x ensures x in ids <==> x in current { assert x in multiset(ids) <==> x in multiset(current); }
      PermutationDistinct(ids, current);
    }
  }

  lemma {:induction false} PermutationDistinct(ids: seq<string>, current: seq<string>)
    requires multiset(ids) == multiset(current) && multiset(current) == multiset(SetOf(current))
    ensures DistinctIds(ids)
  {
    forall i, j | 0 <= i < j < |ids| ensures ids[i] != ids[j] {
      assert ids == ids[..i] + [ids[i]] + ids[i + 1..j] + [ids[j]] + ids[j + 1..];
      assert ids[i] == ids[j] ==> multiset(ids)[ids[i]] >= 2;
      assert multiset(SetOf(current))[ids[i]] <= 1;
    }
  }

  lemma {:induction false} PlacedOrder(rows: Rows, parent: string, ids: seq<string>)
    requires DistinctIds(ids) && SetOf(ids) == ActiveChildren(rows, parent)
    ensures IsOrder(Placed(rows, parent, ids, |ids|), parent, ids)
  {
    var p := Placed(rows, parent, ids, |ids|);
    assert ids[..|ids|] == ids;
    assert ActiveChildren(p, parent) == ActiveChildren(rows, parent);
    forall x ensures x in ids <==> x in ActiveChildren(rows, parent) { assert x in SetOf(ids) <==> x in ids; }
    forall i | 0 <= i < |ids| ensures ids[i] in p && p[ids[i]].position == i {
      assert ids[i] in SetOf(ids);
      IndexOfDistinct(ids, i);
    }
  }

  // ---- the table ----

  datatype WriteError = NoError | KeyTaken | PositionTaken | OrderConflict | FieldMissing | FieldArchived | ParentInvalid

  const MAX_DEPTH: nat := 2

  /** The root, or an active container field that may have children. */
  predicate OrderParent(rows: Rows, parent: string, container: bool) {
    parent == "" || (parent in rows && rows[parent].active && container && rows[parent].depth < MAX_DEPTH)
  }

  class FieldTable {
    var rows: Rows

    constructor ()
      ensures rows == map[]
    {
      rows := map[];
    }

    method SetPosition(x: string, position: int) returns (error: WriteError)
      requires x in rows && rows[x].active
      modifies this
      ensures error == if exists y :: Siblings(old(rows), x, y) && old(rows)[y].position == position then PositionTaken else NoError
      ensures rows == if error.NoError? then old(rows)[x := old(rows)[x].(position := position)] else old(rows)
    {
      if exists y :: y in rows.Keys && Siblings(rows, x, y) && rows[y].position == position { return PositionTaken; }
      rows := rows[x := rows[x].(position := position)];
      return NoError;
    }

    method InsertRow(x: string, row: Row) returns (error: WriteError)
      requires row.active
      modifies this
      ensures error ==
        if x in old(rows) || exists y :: y in old(rows) && old(rows)[y].key == row.key then KeyTaken
        else if exists y :: y in ActiveChildren(old(rows), row.parent) && old(rows)[y].position == row.position then PositionTaken
        else NoError
      ensures rows == if error.NoError? then old(rows)[x := row] else old(rows)
    {
      if x in rows || exists y :: y in rows.Keys && rows[y].key == row.key { return KeyTaken; }
      if exists y :: y in rows.Keys && y in ActiveChildren(rows, row.parent) && rows[y].position == row.position { return PositionTaken; }
      rows := rows[x := row];
      return NoError;
    }

    /** The rows are visited in any order; the index is checked at every one of them. */
    method PrepareFieldOrder(parent: string) returns (error: WriteError)
      requires DistinctSiblings(rows) && NonNegative(rows, parent)
      modifies this
      ensures error.NoError? && rows == Prepared(old(rows), parent, old(rows).Keys)
    {
      ghost var before := rows;
      var todo := ActiveChildren(rows, parent);
      assert Prepared(before, parent, before.Keys - ActiveChildren(before, parent)) == before;
      while todo != {}
        invariant todo <= ActiveChildren(before, parent) && rows == Prepared(before, parent, before.Keys - todo)
        decreases todo
      {
        var x :| x in todo;
        PreparedDistinct(before, parent, before.Keys - (todo - {x}));
        PreparedOneMore(before, parent, todo, x);
        error := SetPosition(x, -rows[x].position - 1);
        todo := todo - {x};
      }
      assert before.Keys - {} == before.Keys;
      return NoError;
    }

    /** The repository's UpdateFieldOrder; a field that is not an active child affects no row. */
    method WriteFieldOrder(parent: string, ids: seq<string>) returns (error: WriteError)
      requires Committed(rows) && DistinctIds(ids) && SetOf(ids) == ActiveChildren(rows, parent)
      modifies this
      ensures error.NoError? && rows == Placed(old(rows), parent, ids, |ids|)
      ensures Committed(rows) && IsOrder(rows, parent, ids)
    {
      ghost var before := rows;
      assert NonNegative(before, parent);
      error := PrepareFieldOrder(parent);
      assert Placed(before, parent, ids, 0) == Prepared(before, parent, before.Keys);
      for n := 0 to |ids|
        invariant rows == Placed(before, parent, ids, n)
      {
        assert ids[n] in SetOf(ids);
        PlacedOneMore(before, parent, ids, n);
        PlacedDistinct(before, parent, ids, n + 1);
        NoClash(rows, ids[n], n, Placed(before, parent, ids, n + 1));
        error := SetPosition(ids[n], n);
      }
      PlacedDistinct(before, parent, ids, |ids|);
      PlacedOrder(before, parent, ids);
      assert ids[..|ids|] == ids;
      forall x | x in rows && rows[x].active ensures rows[x].position >= 0 {
        if x in ActiveChildren(before, parent) { assert x in SetOf(ids); }
      }
      return NoError;
    }

    /** The active siblings as the table lists them: by position. */
    method CurrentOrder(parent: string) returns (current: seq<string>)
      requires Committed(rows)
      ensures IsOrder(rows, parent, current)
    {
      current := [];
      var todo := ActiveChildren(rows, parent);
      while todo != {}
        invariant todo <= ActiveChildren(rows, parent) && Increasing(rows, current)
        invariant forall x :: x in ActiveChildren(rows, parent) <==> x in todo || x in current
        invariant forall x, y :: x in current && y in todo ==> rows[x].position < rows[y].position
        decreases todo
      {
        var first := Foremost(todo);
        forall y | y in todo && y != first ensures rows[first].position < rows[y].position {
          assert Siblings(rows, first, y);
        }
        current, todo := current + [first], todo - {first};
      }
    }

    method Foremost(todo: set<string>) returns (first: string)
      requires todo != {} && todo <= rows.Keys
      ensures first in todo && forall y :: y in todo ==> rows[first].position <= rows[y].position
    {
      first :| first in todo;
      var rest := todo - {first};
      while rest != {}
        invariant rest <= todo && first in todo
        invariant forall y :: y in todo - rest ==> rows[first].position <= rows[y].position
        decreases rest
      {
        var x :| x in rest;
        if rows[x].position < rows[first].position { first := x; }
        rest := rest - {x};
      }
    }

    /** UpdateFieldOrder: a request for an unsuitable parent, with a stale baseline or with an incomplete list changes
        nothing. Whether the parent is of a container type is not in this table. */
    method UpdateFieldOrder(parent: string, container: bool, base: seq<string>, ids: seq<string>)
      returns (error: WriteError)
      requires Committed(rows) && "" !in rows
      modifies this
      ensures error ==
        if OrderParent(old(rows), parent, container) && IsOrder(old(rows), parent, base) && multiset(ids) == multiset(base)
        then NoError else OrderConflict
      ensures if error.NoError? then IsOrder(rows, parent, ids) && rows == Placed(old(rows), parent, ids, |ids|) else rows == old(rows)
      ensures Committed(rows)
    {
      if parent != "" && (parent !in rows || !rows[parent].active || !container || rows[parent].depth >= MAX_DEPTH) {
        return OrderConflict;
      }
      var current := CurrentOrder(parent);
      OrderedDistinct(rows, parent, current);
      AcceptsExactlyPermutations(current, base, ids);
      if IsOrder(rows, parent, base) { OrderIsUnique(rows, parent, base, current); }
      if !Accepts(current, base, ids) { return OrderConflict; }
      assert SetOf(ids) == ActiveChildren(rows, parent) by {
        forall x ensures x in ids <==> x in current { assert x in multiset(ids) <==> x in multiset(current); }
      }
      error := WriteFieldOrder(parent, ids);
    }

    /** CreateField and CreateChildField: behind the last active sibling. */
    method NextPosition(parent: string) returns (position: int)
      ensures position >= 0 && forall x :: x in ActiveChildren(rows, parent) ==> rows[x].position < position
    {
      position := 0;
      var todo := ActiveChildren(rows, parent);
      while todo != {}
        invariant position >= 0
        invariant forall x :: x in ActiveChildren(rows, parent) ==> x in todo || rows[x].position < position
        decreases todo
      {
        var x :| x in todo;
        if rows[x].position >= position { position := rows[x].position + 1; }
        todo := todo - {x};
      }
    }
  }

  lemma {:induction false} PreparedOneMore(rows: Rows, parent: string, todo: set<string>, x: string)
    requires DistinctSiblings(rows) && NonNegative(rows, parent) && todo <= ActiveChildren(rows, parent) && x in todo
    ensures var (p, q) := (Prepared(rows, parent, rows.Keys - todo), Prepared(rows, parent, rows.Keys - (todo - {x})));
      && x in p && p[x] == rows[x] && q == p[x := p[x].(position := -p[x].position - 1)]
      && !exists y :: Siblings(p, x, y) && p[y].position == -p[x].position - 1
  {
    var p, q := Prepared(rows, parent, rows.Keys - todo), Prepared(rows, parent, rows.Keys - (todo - {x}));
    PreparedDistinct(rows, parent, rows.Keys - (todo - {x}));
    assert q == p[x := p[x].(position := -p[x].position - 1)];
    NoClash(p, x, -p[x].position - 1, q);
  }

  /** If the table is free of collisions after a write, the write met none. */
  lemma {:induction false} NoClash(rows: Rows, x: string, position: int, next: Rows)
    requires x in rows && next == rows[x := rows[x].(position := position)] && DistinctSiblings(next)
    ensures !exists y :: Siblings(rows, x, y) && rows[y].position == position
  {
    forall y | Siblings(rows, x, y) ensures rows[y].position != position {
      assert Siblings(next, x, y);
    }
  }

  lemma {:induction false} OrderedDistinct(rows: Rows, parent: string, ids: seq<string>)
    requires IsOrder(rows, parent, ids)
    ensures DistinctIds(ids)
  {
  }
}
