/** The model designer's side of reordering: the request it sends and the siblings it shows. */
module ModelDesigner {
  import opened Wrappers
  import opened FieldOrder

  datatype Sibling = Sibling(id: string, active: bool, name: string)

  function ActiveIds(siblings: seq<Sibling>): seq<string> {
    if siblings == [] then [] else (if siblings[0].active then [siblings[0].id] else []) + ActiveIds(siblings[1..])
  }

  /** The active sibling with this id, when there is one. */
  function ById(siblings: seq<Sibling>, id: string): (r: Option<Sibling>)
    ensures r.Some? ==> r.value in siblings && r.value.active && r.value.id == id
    ensures r.None? ==> forall s :: s in siblings && s.active ==> s.id != id
  {
    if siblings == [] then None
    else
      var later := ById(siblings[1..], id);
      if later.Some? then later else if siblings[0].active && siblings[0].id == id then Some(siblings[0]) else None
  }

  /** Archived siblings stay where they are; each active slot takes the next of the given ids. */
  function Reordered(all: seq<Sibling>, siblings: seq<Sibling>, ids: seq<string>): seq<Sibling>
    decreases |siblings|
  {
    if siblings == [] then []
    else if !siblings[0].active then [siblings[0]] + Reordered(all, siblings[1..], ids)
    else if ids == [] then [siblings[0]] + Reordered(all, siblings[1..], [])
    else
      var next := ById(all, ids[0]);
      [if next.Some? then next.value else siblings[0]] + Reordered(all, siblings[1..], ids[1..])
  }

  function ReorderActiveSiblings(siblings: seq<Sibling>, ids: seq<string>): seq<Sibling> {
    Reordered(siblings, siblings, ids)
  }

  lemma {:induction false} ActiveIdsFound(siblings: seq<Sibling>, id: string)
    ensures id in ActiveIds(siblings) <==> ById(siblings, id).Some?
  {
    if siblings != [] { ActiveIdsFound(siblings[1..], id); }
  }

  lemma {:induction false} ReorderedShows(all: seq<Sibling>, siblings: seq<Sibling>, ids: seq<string>)
    requires |ids| == |ActiveIds(siblings)| && forall x :: x in ids ==> ById(all, x).Some?
    ensures var r := Reordered(all, siblings, ids);
      && |r| == |siblings| && ActiveIds(r) == ids
      && forall i :: 0 <= i < |siblings| ==> r[i].active == siblings[i].active && (!siblings[i].active ==> r[i] == siblings[i])
    decreases |siblings|
  {
    if siblings != [] {
      var rest := siblings[1..];
      if !siblings[0].active {
        ReorderedShows(all, rest, ids);
        var tail := Reordered(all, rest, ids);
        assert Reordered(all, siblings, ids)[1..] == tail;
        assert [] + ActiveIds(tail) == ActiveIds(tail) && [] + ActiveIds(rest) == ActiveIds(rest);
      } else {
        assert ids[0] in ids;
        ReorderedShows(all, rest, ids[1..]);
        var tail := Reordered(all, rest, ids[1..]);
        assert Reordered(all, siblings, ids)[1..] == tail;
        assert ids == [ids[0]] + ids[1..];
      }
    }
  }

  /** For any permutation of the active ids the designer shows exactly that order of the active fields,
      and leaves every archived field in its slot. */
  lemma {:induction false} ShowsTheGivenOrder(siblings: seq<Sibling>, ids: seq<string>)
    requires multiset(ids) == multiset(ActiveIds(siblings))
    ensures var r := ReorderActiveSiblings(siblings, ids);
      && |r| == |siblings| && ActiveIds(r) == ids
      && forall i :: 0 <= i < |siblings| ==> r[i].active == siblings[i].active && (!siblings[i].active ==> r[i] == siblings[i])
  {
    assert |multiset(ids)| == |ids| && |multiset(ActiveIds(siblings))| == |ActiveIds(siblings)|;
    forall x | x in ids ensures ById(siblings, x).Some? {
      assert x in multiset(ids) && x in ActiveIds(siblings);
      ActiveIdsFound(siblings, x);
    }
    ReorderedShows(siblings, siblings, ids);
  }

  // ---- the request ----

  function Remove(ids: seq<string>, i: nat): seq<string>
    requires i < |ids|
  {
    ids[..i] + ids[i + 1..]
  }

  /** The element at `from` taken out and put back at `until`. */
  function Moved(ids: seq<string>, from: nat, until: nat): seq<string>
    requires from < |ids| && until < |ids|
  {
    Remove(ids, from)[..until] + [ids[from]] + Remove(ids, from)[until..]
  }

  datatype OrderRequest = OrderRequest(base: seq<string>, ids: seq<string>)

  function Position(ids: seq<string>, id: string): (r: Option<nat>)
    ensures r.Some? ==> r.value < |ids| && ids[r.value] == id
    ensures r.None? ==> id !in ids
  {
    if ids == [] then None
    else if ids[0] == id then Some(0)
    else
      match Position(ids[1..], id)
      case None => None
      case Some(i) => Some(i + 1)
  }

  function BuildOrderRequest(siblings: seq<Sibling>, activeId: string, overId: string): Option<OrderRequest> {
    var base := ActiveIds(siblings);
    match (Position(base, activeId), Position(base, overId))
    case (Some(from), Some(until)) => if from == until then None else Some(OrderRequest(base, Moved(base, from, until)))
    case _ => None
  }

  lemma {:induction false} RemoveSplits(ids: seq<string>, i: nat)
    requires i < |ids|
    ensures |Remove(ids, i)| == |ids| - 1 && multiset(ids) == multiset(Remove(ids, i)) + multiset{ids[i]}
  {
    assert ids == ids[..i] + [ids[i]] + ids[i + 1..];
  }

  /** Moving keeps the fields, lands the moved one where it was dropped, and leaves the others in their order. */
  lemma {:induction false} MovedIsPermutation(ids: seq<string>, from: nat, until: nat)
    requires from < |ids| && until < |ids|
    ensures multiset(Moved(ids, from, until)) == multiset(ids)
    ensures |Moved(ids, from, until)| == |ids| && Moved(ids, from, until)[until] == ids[from]
    ensures Remove(Moved(ids, from, until), until) == Remove(ids, from)
  {
    var rest, moved := Remove(ids, from), Moved(ids, from, until);
    RemoveSplits(ids, from);
    assert |moved| == |ids| && moved[until] == ids[from];
    assert moved[..until] == rest[..until] && moved[until + 1..] == rest[until..];
    assert rest == rest[..until] + rest[until..];
    RemoveSplits(moved, until);
  }

  lemma {:induction false} SameElements(ids: seq<string>, current: seq<string>)
    requires multiset(ids) == multiset(current)
    ensures SetOf(ids) == SetOf(current)
  {
    forall x ensures x in ids <==> x in current { assert x in multiset(ids) <==> x in multiset(current); }
  }

  /** A request built from the siblings the server has is accepted, and afterwards server and designer show the same order. */
  lemma {:induction false} ServerAndDesignerAgree(rows: Rows, parent: string, siblings: seq<Sibling>, activeId: string,
      overId: string)
    requires IsOrder(rows, parent, ActiveIds(siblings)) && "" !in ActiveIds(siblings)
    requires BuildOrderRequest(siblings, activeId, overId).Some?
    ensures var q := BuildOrderRequest(siblings, activeId, overId).value;
      && Accepts(ActiveIds(siblings), q.base, q.ids)
      && IsOrder(Placed(rows, parent, q.ids, |q.ids|), parent, q.ids)
      && ActiveIds(ReorderActiveSiblings(siblings, q.ids)) == q.ids
  {
    var current := ActiveIds(siblings);
    var q := BuildOrderRequest(siblings, activeId, overId).value;
    MovedIsPermutation(current, Position(current, activeId).value, Position(current, overId).value);
    PermutationIsServed(rows, parent, current, q.ids);
    ShowsTheGivenOrder(siblings, q.ids);
  }

  lemma {:induction false} PermutationIsServed(rows: Rows, parent: string, current: seq<string>, ids: seq<string>)
    requires IsOrder(rows, parent, current) && "" !in current && multiset(ids) == multiset(current)
    ensures Accepts(current, current, ids) && IsOrder(Placed(rows, parent, ids, |ids|), parent, ids)
  {
    OrderedDistinct(rows, parent, current);
    AcceptsExactlyPermutations(current, current, ids);
    SameElements(ids, current);
    assert SetOf(current) == ActiveChildren(rows, parent);
    PlacedOrder(rows, parent, ids);
  }

  lemma {:induction false} OneMoreShown(shown: seq<Sibling>, next: Sibling, rest: seq<Sibling>)
    ensures shown + ([next] + rest) == shown + [next] + rest
  {
  }

  /** reorderActiveSiblings as it runs: an index into the ids advances at every active slot. */
  method ReorderSiblings(siblings: seq<Sibling>, ids: seq<string>) returns (r: seq<Sibling>)
    ensures r == ReorderActiveSiblings(siblings, ids)
  {
    r := [];
    var index := 0;
    assert siblings[0..] == siblings && ids[0..] == ids;
    for i := 0 to |siblings|
      invariant 0 <= index <= |ids|
      invariant r + Reordered(siblings, siblings[i..], ids[index..]) == ReorderActiveSiblings(siblings, ids)
    {
      ghost var here, left := siblings[i..], ids[index..];
      assert here[0] == siblings[i] && here[1..] == siblings[i + 1..];
      var shown := siblings[i];
      if siblings[i].active && index < |ids| {
        assert left[0] == ids[index] && left[1..] == ids[index + 1..];
        var next := ById(siblings, ids[index]);
        if next.Some? { shown := next.value; }
        index := index + 1;
      } else if siblings[i].active {
        assert left == [];
      }
      assert Reordered(siblings, here, left) == [shown] + Reordered(siblings, siblings[i + 1..], ids[index..]);
      OneMoreShown(r, shown, Reordered(siblings, siblings[i + 1..], ids[index..]));
      r := r + [shown];
    }
    assert siblings[|siblings|..] == [] && r + [] == r;
  }
}
