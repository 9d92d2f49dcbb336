/** The field operations of the schema service on the table of positions, each rolled back when it is
    refused, and what any run of them keeps. */
module FieldRuns {
  import opened FieldOrder
  import opened FieldReconciliation

  datatype Request =
    | CreateRoot(input: Input)
    | CreateUnder(parent: string, container: bool, input: Input)
    | UpdateChildren(field: string, inputs: seq<Input>)
    | Archive(field: string)
    | Reorder(parent: string, container: bool, base: seq<string>, ids: seq<string>)

  /** The validator refuses sibling inputs with the same key. */
  predicate Validated(q: Request) { q.UpdateChildren? ==> DistinctKeys(q.inputs) }

  /** What every committed state satisfies: keys are unique, parents exist one level up, and active siblings
      hold distinct non-negative positions. */
  ghost predicate Sound(rows: Rows, newId: string -> string) { Linked(rows, newId) && Committed(rows) }

  /** A new active child behind all its siblings; everything that was there is unchanged. */
  ghost predicate CreatedLast(was: Rows, rows: Rows, newId: string -> string, input: Input, parent: string,
      depth: nat) {
    var id := newId(input.key);
    && id !in was && id in rows && Grown(was, rows, id, depth)
    && rows[id] == Row(input.key, parent, true, rows[id].position, depth)
    && forall x :: x in ActiveChildren(was, parent) ==> was[x].position < rows[id].position
  }

  /** What a committed request has done to the table. */
  ghost predicate Done(was: Rows, rows: Rows, newId: string -> string, q: Request) {
    match q
    case CreateRoot(input) => CreatedLast(was, rows, newId, input, "", 0)
    case CreateUnder(parent, _, input) =>
      parent in was && was[parent].active && was[parent].depth < MAX_DEPTH
      && CreatedLast(was, rows, newId, input, parent, was[parent].depth + 1)
    case UpdateChildren(field, inputs) =>
      field in was && was[field].active && Framed(was, rows, field, was[field].depth + 1)
      && NonNegative(rows, field) && Reconciled(rows, field, inputs, |inputs|)
    case Archive(field) => field in was && was[field].active && rows == Archived(was, Subtree(was, field))
    case Reorder(parent, container, base, ids) =>
      OrderParent(was, parent, container) && IsOrder(was, parent, base) && multiset(ids) == multiset(base)
      && IsOrder(rows, parent, ids) && rows == Placed(was, parent, ids, |ids|)
  }

  /** A committed request is done, a refused one changes nothing. */
  ghost predicate Served(was: Rows, rows: Rows, newId: string -> string, q: Request, error: WriteError) {
    if error.NoError? then Done(was, rows, newId, q) else rows == was
  }

  /** CreateField: the next position, then the subtree. */
  method CreateField(t: FieldTable, newId: string -> string, input: Input, parent: string, depth: nat)
    returns (error: WriteError)
    requires Generates(newId) && Sound(t.rows, newId) && IsLevel(t.rows, parent, depth)
    modifies t
    ensures Sound(t.rows, newId) && error == if KeysFree(input, KeysIn(old(t.rows))) then NoError else KeyTaken
    ensures if error.NoError? then CreatedLast(old(t.rows), t.rows, newId, input, parent, depth) else t.rows == old(t.rows)
  {
    var before := t.rows;
    var position := t.NextPosition(parent);
    error := CreateFieldTree(t, newId, input, parent, depth, position);
    if error.NoError? {
      CreatedCommitted(before, t.rows, newId, input, Row(input.key, parent, true, position, depth));
    } else {
      t.rows := before;
    }
  }

  /** CreateChildField: the parent has to be an active container above the deepest level. */
  method CreateChildField(t: FieldTable, newId: string -> string, parent: string, container: bool, input: Input)
    returns (error: WriteError)
    requires Generates(newId) && Sound(t.rows, newId)
    modifies t
    ensures Sound(t.rows, newId) && Served(old(t.rows), t.rows, newId, CreateUnder(parent, container, input), error)
    ensures error ==
      if parent !in old(t.rows) then FieldMissing
      else if !old(t.rows)[parent].active then FieldArchived
      else if !container || old(t.rows)[parent].depth >= MAX_DEPTH then ParentInvalid
      else if KeysFree(input, KeysIn(old(t.rows))) then NoError else KeyTaken
  {
    if parent !in t.rows { return FieldMissing; }
    if !t.rows[parent].active { return FieldArchived; }
    if !container || t.rows[parent].depth >= MAX_DEPTH { return ParentInvalid; }
    assert parent != "";
    error := CreateField(t, newId, input, parent, t.rows[parent].depth + 1);
  }

  /** The part of UpdateField that reconciles the children. */
  method UpdateFieldChildren(t: FieldTable, newId: string -> string, field: string, inputs: seq<Input>)
    returns (error: WriteError)
    requires Generates(newId) && Sound(t.rows, newId) && DistinctKeys(inputs)
    modifies t
    ensures Sound(t.rows, newId) && Served(old(t.rows), t.rows, newId, UpdateChildren(field, inputs), error)
    ensures field in old(t.rows) && old(t.rows)[field].active ==> error.NoError? || error.KeyTaken?
  {
    if field !in t.rows { return FieldMissing; }
    if !t.rows[field].active { return FieldArchived; }
    var before := t.rows;
    error := ReconcileChildren(t, newId, field, t.rows[field].depth + 1, inputs);
    if !error.NoError? { t.rows := before; }
  }

  method ArchiveField(t: FieldTable, ghost newId: string -> string, field: string) returns (error: WriteError)
    requires Sound(t.rows, newId)
    modifies t
    ensures Sound(t.rows, newId) && Served(old(t.rows), t.rows, newId, Archive(field), error)
    ensures error == if field !in old(t.rows) then FieldMissing else if !old(t.rows)[field].active then FieldArchived else NoError
  {
    if field !in t.rows { return FieldMissing; }
    if !t.rows[field].active { return FieldArchived; }
    ArchiveFieldTree(t, newId, field);
    return NoError;
  }

  method Serve(t: FieldTable, newId: string -> string, q: Request) returns (error: WriteError)
    requires Generates(newId) && Sound(t.rows, newId) && Validated(q)
    modifies t
    ensures Sound(t.rows, newId) && Served(old(t.rows), t.rows, newId, q, error)
  {
    match q {
      case CreateRoot(input) => error := CreateField(t, newId, input, "", 0);
      case CreateUnder(parent, container, input) => error := CreateChildField(t, newId, parent, container, input);
      case UpdateChildren(field, inputs) => error := UpdateFieldChildren(t, newId, field, inputs);
      case Archive(field) => error := ArchiveField(t, newId, field);
      case Reorder(parent, container, base, ids) => error := ReorderFields(t, newId, parent, container, base, ids);
    }
  }

  method ReorderFields(t: FieldTable, ghost newId: string -> string, parent: string, container: bool, base: seq<string>,
      ids: seq<string>)
    returns (error: WriteError)
    requires Sound(t.rows, newId)
    modifies t
    ensures Sound(t.rows, newId) && Served(old(t.rows), t.rows, newId, Reorder(parent, container, base, ids), error)
  {
    ghost var was := t.rows;
    error := t.UpdateFieldOrder(parent, container, base, ids);
    if error.NoError? { PlacedLinked(was, newId, parent, ids, |ids|); }
  }

  lemma {:induction false} PlacedLinked(rows: Rows, newId: string -> string, parent: string, ids: seq<string>, n: nat)
    requires Linked(rows, newId) && n <= |ids|
    ensures Linked(Placed(rows, parent, ids, n), newId)
  {
    var next := Placed(rows, parent, ids, n);
    forall a, b | SameKey(next, a, b) ensures a == b { assert SameKey(rows, a, b); }
    forall a | a in next ensures IsLevel(next, next[a].parent, next[a].depth) { assert IsLevel(rows, rows[a].parent, rows[a].depth); }
  }

  /** Any run of any requests from the empty table: every state in between is sound, and each follows from the
      one before by the request, or equals it if the request was refused. */
  method Run(t: FieldTable, newId: string -> string, requests: seq<Request>)
    returns (ghost states: seq<Rows>, errors: seq<WriteError>)
    requires Generates(newId) && t.rows == map[] && forall i :: 0 <= i < |requests| ==> Validated(requests[i])
    modifies t
    ensures |errors| == |requests| && |states| == |requests| + 1 && states[0] == map[] && states[|requests|] == t.rows
    ensures forall i :: 0 <= i < |states| ==> Sound(states[i], newId)
    ensures forall i :: 0 <= i < |requests| ==> Served(states[i], states[i + 1], newId, requests[i], errors[i])
  {
    states, errors := [t.rows], [];
    for i := 0 to |requests|
      invariant |errors| == i && |states| == i + 1 && states[0] == map[] && states[i] == t.rows
      invariant forall k :: 0 <= k <= i ==> Sound(states[k], newId)
      invariant forall k :: 0 <= k < i ==> Served(states[k], states[k + 1], newId, requests[k], errors[k])
    {
      var error := Serve(t, newId, requests[i]);
      states, errors := states + [t.rows], errors + [error];
    }
  }
}
