/** UpdateField: the gate that decides whether a field may change while the model has content,
    and the field tree the update leaves behind. */
module SchemaGate {
  import opened Wrappers
  import opened Decimals
  import opened FieldTree
  import opened ContentValidation
  import opened Normalization
  import opened SchemaValidation

  datatype SchemaError =
    | EmptyPatch | IncompleteTypeChange | InvalidInput | Archived | NotFound | ParentInvalid
    | EnumValueImmutable | TypeLocked | MigrationRequired | BackfillRequired | KeyConflict

  /** The submitted attributes; display texts are left out. */
  datatype Patch = Patch(
    kind: Option<FieldType>, required: Option<bool>, defaultValue: Option<Json>,
    constraints: Option<Constraints>, children: Option<seq<FieldInput>>)

  predicate LowerBoundTightened(was: Option<int>, updated: Option<int>) {
    updated.Some? && (if was.None? then updated.value > 0 else updated.value > was.value)
  }

  predicate UpperBoundTightened(was: Option<int>, updated: Option<int>) {
    updated.Some? && (was.None? || updated.value < was.value)
  }

  predicate NumericLowerBoundTightened(was: Option<string>, updated: Option<string>) {
    updated.Some? &&
    (was.None? || (IsDecimal(was.value) && IsDecimal(updated.value) && Value(updated.value) > Value(was.value)))
  }

  predicate NumericUpperBoundTightened(was: Option<string>, updated: Option<string>) {
    updated.Some? &&
    (was.None? || (IsDecimal(was.value) && IsDecimal(updated.value) && Value(updated.value) < Value(was.value)))
  }

  predicate OwnConstraintsTightened(f: Field, required: bool, c: Constraints) {
    || (!f.required && required)
    || LowerBoundTightened(f.constraints.minLength, c.minLength)
    || UpperBoundTightened(f.constraints.maxLength, c.maxLength)
    || NumericLowerBoundTightened(f.constraints.minimum, c.minimum)
    || NumericUpperBoundTightened(f.constraints.maximum, c.maximum)
    || (f.constraints.targetModelId.Some? && c.targetModelId.Some? && f.constraints.targetModelId != c.targetModelId)
  }

  /** fieldSchemaTightened: own constraints, then active children that are missing or tightened,
      then required children that no active child accounts for. */
  predicate FieldSchemaTightened(f: Field, updated: FieldInput)
    decreases f, 0
  {
    || OwnConstraintsTightened(f, updated.required, updated.constraints)
    || (exists child :: child in f.children && child.active && ChildTightened(child, LookupInput(updated.children, child.key)))
    || (exists u :: u in updated.children && u.required && !HasActive(f.children, u.key))
  }

  predicate ChildTightened(child: Field, u: Option<FieldInput>)
    decreases child, 1
  {
    u.None? || FieldSchemaTightened(child, u.value)
  }

  predicate HasActive(fields: seq<Field>, key: string) {
    exists f :: f in fields && f.active && f.key == key
  }

  predicate ChildTypeChanged(existing: seq<Field>, inputs: seq<FieldInput>)
    decreases inputs
  {
    exists u :: u in inputs && Lookup(existing, u.key).Some? &&
      (Lookup(existing, u.key).value.kind != u.kind || ChildTypeChanged(Lookup(existing, u.key).value.children, u.children))
  }

  predicate EnumStable(was: Constraints, updated: Constraints) {
    forall option :: option in was.enumOptions ==> option in updated.enumOptions
  }

  predicate ChildEnumsStable(existing: seq<Field>, updated: seq<FieldInput>)
    decreases existing
  {
    forall child :: child in existing && child.active && LookupInput(updated, child.key).Some? ==>
      && EnumStable(child.constraints, LookupInput(updated, child.key).value.constraints)
      && ChildEnumsStable(child.children, LookupInput(updated, child.key).value.children)
  }

  function FieldToInput(f: Field): FieldInput
    decreases f, 1
  {
    FieldInput(f.key, f.kind, f.required, f.defaultValue, f.constraints, FieldsToInputs(f.children))
  }

  function FieldsToInputs(fields: seq<Field>): (r: seq<FieldInput>)
    decreases fields, 0
  {
    if fields == [] then [] else [FieldToInput(fields[0])] + FieldsToInputs(fields[1..])
  }

  function BuildField(input: FieldInput, ids: string -> string): (r: Field)
    ensures r.key == input.key && r.active && r.required == input.required
    decreases input, 1
  {
    Field(ids(input.key), input.key, input.kind, input.required, input.defaultValue, input.constraints,
          BuildFields(input.children, ids), true)
  }

  function BuildFields(inputs: seq<FieldInput>, ids: string -> string): (r: seq<Field>)
    ensures |r| == |inputs|
    ensures forall i :: 0 <= i < |inputs| ==> r[i] == BuildField(inputs[i], ids)
    decreases inputs, 0
  {
    if inputs == [] then [] else [BuildField(inputs[0], ids)] + BuildFields(inputs[1..], ids)
  }

  function ArchiveTree(f: Field): (r: Field)
    ensures r.key == f.key && !r.active && r.constraints == f.constraints
    decreases f, 1
  {
    f.(active := false, children := ArchiveAll(f.children))
  }

  function ArchiveAll(fields: seq<Field>): (r: seq<Field>)
    ensures |r| == |fields|
    ensures forall i :: 0 <= i < |fields| ==> r[i] == ArchiveTree(fields[i])
    decreases fields, 0
  {
    if fields == [] then [] else [ArchiveTree(fields[0])] + ArchiveAll(fields[1..])
  }

  /** One step of the reconciliation loop: an existing child is updated in place, a new key is created. */
  function ReconcileOne(existing: seq<Field>, input: FieldInput, ids: string -> string): (r: Result<Field, SchemaError>)
    ensures r.Ok? ==> r.value.key == input.key && r.value.active && r.value.required == input.required
    decreases input, 1
  {
    match Lookup(existing, input.key)
    case None => Ok(BuildField(input, ids))
    case Some(was) =>
      if !was.active then Err(KeyConflict)
      else if !EnumStable(was.constraints, input.constraints) then Err(EnumValueImmutable)
      else
        match Reconcile(was.children, input.children, ids)
        case Err(e) => Err(e)
        case Ok(nested) => Ok(Field(was.id, was.key, input.kind, input.required, input.defaultValue, input.constraints, nested, true))
  }

  function ReconcileInputs(existing: seq<Field>, inputs: seq<FieldInput>, ids: string -> string): (r: Result<seq<Field>,
      SchemaError>)
    ensures r.Ok? ==> |r.value| == |inputs|
    ensures r.Ok? ==> forall i :: 0 <= i < |inputs| ==> ReconcileOne(existing, inputs[i], ids) == Ok(r.value[i])
    decreases inputs, 0
  {
    if inputs == [] then Ok([])
    else
      match ReconcileOne(existing, inputs[0], ids)
      case Err(e) => Err(e)
      case Ok(first) =>
        match ReconcileInputs(existing, inputs[1..], ids)
        case Err(e) => Err(e)
        case Ok(rest) => Ok([first] + rest)
  }

  /** Children no input names: active ones are archived with their subtree, archived ones stay. */
  function Leftover(existing: seq<Field>, inputs: seq<FieldInput>): (r: seq<Field>)
    ensures forall g :: g in r ==> !g.active && (exists f :: f in existing && f.key == g.key) && forall u :: u in inputs ==> u.key != g.key
  {
    if existing == [] then []
    else
      var rest := Leftover(existing[1..], inputs);
      if LookupInput(inputs, existing[0].key).Some? then rest
      else [if existing[0].active then ArchiveTree(existing[0]) else existing[0]] + rest
  }

  /** reconcileChildren, as the field tree it leaves: inputs in order, then the archived remainder. */
  function Reconcile(existing: seq<Field>, inputs: seq<FieldInput>, ids: string -> string): (r: Result<seq<Field>,
      SchemaError>)
    decreases inputs, 1
  {
    match ReconcileInputs(existing, inputs, ids)
    case Err(e) => Err(e)
    case Ok(kept) => Ok(kept + Leftover(existing, inputs))
  }

  /** The input UpdateField validates: the stored field overlaid with the patch. */
  function PatchedInput(f: Field, patch: Patch): FieldInput {
    FieldInput(
      f.key,
      if patch.kind.Some? then patch.kind.value else f.kind,
      if patch.required.Some? then patch.required.value else f.required,
      if patch.defaultValue.Some? then patch.defaultValue.value else f.defaultValue,
      if patch.constraints.Some? then patch.constraints.value else f.constraints,
      if patch.children.Some? then patch.children.value else FieldsToInputs(f.children))
  }

  predicate ProjectionEnabled(was: Constraints, updated: Constraints) {
    (!was.unique && updated.unique) || (!was.filterable && updated.filterable) || (!was.sortable && updated.sortable)
  }

  /** UpdateField on one field: every refusal in order, then the updated field.
      Locking and the target-model lookup are outside the model. */
  function UpdateField(c: Codec, f: Field, depth: nat, patch: Patch, contentExists: bool,
      ids: string -> string): (r: Result<Field, SchemaError>)
  {
    if patch == Patch(None, None, None, None, None) then Err(EmptyPatch)
    else if !f.active then Err(Archived)
    else if patch.kind.Some? && (patch.defaultValue.None? || patch.constraints.None? || patch.children.None?) then Err(IncompleteTypeChange)
    else
      match ValidateField(c, PatchedInput(f, patch), depth)
      case None => Err(InvalidInput)
      case Some(input) =>
        if patch.constraints.Some? && !EnumStable(f.constraints, input.constraints) then Err(EnumValueImmutable)
        else if patch.children.Some? && !ChildEnumsStable(f.children, input.children) then Err(EnumValueImmutable)
        else if contentExists && (input.kind != f.kind || (patch.children.Some? && ChildTypeChanged(f.children, input.children)))
        then Err(TypeLocked)
        else if contentExists && FieldSchemaTightened(f, input) then Err(MigrationRequired)
        else if contentExists && ProjectionEnabled(f.constraints, input.constraints) then Err(BackfillRequired)
        else if patch.children.None? then
          Ok(Field(f.id, f.key, input.kind, input.required, input.defaultValue, input.constraints, f.children, true))
        else
          match Reconcile(f.children, input.children, ids)
          case Err(e) => Err(e)
          case Ok(children) => Ok(Field(f.id, f.key, input.kind, input.required, input.defaultValue, input.constraints, children, true))
  }
}
