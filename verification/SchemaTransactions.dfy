/** The schema operations as they run on the fields of one model: loops over the inputs, a map of the
    children not yet named, and the tree replaced in place. */
module SchemaTransactions {
  import opened Wrappers
  import opened FieldTree
  import opened ContentValidation
  import opened SchemaValidation
  import opened SchemaGate
  import opened SchemaService

  lemma {:induction false} OneMoreInput(existing: seq<Field>, inputs: seq<FieldInput>, i: nat, ids: string -> string)
    requires i < |inputs| && ReconcileInputs(existing, inputs[..i], ids).Ok?
    ensures var (done, one) := (ReconcileInputs(existing, inputs[..i], ids).value, ReconcileOne(existing, inputs[i], ids));
      if one.Ok? then ReconcileInputs(existing, inputs[..i + 1], ids) == Ok(done + [one.value])
      else ReconcileInputs(existing, inputs, ids) == Err(one.error)
    decreases i
  {
    var head := inputs[..i + 1];
    if i == 0 {
      assert head == [inputs[0]] && head[1..] == [] && inputs[..0] == [];
      if ReconcileOne(existing, inputs[0], ids).Ok? {
        var first := ReconcileOne(existing, inputs[0], ids).value;
        assert [first] + [] == [] + [first];
      }
    } else {
      var rest := inputs[1..];
      assert inputs[..i][1..] == rest[..i - 1] && head[1..] == rest[..i];
      assert inputs[..i][0] == inputs[0] == head[0];
      OneMoreInput(existing, rest, i - 1, ids);
      var first := ReconcileOne(existing, inputs[0], ids).value;
      if ReconcileOne(existing, inputs[i], ids).Ok? {
        var tail := ReconcileInputs(existing, rest[..i - 1], ids).value;
        assert [first] + (tail + [ReconcileOne(existing, inputs[i], ids).value]) ==
          [first] + tail + [ReconcileOne(existing, inputs[i], ids).value];
      }
    }
  }

  /** reconcileChildren, as the tree it builds. */
  method ReconcileTree(existing: seq<Field>, inputs: seq<FieldInput>, ids: string -> string)
    returns (r: Result<seq<Field>, SchemaError>)
    ensures r == Reconcile(existing, inputs, ids)
    decreases inputs
  {
    var result: seq<Field> := [];
    for i := 0 to |inputs|
      invariant ReconcileInputs(existing, inputs[..i], ids) == Ok(result)
    {
      OneMoreInput(existing, inputs, i, ids);
      var input := inputs[i];
      var found := Lookup(existing, input.key);
      if found.Some? {
        var was := found.value;
        if !was.active { return Err(KeyConflict); }
        if !EnumStable(was.constraints, input.constraints) { return Err(EnumValueImmutable); }
        var nested := ReconcileTree(was.children, input.children, ids);
        if nested.Err? { return Err(nested.error); }
        result := result + [Field(was.id, was.key, input.kind, input.required, input.defaultValue, input.constraints, nested.value, true)];
      } else {
        result := result + [BuildField(input, ids)];
      }
    }
    assert inputs[..|inputs|] == inputs;
    var left := ArchiveUnnamed(existing, inputs);
    return Ok(result + left);
  }

  /** The children no input names, archived with their subtrees. */
  method ArchiveUnnamed(existing: seq<Field>, inputs: seq<FieldInput>) returns (left: seq<Field>)
    ensures left == Leftover(existing, inputs)
  {
    left := [];
    var i := |existing|;
    while i > 0
      invariant 0 <= i <= |existing| && left == Leftover(existing[i..], inputs)
    {
      i := i - 1;
      assert existing[i..][0] == existing[i] && existing[i..][1..] == existing[i + 1..];
      if LookupInput(inputs, existing[i].key).None? {
        left := [if existing[i].active then ArchiveTree(existing[i]) else existing[i]] + left;
      }
    }
    assert existing[0..] == existing;
  }

  /** The refusals and the result of one field's update, in the order they are checked. */
  method UpdateOne(c: Codec, f: Field, depth: nat, patch: Patch, contentExists: bool, ids: string -> string)
    returns (r: Result<Field, SchemaError>)
    ensures r == UpdateField(c, f, depth, patch, contentExists, ids)
  {
    if patch == Patch(None, None, None, None, None) { return Err(EmptyPatch); }
    if !f.active { return Err(SchemaError.Archived); }
    if patch.kind.Some? && (patch.defaultValue.None? || patch.constraints.None? || patch.children.None?) {
      return Err(IncompleteTypeChange);
    }
    var validated := ValidateField(c, PatchedInput(f, patch), depth);
    if validated.None? { return Err(InvalidInput); }
    var input := validated.value;
    if patch.constraints.Some? && !EnumStable(f.constraints, input.constraints) { return Err(EnumValueImmutable); }
    if patch.children.Some? && !ChildEnumsStable(f.children, input.children) { return Err(EnumValueImmutable); }
    if contentExists {
      if input.kind != f.kind || (patch.children.Some? && ChildTypeChanged(f.children, input.children)) { return Err(TypeLocked); }
      if FieldSchemaTightened(f, input) { return Err(MigrationRequired); }
      if ProjectionEnabled(f.constraints, input.constraints) { return Err(BackfillRequired); }
    }
    var updated := Field(f.id, f.key, input.kind, input.required, input.defaultValue, input.constraints, f.children, true);
    if patch.children.Some? {
      var children := ReconcileTree(f.children, input.children, ids);
      if children.Err? { return Err(children.error); }
      updated := updated.(children := children.value);
    }
    return Ok(updated);
  }

  class Model {
    const codec: Codec
    var fields: seq<Field>

    constructor (codec: Codec)
      ensures fields == [] && this.codec == codec
    {
      this.codec := codec;
      fields := [];
    }

    method Update(path: seq<string>, patch: Patch, contentExists: bool, ids: string -> string)
      returns (error: Option<SchemaError>)
      modifies this`fields
      ensures error.None? ==> Apply(codec, old(fields), Op.Update(path, patch), contentExists, ids) == Ok(fields)
      ensures error.Some? ==> fields == old(fields)
      ensures error.Some? ==> Apply(codec, old(fields), Op.Update(path, patch), contentExists, ids) == Err(error.value)
    {
      if patch == Patch(None, None, None, None, None) { return Some(EmptyPatch); }
      var f := At(fields, path);
      if f.None? { return Some(NotFound); }
      var g := UpdateOne(codec, f.value, |path| - 1, patch, contentExists, ids);
      if g.Err? { return Some(g.error); }
      // The unique index on the keys of a model refuses a new child whose key is taken anywhere in it.
      if patch.children.Some? && CreatedKeys(f.value.children, patch.children.value) * ModelKeys(fields) != {} { return Some(KeyConflict); }
      fields := Put(fields, path, g.value);
      return None;
    }

    method Create(input: FieldInput, contentExists: bool, ids: string -> string) returns (error: Option<SchemaError>)
      modifies this`fields
      ensures error.None? ==> Apply(codec, old(fields), Op.Create(input), contentExists, ids) == Ok(fields)
      ensures error.Some? ==> fields == old(fields)
      ensures error.Some? ==> Apply(codec, old(fields), Op.Create(input), contentExists, ids) == Err(error.value)
    {
      var valid := ValidateField(codec, input, 0);
      if valid.None? { return Some(InvalidInput); }
      if KeysOf(input) * ModelKeys(fields) != {} { return Some(KeyConflict); }
      fields := fields + [BuildField(valid.value, ids)];
      return None;
    }

    method CreateChild(path: seq<string>, input: FieldInput, contentExists: bool, ids: string -> string)
      returns (error: Option<SchemaError>)
      modifies this`fields
      ensures error.None? ==> Apply(codec, old(fields), Op.CreateChild(path, input), contentExists, ids) == Ok(fields)
      ensures error.Some? ==> fields == old(fields)
      ensures error.Some? ==> Apply(codec, old(fields), Op.CreateChild(path, input), contentExists, ids) == Err(error.value)
    {
      var first := ValidateField(codec, input, 0);
      if first.None? { return Some(InvalidInput); }
      var parent := At(fields, path);
      if parent.None? { return Some(NotFound); }
      if !parent.value.active { return Some(SchemaError.Archived); }
      if !IsChildContainer(parent.value, |path| - 1) { return Some(ParentInvalid); }
      var valid := ValidateField(codec, first.value, |path|);
      if valid.None? { return Some(InvalidInput); }
      if KeysOf(input) * ModelKeys(fields) != {} { return Some(KeyConflict); }
      fields := Put(fields, path, parent.value.(children := parent.value.children + [BuildField(valid.value, ids)]));
      return None;
    }

    method Archive(path: seq<string>, contentExists: bool, ids: string -> string) returns (error: Option<SchemaError>)
      modifies this`fields
      ensures error.None? ==> Apply(codec, old(fields), Op.Archive(path), contentExists, ids) == Ok(fields)
      ensures error.Some? ==> fields == old(fields)
      ensures error.Some? ==> Apply(codec, old(fields), Op.Archive(path), contentExists, ids) == Err(error.value)
    {
      var f := At(fields, path);
      if f.None? { return Some(NotFound); }
      if !f.value.active { return Some(SchemaError.Archived); }
      fields := Put(fields, path, ArchiveTree(f.value));
      return None;
    }
  }
}
