/** The schema service over the field tree of one model: create, update and archive fields,
    and what a run of these operations does to content stored on the way. */
module SchemaService {
  import opened Wrappers
  import opened FieldTree
  import opened ContentValidation
  import opened ContentProjection
  import opened Normalization
  import opened SchemaValidation
  import opened SchemaGate
  import opened GateSoundness

  /** The field reached by a path of keys from the root. */
  function At(fields: seq<Field>, path: seq<string>): Option<Field> {
    if path == [] then None
    else
      var f := Lookup(fields, path[0]);
      if f.None? || |path| == 1 then f else At(f.value.children, path[1..])
  }

  /** The tree with the field at the path replaced. */
  function Put(fields: seq<Field>, path: seq<string>, g: Field): (r: seq<Field>)
    requires path != []
    ensures |r| == |fields|
    decreases |path|
  {
    seq(|fields|, i requires 0 <= i < |fields| =>
      if fields[i].key != path[0] then fields[i]
      else if |path| == 1 then g
      else fields[i].(children := Put(fields[i].children, path[1..], g)))
  }

  function TreeKeys(f: Field): set<string>
    decreases f, 1
  {
    {f.key} + ModelKeys(f.children)
  }

  /** Every key of the model, archived fields included: what the unique index covers. */
  function ModelKeys(fields: seq<Field>): set<string>
    decreases fields, 0
  {
    if fields == [] then {} else TreeKeys(fields[0]) + ModelKeys(fields[1..])
  }

  /** Keys of the rows reconciliation inserts. */
  function CreatedKeys(existing: seq<Field>, inputs: seq<FieldInput>): set<string>
    decreases inputs
  {
    if inputs == [] then {}
    else
      (match Lookup(existing, inputs[0].key)
       case None => KeysOf(inputs[0])
       case Some(f) => CreatedKeys(f.children, inputs[0].children)) + CreatedKeys(existing, inputs[1..])
  }

  datatype Op =
    | Update(path: seq<string>, patch: Patch)
    | Create(input: FieldInput)
    | CreateChild(path: seq<string>, input: FieldInput)
    | Archive(path: seq<string>)

  predicate IsChildContainer(f: Field, depth: nat) { IsContainer(f.kind) && depth < MAX_DEPTH }

  /** One committed operation on the tree, or its refusal. */
  function Apply(c: Codec, fields: seq<Field>, op: Op, contentExists: bool,
      ids: string -> string): Result<seq<Field>, SchemaError> {
    match op
    case Update(path, patch) => ApplyUpdate(c, fields, path, patch, contentExists, ids)
    case Create(input) => ApplyCreate(c, fields, input, ids)
    case CreateChild(path, input) => ApplyCreateChild(c, fields, path, input, ids)
    case Archive(path) => ApplyArchive(fields, path)
  }

  function ApplyUpdate(c: Codec, fields: seq<Field>, path: seq<string>, patch: Patch, contentExists: bool,
      ids: string -> string)
    : Result<seq<Field>, SchemaError>
  {
    if patch == Patch(None, None, None, None, None) then Err(EmptyPatch)
    else
      match At(fields, path)
      case None => Err(NotFound)
      case Some(f) =>
        match UpdateField(c, f, |path| - 1, patch, contentExists, ids)
        case Err(e) => Err(e)
        case Ok(g) =>
          if patch.children.Some? && CreatedKeys(f.children, patch.children.value) * ModelKeys(fields) != {} then Err(KeyConflict)
          else Ok(Put(fields, path, g))
  }

  function ApplyCreate(c: Codec, fields: seq<Field>, input: FieldInput,
      ids: string -> string): Result<seq<Field>, SchemaError> {
    match ValidateField(c, input, 0)
    case None => Err(InvalidInput)
    case Some(valid) =>
      if KeysOf(input) * ModelKeys(fields) != {} then Err(KeyConflict) else Ok(fields + [BuildField(valid, ids)])
  }

  function ApplyCreateChild(c: Codec, fields: seq<Field>, path: seq<string>, input: FieldInput, ids: string -> string)
    : Result<seq<Field>, SchemaError>
  {
    match ValidateField(c, input, 0)
    case None => Err(InvalidInput)
    case Some(first) =>
      match At(fields, path)
      case None => Err(NotFound)
      case Some(parent) =>
        if !parent.active then Err(Archived)
        else if !IsChildContainer(parent, |path| - 1) then Err(ParentInvalid)
        else
          match ValidateField(c, first, |path|)
          case None => Err(InvalidInput)
          case Some(valid) =>
            if KeysOf(input) * ModelKeys(fields) != {} then Err(KeyConflict)
            else Ok(Put(fields, path, parent.(children := parent.children + [BuildField(valid, ids)])))
  }

  function ApplyArchive(fields: seq<Field>, path: seq<string>): Result<seq<Field>, SchemaError> {
    match At(fields, path)
    case None => Err(NotFound)
    case Some(f) => if !f.active then Err(Archived) else Ok(Put(fields, path, ArchiveTree(f)))
  }

  // ---- one operation ----

  /** The field an update leaves at its path. */
  function Patched(c: Codec, fields: seq<Field>, path: seq<string>, patch: Patch, contentExists: bool,
      ids: string -> string): Field
    requires ApplyUpdate(c, fields, path, patch, contentExists, ids).Ok?
  {
    UpdateField(c, At(fields, path).value, |path| - 1, patch, contentExists, ids).value
  }

  lemma UpdateShape(c: Codec, fields: seq<Field>, path: seq<string>, patch: Patch, contentExists: bool,
      ids: string -> string)
    requires ApplyUpdate(c, fields, path, patch, contentExists, ids).Ok?
    ensures path != [] && At(fields, path).Some? && At(fields, path).value.active
    ensures var g := Patched(c, fields, path, patch, contentExists, ids);
      && UpdateField(c, At(fields, path).value, |path| - 1, patch, contentExists, ids) == Ok(g) && g.key == At(fields, path).value.key
      && ApplyUpdate(c, fields, path, patch, contentExists, ids).value == Put(fields, path, g)
  {
  }

  lemma ArchiveShape(fields: seq<Field>, path: seq<string>)
    requires ApplyArchive(fields, path).Ok?
    ensures path != [] && At(fields, path).Some? && At(fields, path).value.active
    ensures ApplyArchive(fields, path).value == Put(fields, path, ArchiveTree(At(fields, path).value))
  {
  }

  lemma {:induction false} AtIsWellFormed(fields: seq<Field>, path: seq<string>)
    requires WellFormed(fields) && At(fields, path).Some?
    ensures BoundsAreDecimals(At(fields, path).value.constraints) && WellFormed(At(fields, path).value.children)
    decreases |path|
  {
    if |path| > 1 { AtIsWellFormed(Lookup(fields, path[0]).value.children, path[1..]); }
  }

  lemma {:induction false} KeysReached(fields: seq<Field>, f: Field)
    requires f in fields
    ensures f.key in ModelKeys(fields) && ModelKeys(f.children) <= ModelKeys(fields)
  {
    if f != fields[0] { KeysReached(fields[1..], f); }
  }

  lemma {:induction false} KeysAt(fields: seq<Field>, path: seq<string>)
    requires At(fields, path).Some?
    ensures ModelKeys(At(fields, path).value.children) <= ModelKeys(fields)
    decreases |path|
  {
    KeysReached(fields, Lookup(fields, path[0]).value);
    if |path| > 1 { KeysAt(Lookup(fields, path[0]).value.children, path[1..]); }
  }

  /** Replacing one field keeps the tree well formed. */
  lemma {:induction false} PutWellFormed(fields: seq<Field>, path: seq<string>, g: Field)
    requires WellFormed(fields) && At(fields, path).Some? && g.key == At(fields, path).value.key
    requires BoundsAreDecimals(g.constraints) && WellFormed(g.children)
    ensures WellFormed(Put(fields, path, g))
    decreases |path|
  {
    var result := Put(fields, path, g);
    forall i | 0 <= i < |fields|
      ensures result[i].key == fields[i].key && BoundsAreDecimals(result[i].constraints)
      ensures WellFormed(result[i].children)
    {
      if fields[i].key == path[0] {
        LookupFinds(fields, fields[i]);
        if |path| > 1 { PutWellFormed(fields[i].children, path[1..], g); }
      }
    }
  }

  /** Replacing one field by a looser or archived version loosens the tree. */
  lemma {:induction false} PutLoosens(c: Codec, fields: seq<Field>, path: seq<string>, g: Field)
    requires WellFormed(fields) && At(fields, path).Some? && g.key == At(fields, path).value.key
    requires LoosensOrArchives(At(fields, path).value, g)
    ensures LoosensAll(fields, Put(fields, path, g))
    decreases |path|
  {
    var result := Put(fields, path, g);
    forall i | 0 <= i < |fields|
      ensures result[i].key == fields[i].key && LoosensOrArchives(fields[i], result[i])
    {
      LookupFinds(fields, fields[i]);
      if fields[i].key == path[0] && |path| > 1 {
        PutLoosens(c, fields[i].children, path[1..], g);
      } else if fields[i].key != path[0] {
        LoosensReflexive(c, fields[i].children);
      }
    }
    PositionsLoosen(fields, result);
  }

  /** Loosening position by position is loosening by key. */
  lemma {:induction false} PositionsLoosen(fields: seq<Field>, result: seq<Field>)
    requires UniqueKeys(fields) && |fields| == |result|
    requires forall i :: 0 <= i < |fields| ==> result[i].key == fields[i].key && LoosensOrArchives(fields[i], result[i])
    ensures UniqueKeys(result) && LoosensAll(fields, result)
  {
    forall i | 0 <= i < |fields|
      ensures Lookup(result, fields[i].key) == Some(result[i]) && Lookup(fields, fields[i].key) == Some(fields[i])
    {
      LookupFinds(result, result[i]);
      LookupFinds(fields, fields[i]);
    }
  }

  /** Appending a field with a new key loosens the tree. */
  lemma {:induction false} AppendLoosens(c: Codec, fields: seq<Field>, g: Field)
    requires WellFormed(fields) && Lookup(fields, g.key).None?
    ensures LoosensAll(fields, fields + [g])
  {
    LoosensReflexive(c, fields);
    AppendedLookup(fields, g);
    forall f | f in fields ensures Lookup(fields + [g], f.key) == Some(f) && Lookup(fields, f.key) == Some(f) {
      LookupFinds(fields, f);
    }
  }

  lemma {:induction false} AppendedLookup(fields: seq<Field>, g: Field)
    ensures forall key :: Lookup(fields + [g], key) == if key == g.key then Some(g) else Lookup(fields, key)
  {
    assert (fields + [g])[..|fields|] == fields;
  }

  lemma {:induction false} FreshKeyIsAbsent(fields: seq<Field>, input: FieldInput, keys: set<string>)
    requires ModelKeys(fields) <= keys && KeysOf(input) * keys == {}
    ensures Lookup(fields, input.key).None?
  {
    assert input.key in KeysOf(input);
    if Lookup(fields, input.key).Some? { KeysReached(fields, Lookup(fields, input.key).value); }
  }

  lemma BuiltField(c: Codec, input: FieldInput, depth: nat, ids: string -> string)
    requires ValidateField(c, input, depth).Some?
    ensures var g := BuildField(ValidateField(c, input, depth).value, ids);
      g.key == input.key && g.active && g.required == input.required && BoundsAreDecimals(g.constraints) && WellFormed(g.children)
  {
    ValidatedInputIsSane(c, input, depth);
    BuiltIsWellFormed(ValidateField(c, input, depth).value.children, ids);
  }

  /** The field a creation adds. */
  function CreatedField(c: Codec, input: FieldInput, path: seq<string>, ids: string -> string): Field
    requires ValidateField(c, input, 0).Some?
    requires path != [] ==> ValidateField(c, ValidateField(c, input, 0).value, |path|).Some?
  {
    var first := ValidateField(c, input, 0).value;
    BuildField(if path == [] then first else ValidateField(c, first, |path|).value, ids)
  }

  lemma CreatedIsNew(c: Codec, fields: seq<Field>, input: FieldInput, ids: string -> string)
    requires WellFormed(fields) && ApplyCreate(c, fields, input, ids).Ok?
    ensures var g := CreatedField(c, input, [], ids);
      && g.key == input.key && g.active && g.required == input.required && BoundsAreDecimals(g.constraints) && WellFormed(g.children)
      && Lookup(fields, g.key).None? && ApplyCreate(c, fields, input, ids).value == fields + [g]
  {
    BuiltField(c, input, 0, ids);
    FreshKeyIsAbsent(fields, input, ModelKeys(fields));
  }

  lemma CreatedChildIsNew(c: Codec, fields: seq<Field>, path: seq<string>, input: FieldInput, ids: string -> string)
    requires WellFormed(fields) && ApplyCreateChild(c, fields, path, input, ids).Ok?
    ensures var (g, parent) := (CreatedField(c, input, path, ids), At(fields, path).value);
      && g.key == input.key && g.active && g.required == input.required && BoundsAreDecimals(g.constraints) && WellFormed(g.children)
      && parent.active && IsContainer(parent.kind) && Lookup(parent.children, g.key).None? && WellFormed(parent.children + [g])
      && ApplyCreateChild(c, fields, path, input, ids).value == Put(fields, path, parent.(children := parent.children + [g]))
  {
    var parent := At(fields, path).value;
    AtIsWellFormed(fields, path);
    BuiltField(c, ValidateField(c, input, 0).value, |path|, ids);
    KeysAt(fields, path);
    FreshKeyIsAbsent(parent.children, input, ModelKeys(fields));
    AppendWellFormed(parent.children, [CreatedField(c, input, path, ids)]);
  }

  /** Every committed operation, with content or without, leaves a well-formed tree. */
  lemma StepKeepsWellFormed(c: Codec, fields: seq<Field>, op: Op, contentExists: bool, ids: string -> string)
    requires WellFormed(fields) && Apply(c, fields, op, contentExists, ids).Ok?
    ensures WellFormed(Apply(c, fields, op, contentExists, ids).value)
  {
    match op
    case Update(path, patch) =>
      UpdateShape(c, fields, path, patch, contentExists, ids);
      AtIsWellFormed(fields, path);
      UpdateWellFormed(c, At(fields, path).value, |path| - 1, patch, contentExists, ids);
      PutWellFormed(fields, path, Patched(c, fields, path, patch, contentExists, ids));
    case Create(input) =>
      CreatedIsNew(c, fields, input, ids);
      AppendWellFormed(fields, [CreatedField(c, input, [], ids)]);
    case CreateChild(path, input) =>
      CreatedChildIsNew(c, fields, path, input, ids);
      var parent := At(fields, path).value;
      AtIsWellFormed(fields, path);
      PutWellFormed(fields, path, parent.(children := parent.children + [CreatedField(c, input, path, ids)]));
    case Archive(path) =>
      ArchiveShape(fields, path);
      AtIsWellFormed(fields, path);
      ArchiveKeepsWellFormed(At(fields, path).value);
      PutWellFormed(fields, path, ArchiveTree(At(fields, path).value));
  }

  /** With content present, every committed operation loosens the tree. */
  lemma StepLoosens(c: Codec, fields: seq<Field>, op: Op, ids: string -> string)
    requires WellFormed(fields) && Apply(c, fields, op, true, ids).Ok?
    ensures LoosensAll(fields, Apply(c, fields, op, true, ids).value)
  {
    match op
    case Update(path, patch) =>
      UpdateShape(c, fields, path, patch, true, ids);
      AtIsWellFormed(fields, path);
      UpdateLoosens(c, At(fields, path).value, |path| - 1, patch, ids);
      PutLoosens(c, fields, path, Patched(c, fields, path, patch, true, ids));
    case Create(input) =>
      CreatedIsNew(c, fields, input, ids);
      AppendLoosens(c, fields, CreatedField(c, input, [], ids));
    case CreateChild(path, input) =>
      CreatedChildIsNew(c, fields, path, input, ids);
      var parent := At(fields, path).value;
      AtIsWellFormed(fields, path);
      AppendLoosens(c, parent.children, CreatedField(c, input, path, ids));
      LoosensReflexive(c, parent.children);
      PutLoosens(c, fields, path, parent.(children := parent.children + [CreatedField(c, input, path, ids)]));
    case Archive(path) => PutLoosens(c, fields, path, ArchiveTree(At(fields, path).value));
  }
}
