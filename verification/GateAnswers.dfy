/** The answer of UpdateField for every field, patch and content, said over the bounds, options, kinds and
    keys themselves: the gate refuses no more than it has to. */
module GateAnswers {
  import opened Wrappers
  import opened Decimals
  import opened FieldTree
  import opened ContentValidation
  import opened SchemaValidation
  import opened SchemaGate
  import opened GateSoundness
  import opened SchemaDefaults
  import opened SchemaService
  import SchemaAnswers

  // ---- what a patch may do while content exists ----

  /** A minimum length is absent, or no higher; a field without one has the minimum 0. */
  predicate LeastKept(was: Option<int>, updated: Option<int>) {
    updated.None? || updated.value <= if was.Some? then was.value else 0
  }

  /** A maximum length is absent, or no lower. */
  predicate MostKept(was: Option<int>, updated: Option<int>) {
    updated.None? || (was.Some? && was.value <= updated.value)
  }

  predicate MinimumKept(was: Option<string>, updated: Option<string>)
    requires was.Some? ==> IsDecimal(was.value)
    requires updated.Some? ==> IsDecimal(updated.value)
  {
    updated.None? || (was.Some? && Value(updated.value) <= Value(was.value))
  }

  predicate MaximumKept(was: Option<string>, updated: Option<string>)
    requires was.Some? ==> IsDecimal(was.value)
    requires updated.Some? ==> IsDecimal(updated.value)
  {
    updated.None? || (was.Some? && Value(was.value) <= Value(updated.value))
  }

  /** Active siblings and inputs are matched by key. */
  predicate Matches(fields: seq<Field>, child: Field, inputs: seq<FieldInput>, v: FieldInput) {
    child in fields && child.active && v in inputs && v.key == child.key
  }

  predicate HasInput(inputs: seq<FieldInput>, key: string) { exists v :: v in inputs && v.key == key }

  predicate HasActiveChild(fields: seq<Field>, key: string) {
    exists child :: child in fields && child.active && child.key == key
  }

  /** The input asks no more of a value than the field did: `required` is not raised, no bound is tighter, a
      target stays, active children are there and ask no more in turn, and a required child was active before. */
  ghost predicate AsksNoMore(f: Field, u: FieldInput)
    requires BoundsAreDecimals(f.constraints) && WellFormed(f.children)
    requires BoundsAreDecimals(u.constraints) && Sane(u.children)
    decreases f
  {
    && OwnAsksNoMore(f, u.required, u.constraints)
    && (forall child :: child in f.children && child.active ==> HasInput(u.children, child.key))
    && (forall child, v :: Matches(f.children, child, u.children, v) ==> AsksNoMore(child, v))
    && (forall v :: v in u.children && v.required ==> HasActiveChild(f.children, v.key))
  }

  lemma {:induction false} MatchIsLookup(fields: seq<Field>, child: Field, inputs: seq<FieldInput>, v: FieldInput)
    requires UniqueInputKeys(inputs) && Matches(fields, child, inputs, v)
    ensures LookupInput(inputs, child.key) == Some(v)
  {
    LookupInputFinds(inputs, v);
  }

  /** The tightening test is exact. */
  lemma {:induction false} TightenedIff(f: Field, u: FieldInput)
    requires BoundsAreDecimals(f.constraints) && WellFormed(f.children)
    requires BoundsAreDecimals(u.constraints) && Sane(u.children)
    ensures FieldSchemaTightened(f, u) <==> !AsksNoMore(f, u)
    decreases f
  {
    OwnTightenedIff(f, u.required, u.constraints);
    ChildrenTightenedIff(f, u);
  }

  lemma OwnTightenedIff(f: Field, required: bool, c: Constraints)
    requires BoundsAreDecimals(f.constraints) && BoundsAreDecimals(c)
    ensures OwnConstraintsTightened(f, required, c) <==> !OwnAsksNoMore(f, required, c)
  {
  }

  predicate OwnAsksNoMore(f: Field, required: bool, b: Constraints)
    requires BoundsAreDecimals(f.constraints) && BoundsAreDecimals(b)
  {
    var a := f.constraints;
    && (required ==> f.required)
    && LeastKept(a.minLength, b.minLength) && MostKept(a.maxLength, b.maxLength)
    && MinimumKept(a.minimum, b.minimum) && MaximumKept(a.maximum, b.maximum)
    && (a.targetModelId.Some? && b.targetModelId.Some? ==> a.targetModelId == b.targetModelId)
  }

  ghost predicate ChildrenAskNoMore(f: Field, u: FieldInput)
    requires BoundsAreDecimals(f.constraints) && WellFormed(f.children)
    requires BoundsAreDecimals(u.constraints) && Sane(u.children)
  {
    && (forall child :: child in f.children && child.active ==> HasInput(u.children, child.key))
    && (forall child, v :: Matches(f.children, child, u.children, v) ==> AsksNoMore(child, v))
  }

  lemma {:induction false} ChildrenTightenedIff(f: Field, u: FieldInput)
    requires BoundsAreDecimals(f.constraints) && WellFormed(f.children)
    requires BoundsAreDecimals(u.constraints) && Sane(u.children)
    ensures (exists child :: child in f.children && child.active && ChildTightened(child, LookupInput(u.children, child.key)))
       <==> !ChildrenAskNoMore(f, u)
    decreases f, 0
  {
    forall child | child in f.children && child.active
      ensures ChildTightened(child, LookupInput(u.children, child.key)) <==>
        !(HasInput(u.children, child.key)
          && forall v :: Matches(f.children, child, u.children, v) ==> AsksNoMore(child, v))
    {
      if LookupInput(u.children, child.key).Some? {
        var v := LookupInput(u.children, child.key).value;
        TightenedIff(child, v);
        forall w | Matches(f.children, child, u.children, w) ensures w == v { MatchIsLookup(f.children, child, u.children, w); }
      }
    }
  }

  // ---- kinds, options, projections, keys ----

  /** Every enum option is still there, in the field and in its active children at every depth. */
  ghost predicate OptionsKept(f: Field, u: FieldInput)
    decreases f
  {
    && (forall option :: option in f.constraints.enumOptions ==> option in u.constraints.enumOptions)
    && forall child, v :: Matches(f.children, child, u.children, v) ==> OptionsKept(child, v)
  }

  lemma {:induction false} OptionsKeptIff(f: Field, u: FieldInput)
    requires Sane(u.children)
    ensures OptionsKept(f, u) <==> EnumStable(f.constraints, u.constraints) && ChildEnumsStable(f.children, u.children)
    decreases f
  {
    forall child, v | Matches(f.children, child, u.children, v)
      ensures LookupInput(u.children, child.key) == Some(v)
      ensures OptionsKept(child, v) <==> EnumStable(child.constraints, v.constraints) && ChildEnumsStable(child.children, v.children)
    {
      MatchIsLookup(f.children, child, u.children, v);
      OptionsKeptIff(child, v);
    }
    forall child | child in f.children && child.active && LookupInput(u.children, child.key).Some?
      ensures Matches(f.children, child, u.children, LookupInput(u.children, child.key).value)
    {
    }
  }

  /** The kind is the same, and so are the kinds of all children the input names, archived ones included. */
  predicate KindsKept(f: Field, u: FieldInput)
    decreases f
  {
    u.kind == f.kind && forall child, v :: child in f.children && v in u.children && v.key == child.key ==> KindsKept(child, v)
  }

  lemma {:induction false} KindsKeptIff(f: Field, u: FieldInput)
    requires WellFormed(f.children)
    ensures KindsKept(f, u) <==> u.kind == f.kind && !ChildTypeChanged(f.children, u.children)
    decreases f
  {
    forall child, v | child in f.children && v in u.children && v.key == child.key
      ensures Lookup(f.children, v.key) == Some(child)
      ensures KindsKept(child, v) <==> v.kind == child.kind && !ChildTypeChanged(child.children, v.children)
    {
      LookupFinds(f.children, child);
      KindsKeptIff(child, v);
    }
  }

  predicate NoProjectionAdded(was: Constraints, updated: Constraints) {
    (updated.unique ==> was.unique) && (updated.filterable ==> was.filterable) && (updated.sortable ==> was.sortable)
  }

  /** No input names an archived child, at any depth. */
  predicate NamesNoArchived(existing: seq<Field>, inputs: seq<FieldInput>)
    decreases existing
  {
    forall child, v :: child in existing && v in inputs && v.key == child.key ==>
      child.active && NamesNoArchived(child.children, v.children)
  }

  /** With the options kept, reconciliation fails exactly on an archived key. */
  lemma {:induction false} ReconcileIff(existing: seq<Field>, inputs: seq<FieldInput>, ids: string -> string)
    requires WellFormed(existing) && Sane(inputs) && ChildEnumsStable(existing, inputs)
    ensures Reconcile(existing, inputs, ids) == Err(KeyConflict) || Reconcile(existing, inputs, ids).Ok?
    ensures Reconcile(existing, inputs, ids).Ok? <==> NamesNoArchived(existing, inputs)
    decreases existing, 1
  {
    forall i | 0 <= i < |inputs|
      ensures InputReconciles(existing, inputs[i], ids)
    {
      ReconcileOneIff(existing, inputs, i, ids);
    }
    InputsReconcile(existing, inputs, ids);
    if forall v :: v in inputs ==> NamesNone(existing, v) {
      forall child, v | child in existing && v in inputs && v.key == child.key
        ensures child.active && NamesNoArchived(child.children, v.children)
      {
        assert NamesNone(existing, v);
      }
    }
  }

  predicate NamesNone(existing: seq<Field>, v: FieldInput) {
    forall child :: child in existing && child.key == v.key ==> child.active && NamesNoArchived(child.children, v.children)
  }

  predicate InputReconciles(existing: seq<Field>, v: FieldInput, ids: string -> string) {
    var r := ReconcileOne(existing, v, ids);
    (r.Ok? || r == Err(KeyConflict)) && (r.Ok? <==> NamesNone(existing, v))
  }

  lemma {:induction false} ReconcileOneIff(existing: seq<Field>, inputs: seq<FieldInput>, i: nat, ids: string -> string)
    requires WellFormed(existing) && Sane(inputs) && ChildEnumsStable(existing, inputs) && i < |inputs|
    ensures InputReconciles(existing, inputs[i], ids)
    decreases existing, 0
  {
    var v := inputs[i];
    var was := Lookup(existing, v.key);
    if was.Some? {
      forall child | child in existing && child.key == v.key ensures child == was.value { LookupFinds(existing, child); }
      if was.value.active {
        LookupInputFinds(inputs, v);
        ReconcileIff(was.value.children, v.children, ids);
      }
    }
  }

  lemma {:induction false} InputsReconcile(existing: seq<Field>, inputs: seq<FieldInput>, ids: string -> string)
    requires forall i :: 0 <= i < |inputs| ==> InputReconciles(existing, inputs[i], ids)
    ensures var r := ReconcileInputs(existing, inputs, ids);
      (r.Ok? || r == Err(KeyConflict)) && (r.Ok? <==> forall v :: v in inputs ==> NamesNone(existing, v))
  {
    if inputs != [] {
      forall i | 0 <= i < |inputs[1..]| ensures InputReconciles(existing, inputs[1..][i], ids) {
        assert inputs[1..][i] == inputs[i + 1];
      }
      InputsReconcile(existing, inputs[1..], ids);
      assert InputReconciles(existing, inputs[0], ids);
      assert forall v :: v in inputs <==> v == inputs[0] || v in inputs[1..];
    }
  }

  // ---- a patch that leaves the children alone ----

  lemma {:induction false} StoredInput(fields: seq<Field>, child: Field, v: FieldInput, c: Codec)
    requires UniqueKeys(fields) && child in fields && v in RewriteAll(c, FieldsToInputs(fields)) && v.key == child.key
    ensures v == Rewrite(c, FieldToInput(child))
  {
    InputsOfFields(fields);
    var inputs := RewriteAll(c, FieldsToInputs(fields));
    var i :| 0 <= i < |inputs| && inputs[i] == v;
    var j :| 0 <= j < |fields| && fields[j] == child;
    assert fields[i].key == v.key;
  }

  /** The stored children keep their kinds and options. */
  lemma {:induction false} StoredKept(c: Codec, f: Field, u: FieldInput)
    requires WellFormed(f.children) && u.kind == f.kind && u.constraints == f.constraints
    requires u.children == RewriteAll(c, FieldsToInputs(f.children))
    ensures OptionsKept(f, u) && KindsKept(f, u)
    decreases f
  {
    forall child, v | child in f.children && v in u.children && v.key == child.key ensures OptionsKept(child, v) && KindsKept(child, v) {
      StoredInput(f.children, child, v, c);
      StoredKept(c, child, v);
    }
  }

  lemma {:induction false} StoredChildrenKept(c: Codec, f: Field, u: FieldInput)
    requires WellFormed(f.children) && Sane(u.children) && u.children == RewriteAll(c, FieldsToInputs(f.children))
    ensures ChildEnumsStable(f.children, u.children) && !ChildTypeChanged(f.children, u.children)
  {
    var same := u.(kind := f.kind, constraints := f.constraints);
    StoredKept(c, f, same);
    OptionsKeptIff(f, same);
    KindsKeptIff(f, same);
  }

  // ---- the answer ----

  /** A change of type has to say everything that depends on it. */
  predicate Complete(patch: Patch) {
    patch.kind.Some? ==> patch.defaultValue.Some? && patch.constraints.Some? && patch.children.Some?
  }

  predicate IsEmpty(patch: Patch) {
    patch.kind.None? && patch.required.None? && patch.defaultValue.None? && patch.constraints.None? && patch.children.None?
  }

  /** The key belongs to an input that names no existing child, or to something below such an input. */
  predicate Inserts(existing: seq<Field>, inputs: seq<FieldInput>, key: string)
    decreases inputs
  {
    exists v :: v in inputs && InsertedBy(existing, v, key)
  }

  predicate InsertedBy(existing: seq<Field>, v: FieldInput, key: string)
    decreases v
  {
    if exists child :: child in existing && child.key == v.key
    then exists child :: child in existing && child.key == v.key && Inserts(child.children, v.children, key)
    else key in SchemaAnswers.KeyList(v)
  }

  lemma {:induction false} InsertsIff(existing: seq<Field>, inputs: seq<FieldInput>, key: string)
    requires WellFormed(existing)
    ensures key in CreatedKeys(existing, inputs) <==> Inserts(existing, inputs, key)
    decreases inputs
  {
    if inputs != [] {
      var v := inputs[0];
      forall child | child in existing ensures Lookup(existing, child.key) == Some(child) { LookupFinds(existing, child); }
      match Lookup(existing, v.key) {
        case None => SchemaAnswers.KeysAre(v);
        case Some(f) => InsertsIff(f.children, v.children, key);
      }
      InsertsIff(existing, inputs[1..], key);
      InsertsFirst(existing, inputs, key);
    }
  }

  lemma {:induction false} InsertsFirst(existing: seq<Field>, inputs: seq<FieldInput>, key: string)
    requires inputs != []
    ensures Inserts(existing, inputs, key) <==> InsertedBy(existing, inputs[0], key) || Inserts(existing, inputs[1..], key)
  {
    assert forall w :: w in inputs <==> w == inputs[0] || w in inputs[1..];
  }

  /** No new key is taken anywhere in the model, and none is an archived child's. */
  ghost predicate KeysFree(fields: seq<Field>, f: Field, patch: Patch, u: FieldInput) {
    patch.children.Some? ==>
      NamesNoArchived(f.children, u.children) && InsertsNoneOf(fields, f.children, patch.children.value)
  }

  ghost predicate InsertsNoneOf(fields: seq<Field>, existing: seq<Field>, inputs: seq<FieldInput>) {
    forall key :: Inserts(existing, inputs, key) ==> !SchemaAnswers.Anywhere(fields, key)
  }

  lemma {:induction false} KeysFreeIff(fields: seq<Field>, existing: seq<Field>, inputs: seq<FieldInput>)
    requires WellFormed(existing)
    ensures CreatedKeys(existing, inputs) * ModelKeys(fields) == {} <==> InsertsNoneOf(fields, existing, inputs)
  {
    var both := CreatedKeys(existing, inputs) * ModelKeys(fields);
    forall key ensures key in both <==> Inserts(existing, inputs, key) && SchemaAnswers.Anywhere(fields, key) {
      InsertsIff(existing, inputs, key);
      SchemaAnswers.AnywhereIff(fields, key);
    }
    if both != {} {
      var key :| key in both;
      assert Inserts(existing, inputs, key) && SchemaAnswers.Anywhere(fields, key);
    }
  }

  lemma KeysFreeIs(fields: seq<Field>, f: Field, patch: Patch, u: FieldInput)
    requires WellFormed(f.children)
    ensures KeysFree(fields, f, patch, u) <==>
            (patch.children.Some? ==>
               NamesNoArchived(f.children, u.children) && CreatedKeys(f.children, patch.children.value) * ModelKeys(fields) == {})
  {
    if patch.children.Some? { KeysFreeIff(fields, f.children, patch.children.value); }
  }

  /** UpdateField answers, in this order: an option was removed; and while content exists, a kind was
      changed, the input asks more, a projection was added; a key is taken; otherwise it commits. */
  ghost predicate AnswersAs(answer: Result<seq<Field>, SchemaError>, fields: seq<Field>, f: Field, patch: Patch,
      u: FieldInput, contentExists: bool)
    requires BoundsAreDecimals(f.constraints) && WellFormed(f.children)
    requires BoundsAreDecimals(u.constraints) && Sane(u.children)
  {
    if !OptionsKept(f, u) then answer == Err(EnumValueImmutable)
    else if contentExists && !KindsKept(f, u) then answer == Err(TypeLocked)
    else if contentExists && !AsksNoMore(f, u) then answer == Err(MigrationRequired)
    else if contentExists && !NoProjectionAdded(f.constraints, u.constraints) then answer == Err(BackfillRequired)
    else if !KeysFree(fields, f, patch, u) then answer == Err(KeyConflict)
    else answer.Ok?
  }

  lemma UpdateAnswer(c: Codec, fields: seq<Field>, path: seq<string>, patch: Patch, contentExists: bool,
      ids: string -> string)
    requires WellFormed(fields) && At(fields, path).Some? && At(fields, path).value.active && !IsEmpty(patch)
    requires Complete(patch)
    requires ValidateField(c, PatchedInput(At(fields, path).value, patch), |path| - 1).Some?
    ensures var (f, u) := (At(fields, path).value, ValidateField(c, PatchedInput(At(fields, path).value, patch), |path| - 1).value);
      && BoundsAreDecimals(f.constraints) && WellFormed(f.children) && BoundsAreDecimals(u.constraints) && Sane(u.children)
      && AnswersAs(Apply(c, fields, Update(path, patch), contentExists, ids), fields, f, patch, u, contentExists)
  {
    var f := At(fields, path).value;
    var u := ValidateField(c, PatchedInput(f, patch), |path| - 1).value;
    AtIsWellFormed(fields, path);
    ValidatedInputIsSane(c, PatchedInput(f, patch), |path| - 1);
    AnswerAt(c, fields, path, patch, contentExists, ids, f, u);
  }

  lemma AnswerAt(c: Codec, fields: seq<Field>, path: seq<string>, patch: Patch, contentExists: bool,
      ids: string -> string, f: Field, u: FieldInput)
    requires path != [] && At(fields, path) == Some(f) && f.active && !IsEmpty(patch) && Complete(patch)
    requires ValidateField(c, PatchedInput(f, patch), |path| - 1) == Some(u)
    requires BoundsAreDecimals(f.constraints) && WellFormed(f.children)
    requires BoundsAreDecimals(u.constraints) && Sane(u.children)
    ensures AnswersAs(Apply(c, fields, Update(path, patch), contentExists, ids), fields, f, patch, u, contentExists)
  {
    FieldAnswer(c, f, |path| - 1, patch, contentExists, ids, u);
    PutAnswer(c, fields, path, patch, contentExists, ids, f);
    KeysFreeIs(fields, f, patch, u);
    Joined(UpdateField(c, f, |path| - 1, patch, contentExists, ids), Apply(c, fields, Update(path, patch), contentExists, ids),
           fields, f, patch, u, contentExists);
  }

  /** The answer on the field and the keys taken elsewhere make the answer on the tree. */
  lemma Joined(r: Result<Field, SchemaError>, answer: Result<seq<Field>, SchemaError>, fields: seq<Field>, f: Field,
      patch: Patch, u: FieldInput, contentExists: bool)
    requires BoundsAreDecimals(f.constraints) && WellFormed(f.children)
    requires BoundsAreDecimals(u.constraints) && Sane(u.children)
    requires FieldAnswersAs(r, f, patch, u, contentExists) && PutAnswersAs(r, answer, fields, f, patch)
    requires KeysFree(fields, f, patch, u) <==>
             (patch.children.Some? ==>
                NamesNoArchived(f.children, u.children) && CreatedKeys(f.children, patch.children.value) * ModelKeys(fields) == {})
    ensures AnswersAs(answer, fields, f, patch, u, contentExists)
  {
  }

  ghost predicate PutAnswersAs(r: Result<Field, SchemaError>, answer: Result<seq<Field>, SchemaError>,
      fields: seq<Field>, f: Field, patch: Patch) {
    if r.Err? then answer == Err(r.error)
    else if patch.children.Some? && CreatedKeys(f.children, patch.children.value) * ModelKeys(fields) != {}
      then answer == Err(KeyConflict)
    else answer.Ok?
  }

  ghost predicate FieldAnswersAs(answer: Result<Field, SchemaError>, f: Field, patch: Patch, u: FieldInput,
      contentExists: bool)
    requires BoundsAreDecimals(f.constraints) && WellFormed(f.children)
    requires BoundsAreDecimals(u.constraints) && Sane(u.children)
  {
    if !OptionsKept(f, u) then answer == Err(EnumValueImmutable)
    else if contentExists && !KindsKept(f, u) then answer == Err(TypeLocked)
    else if contentExists && !AsksNoMore(f, u) then answer == Err(MigrationRequired)
    else if contentExists && !NoProjectionAdded(f.constraints, u.constraints) then answer == Err(BackfillRequired)
    else if patch.children.Some? && !NamesNoArchived(f.children, u.children) then answer == Err(KeyConflict)
    else answer.Ok?
  }

  /** The tree answers as the field does, except for keys taken elsewhere in the model. */
  lemma PutAnswer(c: Codec, fields: seq<Field>, path: seq<string>, patch: Patch, contentExists: bool,
      ids: string -> string, f: Field)
    requires path != [] && At(fields, path) == Some(f) && !IsEmpty(patch)
    ensures PutAnswersAs(UpdateField(c, f, |path| - 1, patch, contentExists, ids),
                         Apply(c, fields, Update(path, patch), contentExists, ids), fields, f, patch)
  {
  }

  /** UpdateField on the field alone. */
  lemma FieldAnswer(c: Codec, f: Field, depth: nat, patch: Patch, contentExists: bool, ids: string -> string,
      u: FieldInput)
    requires BoundsAreDecimals(f.constraints) && WellFormed(f.children) && f.active && !IsEmpty(patch)
    requires Complete(patch)
    requires ValidateField(c, PatchedInput(f, patch), depth) == Some(u)
    requires BoundsAreDecimals(u.constraints) && Sane(u.children)
    ensures FieldAnswersAs(UpdateField(c, f, depth, patch, contentExists, ids), f, patch, u, contentExists)
  {
    Stages(c, f, depth, patch, contentExists, ids, u);
    TightenedIff(f, u);
    OptionsKeptIff(f, u);
    KindsKeptIff(f, u);
    if patch.children.None? {
      StoredChildrenKept(c, f, u);
    } else if OptionsKept(f, u) {
      ReconcileIff(f.children, u.children, ids);
    }
  }

  /** The stages of UpdateField once the input is valid. */
  lemma Stages(c: Codec, f: Field, depth: nat, patch: Patch, contentExists: bool, ids: string -> string, u: FieldInput)
    requires f.active && !IsEmpty(patch) && Complete(patch)
    requires ValidateField(c, PatchedInput(f, patch), depth) == Some(u)
    ensures patch.constraints.None? ==> u.constraints == f.constraints
    ensures patch.children.None? ==> u.children == RewriteAll(c, FieldsToInputs(f.children))
    ensures var answer := UpdateField(c, f, depth, patch, contentExists, ids);
      if patch.constraints.Some? && !EnumStable(f.constraints, u.constraints) then answer == Err(EnumValueImmutable)
      else if patch.children.Some? && !ChildEnumsStable(f.children, u.children) then answer == Err(EnumValueImmutable)
      else if contentExists && (u.kind != f.kind || (patch.children.Some? && ChildTypeChanged(f.children, u.children)))
        then answer == Err(TypeLocked)
      else if contentExists && FieldSchemaTightened(f, u) then answer == Err(MigrationRequired)
      else if contentExists && ProjectionEnabled(f.constraints, u.constraints) then answer == Err(BackfillRequired)
      else if patch.children.Some? && Reconcile(f.children, u.children, ids).Err?
        then answer == Err(Reconcile(f.children, u.children, ids).error)
      else answer.Ok?
  {
  }

  /** With content present an update that gives nothing up to refuse commits: the gate lets every loosening pass. */
  lemma GateCommitsIff(c: Codec, fields: seq<Field>, path: seq<string>, patch: Patch, ids: string -> string)
    requires WellFormed(fields) && At(fields, path).Some? && At(fields, path).value.active && !IsEmpty(patch)
    requires Complete(patch)
    requires ValidateField(c, PatchedInput(At(fields, path).value, patch), |path| - 1).Some?
    ensures var (f, u) := (At(fields, path).value, ValidateField(c, PatchedInput(At(fields, path).value, patch), |path| - 1).value);
      && BoundsAreDecimals(f.constraints) && WellFormed(f.children) && BoundsAreDecimals(u.constraints) && Sane(u.children)
      && (Apply(c, fields, Update(path, patch), true, ids).Ok? <==>
            OptionsKept(f, u) && KindsKept(f, u) && AsksNoMore(f, u) && NoProjectionAdded(f.constraints, u.constraints)
            && KeysFree(fields, f, patch, u))
  {
    UpdateAnswer(c, fields, path, patch, true, ids);
  }

  lemma {:induction false} ArchivedHidesActive(fields: seq<Field>, child: Field)
    requires UniqueKeys(fields) && child in fields && !child.active
    ensures !HasActiveChild(fields, child.key)
  {
    forall other | other in fields && other.key == child.key
      ensures other == child
    {
      LookupFinds(fields, child);
      LookupFinds(fields, other);
    }
  }

  /** A patch that leaves the children alone is judged with the archived ones among its inputs: a field with an
      archived required child refuses every such patch while content exists. */
  lemma ArchivedRequiredChildBlocks(c: Codec, fields: seq<Field>, path: seq<string>, patch: Patch,
      ids: string -> string, child: Field)
    requires WellFormed(fields) && At(fields, path).Some? && At(fields, path).value.active
    requires child in At(fields, path).value.children && !child.active && child.required && patch.children.None?
    ensures Apply(c, fields, Update(path, patch), true, ids).Err?
  {
    var f := At(fields, path).value;
    var input := ValidateField(c, PatchedInput(f, patch), |path| - 1);
    if !IsEmpty(patch) && Complete(patch) && input.Some? {
      GateCommitsIff(c, fields, path, patch, ids);
      InputsOfFields(f.children);
      var i :| 0 <= i < |f.children| && f.children[i] == child;
      var v := input.value.children[i];
      assert v in input.value.children && v.required && v.key == child.key;
      ArchivedHidesActive(f.children, child);
    }
  }
}
