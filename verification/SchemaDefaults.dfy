/** Defaults are checked twice by different code: when the schema is saved and when they are filled
    into content. This module says exactly when the first check is enough for the second, for any
    field a creation or an update leaves, archived children included. */
module SchemaDefaults {
  import opened Wrappers
  import opened Decimals
  import opened FieldTree
  import opened ContentValidation
  import opened Normalization
  import opened SchemaValidation
  import opened SchemaGate
  import opened GateSoundness

  /** What the schema check overlooks: nested times finer than a microsecond, members that hold null
      for a required child, members that name an archived child, and the same in the defaults that
      are filled in for children the default leaves out. */
  predicate DefaultStrict(c: Codec, v: Json, f: Field)
    decreases f, 1
  {
    match f.kind
    case Datetime => v.JStr? ==> c.datetime(v.text).Some?
    case ObjectField => v.JObj? ==> MembersStrict(c, v.members, f.children)
    case RepeatableGroup =>
      v.JArr? ==> forall i :: 0 <= i < |v.items| && v.items[i].JObj? ==> MembersStrict(c, v.items[i].members, f.children)
    case _ => true
  }

  predicate MembersStrict(c: Codec, members: map<string, Json>, children: seq<Field>)
    decreases children, 0
  {
    && (forall key :: key in members ==>
          && ActiveField(children, key).Some?
          && (ActiveField(children, key).value.required ==> !members[key].JNull?)
          && DefaultStrict(c, members[key], ActiveField(children, key).value))
    && (forall child :: child in children && child.active && child.key !in members ==> DefaultStrict(c, child.defaultValue, child))
  }

  // ---- the input a stored field was validated as ----

  /** The field, with all of its active children, is the one the input describes. */
  predicate Mirrors(f: Field, u: FieldInput)
    decreases f, 1
  {
    && f.kind == u.kind && f.required == u.required && f.constraints == u.constraints && f.defaultValue == u.defaultValue
    && MirrorsAll(f.children, u.children)
  }

  predicate MirrorsAll(fields: seq<Field>, inputs: seq<FieldInput>)
    decreases fields, 0
  {
    && UniqueKeys(fields)
    && forall f :: f in fields && f.active ==> LookupInput(inputs, f.key).Some? && Mirrors(f, LookupInput(inputs, f.key).value)
  }

  predicate AllValid(c: Codec, inputs: seq<FieldInput>, depth: nat) {
    forall input :: input in inputs ==> InputValid(c, input, depth)
  }

  /** A default the schema accepts passes content validation under the stored field exactly when it is strict. */
  lemma {:induction false} DefaultPassesIff(c: Codec, v: Json, f: Field, u: FieldInput, depth: nat)
    requires Mirrors(f, u) && ConstraintsValid(u, depth) && AllValid(c, u.children, depth + 1) && DefaultValid(c, v, u)
    ensures AcceptsValue(c, v, f) <==> DefaultStrict(c, v, f)
    decreases f, 1
  {
    if v.JNull? { return; }
    BoundsOfValidInput(u, depth);
    match f.kind
    case Integer => IntegerIsDecimal(v.literal);
    case ObjectField => MembersPassIff(c, v.members, f.children, u.children, depth + 1);
    case RepeatableGroup =>
      forall i | 0 <= i < |v.items|
        ensures AcceptsObject(c, v.items[i].members, f.children) <==> MembersStrict(c, v.items[i].members, f.children)
      {
        MembersPassIff(c, v.items[i].members, f.children, u.children, depth + 1);
      }
    case _ =>
  }

  lemma {:induction false} MembersPassIff(c: Codec, members: map<string, Json>, fields: seq<Field>,
      inputs: seq<FieldInput>, depth: nat)
    requires MirrorsAll(fields, inputs) && AllValid(c, inputs, depth) && CompositeDefaultValid(c, members, inputs)
    ensures AcceptsObject(c, members, fields) <==> MembersStrict(c, members, fields)
    decreases fields, 0
  {
    forall f | f in fields && f.active
      ensures ActiveField(fields, f.key) == Some(f) && MemberAgrees(c, members, f)
    {
      LookupFinds(fields, f);
      var u := LookupInput(inputs, f.key).value;
      assert InputValid(c, u, depth);
      DefaultPassesIff(c, if f.key in members then members[f.key] else f.defaultValue, f, u, depth);
    }
    MembersAgree(c, members, fields);
  }

  /** The two readings of one member, or of the default filled in for it. */
  predicate MemberAgrees(c: Codec, members: map<string, Json>, f: Field) {
    if f.key in members then AcceptsValue(c, members[f.key], f) <==> DefaultStrict(c, members[f.key], f)
    else AcceptsField(c, members, f) <==> DefaultStrict(c, f.defaultValue, f)
  }

  lemma {:induction false} MembersAgree(c: Codec, members: map<string, Json>, fields: seq<Field>)
    requires forall f :: f in fields && f.active ==> ActiveField(fields, f.key) == Some(f) && MemberAgrees(c, members, f)
    ensures AcceptsObject(c, members, fields) <==> MembersStrict(c, members, fields)
  {
    if AcceptsObject(c, members, fields) {
      forall key | key in members ensures ActiveField(fields, key).value.required ==> !members[key].JNull? {
        assert AcceptsField(c, members, ActiveField(fields, key).value);
      }
    }
  }

  // ---- what creation and update leave mirrors a valid input ----

  lemma {:induction false} BuiltMirrors(inputs: seq<FieldInput>, ids: string -> string)
    requires Sane(inputs)
    ensures MirrorsAll(BuildFields(inputs, ids), inputs)
    decreases inputs
  {
    forall i | 0 <= i < |inputs|
      ensures LookupInput(inputs, inputs[i].key) == Some(inputs[i]) && Mirrors(BuildField(inputs[i], ids), inputs[i]) {
      LookupInputFinds(inputs, inputs[i]);
      BuiltMirrors(inputs[i].children, ids);
    }
  }

  lemma {:induction false} InputsOfFields(fields: seq<Field>)
    ensures |FieldsToInputs(fields)| == |fields|
    ensures forall i :: 0 <= i < |fields| ==> FieldsToInputs(fields)[i] == FieldToInput(fields[i])
  {
    if fields != [] { InputsOfFields(fields[1..]); }
  }

  lemma {:induction false} StoredMirrors(fields: seq<Field>)
    requires WellFormed(fields)
    ensures MirrorsAll(fields, FieldsToInputs(fields))
    decreases fields
  {
    InputsOfFields(fields);
    var inputs := FieldsToInputs(fields);
    forall i | 0 <= i < |fields| ensures LookupInput(inputs, fields[i].key) == Some(inputs[i]) && Mirrors(fields[i], inputs[i]) {
      LookupInputFinds(inputs, inputs[i]);
      StoredMirrors(fields[i].children);
    }
  }

  lemma {:induction false} ReconciledMirrors(existing: seq<Field>, inputs: seq<FieldInput>, ids: string -> string)
    requires WellFormed(existing) && Sane(inputs) && Reconcile(existing, inputs, ids).Ok?
    ensures MirrorsAll(Reconcile(existing, inputs, ids).value, inputs)
    decreases inputs
  {
    var kept := ReconcileInputs(existing, inputs, ids).value;
    ReconcileWellFormed(existing, inputs, ids);
    forall i | 0 <= i < |kept| ensures LookupInput(inputs, kept[i].key) == Some(inputs[i]) && Mirrors(kept[i], inputs[i]) {
      LookupInputFinds(inputs, inputs[i]);
      var was := Lookup(existing, inputs[i].key);
      if was.Some? {
        ReconciledMirrors(was.value.children, inputs[i].children, ids);
      } else {
        BuiltMirrors(inputs[i].children, ids);
      }
    }
    assert forall f :: f in Reconcile(existing, inputs, ids).value ==> f in kept || f in Leftover(existing, inputs);
  }

  lemma {:induction false} RewrittenLookup(c: Codec, inputs: seq<FieldInput>, key: string)
    ensures LookupInput(RewriteAll(c, inputs), key) ==
      match LookupInput(inputs, key) case None => None case Some(u) => Some(Rewrite(c, u))
  {
    if inputs != [] {
      var first := inputs[..|inputs| - 1];
      assert RewriteAll(c, inputs)[..|inputs| - 1] == RewriteAll(c, first);
      RewrittenLookup(c, first, key);
    }
  }

  /** A default is judged by the kind, the constraints and the children of an input. */
  lemma ScalarDefault(c: Codec, v: Json, a: FieldInput, b: FieldInput)
    requires a.kind == b.kind && a.constraints == b.constraints && !IsContainer(a.kind)
    ensures DefaultValid(c, v, a) <==> DefaultValid(c, v, b)
  {
  }

  lemma ObjectDefault(c: Codec, v: Json, input: FieldInput)
    requires input.kind.ObjectField?
    ensures DefaultValid(c, v, input) <==> v.JNull? || (v.JObj? && CompositeDefaultValid(c, v.members, input.children))
  {
  }

  lemma GroupDefault(c: Codec, v: Json, input: FieldInput)
    requires input.kind.RepeatableGroup?
    ensures DefaultValid(c, v, input) <==> v.JNull? || (v.JArr? && forall i :: 0 <= i < |v.items| ==>
      v.items[i].JObj? && CompositeDefaultValid(c, v.items[i].members, input.children))
  {
  }

  /** Whether a default is valid does not depend on the defaults of the input it is checked against. */
  lemma {:induction false} RewriteKeepsDefaults(c: Codec, v: Json, input: FieldInput)
    ensures DefaultValid(c, v, Rewrite(c, input)) <==> DefaultValid(c, v, input)
    decreases input, 1
  {
    var rewritten := Rewrite(c, input);
    match input.kind
    case ObjectField =>
      ObjectDefault(c, v, input);
      ObjectDefault(c, v, rewritten);
      if v.JObj? { RewriteKeepsMembers(c, v.members, input.children); }
    case RepeatableGroup =>
      GroupDefault(c, v, input);
      GroupDefault(c, v, rewritten);
      if v.JArr? { RewriteKeepsItems(c, v.items, input.children); }
    case _ => ScalarDefault(c, v, input, rewritten);
  }

  lemma {:induction false} RewriteKeepsItems(c: Codec, items: seq<Json>, inputs: seq<FieldInput>)
    ensures forall i :: 0 <= i < |items| && items[i].JObj? ==>
      (CompositeDefaultValid(c, items[i].members, RewriteAll(c, inputs)) <==> CompositeDefaultValid(c, items[i].members, inputs))
    decreases inputs, 1
  {
    forall i | 0 <= i < |items| && items[i].JObj?
      ensures CompositeDefaultValid(c, items[i].members, RewriteAll(c, inputs)) <==> CompositeDefaultValid(c, items[i].members, inputs)
    {
      RewriteKeepsMembers(c, items[i].members, inputs);
    }
  }

  lemma {:induction false} RewriteKeepsMembers(c: Codec, members: map<string, Json>, inputs: seq<FieldInput>)
    ensures CompositeDefaultValid(c, members, RewriteAll(c, inputs)) <==> CompositeDefaultValid(c, members, inputs)
    decreases inputs, 0
  {
    var rewritten := RewriteAll(c, inputs);
    forall key | key in members
      ensures LookupInput(rewritten, key).Some? <==> LookupInput(inputs, key).Some?
      ensures LookupInput(inputs, key).Some? ==>
        (DefaultValid(c, members[key], LookupInput(rewritten, key).value)
         <==> DefaultValid(c, members[key], LookupInput(inputs, key).value))
    {
      RewrittenLookup(c, inputs, key);
      if LookupInput(inputs, key).Some? { RewriteKeepsDefaults(c, members[key], LookupInput(inputs, key).value); }
    }
    if forall u :: u in rewritten && u.required ==> u.key in members {
      forall u | u in inputs && u.required ensures u.key in members {
        var i :| 0 <= i < |inputs| && inputs[i] == u;
        assert rewritten[i] in rewritten;
      }
    }
  }

  /** Storing a valid default keeps it valid. */
  lemma StoredDefaultValid(c: Codec, input: FieldInput)
    requires Sound(c) && DefaultValid(c, input.defaultValue, input) && BoundsAreDecimals(input.constraints)
    ensures DefaultValid(c, StoredDefault(c, input), input)
  {
    ZeroText();
    var v := input.defaultValue;
    if input.kind.Datetime? && v.JStr? {
      assert FormatsOnce(c, v.text);
      assert FormatsOnce(c, c.instant(v.text).value);
    }
  }

  /** The rewritten input is valid in turn. */
  lemma {:induction false} RewriteStaysValid(c: Codec, input: FieldInput, depth: nat)
    requires Sound(c) && InputValid(c, input, depth)
    ensures InputValid(c, Rewrite(c, input), depth)
    decreases input
  {
    BoundsOfValidInput(input, depth);
    StoredDefaultValid(c, input);
    RewriteKeepsDefaults(c, StoredDefault(c, input), input);
    forall child | child in Rewrite(c, input).children ensures InputValid(c, child, depth + 1) {
      var i :| 0 <= i < |input.children| && child == Rewrite(c, input.children[i]);
      assert input.children[i] in input.children;
      RewriteStaysValid(c, input.children[i], depth + 1);
    }
    RewrittenParts(c, input, depth);
  }

  /** Everything but the children. */
  lemma RewrittenParts(c: Codec, input: FieldInput, depth: nat)
    requires InputValid(c, input, depth) && DefaultValid(c, StoredDefault(c, input), Rewrite(c, input))
    requires forall child :: child in Rewrite(c, input).children ==> InputValid(c, child, depth + 1)
    ensures InputValid(c, Rewrite(c, input), depth)
  {
    assert ConstraintsValid(Rewrite(c, input), depth);
  }

  /** The input the field left by an update mirrors: its children are the submitted ones, or those stored before. */
  function UpdatedInput(c: Codec, f: Field, patch: Patch): FieldInput {
    var patched := PatchedInput(f, patch);
    var rewritten := Rewrite(c, patched);
    if patch.children.Some? then rewritten else rewritten.(children := patched.children)
  }

  lemma UpdatedMirrors(c: Codec, f: Field, depth: nat, patch: Patch, contentExists: bool, ids: string -> string)
    requires Sound(c) && WellFormed(f.children) && UpdateField(c, f, depth, patch, contentExists, ids).Ok?
    ensures InputValid(c, UpdatedInput(c, f, patch), depth)
    ensures Mirrors(UpdateField(c, f, depth, patch, contentExists, ids).value, UpdatedInput(c, f, patch))
  {
    var patched := PatchedInput(f, patch);
    ValidatedInputIsSane(c, patched, depth);
    if patch.children.Some? {
      RewriteStaysValid(c, patched, depth);
      ReconciledMirrors(f.children, RewriteAll(c, patched.children), ids);
    } else {
      StoredMirrors(f.children);
      StoredDefaultValid(c, patched);
      SameButDefault(c, StoredDefault(c, patched), patched);
    }
  }

  lemma SameButDefault(c: Codec, v: Json, input: FieldInput)
    ensures DefaultValid(c, v, input.(defaultValue := v)) <==> DefaultValid(c, v, input)
  {
  }

  /** The default an update leaves passes content validation exactly when it is strict. */
  lemma UpdatedDefaultPassesIff(c: Codec, f: Field, depth: nat, patch: Patch, contentExists: bool,
      ids: string -> string)
    requires Sound(c) && WellFormed(f.children) && UpdateField(c, f, depth, patch, contentExists, ids).Ok?
    ensures var g := UpdateField(c, f, depth, patch, contentExists, ids).value;
      DefaultPasses(c, g) <==> DefaultStrict(c, g.defaultValue, g)
  {
    UpdatedMirrors(c, f, depth, patch, contentExists, ids);
    var g := UpdateField(c, f, depth, patch, contentExists, ids).value;
    DefaultPassesIff(c, g.defaultValue, g, UpdatedInput(c, f, patch), depth);
  }

  /** So does the default of a created field. */
  lemma CreatedDefaultPassesIff(c: Codec, input: FieldInput, depth: nat, ids: string -> string)
    requires Sound(c) && ValidateField(c, input, depth).Some?
    ensures var g := BuildField(ValidateField(c, input, depth).value, ids);
      DefaultPasses(c, g) <==> DefaultStrict(c, g.defaultValue, g)
  {
    var valid := ValidateField(c, input, depth).value;
    CreatedMirrors(c, input, depth, ids);
    DefaultPassesIff(c, valid.defaultValue, BuildField(valid, ids), valid, depth);
  }

  lemma CreatedMirrors(c: Codec, input: FieldInput, depth: nat, ids: string -> string)
    requires Sound(c) && ValidateField(c, input, depth).Some?
    ensures var valid := ValidateField(c, input, depth).value;
      InputValid(c, valid, depth) && Mirrors(BuildField(valid, ids), valid)
  {
    ValidatedInputIsSane(c, input, depth);
    RewriteStaysValid(c, input, depth);
    BuiltMirrors(ValidateField(c, input, depth).value.children, ids);
  }

  // ---- the defaults an update lets stored content be filled with ----

  /** The defaults a patch gives to fields that had none, and to new fields, are strict. */
  predicate FillsStrict(c: Codec, fields: seq<Field>, updated: seq<Field>)
    decreases updated
  {
    forall g :: g in updated && g.active ==>
      var f := ActiveField(fields, g.key);
      && (f.None? || f.value.defaultValue.JNull? ==> DefaultStrict(c, g.defaultValue, g))
      && (f.Some? ==> FillsStrict(c, f.value.children, g.children))
  }

  lemma {:induction false} FillsIff(c: Codec, fields: seq<Field>, updated: seq<Field>, inputs: seq<FieldInput>,
      depth: nat)
    requires MirrorsAll(updated, inputs) && AllValid(c, inputs, depth) && AddsOptional(fields, updated)
    ensures FillsPass(c, fields, updated) <==> FillsStrict(c, fields, updated)
    decreases updated, 0
  {
    forall g | g in updated && g.active
      ensures FillPasses(c, ActiveField(fields, g.key), g) <==> FillStrict(c, ActiveField(fields, g.key), g)
    {
      FillIff(c, ActiveField(fields, g.key), g, LookupInput(inputs, g.key).value, depth);
    }
    assert FillsPass(c, fields, updated) <==> forall g :: g in updated && g.active ==> FillPasses(c, ActiveField(fields, g.key), g);
    assert FillsStrict(c, fields, updated) <==> forall g :: g in updated && g.active ==> FillStrict(c, ActiveField(fields, g.key), g);
  }

  predicate FillPasses(c: Codec, f: Option<Field>, g: Field) {
    && (f.None? ==> MayLack(c, g))
    && (f.Some? ==> (f.value.defaultValue.JNull? ==> DefaultPasses(c, g)) && FillsPass(c, f.value.children, g.children))
  }

  predicate FillStrict(c: Codec, f: Option<Field>, g: Field) {
    && (f.None? || f.value.defaultValue.JNull? ==> DefaultStrict(c, g.defaultValue, g))
    && (f.Some? ==> FillsStrict(c, f.value.children, g.children))
  }

  lemma {:induction false} FillIff(c: Codec, f: Option<Field>, g: Field, u: FieldInput, depth: nat)
    requires Mirrors(g, u) && InputValid(c, u, depth)
    requires (f.None? ==> !g.required) && (f.Some? ==> AddsOptional(f.value.children, g.children))
    ensures FillPasses(c, f, g) <==> FillStrict(c, f, g)
    decreases g, 1
  {
    DefaultPassesIff(c, g.defaultValue, g, u, depth);
    if f.Some? { FillsIff(c, f.value.children, g.children, u.children, depth + 1); }
  }

  /** What has to hold of a gated patch, read off the field before and after: if the field had no
      default, the new one is strict, and so are the defaults that children newly get. */
  predicate PatchStrict(c: Codec, f: Field, g: Field) {
    (f.defaultValue.JNull? ==> DefaultStrict(c, g.defaultValue, g)) && FillsStrict(c, f.children, g.children)
  }

  lemma PatchFillsIff(c: Codec, f: Field, depth: nat, patch: Patch, ids: string -> string)
    requires Sound(c) && BoundsAreDecimals(f.constraints) && WellFormed(f.children)
    requires UpdateField(c, f, depth, patch, true, ids).Ok?
    ensures var g := UpdateField(c, f, depth, patch, true, ids).value;
      PatchStrict(c, f, g) <==> (f.defaultValue.JNull? ==> DefaultPasses(c, g)) && FillsPass(c, f.children, g.children)
  {
    UpdateLoosens(c, f, depth, patch, ids);
    UpdatedMirrors(c, f, depth, patch, true, ids);
    UpdatedDefaultPassesIff(c, f, depth, patch, true, ids);
    FillsIff(c, f.children, UpdateField(c, f, depth, patch, true, ids).value.children, UpdatedInput(c, f, patch).children, depth + 1);
  }
}
