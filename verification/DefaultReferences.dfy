/** Which stored defaults refer to assets or entries, over the operations of the schema service. A field
    itself never brings a default for a reference, but the default of an object is read through its
    current children, and one of those may have been given another type since. */
module DefaultReferences {
  import opened Wrappers
  import opened FieldTree
  import opened ContentValidation
  import opened Normalization
  import opened SchemaValidation
  import opened SchemaGate
  import opened GateSoundness
  import opened SchemaDefaults
  import opened SchemaService
  import opened SchemaRuns
  import opened SchemaGaps
  import opened ImportPrecheck

  // ---- what a field brings itself ----

  lemma {:induction false} DefaultNamesNothing(c: Codec, v: Json, f: Field, u: FieldInput)
    requires Mirrors(f, u) && DefaultValid(c, v, u)
    ensures DraftValueAssets(c, v, f) == {}
    decreases f, 1
  {
    if v.JNull? { return; }
    match f.kind
    case ObjectField => MembersNameNothing(c, v.members, f.children, u.children, f.children);
    case RepeatableGroup => ItemsNameNothing(c, v.items, f.children, u.children);
    case _ =>
  }

  lemma {:induction false} ItemsNameNothing(c: Codec, items: seq<Json>, fields: seq<Field>, inputs: seq<FieldInput>)
    requires MirrorsAll(fields, inputs)
    requires forall i :: 0 <= i < |items| ==> items[i].JObj? && CompositeDefaultValid(c, items[i].members, inputs)
    ensures DraftGroupAssets(c, items, fields) == {}
    decreases fields, 1, |items|
  {
    if items != [] {
      MembersNameNothing(c, items[0].members, fields, inputs, fields);
      ItemsNameNothing(c, items[1..], fields, inputs);
    }
  }

  lemma {:induction false} MembersNameNothing(c: Codec, members: map<string, Json>, fields: seq<Field>,
      inputs: seq<FieldInput>, rest: seq<Field>)
    requires MirrorsAll(fields, inputs) && CompositeDefaultValid(c, members, inputs)
    requires forall f :: f in rest ==> f in fields
    ensures DraftAssets(c, members, rest) == {}
    decreases fields, 0, |rest|
  {
    if rest != [] {
      var f := rest[0];
      if f.active && f.key in members { DefaultNamesNothing(c, members[f.key], f, LookupInput(inputs, f.key).value); }
      MembersNameNothing(c, members, fields, inputs, rest[1..]);
    }
  }

  lemma {:induction false} MirroredNameNothing(c: Codec, fields: seq<Field>, inputs: seq<FieldInput>, depth: nat)
    requires MirrorsAll(fields, inputs) && AllValid(c, inputs, depth)
    ensures DefaultsNameNothing(c, fields)
    decreases fields
  {
    forall f | f in fields && f.active ensures DraftValueAssets(c, f.defaultValue, f) == {} && DefaultsNameNothing(c, f.children) {
      var u := LookupInput(inputs, f.key).value;
      assert InputValid(c, u, depth);
      DefaultNamesNothing(c, f.defaultValue, f, u);
      MirroredNameNothing(c, f.children, u.children, depth + 1);
    }
  }

  /** The field names no asset in its own default nor anywhere below. */
  predicate NamesNothing(c: Codec, f: Field) {
    f.active ==> DraftValueAssets(c, f.defaultValue, f) == {} && DefaultsNameNothing(c, f.children)
  }

  lemma MirrorNamesNothing(c: Codec, g: Field, u: FieldInput, depth: nat)
    requires Mirrors(g, u) && InputValid(c, u, depth)
    ensures NamesNothing(c, g)
  {
    DefaultNamesNothing(c, g.defaultValue, g, u);
    MirroredNameNothing(c, g.children, u.children, depth + 1);
  }

  lemma UpdatedNamesNothing(c: Codec, f: Field, depth: nat, patch: Patch, contentExists: bool, ids: string -> string)
    requires Sound(c) && WellFormed(f.children) && UpdateField(c, f, depth, patch, contentExists, ids).Ok?
    ensures NamesNothing(c, UpdateField(c, f, depth, patch, contentExists, ids).value)
  {
    UpdatedMirrors(c, f, depth, patch, contentExists, ids);
    MirrorNamesNothing(c, UpdateField(c, f, depth, patch, contentExists, ids).value, UpdatedInput(c, f, patch), depth);
  }

  lemma BuiltNamesNothing(c: Codec, input: FieldInput, depth: nat, ids: string -> string)
    requires Sound(c) && ValidateField(c, input, depth).Some?
    ensures NamesNothing(c, BuildField(ValidateField(c, input, depth).value, ids))
  {
    var valid := ValidateField(c, input, depth).value;
    CreatedMirrors(c, input, depth, ids);
    MirrorNamesNothing(c, BuildField(valid, ids), valid, depth);
  }

  // ---- one operation on the tree ----

  /** The defaults of the fields above the end of this path name no asset. */
  predicate AncestorsNameNothing(c: Codec, fields: seq<Field>, path: seq<string>)
    decreases |path|
  {
    |path| > 1 && ActiveField(fields, path[0]).Some? ==>
      var f := ActiveField(fields, path[0]).value;
      DraftValueAssets(c, f.defaultValue, f) == {} && AncestorsNameNothing(c, f.children, path[1..])
  }

  lemma {:induction false} PutNamesNothingIff(c: Codec, fields: seq<Field>, path: seq<string>, g: Field)
    requires WellFormed(fields) && At(fields, path).Some? && g.key == At(fields, path).value.key
    requires DefaultsNameNothing(c, fields) && NamesNothing(c, g)
    ensures DefaultsNameNothing(c, Put(fields, path, g)) <==> AncestorsNameNothing(c, Put(fields, path, g), path)
    decreases |path|
  {
    var at := PositionOf(fields, path[0]);
    var f := fields[at];
    var next := if |path| == 1 then g else f.(children := Put(f.children, path[1..], g));
    var updated := fields[at := next];
    assert Put(fields, path, g) == updated;
    assert updated[at] == next;
    LookupFinds(updated, next);
    if |path| > 1 && f.active { PutNamesNothingIff(c, f.children, path[1..], g); }
    OneReplacedIff(c, fields, at, next);
  }

  lemma OneReplacedIff(c: Codec, fields: seq<Field>, at: nat, next: Field)
    requires at < |fields| && DefaultsNameNothing(c, fields)
    ensures DefaultsNameNothing(c, fields[at := next]) <==> NamesNothing(c, next)
  {
    var updated := fields[at := next];
    assert updated[at] == next;
    assert forall i :: 0 <= i < |fields| && i != at ==> updated[i] in fields;
  }

  /** The path an operation changes the tree at. */
  function ChangedPath(op: Op): seq<string> {
    match op
    case Update(path, _) => path
    case Create(input) => [input.key]
    case CreateChild(path, input) => path + [input.key]
    case Archive(path) => path
  }

  /** If no default named an asset before an operation, the same holds after it exactly when the defaults above
      the changed field, read through their changed children, still name none. */
  lemma StepNamesNothingIff(c: Codec, fields: seq<Field>, op: Op, contentExists: bool, ids: string -> string)
    requires Sound(c) && WellFormed(fields) && DefaultsNameNothing(c, fields)
    requires Apply(c, fields, op, contentExists, ids).Ok?
    ensures var updated := Apply(c, fields, op, contentExists, ids).value;
      DefaultsNameNothing(c, updated) <==> AncestorsNameNothing(c, updated, ChangedPath(op))
  {
    match op
    case Update(path, patch) =>
      UpdateShape(c, fields, path, patch, contentExists, ids);
      AtIsWellFormed(fields, path);
      UpdatedNamesNothing(c, At(fields, path).value, |path| - 1, patch, contentExists, ids);
      PutNamesNothingIff(c, fields, path, Patched(c, fields, path, patch, contentExists, ids));
    case Create(input) => RootNamesNothing(c, fields, input, ids);
    case CreateChild(path, input) => ChildNamesNothingIff(c, fields, path, input, contentExists, ids);
    case Archive(path) =>
      ArchiveShape(fields, path);
      PutNamesNothingIff(c, fields, path, ArchiveTree(At(fields, path).value));
  }

  lemma RootNamesNothing(c: Codec, fields: seq<Field>, input: FieldInput, ids: string -> string)
    requires Sound(c) && WellFormed(fields) && DefaultsNameNothing(c, fields) && ApplyCreate(c, fields, input, ids).Ok?
    ensures DefaultsNameNothing(c, ApplyCreate(c, fields, input, ids).value)
  {
    CreatedIsNew(c, fields, input, ids);
    BuiltNamesNothing(c, input, 0, ids);
    AddedNamesNothingIff(c, fields, [], CreatedField(c, input, [], ids));
  }

  lemma ChildNamesNothingIff(c: Codec, fields: seq<Field>, path: seq<string>, input: FieldInput, contentExists: bool,
      ids: string -> string)
    requires Sound(c) && WellFormed(fields) && DefaultsNameNothing(c, fields)
    requires Apply(c, fields, CreateChild(path, input), contentExists, ids).Ok?
    ensures var updated := Apply(c, fields, CreateChild(path, input), contentExists, ids).value;
      DefaultsNameNothing(c, updated) <==> AncestorsNameNothing(c, updated, path + [input.key])
  {
    var g := CreatedField(c, input, path, ids);
    CreatedChildIsNew(c, fields, path, input, ids);
    BuiltNamesNothing(c, ValidateField(c, input, 0).value, |path|, ids);
    PutIsAdded(fields, path, g);
    AddedNamesNothingIff(c, fields, path, g);
  }

  lemma {:induction false} AddedNamesNothingIff(c: Codec, fields: seq<Field>, path: seq<string>, g: Field)
    requires WellFormed(fields) && (path == [] || At(fields, path).Some?)
    requires DefaultsNameNothing(c, fields) && NamesNothing(c, g)
    ensures DefaultsNameNothing(c, Added(fields, path, g)) <==> AncestorsNameNothing(c, Added(fields, path, g), path + [g.key])
    decreases |path|
  {
    if path == [] {
      assert forall f :: f in fields + [g] <==> f in fields || f == g;
    } else {
      var at := PositionOf(fields, path[0]);
      var f := fields[at];
      var next := f.(children := Added(f.children, path[1..], g));
      var updated := fields[at := next];
      assert Added(fields, path, g) == updated && updated[at] == next;
      LookupFinds(updated, next);
      assert (path + [g.key])[1..] == path[1..] + [g.key];
      if f.active { AddedNamesNothingIff(c, f.children, path[1..], g); }
      OneReplacedIff(c, fields, at, next);
    }
  }

  // ---- relations, over whole runs ----

  predicate IsReference(kind: FieldType) {
    kind.RichText? || kind.SingleMedia? || kind.MultiMedia? || IsRelation(kind)
  }

  /** No field that holds a reference has a default, archived ones included. */
  predicate PlainDefaults(fields: seq<Field>) {
    forall f :: f in fields ==> PlainDefault(f)
  }

  predicate PlainDefault(f: Field)
    decreases f
  {
    (IsReference(f.kind) ==> f.defaultValue.JNull?) && forall child :: child in f.children ==> PlainDefault(child)
  }

  lemma ReferenceHasNoDefault(c: Codec, input: FieldInput)
    requires IsReference(input.kind) && DefaultValid(c, input.defaultValue, input)
    ensures StoredDefault(c, input).JNull?
  {
  }

  lemma {:induction false} BuiltIsPlain(c: Codec, input: FieldInput, depth: nat, ids: string -> string)
    requires InputValid(c, input, depth)
    ensures PlainDefault(BuildField(Rewrite(c, input), ids))
    decreases input
  {
    if IsReference(input.kind) { ReferenceHasNoDefault(c, input); }
    BuiltArePlain(c, input.children, depth + 1, ids);
  }

  lemma {:induction false} BuiltArePlain(c: Codec, inputs: seq<FieldInput>, depth: nat, ids: string -> string)
    requires AllValid(c, inputs, depth)
    ensures PlainDefaults(BuildFields(RewriteAll(c, inputs), ids))
    decreases inputs
  {
    forall i | 0 <= i < |inputs| ensures PlainDefault(BuildField(Rewrite(c, inputs[i]), ids)) {
      assert inputs[i] in inputs;
      BuiltIsPlain(c, inputs[i], depth, ids);
    }
  }

  lemma {:induction false} ArchivedIsPlain(f: Field)
    requires PlainDefault(f)
    ensures PlainDefault(ArchiveTree(f))
    decreases f
  {
    forall i | 0 <= i < |f.children| ensures PlainDefault(ArchiveTree(f.children[i])) { ArchivedIsPlain(f.children[i]); }
  }

  lemma {:induction false} LeftoverIsPlain(existing: seq<Field>, inputs: seq<FieldInput>)
    requires PlainDefaults(existing)
    ensures PlainDefaults(Leftover(existing, inputs))
  {
    if existing != [] {
      LeftoverIsPlain(existing[1..], inputs);
      ArchivedIsPlain(existing[0]);
    }
  }

  lemma {:induction false} ReconciledIsPlain(c: Codec, existing: seq<Field>, inputs: seq<FieldInput>, depth: nat,
      ids: string -> string)
    requires PlainDefaults(existing) && AllValid(c, inputs, depth)
    requires Reconcile(existing, RewriteAll(c, inputs), ids).Ok?
    ensures PlainDefaults(Reconcile(existing, RewriteAll(c, inputs), ids).value)
    decreases inputs, 0
  {
    var rewritten := RewriteAll(c, inputs);
    var kept := ReconcileInputs(existing, rewritten, ids).value;
    LeftoverIsPlain(existing, rewritten);
    forall i | 0 <= i < |kept| ensures PlainDefault(kept[i]) {
      assert inputs[i] in inputs;
      ReconciledOneIsPlain(c, existing, inputs[i], depth, ids);
    }
  }

  lemma {:induction false} ReconciledOneIsPlain(c: Codec, existing: seq<Field>, input: FieldInput, depth: nat,
      ids: string -> string)
    requires PlainDefaults(existing) && InputValid(c, input, depth)
    requires ReconcileOne(existing, Rewrite(c, input), ids).Ok?
    ensures PlainDefault(ReconcileOne(existing, Rewrite(c, input), ids).value)
    decreases input, 1
  {
    var was := Lookup(existing, input.key);
    if was.Some? {
      assert PlainDefault(was.value);
      if IsReference(input.kind) { ReferenceHasNoDefault(c, input); }
      assert AllValid(c, input.children, depth + 1);
      ReconciledIsPlain(c, was.value.children, input.children, depth + 1, ids);
    } else {
      BuiltIsPlain(c, input, depth, ids);
    }
  }

  lemma UpdatedIsPlain(c: Codec, f: Field, depth: nat, patch: Patch, contentExists: bool, ids: string -> string)
    requires PlainDefault(f) && UpdateField(c, f, depth, patch, contentExists, ids).Ok?
    ensures PlainDefault(UpdateField(c, f, depth, patch, contentExists, ids).value)
  {
    var input := PatchedInput(f, patch);
    if IsReference(input.kind) { ReferenceHasNoDefault(c, input); }
    if patch.children.Some? { ReconciledIsPlain(c, f.children, input.children, depth + 1, ids); }
  }

  lemma {:induction false} PlainAt(fields: seq<Field>, path: seq<string>)
    requires PlainDefaults(fields) && At(fields, path).Some?
    ensures PlainDefault(At(fields, path).value)
    decreases |path|
  {
    assert PlainDefault(Lookup(fields, path[0]).value);
    if |path| > 1 { PlainAt(Lookup(fields, path[0]).value.children, path[1..]); }
  }

  lemma {:induction false} PutIsPlain(fields: seq<Field>, path: seq<string>, g: Field)
    requires PlainDefaults(fields) && path != [] && PlainDefault(g)
    ensures PlainDefaults(Put(fields, path, g))
    decreases |path|
  {
    var result := Put(fields, path, g);
    forall i | 0 <= i < |fields| ensures PlainDefault(result[i]) {
      assert PlainDefault(fields[i]);
      if fields[i].key == path[0] && |path| > 1 { PutIsPlain(fields[i].children, path[1..], g); }
    }
  }

  lemma {:induction false} UpdateKeepsPlain(c: Codec, fields: seq<Field>, path: seq<string>, patch: Patch,
      contentExists: bool, ids: string -> string)
    requires WellFormed(fields) && PlainDefaults(fields)
    requires Apply(c, fields, Update(path, patch), contentExists, ids).Ok?
    ensures PlainDefaults(Apply(c, fields, Update(path, patch), contentExists, ids).value)
  {
    UpdateShape(c, fields, path, patch, contentExists, ids);
    PlainAt(fields, path);
    UpdatedIsPlain(c, At(fields, path).value, |path| - 1, patch, contentExists, ids);
    PutIsPlain(fields, path, Patched(c, fields, path, patch, contentExists, ids));
  }

  lemma {:induction false} StepKeepsPlain(c: Codec, fields: seq<Field>, op: Op, contentExists: bool,
      ids: string -> string)
    requires WellFormed(fields) && PlainDefaults(fields) && Apply(c, fields, op, contentExists, ids).Ok?
    ensures PlainDefaults(Apply(c, fields, op, contentExists, ids).value)
  {
    match op
    case Update(path, patch) => UpdateKeepsPlain(c, fields, path, patch, contentExists, ids);
    case Create(input) =>
      CreatedIsNew(c, fields, input, ids);
      BuiltIsPlain(c, input, 0, ids);
    case CreateChild(path, input) =>
      CreatedChildIsNew(c, fields, path, input, ids);
      var parent := At(fields, path).value;
      PlainAt(fields, path);
      BuiltIsPlain(c, ValidateField(c, input, 0).value, |path|, ids);
      PutIsPlain(fields, path, parent.(children := parent.children + [CreatedField(c, input, path, ids)]));
    case Archive(path) =>
      ArchiveShape(fields, path);
      PlainAt(fields, path);
      ArchivedIsPlain(At(fields, path).value);
      PutIsPlain(fields, path, ArchiveTree(At(fields, path).value));
  }

  lemma {:induction false} RunKeepsPlain(c: Codec, ids: string -> string, events: seq<Event>)
    ensures PlainDefaults(After(c, ids, events).fields)
    decreases |events|
  {
    if events != [] {
      var s, e := After(c, ids, events[..|events| - 1]), events[|events| - 1];
      RunKeepsPlain(c, ids, events[..|events| - 1]);
      RunSustains(c, ids, events[..|events| - 1]);
      if e.Schema? && Apply(c, s.fields, e.op, s.stored != [], ids).Ok? { StepKeepsPlain(c, s.fields, e.op, s.stored != [], ids); }
    }
  }

  /** In every reachable state of a schema that then stays unchanged, the relation conflict of an import never
      fires, and the asset conflict exactly when a default filled into the draft names an asset the draft does not. */
  lemma PrecheckCoversWriteIff(c: Codec, ids: string -> string, events: seq<Event>, raw: Json)
    requires SanitizerKeepsAssets(c) && ValidateContent(c, Some(raw), After(c, ids, events).fields).Ok?
    ensures var fields := After(c, ids, events).fields;
      && !RelationConflict(c, raw, fields)
      && (AssetConflict(c, raw, fields) <==> !(FilledAssets(c, raw.members, fields) <= DraftAssets(c, raw.members, fields)))
      && (DefaultsNameNothing(c, fields) ==> !AssetConflict(c, raw, fields))
  {
    var fields := After(c, ids, events).fields;
    RunSustains(c, ids, events);
    RunKeepsPlain(c, ids, events);
    forall f | f in fields && IsRelation(f.kind) ensures f.defaultValue.JNull? { assert PlainDefault(f); }
    TargetsCovered(c, raw.members, fields, fields);
    AssetConflictIff(c, raw, fields);
    if DefaultsNameNothing(c, fields) { NoNamesNoConflict(c, raw, fields); }
  }

  // ---- the conflict does fire ----

  const RETYPE: Patch := Patch(Some(SingleMedia), None, Some(JNull), Some(NO_CONSTRAINTS), Some([]))

  function MediaParent(ids: string -> string): Field {
    Field(ids("o"), "o", ObjectField, false, NAMES_CHILD, NO_CONSTRAINTS,
          [Field(ids("a"), "a", SingleMedia, false, JNull, NO_CONSTRAINTS, [], true)], true)
  }

  lemma ChildRetyped(c: Codec, ids: string -> string)
    ensures Step(c, ids, State([ParentField(ids, NAMES_CHILD, true)], []), Schema(Update(["o", "a"], RETYPE))) ==
      State([MediaParent(ids)], [])
  {
    var o, a := ParentField(ids, NAMES_CHILD, true), ChildField(ids, true);
    var next := MediaParent(ids).children[0];
    assert Lookup([o], "o") == Some(o) && Lookup([a], "a") == Some(a);
    assert ["o", "a"][1..] == ["a"];
    assert At([o], ["o", "a"]) == Some(a);
    RetypingAccepted(c, ids);
    assert Put([a], ["a"], next) == [next];
    assert Put([o], ["o", "a"], next) == [MediaParent(ids)];
  }

  lemma RetypingAccepted(c: Codec, ids: string -> string)
    ensures UpdateField(c, ChildField(ids, true), 1, RETYPE, false, ids) == Ok(MediaParent(ids).children[0])
  {
    var input := PatchedInput(ChildField(ids, true), RETYPE);
    assert InputValid(c, input, 1);
    assert KeysFresh(input, {}) && Rewrite(c, input) == input;
    var none: seq<Field> := [];
    assert ReconcileInputs(none, [], ids) == Ok(none) && Leftover(none, []) == none && none + none == none;
    assert Reconcile(none, [], ids) == Ok(none);
  }

  /** An object is created with a default for its text child, the child is turned into a media field while the
      model is empty, and the default is not validated again: importing an empty draft is refused. */
  lemma RetypedChildMeetsConflict(c: Codec, ids: string -> string)
    requires SanitizerKeepsAssets(c)
    ensures var s := After(c, ids, [Schema(Create(Parent(NAMES_CHILD))), Schema(Update(["o", "a"], RETYPE))]);
      && s.fields == [MediaParent(ids)] && ValidateContent(c, Some(JObj(map[])), s.fields).Ok?
      && AssetConflict(c, JObj(map[]), s.fields)
  {
    ParentCreated(c, ids, NAMES_CHILD);
    ChildRetyped(c, ids);
    AfterTwo(c, ids, Schema(Create(Parent(NAMES_CHILD))), Schema(Update(["o", "a"], RETYPE)));
    MediaDefaultConflicts(c, ids);
  }

  lemma AfterTwo(c: Codec, ids: string -> string, e: Event, f: Event)
    ensures After(c, ids, [e, f]) == Step(c, ids, After(c, ids, [e]), f)
  {
    assert [e, f][..1] == [e];
  }

  lemma MediaDefaultConflicts(c: Codec, ids: string -> string)
    requires SanitizerKeepsAssets(c)
    ensures ValidateContent(c, Some(JObj(map[])), [MediaParent(ids)]).Ok?
    ensures AssetConflict(c, JObj(map[]), [MediaParent(ids)])
  {
    var o := MediaParent(ids);
    assert ActiveField(o.children, "a") == Some(o.children[0]);
    assert AcceptsField(c, NAMES_CHILD.members, o.children[0]);
    assert AcceptsObject(c, NAMES_CHILD.members, o.children);
    assert AcceptsField(c, map[], o) && AcceptsObject(c, map[], [o]);
    EmptyDraftConflictIff(c, [o]);
    MediaDefaultNames(c, ids);
  }

  lemma MediaDefaultNames(c: Codec, ids: string -> string)
    ensures "x" in DraftValueAssets(c, NormalizeValue(c, NAMES_CHILD, MediaParent(ids)), MediaParent(ids))
  {
    var a := MediaParent(ids).children[0];
    var members: map<string, Json> := map["a" := JStr("x")];
    var n := NormalizeObject(c, members, [a]);
    assert ActiveField([a], "a") == Some(a);
    assert "a" in members.Keys + DefaultedKeys(members, [a]);
    assert NormalizeValue(c, JStr("x"), a) == JStr("x") && n["a"] == JStr("x");
    assert "x" in DraftValueAssets(c, n["a"], a);
    assert "x" in DraftAssets(c, n, [a]);
  }
}
