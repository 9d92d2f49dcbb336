/** Content across whole runs of schema operations. */
module SchemaRuns {
  import opened Wrappers
  import opened FieldTree
  import opened ContentValidation
  import opened ContentProjection
  import opened Normalization
  import opened SchemaValidation
  import opened SchemaGate
  import opened GateSoundness
  import opened SchemaDefaults
  import opened SchemaService

  /** Stored content has the shape its projection under a later tree decodes. */
  lemma {:induction false} StoredValueIsShaped(c: Codec, v: Json, f: Field, g: Field)
    requires AcceptsValue(c, v, f) && Loosens(f, g)
    ensures Shaped(NormalizeValue(c, v, f), g)
    decreases f, 1
  {
    if v.JNull? { return; }
    match f.kind
    case ObjectField => StoredObjectIsShaped(c, v.members, f.children, g.children);
    case RepeatableGroup =>
      forall i | 0 <= i < |v.items| ensures ShapedObject(NormalizeObject(c, v.items[i].members, f.children), g.children) {
        StoredObjectIsShaped(c, v.items[i].members, f.children, g.children);
      }
    case _ =>
  }

  lemma {:induction false} StoredObjectIsShaped(c: Codec, members: map<string, Json>, fields: seq<Field>,
      updated: seq<Field>)
    requires AcceptsObject(c, members, fields) && LoosensAll(fields, updated)
    ensures ShapedObject(NormalizeObject(c, members, fields), updated)
    decreases fields, 0
  {
    var n := NormalizeObject(c, members, fields);
    forall key | key in n && ActiveField(updated, key).Some? ensures Shaped(n[key], ActiveField(updated, key).value) {
      var f := ActiveField(fields, key).value;
      assert LoosensOrArchives(f, Lookup(updated, f.key).value);
      assert AcceptsField(c, members, f);
      StoredValueIsShaped(c, if key in members then members[key] else f.defaultValue, f, ActiveField(updated, key).value);
    }
  }

  // ---- one gated update ----

  /** The gate is sound: whatever was stored under the old tree is accepted, unprojected, under the tree an
      update leaves while content exists, exactly when its rich texts fit and every object in it may lack
      the fields it lacks. */
  lemma GateIsSound(c: Codec, body: Json, fields: seq<Field>, path: seq<string>, patch: Patch, ids: string -> string)
    requires Sound(c) && WellFormed(fields) && ValidateContent(c, Some(body), fields).Ok?
    requires Apply(c, fields, Update(path, patch), true, ids).Ok?
    ensures var updated := Apply(c, fields, Update(path, patch), true, ids).value;
      var stored := ValidateContent(c, Some(body), fields).value;
      ValidateContent(c, Some(stored), updated).Ok? <==> RichTextsFit(stored.members, updated) && LackFits(c, stored.members, updated)
  {
    var updated := Apply(c, fields, Update(path, patch), true, ids).value;
    StepLoosens(c, fields, Update(path, patch), ids);
    StepKeepsWellFormed(c, fields, Update(path, patch), true, ids);
    PreserveObject(c, body.members, fields, updated);
    UpdateKeeps(c, fields, path, patch, ids);
    KeptObjectUnchanged(c, body.members, fields, updated);
  }

  lemma PatchedLoosens(c: Codec, fields: seq<Field>, path: seq<string>, patch: Patch, ids: string -> string, f: Field,
      g: Field)
    requires WellFormed(fields) && path != [] && At(fields, path) == Some(f)
    requires UpdateField(c, f, |path| - 1, patch, true, ids) == Ok(g)
    ensures f.active && BoundsAreDecimals(f.constraints) && WellFormed(f.children)
    ensures g.active && g.key == f.key && BoundsAreDecimals(g.constraints) && WellFormed(g.children)
    ensures Loosens(f, g) && KeepsAll(f.children, g.children)
  {
    AtIsWellFormed(fields, path);
    UpdatedLoosens(c, f, g, |path| - 1, patch, ids);
  }

  lemma UpdatedLoosens(c: Codec, f: Field, g: Field, depth: nat, patch: Patch, ids: string -> string)
    requires BoundsAreDecimals(f.constraints) && WellFormed(f.children)
    requires UpdateField(c, f, depth, patch, true, ids) == Ok(g)
    ensures g.active && g.key == f.key && BoundsAreDecimals(g.constraints) && WellFormed(g.children)
    ensures Loosens(f, g) && KeepsAll(f.children, g.children)
  {
    UpdateWellFormed(c, f, depth, patch, true, ids);
    UpdateLoosens(c, f, depth, patch, ids);
  }

  /** What a caller can check of a patch beforehand: when the default it gives to a field that had none,
      and the defaults it gives to children that had none, are strict, it breaks no stored content. */
  lemma StrictPatchesBreakNothing(c: Codec, body: Json, fields: seq<Field>, path: seq<string>, patch: Patch,
      ids: string -> string)
    requires Sound(c) && WellFormed(fields) && ValidateContent(c, Some(body), fields).Ok?
    requires Apply(c, fields, Update(path, patch), true, ids).Ok?
    requires PatchStrict(c, At(fields, path).value, Patched(c, fields, path, patch, true, ids))
    ensures var updated := Apply(c, fields, Update(path, patch), true, ids).value;
      var stored := ValidateContent(c, Some(body), fields).value;
      ValidateContent(c, Some(stored), updated).Ok? <==> RichTextsFit(stored.members, updated)
  {
    GateIsSound(c, body, fields, path, patch, ids);
    StrictPatchFills(c, fields, path, patch, ids);
    var updated := Apply(c, fields, Update(path, patch), true, ids).value;
    StepLoosens(c, fields, Update(path, patch), ids);
    StepKeepsWellFormed(c, fields, Update(path, patch), true, ids);
    FilledLacksNothing(c, body.members, fields, updated);
    UpdateKeeps(c, fields, path, patch, ids);
    KeptObjectUnchanged(c, body.members, fields, updated);
  }

  lemma StrictPatchFills(c: Codec, fields: seq<Field>, path: seq<string>, patch: Patch, ids: string -> string)
    requires Sound(c) && WellFormed(fields) && Apply(c, fields, Update(path, patch), true, ids).Ok?
    requires PatchStrict(c, At(fields, path).value, Patched(c, fields, path, patch, true, ids))
    ensures FillsPass(c, fields, Apply(c, fields, Update(path, patch), true, ids).value)
  {
    UpdateShape(c, fields, path, patch, true, ids);
    PatchedLoosens(c, fields, path, patch, ids, At(fields, path).value, Patched(c, fields, path, patch, true, ids));
    PatchFillsIff(c, At(fields, path).value, |path| - 1, patch, ids);
    PutFills(c, fields, path, Patched(c, fields, path, patch, true, ids));
  }

  /** And for a root field the check is exact: content that lacks the field is accepted, rich texts aside,
      exactly when the default it gets is strict. */
  lemma LackingContentNeedsStrictDefault(c: Codec, body: Json, fields: seq<Field>, key: string, patch: Patch,
      ids: string -> string)
    requires Sound(c) && WellFormed(fields) && ValidateContent(c, Some(body), fields).Ok?
    requires Apply(c, fields, Update([key], patch), true, ids).Ok?
    requires key !in ValidateContent(c, Some(body), fields).value.members
    ensures var updated := Apply(c, fields, Update([key], patch), true, ids).value;
      var stored := ValidateContent(c, Some(body), fields).value;
      var g := Patched(c, fields, [key], patch, true, ids);
      ValidateContent(c, Some(stored), updated).Ok? <==> RichTextsFit(stored.members, updated) && DefaultStrict(c, g.defaultValue, g)
  {
    var g := Patched(c, fields, [key], patch, true, ids);
    GateIsSound(c, body, fields, [key], patch, ids);
    UpdateShape(c, fields, [key], patch, true, ids);
    PatchedLoosens(c, fields, [key], patch, ids, At(fields, [key]).value, Patched(c, fields, [key], patch, true, ids));
    LackedDefaultIff(c, body.members, fields, key, patch, ids);
    LoosensReflexive(c, fields);
    FilledLacksNothing(c, body.members, fields, fields);
    KeptObjectUnchanged(c, body.members, fields, fields);
    LackAfterPut(c, NormalizeObject(c, body.members, fields), fields, key, g);
  }

  lemma LackedDefaultIff(c: Codec, members: map<string, Json>, fields: seq<Field>, key: string, patch: Patch,
      ids: string -> string)
    requires Sound(c) && WellFormed(fields) && AcceptsObject(c, members, fields)
    requires Apply(c, fields, Update([key], patch), true, ids).Ok? && key !in NormalizeObject(c, members, fields)
    ensures var g := Patched(c, fields, [key], patch, true, ids);
      MayLack(c, g) <==> DefaultStrict(c, g.defaultValue, g)
  {
    UpdateShape(c, fields, [key], patch, true, ids);
    PatchedLoosens(c, fields, [key], patch, ids, At(fields, [key]).value, Patched(c, fields, [key], patch, true, ids));
    var f := At(fields, [key]).value;
    UpdatedDefaultPassesIff(c, f, 0, patch, true, ids);
    StoredKeys(c, members, fields, f);
    assert AcceptsField(c, members, f);
  }

  lemma LackAfterPut(c: Codec, stored: map<string, Json>, fields: seq<Field>, key: string, g: Field)
    requires UniqueKeys(fields) && Lookup(fields, key).Some? && g.key == key && g.active
    requires key !in stored && LackFits(c, stored, fields)
    ensures LackFits(c, stored, Put(fields, [key], g)) <==> MayLack(c, g)
  {
    var updated := Put(fields, [key], g);
    var at :| 0 <= at < |fields| && fields[at] == Lookup(fields, key).value;
    assert updated[at] == g;
    forall h | h in updated && h.active && h.key != key
      ensures if h.key in stored then LackFitsIn(c, stored[h.key], h) else MayLack(c, h)
    {
      assert h in fields;
    }
  }

  /** If what an update leaves at its path lets stored content go, so does the whole tree. */
  lemma {:induction false} PutFills(c: Codec, fields: seq<Field>, path: seq<string>, g: Field)
    requires WellFormed(fields) && At(fields, path).Some? && At(fields, path).value.active
    requires g.key == At(fields, path).value.key && BoundsAreDecimals(g.constraints) && WellFormed(g.children)
    requires At(fields, path).value.defaultValue.JNull? ==> DefaultPasses(c, g)
    requires FillsPass(c, At(fields, path).value.children, g.children)
    ensures FillsPass(c, fields, Put(fields, path, g))
    decreases |path|
  {
    var result := Put(fields, path, g);
    forall i | 0 <= i < |fields| && result[i].active
      ensures result[i].key == fields[i].key && fields[i].active
      ensures ActiveField(fields, fields[i].key) == Some(fields[i])
      ensures fields[i].defaultValue.JNull? ==> DefaultPasses(c, result[i])
      ensures FillsPass(c, fields[i].children, result[i].children)
    {
      LookupFinds(fields, fields[i]);
      if fields[i].key == path[0] && |path| > 1 {
        PutFills(c, fields[i].children, path[1..], g);
      } else if fields[i].key != path[0] {
        LoosensReflexive(c, fields[i].children);
      }
    }
  }

  /** A gated update archives no active field anywhere in the tree. */
  lemma UpdateKeeps(c: Codec, fields: seq<Field>, path: seq<string>, patch: Patch, ids: string -> string)
    requires WellFormed(fields) && Apply(c, fields, Update(path, patch), true, ids).Ok?
    ensures KeepsAll(fields, Apply(c, fields, Update(path, patch), true, ids).value)
  {
    UpdateShape(c, fields, path, patch, true, ids);
    PatchedLoosens(c, fields, path, patch, ids, At(fields, path).value, Patched(c, fields, path, patch, true, ids));
    PutKeeps(c, fields, path, Patched(c, fields, path, patch, true, ids));
  }

  lemma {:induction false} PutKeeps(c: Codec, fields: seq<Field>, path: seq<string>, g: Field)
    requires WellFormed(fields) && At(fields, path).Some? && g.key == At(fields, path).value.key && g.active
    requires KeepsAll(At(fields, path).value.children, g.children)
    ensures KeepsAll(fields, Put(fields, path, g))
    decreases |path|
  {
    var result := Put(fields, path, g);
    forall i | 0 <= i < |fields| && fields[i].active
      ensures ActiveField(result, fields[i].key) == Some(result[i]) && KeepsAll(fields[i].children, result[i].children)
    {
      LookupFinds(fields, fields[i]);
      assert UniqueKeys(result) && result[i] in result;
      LookupFinds(result, result[i]);
      if fields[i].key == path[0] && |path| > 1 {
        PutKeeps(c, fields[i].children, path[1..], g);
      } else if fields[i].key != path[0] {
        LoosensReflexive(c, fields[i].children);
      }
    }
  }

  // ---- whole runs ----

  /** Anything that happens to a model: an operation on its schema, or content written under it. */
  datatype Event = Schema(op: Op) | Write(body: Json)

  /** The field tree, and all content ever stored. */
  datatype State = State(fields: seq<Field>, stored: seq<Json>)

  /** Refused requests change nothing; the gate is closed once content exists. */
  function Step(c: Codec, ids: string -> string, s: State, e: Event): State {
    match e
    case Schema(op) =>
      var r := Apply(c, s.fields, op, s.stored != [], ids);
      if r.Ok? then s.(fields := r.value) else s
    case Write(body) =>
      var r := ValidateContent(c, Some(body), s.fields);
      if r.Ok? then s.(stored := s.stored + [r.value]) else s
  }

  /** The state of a model after these events, from its creation. */
  function After(c: Codec, ids: string -> string, events: seq<Event>): State {
    if events == [] then State([], []) else Step(c, ids, After(c, ids, events[..|events| - 1]), events[|events| - 1])
  }

  /** Content stored under a tree that has only been loosened since. */
  ghost predicate StoredBefore(c: Codec, stored: Json, fields: seq<Field>) {
    exists body, was :: WellFormed(was) && LoosensAll(was, fields) && ValidateContent(c, Some(body), was) == Ok(stored)
  }

  ghost predicate Sustained(c: Codec, s: State) {
    WellFormed(s.fields) && forall v :: v in s.stored ==> StoredBefore(c, v, s.fields)
  }

  lemma {:induction false} StepSustains(c: Codec, ids: string -> string, s: State, e: Event)
    requires Sustained(c, s)
    ensures Sustained(c, Step(c, ids, s, e))
  {
    match e
    case Schema(op) =>
      if Apply(c, s.fields, op, s.stored != [], ids).Ok? {
        StepKeepsWellFormed(c, s.fields, op, s.stored != [], ids);
        forall v | v in s.stored ensures StoredBefore(c, v, Step(c, ids, s, e).fields) {
          StepLoosens(c, s.fields, op, ids);
          var body, was :| WellFormed(was) && LoosensAll(was, s.fields) && ValidateContent(c, Some(body), was) == Ok(v);
          LoosensAllTransitive(was, s.fields, Step(c, ids, s, e).fields);
        }
      }
    case Write(body) => LoosensReflexive(c, s.fields);
  }

  lemma {:induction false} RunSustains(c: Codec, ids: string -> string, events: seq<Event>)
    ensures Sustained(c, After(c, ids, events))
    decreases |events|
  {
    if events != [] {
      RunSustains(c, ids, events[..|events| - 1]);
      StepSustains(c, ids, After(c, ids, events[..|events| - 1]), events[|events| - 1]);
    }
  }

  /** What validateContent makes of stored content read back under a later tree: the projection never fails
      to decode, and is accepted exactly when its rich texts fit and every object in it may lack the fields
      it lacks: each is optional without a default, or has a default that passes. */
  predicate Survives(c: Codec, stored: Json, fields: seq<Field>) {
    var p := ActiveRootContent(stored, fields);
    p.Some? && (ValidateContent(c, p, fields).Ok? <==> RichTextsFit(p.value.members, fields) && LackFits(c, p.value.members, fields))
  }

  lemma LoosenedKeepsStored(c: Codec, body: Json, fields: seq<Field>, updated: seq<Field>)
    requires Sound(c) && WellFormed(fields) && WellFormed(updated) && LoosensAll(fields, updated)
    requires ValidateContent(c, Some(body), fields).Ok?
    ensures Survives(c, ValidateContent(c, Some(body), fields).value, updated)
  {
    var members := NormalizeObject(c, body.members, fields);
    StoredObjectIsShaped(c, body.members, fields, updated);
    assert ActiveRootContent(JObj(members), updated) == Some(JObj(ActiveObject(members, updated)));
    PreserveObject(c, body.members, fields, updated);
  }

  /** Over any run of any requests, from the creation of the model, everything ever stored survives. */
  lemma StoredContentSurvivesRuns(c: Codec, ids: string -> string, events: seq<Event>, stored: Json)
    requires Sound(c) && stored in After(c, ids, events).stored
    ensures Survives(c, stored, After(c, ids, events).fields)
  {
    var s := After(c, ids, events);
    RunSustains(c, ids, events);
    assert StoredBefore(c, stored, s.fields);
    var body, was :| WellFormed(was) && LoosensAll(was, s.fields) && ValidateContent(c, Some(body), was) == Ok(stored);
    LoosenedKeepsStored(c, body, was, s.fields);
  }
}
