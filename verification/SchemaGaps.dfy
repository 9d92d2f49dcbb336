/** What the gate does not ask about: creating fields, dropping defaults, and defaults that name an
    archived child. For each, exactly which content it breaks. */
module SchemaGaps {
  import opened Wrappers
  import opened FieldTree
  import opened ContentValidation
  import opened Normalization
  import opened SchemaValidation
  import opened SchemaGate
  import opened SchemaDefaults
  import opened SchemaService
  import opened SchemaRuns

  // ---- stored content is complete ----

  /** At any nesting, every member belongs to an active field, and what is absent is optional and has no default. */
  predicate Complete(members: map<string, Json>, fields: seq<Field>)
    decreases fields, 0
  {
    && (forall key :: key in members ==>
          ActiveField(fields, key).Some? && CompleteIn(members[key], ActiveField(fields, key).value))
    && (forall f :: f in fields && f.active && f.key !in members ==> f.defaultValue.JNull? && !f.required)
  }

  predicate CompleteIn(v: Json, f: Field)
    decreases f, 1
  {
    match f.kind
    case ObjectField => v.JObj? ==> Complete(v.members, f.children)
    case RepeatableGroup => v.JArr? ==> forall i :: 0 <= i < |v.items| && v.items[i].JObj? ==> Complete(v.items[i].members, f.children)
    case _ => true
  }

  lemma {:induction false} NormalIsComplete(c: Codec, members: map<string, Json>, fields: seq<Field>)
    requires WellFormed(fields) && AcceptsObject(c, members, fields)
    ensures Complete(NormalizeObject(c, members, fields), fields)
    decreases fields, 0
  {
    var n := NormalizeObject(c, members, fields);
    forall key | key in n ensures CompleteIn(n[key], ActiveField(fields, key).value) {
      var f := ActiveField(fields, key).value;
      assert AcceptsField(c, members, f);
      NormalValueIsComplete(c, if key in members then members[key] else f.defaultValue, f);
    }
    forall f | f in fields && f.active && f.key !in n ensures f.defaultValue.JNull? && !f.required {
      StoredKeys(c, members, fields, f);
      assert AcceptsField(c, members, f);
    }
  }

  lemma {:induction false} NormalValueIsComplete(c: Codec, v: Json, f: Field)
    requires WellFormed(f.children) && AcceptsValue(c, v, f)
    ensures CompleteIn(NormalizeValue(c, v, f), f)
    decreases f, 1
  {
    if v.JNull? { return; }
    match f.kind
    case ObjectField => NormalIsComplete(c, v.members, f.children);
    case RepeatableGroup =>
      forall i | 0 <= i < |v.items| ensures Complete(NormalizeObject(c, v.items[i].members, f.children), f.children) {
        NormalIsComplete(c, v.items[i].members, f.children);
      }
    case _ =>
  }

  // ---- one field of a tree at a time ----

  lemma {:induction false} PositionOf(fields: seq<Field>, key: string) returns (at: nat)
    requires UniqueKeys(fields) && Lookup(fields, key).Some?
    ensures at < |fields| && fields[at].key == key && Lookup(fields, key) == Some(fields[at])
    ensures forall i :: 0 <= i < |fields| && i != at ==> fields[i].key != key
  {
    at :| 0 <= at < |fields| && fields[at] == Lookup(fields, key).value;
  }

  /** What an object has to satisfy for one active field. */
  predicate SlotAccepts(c: Codec, members: map<string, Json>, f: Field) {
    f.active ==> AcceptsField(c, members, f) && (f.key in members ==> AcceptsValue(c, members[f.key], f))
  }

  predicate KeysActive(members: map<string, Json>, fields: seq<Field>) {
    forall key :: key in members ==> ActiveField(fields, key).Some?
  }

  predicate SlotsAccept(c: Codec, members: map<string, Json>, fields: seq<Field>) {
    forall i :: 0 <= i < |fields| ==> SlotAccepts(c, members, fields[i])
  }

  lemma {:induction false} AcceptsBySlot(c: Codec, members: map<string, Json>, fields: seq<Field>)
    requires UniqueKeys(fields) && KeysActive(members, fields)
    ensures AcceptsObject(c, members, fields) <==> SlotsAccept(c, members, fields)
  {
    if AcceptsObject(c, members, fields) {
      forall i | 0 <= i < |fields| ensures SlotAccepts(c, members, fields[i]) { LookupFinds(fields, fields[i]); }
    }
  }

  lemma {:induction false} SlotReplaced(c: Codec, members: map<string, Json>, fields: seq<Field>, at: nat, next: Field)
    requires at < |fields|
    ensures SlotsAccept(c, members, fields[at := next]) ==> SlotAccepts(c, members, next)
    ensures SlotsAccept(c, members, fields[at := next]) && SlotAccepts(c, members, fields[at]) ==> SlotsAccept(c, members, fields)
  {
    var updated := fields[at := next];
    if SlotsAccept(c, members, updated) {
      assert SlotAccepts(c, members, updated[at]);
      forall i | 0 <= i < |fields| && i != at ensures SlotAccepts(c, members, fields[i]) {
        assert SlotAccepts(c, members, updated[i]);
      }
    }
  }

  lemma {:induction false} KeysStayActive(members: map<string, Json>, fields: seq<Field>, at: nat, next: Field)
    requires UniqueKeys(fields) && KeysActive(members, fields)
    requires at < |fields| && next.key == fields[at].key && next.active == fields[at].active
    ensures UniqueKeys(fields[at := next]) && KeysActive(members, fields[at := next])
  {
    var updated := fields[at := next];
    forall key | key in members ensures ActiveField(updated, key).Some? {
      var i := PositionOf(fields, key);
      LookupFinds(updated, updated[i]);
    }
  }

  /** Replacing one field by one with the same key and status changes acceptance by that field alone. */
  lemma {:induction false} ReplacedAccepts(c: Codec, members: map<string, Json>, fields: seq<Field>, at: nat,
      next: Field)
    requires UniqueKeys(fields) && KeysActive(members, fields)
    requires at < |fields| && next.key == fields[at].key && next.active == fields[at].active
    ensures AcceptsObject(c, members, fields) ==>
      SlotAccepts(c, members, fields[at]) && (AcceptsObject(c, members, fields[at := next]) <==> SlotAccepts(c, members, next))
    ensures AcceptsObject(c, members, fields[at := next]) && SlotAccepts(c, members, fields[at]) ==> AcceptsObject(c, members, fields)
    ensures AcceptsObject(c, members, fields[at := next]) ==> SlotAccepts(c, members, next)
  {
    KeysStayActive(members, fields, at, next);
    AcceptsBySlot(c, members, fields);
    AcceptsBySlot(c, members, fields[at := next]);
    SlotReplaced(c, members, fields, at, next);
    assert fields[at := next][at := fields[at]] == fields;
    SlotReplaced(c, members, fields[at := next], at, fields[at]);
  }

  // ---- creating a field ----

  /** The content has an object at this path of active fields: the field to be created would be its member. */
  predicate HasObjectAt(members: map<string, Json>, fields: seq<Field>, path: seq<string>)
    decreases |path|, 1
  {
    path == [] ||
    (ActiveField(fields, path[0]).Some? && path[0] in members
     && HasObjectIn(members[path[0]], ActiveField(fields, path[0]).value, path[1..]))
  }

  predicate HasObjectIn(v: Json, f: Field, rest: seq<string>)
    decreases |rest|, 2
  {
    match f.kind
    case ObjectField => v.JObj? && HasObjectAt(v.members, f.children, rest)
    case RepeatableGroup =>
      v.JArr? && exists i :: 0 <= i < |v.items| && v.items[i].JObj? && HasObjectAt(v.items[i].members, f.children, rest)
    case _ => false
  }

  /** The tree with a field appended to the children of the field at the path. */
  function Added(fields: seq<Field>, path: seq<string>, g: Field): (r: seq<Field>)
    decreases |path|
  {
    if path == [] then fields + [g]
    else
      seq(|fields|, i requires 0 <= i < |fields| =>
        if fields[i].key == path[0] then fields[i].(children := Added(fields[i].children, path[1..], g)) else fields[i])
  }

  lemma {:induction false} PutIsAdded(fields: seq<Field>, path: seq<string>, g: Field)
    requires WellFormed(fields) && At(fields, path).Some?
    ensures var parent := At(fields, path).value;
      Put(fields, path, parent.(children := parent.children + [g])) == Added(fields, path, g)
    decreases |path|
  {
    var parent := At(fields, path).value;
    forall i | 0 <= i < |fields| && fields[i].key == path[0]
      ensures Put(fields, path, parent.(children := parent.children + [g]))[i] == Added(fields, path, g)[i]
    {
      LookupFinds(fields, fields[i]);
      if |path| > 1 { PutIsAdded(fields[i].children, path[1..], g); }
    }
  }

  /** The siblings at the end of the path. */
  function ChildrenAt(fields: seq<Field>, path: seq<string>): seq<Field>
    decreases |path|
  {
    if path == [] then fields
    else if Lookup(fields, path[0]).None? then []
    else ChildrenAt(Lookup(fields, path[0]).value.children, path[1..])
  }

  lemma {:induction false} ChildrenAtParent(fields: seq<Field>, path: seq<string>)
    requires At(fields, path).Some?
    ensures ChildrenAt(fields, path) == At(fields, path).value.children
    decreases |path|
  {
    if |path| > 1 { ChildrenAtParent(Lookup(fields, path[0]).value.children, path[1..]); }
  }

  /** Complete content accepted before is accepted after the creation exactly when none of its objects
      gets the new field, or the field may be lacking. */
  lemma {:induction false} AddedAccepts(c: Codec, members: map<string, Json>, fields: seq<Field>, path: seq<string>,
      g: Field)
    requires WellFormed(fields) && Complete(members, fields) && g.active
    requires Lookup(ChildrenAt(fields, path), g.key).None?
    ensures AcceptsObject(c, members, Added(fields, path, g))
       <==> AcceptsObject(c, members, fields) && (HasObjectAt(members, fields, path) ==> MayLack(c, g))
    decreases |path|, 1
  {
    if path == [] {
      AppendedAccepts(c, members, fields, g);
    } else if Lookup(fields, path[0]).Some? {
      var at := PositionOf(fields, path[0]);
      var f := fields[at];
      var next := f.(children := Added(f.children, path[1..], g));
      assert Added(fields, path, g) == fields[at := next];
      if f.active && f.key in members { AddedAcceptsIn(c, members[f.key], f, path[1..], g); }
      ReplacedAccepts(c, members, fields, at, next);
    } else {
      assert Added(fields, path, g) == fields;
    }
  }

  lemma {:induction false} AppendedAccepts(c: Codec, members: map<string, Json>, fields: seq<Field>, g: Field)
    requires UniqueKeys(fields) && Complete(members, fields) && g.active && Lookup(fields, g.key).None?
    ensures AcceptsObject(c, members, fields + [g]) <==> AcceptsObject(c, members, fields) && MayLack(c, g)
  {
    var updated := fields + [g];
    AppendedLookup(fields, g);
    AcceptsBySlot(c, members, fields);
    AcceptsBySlot(c, members, updated);
    assert g.key !in members;
    assert updated[|fields|] == g && forall i :: 0 <= i < |fields| ==> updated[i] == fields[i];
    assert SlotAccepts(c, members, g) <==> MayLack(c, g);
  }

  lemma {:induction false} AddedAcceptsIn(c: Codec, v: Json, f: Field, rest: seq<string>, g: Field)
    requires WellFormed(f.children) && CompleteIn(v, f) && g.active && Lookup(ChildrenAt(f.children, rest), g.key).None?
    ensures AcceptsValue(c, v, f.(children := Added(f.children, rest, g)))
       <==> AcceptsValue(c, v, f) && (HasObjectIn(v, f, rest) ==> MayLack(c, g))
    decreases |rest|, 2
  {
    match f.kind
    case ObjectField => if v.JObj? { AddedAccepts(c, v.members, f.children, rest, g); }
    case RepeatableGroup =>
      if v.JArr? {
        forall i | 0 <= i < |v.items| && v.items[i].JObj?
          ensures AcceptsObject(c, v.items[i].members, Added(f.children, rest, g))
             <==> AcceptsObject(c, v.items[i].members, f.children) && (HasObjectAt(v.items[i].members, f.children, rest) ==> MayLack(c, g))
        {
          AddedAccepts(c, v.items[i].members, f.children, rest, g);
        }
      }
    case _ =>
  }

  /** A created field may be lacking: it is optional without a default, or its default is strict. */
  predicate CreatedFits(c: Codec, g: Field) {
    if g.defaultValue.JNull? then !g.required else DefaultStrict(c, g.defaultValue, g)
  }

  function Creation(path: seq<string>, input: FieldInput): Op {
    if path == [] then Create(input) else CreateChild(path, input)
  }

  lemma CreatedMayLackIff(c: Codec, fields: seq<Field>, path: seq<string>, input: FieldInput, contentExists: bool,
      ids: string -> string)
    requires Sound(c) && Apply(c, fields, Creation(path, input), contentExists, ids).Ok?
    ensures var g := CreatedField(c, input, path, ids); MayLack(c, g) <==> CreatedFits(c, g)
  {
    if path == [] {
      CreatedDefaultPassesIff(c, input, 0, ids);
    } else {
      CreatedDefaultPassesIff(c, ValidateField(c, input, 0).value, |path|, ids);
    }
  }

  lemma CreationAdds(c: Codec, fields: seq<Field>, path: seq<string>, input: FieldInput, contentExists: bool,
      ids: string -> string)
    requires WellFormed(fields) && Apply(c, fields, Creation(path, input), contentExists, ids).Ok?
    ensures var g := CreatedField(c, input, path, ids);
      && g.active && Lookup(ChildrenAt(fields, path), g.key).None?
      && Apply(c, fields, Creation(path, input), contentExists, ids).value == Added(fields, path, g)
  {
    if path == [] {
      CreatedIsNew(c, fields, input, ids);
    } else {
      CreatedChildIsNew(c, fields, path, input, ids);
      ChildrenAtParent(fields, path);
      PutIsAdded(fields, path, CreatedField(c, input, path, ids));
    }
  }

  /** Creation is not gated. It keeps stored content valid, rich texts aside, exactly when the content has no
      object that gets the new field, or the field is optional without a default, or its default is strict. */
  lemma CreationKeepsContentIff(c: Codec, body: Json, fields: seq<Field>, path: seq<string>, input: FieldInput,
      contentExists: bool,
                                ids: string -> string)
    requires Sound(c) && WellFormed(fields) && ValidateContent(c, Some(body), fields).Ok?
    requires Apply(c, fields, Creation(path, input), contentExists, ids).Ok?
    ensures var stored := ValidateContent(c, Some(body), fields).value;
      var updated := Apply(c, fields, Creation(path, input), contentExists, ids).value;
      ValidateContent(c, Some(stored), updated).Ok? <==>
        && RichTextsFit(stored.members, fields)
        && (HasObjectAt(stored.members, fields, path) ==> CreatedFits(c, CreatedField(c, input, path, ids)))
  {
    CreationAdds(c, fields, path, input, contentExists, ids);
    CreatedMayLackIff(c, fields, path, input, contentExists, ids);
    AdditionKeepsContentIff(c, body, fields, path, CreatedField(c, input, path, ids));
  }

  lemma AdditionKeepsContentIff(c: Codec, body: Json, fields: seq<Field>, path: seq<string>, g: Field)
    requires Sound(c) && WellFormed(fields) && ValidateContent(c, Some(body), fields).Ok?
    requires g.active && Lookup(ChildrenAt(fields, path), g.key).None?
    ensures var stored := ValidateContent(c, Some(body), fields).value;
      ValidateContent(c, Some(stored), Added(fields, path, g)).Ok? <==>
        RichTextsFit(stored.members, fields) && (HasObjectAt(stored.members, fields, path) ==> MayLack(c, g))
  {
    RevalidationIsIdempotent(c, body, fields);
    NormalIsComplete(c, body.members, fields);
    AddedAccepts(c, NormalizeObject(c, body.members, fields), fields, path, g);
  }

  // ---- dropping a default ----

  /** Every object at the end of this path, in the content or in a default filled into it, has the last key. */
  predicate EveryObjectHas(members: map<string, Json>, fields: seq<Field>, path: seq<string>)
    requires path != []
    decreases |path|, 1
  {
    var f := ActiveField(fields, path[0]);
    f.Some? ==>
      if |path| == 1 then path[0] in members
      else EveryObjectInHas(if path[0] in members then members[path[0]] else f.value.defaultValue, f.value, path[1..])
  }

  predicate EveryObjectInHas(v: Json, f: Field, rest: seq<string>)
    requires rest != []
    decreases |rest|, 2
  {
    match f.kind
    case ObjectField => v.JObj? ==> EveryObjectHas(v.members, f.children, rest)
    case RepeatableGroup =>
      v.JArr? ==> forall i :: 0 <= i < |v.items| && v.items[i].JObj? ==> EveryObjectHas(v.items[i].members, f.children, rest)
    case _ => true
  }

  lemma {:induction false} DroppedAccepts(c: Codec, members: map<string, Json>, fields: seq<Field>, path: seq<string>)
    requires WellFormed(fields) && At(fields, path).Some? && At(fields, path).value.active
    requires AcceptsObject(c, members, fields)
    ensures AcceptsObject(c, members, Put(fields, path, At(fields, path).value.(defaultValue := JNull)))
       <==> (At(fields, path).value.required ==> EveryObjectHas(members, fields, path))
    decreases |path|, 1
  {
    var g := At(fields, path).value.(defaultValue := JNull);
    var at := PositionOf(fields, path[0]);
    var f := fields[at];
    var next := if |path| == 1 then g else f.(children := Put(f.children, path[1..], g));
    assert Put(fields, path, g) == fields[at := next];
    ReplacedAccepts(c, members, fields, at, next);
    if |path| == 1 {
      if f.key in members { DefaultIsNotRead(c, members[f.key], f); }
    } else if f.active {
      assert SlotAccepts(c, members, f);
      var v := if f.key in members then members[f.key] else f.defaultValue;
      if !v.JNull? { DroppedAcceptsIn(c, v, f, path[1..]); }
    }
  }

  lemma DefaultIsNotRead(c: Codec, v: Json, f: Field)
    ensures AcceptsValue(c, v, f.(defaultValue := JNull)) <==> AcceptsValue(c, v, f)
  {
  }

  lemma {:induction false} DroppedAcceptsIn(c: Codec, v: Json, f: Field, rest: seq<string>)
    requires WellFormed(f.children) && At(f.children, rest).Some? && At(f.children, rest).value.active
    requires AcceptsValue(c, v, f)
    ensures var g := At(f.children, rest).value.(defaultValue := JNull);
      AcceptsValue(c, v, f.(children := Put(f.children, rest, g))) <==> (g.required ==> EveryObjectInHas(v, f, rest))
    decreases |rest|, 2
  {
    if v.JNull? { return; }
    var g := At(f.children, rest).value.(defaultValue := JNull);
    match f.kind
    case ObjectField => DroppedAccepts(c, v.members, f.children, rest);
    case RepeatableGroup =>
      forall i | 0 <= i < |v.items|
        ensures AcceptsObject(c, v.items[i].members, Put(f.children, rest, g))
           <==> (g.required ==> EveryObjectHas(v.items[i].members, f.children, rest))
      {
        DroppedAccepts(c, v.items[i].members, f.children, rest);
      }
    case _ =>
  }

  const DROP_DEFAULT: Patch := Patch(None, None, Some(JNull), None, None)

  /** Dropping a default is not judged a tightening. Content accepted before is accepted after exactly when
      the field is optional or every object that can have it does. */
  lemma DroppingDefaultKeepsContentIff(c: Codec, body: Json, fields: seq<Field>, path: seq<string>,
      ids: string -> string)
    requires WellFormed(fields) && ValidateContent(c, Some(body), fields).Ok?
    requires Apply(c, fields, Update(path, DROP_DEFAULT), true, ids).Ok?
    ensures var updated := Apply(c, fields, Update(path, DROP_DEFAULT), true, ids).value;
      ValidateContent(c, Some(body), updated).Ok? <==> (At(fields, path).value.required ==> EveryObjectHas(body.members, fields, path))
  {
    DroppedShape(c, fields, path, ids);
    DroppedAccepts(c, body.members, fields, path);
  }

  lemma DroppedShape(c: Codec, fields: seq<Field>, path: seq<string>, ids: string -> string)
    requires Apply(c, fields, Update(path, DROP_DEFAULT), true, ids).Ok?
    ensures path != [] && At(fields, path).Some? && At(fields, path).value.active
    ensures Apply(c, fields, Update(path, DROP_DEFAULT), true, ids).value
         == Put(fields, path, At(fields, path).value.(defaultValue := JNull))
  {
    UpdateShape(c, fields, path, DROP_DEFAULT, true, ids);
    assert StoredDefault(c, PatchedInput(At(fields, path).value, DROP_DEFAULT)) == JNull;
  }

  // ---- a default that names an archived child ----

  const NO_CONSTRAINTS: Constraints := Constraints(None, None, None, None, [], None, false, false, false)

  const CHILD: FieldInput := FieldInput("a", SingleLineText, false, JNull, NO_CONSTRAINTS, [])

  function Parent(defaultValue: Json): FieldInput { FieldInput("o", ObjectField, false, defaultValue, NO_CONSTRAINTS, [CHILD]) }

  const NAMES_CHILD: Json := JObj(map["a" := JStr("x")])

  function ChildField(ids: string -> string, active: bool): Field {
    Field(ids("a"), "a", SingleLineText, false, JNull, NO_CONSTRAINTS, [], active)
  }

  function ParentField(ids: string -> string, defaultValue: Json, active: bool): Field {
    Field(ids("o"), "o", ObjectField, false, defaultValue, NO_CONSTRAINTS, [ChildField(ids, active)], true)
  }

  lemma ParentInputValid(c: Codec, defaultValue: Json)
    requires defaultValue == JNull || defaultValue == NAMES_CHILD
    ensures InputValid(c, Parent(defaultValue), 0)
  {
    var o := Parent(defaultValue);
    assert LookupInput([CHILD], "a") == Some(CHILD);
    assert |o.children| == 1 && InputValid(c, CHILD, 1);
    assert CompositeDefaultValid(c, map["a" := JStr("x")], o.children);
    assert DefaultValid(c, defaultValue, o);
    assert ConstraintsValid(o, 0);
  }

  lemma ParentIsValid(c: Codec, ids: string -> string, defaultValue: Json)
    requires defaultValue == JNull || defaultValue == NAMES_CHILD
    ensures ValidateField(c, Parent(defaultValue), 0) == Some(Parent(defaultValue))
    ensures BuildField(Parent(defaultValue), ids) == ParentField(ids, defaultValue, true)
  {
    var o := Parent(defaultValue);
    ParentInputValid(c, defaultValue);
    assert KeysFresh(CHILD, {"o"}) && KeysFreshAll([CHILD], {"o"}) && KeysFresh(o, {});
    assert Rewrite(c, CHILD) == CHILD;
    assert RewriteAll(c, [CHILD]) == [CHILD];
    assert Rewrite(c, o) == o;
  }

  /** A model created with an object field whose child is then archived. */
  lemma ParentCreated(c: Codec, ids: string -> string, defaultValue: Json)
    requires defaultValue == JNull || defaultValue == NAMES_CHILD
    ensures After(c, ids, [Schema(Create(Parent(defaultValue)))]) == State([ParentField(ids, defaultValue, true)], [])
  {
    ParentIsValid(c, ids, defaultValue);
    var events := [Schema(Create(Parent(defaultValue)))];
    assert events[..0] == [];
    assert KeysOf(Parent(defaultValue)) * ModelKeys([]) == {};
    assert [] + [ParentField(ids, defaultValue, true)] == [ParentField(ids, defaultValue, true)];
  }

  lemma ChildArchived(c: Codec, ids: string -> string, defaultValue: Json, stored: seq<Json>)
    ensures Step(c, ids, State([ParentField(ids, defaultValue, true)], stored), Schema(Archive(["o", "a"])))
         == State([ParentField(ids, defaultValue, false)], stored)
  {
    var o := ParentField(ids, defaultValue, true);
    assert Lookup([o], "o") == Some(o) && Lookup(o.children, "a") == Some(ChildField(ids, true));
    assert ["o", "a"][1..] == ["a"];
    assert At([o], ["o", "a"]) == Some(ChildField(ids, true));
    assert ArchiveTree(ChildField(ids, true)) == ChildField(ids, false);
    assert Put(o.children, ["a"], ChildField(ids, false)) == [ChildField(ids, false)];
    assert Put([o], ["o", "a"], ChildField(ids, false)) == [ParentField(ids, defaultValue, false)];
  }

  lemma EmptyContentStored(c: Codec, ids: string -> string, active: bool)
    ensures Step(c, ids, State([ParentField(ids, JNull, active)], []), Write(JObj(map[])))
         == State([ParentField(ids, JNull, active)], [JObj(map[])])
  {
    var fields := [ParentField(ids, JNull, active)];
    assert AcceptsField(c, map[], fields[0]) && AcceptsObject(c, map[], fields);
    assert NormalizeObject(c, map[], fields) == map[];
    assert [] + [JObj(map[])] == [JObj(map[])];
  }

  const GIVE_DEFAULT: Patch := Patch(None, None, Some(NAMES_CHILD), None, None)

  lemma DefaultGiven(c: Codec, ids: string -> string, stored: seq<Json>)
    ensures Step(c, ids, State([ParentField(ids, JNull, false)], stored), Schema(Update(["o"], GIVE_DEFAULT)))
         == State([ParentField(ids, NAMES_CHILD, false)], stored)
  {
    var o, next := ParentField(ids, JNull, false), ParentField(ids, NAMES_CHILD, false);
    assert Lookup([o], "o") == Some(o) && At([o], ["o"]) == Some(o);
    assert FieldToInput(ChildField(ids, false)) == CHILD;
    assert FieldsToInputs([ChildField(ids, false)]) == [CHILD];
    assert PatchedInput(o, GIVE_DEFAULT) == Parent(NAMES_CHILD);
    ParentIsValid(c, ids, NAMES_CHILD);
    assert LookupInput([CHILD], "a") == Some(CHILD);
    assert !FieldSchemaTightened(o, Parent(NAMES_CHILD));
    assert UpdateField(c, o, 0, GIVE_DEFAULT, stored != [], ids) == Ok(next);
    assert Put([o], ["o"], next) == [next];
  }

  lemma ArchivedNameIsRefused(c: Codec, ids: string -> string)
    ensures ValidateContent(c, Some(JObj(map[])), [ParentField(ids, NAMES_CHILD, false)]) == Err(Rejected)
    ensures !DefaultStrict(c, NAMES_CHILD, ParentField(ids, NAMES_CHILD, false))
  {
    var o := ParentField(ids, NAMES_CHILD, false);
    assert ActiveField(o.children, "a").None?;
    assert "a" in NAMES_CHILD.members;
    assert !AcceptsObject(c, NAMES_CHILD.members, o.children);
    assert !AcceptsField(c, map[], o) && o in [o];
  }

  /** The schema check reads archived children too, so a gated update may give a field a default that
      names one: the content stored before is then refused. */
  lemma GivingSuchDefaultBreaksContent(c: Codec, ids: string -> string)
    ensures var s := After(c, ids, [Schema(Create(Parent(JNull))), Schema(Archive(["o", "a"])), Write(JObj(map[])),
                                    Schema(Update(["o"], GIVE_DEFAULT))]);
      && s.stored == [JObj(map[])] && s.fields == [ParentField(ids, NAMES_CHILD, false)]
      && ValidateContent(c, Some(JObj(map[])), s.fields) == Err(Rejected)
      && !DefaultStrict(c, s.fields[0].defaultValue, s.fields[0])
  {
    ParentCreated(c, ids, JNull);
    ChildArchived(c, ids, JNull, []);
    EmptyContentStored(c, ids, false);
    DefaultGiven(c, ids, [JObj(map[])]);
    ArchivedNameIsRefused(c, ids);
    AfterFour(c, ids, Schema(Create(Parent(JNull))), Schema(Archive(["o", "a"])), Write(JObj(map[])), Schema(Update(["o"], GIVE_DEFAULT)));
  }

  lemma AfterFour(c: Codec, ids: string -> string, e: Event, f: Event, g: Event, h: Event)
    ensures After(c, ids, [e, f, g, h]) == Step(c, ids, Step(c, ids, Step(c, ids, After(c, ids, [e]), f), g), h)
  {
    assert [e, f, g, h][..3] == [e, f, g] && [e, f, g][..2] == [e, f] && [e, f][..1] == [e];
    assert After(c, ids, [e, f]) == Step(c, ids, After(c, ids, [e]), f);
    assert After(c, ids, [e, f, g]) == Step(c, ids, After(c, ids, [e, f]), g);
  }
}
