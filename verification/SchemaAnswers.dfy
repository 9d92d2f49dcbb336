/** Which field inputs the schema accepts, and the trees creation, archiving and reconciliation leave, said of the
    inputs and the fields themselves. */
module SchemaAnswers {
  import opened Wrappers
  import opened Decimals
  import opened FieldTree
  import opened ContentValidation
  import opened SchemaValidation
  import opened SchemaGate
  import opened SchemaDefaults
  import opened SchemaService

  // ---- accepted inputs ----

  /** A key: a lower-case letter, then up to 63 lower-case letters, digits and underscores. */
  predicate KeyText(s: string) {
    0 < |s| < 65 && s[0] in LETTERS && forall i :: 0 < i < |s| ==> s[i] in LETTERS || s[i] in DIGITS || s[i] == '_'
  }

  const LETTERS: string := "abcdefghijklmnopqrstuvwxyz"
  const DIGITS: string := "0123456789"

  predicate HasTextLengths(kind: FieldType) { kind == SingleLineText || kind == MultiLineText }

  predicate HasNumericBounds(kind: FieldType) { kind == Integer || kind == Decimal }

  predicate HasOptions(kind: FieldType) { kind == SingleSelect || kind == MultiSelect }

  predicate HasTarget(kind: FieldType) { kind == SingleRelation || kind == MultiRelation }

  predicate HasChildren(kind: FieldType) { kind == ObjectField || kind == RepeatableGroup }

  /** The kinds a root field may be unique, filtered or sorted by. */
  predicate IsProjected(kind: FieldType) {
    kind in {SingleLineText, MultiLineText, Integer, Decimal, Boolean, Date, Datetime, SingleSelect}
  }

  predicate LengthsFit(kind: FieldType, c: Constraints) {
    && (c.minLength.Some? || c.maxLength.Some? ==> HasTextLengths(kind))
    && (c.minLength.Some? ==> c.minLength.value >= 0) && (c.maxLength.Some? ==> c.maxLength.value >= 0)
    && (c.minLength.Some? && c.maxLength.Some? ==> c.minLength.value <= c.maxLength.value)
  }

  predicate BoundsFit(kind: FieldType, c: Constraints) {
    && (c.minimum.Some? ==> HasNumericBounds(kind) && BoundText(kind, c.minimum.value))
    && (c.maximum.Some? ==> HasNumericBounds(kind) && BoundText(kind, c.maximum.value))
    && (c.minimum.Some? && c.maximum.Some? ==> Value(c.minimum.value) <= Value(c.maximum.value))
  }

  predicate OptionsFit(kind: FieldType, c: Constraints) {
    && (|c.enumOptions| > 0 <==> HasOptions(kind))
    && (forall o :: o in c.enumOptions ==> 0 < |o| < 121)
    && (forall i, j :: 0 <= i < |c.enumOptions| && 0 <= j < |c.enumOptions| && c.enumOptions[i] == c.enumOptions[j] ==> i == j)
  }

  /** Each constraint only where it has a meaning, and none that no value could meet. */
  predicate ConstraintsFit(input: FieldInput, depth: nat) {
    var (c, kind) := (input.constraints, input.kind);
    && LengthsFit(kind, c) && BoundsFit(kind, c) && OptionsFit(kind, c)
    && (if HasTarget(kind) then c.targetModelId.Some? && c.targetModelId.value != "" else c.targetModelId.None?)
    && ((c.unique || c.filterable || c.sortable) ==> depth == 0 && IsProjected(kind))
  }

  predicate BoundText(kind: FieldType, s: string)
    ensures BoundText(kind, s) ==> IsDecimal(s)
  {
    IsDecimal(s) && (kind == Integer ==> IsInteger(s))
  }

  predicate InBounds(x: real, c: Constraints) {
    && (c.minimum.Some? && IsDecimal(c.minimum.value) ==> Value(c.minimum.value) <= x)
    && (c.maximum.Some? && IsDecimal(c.maximum.value) ==> x <= Value(c.maximum.value))
  }

  /** A default other than null: a value the field takes, where a time may be finer than a microsecond and an object
      may leave out children that are optional; fields that refer to something have none. */
  predicate DefaultFits(c: Codec, input: FieldInput, v: Json)
    decreases input, 1
  {
    var d := input.constraints;
    match input.kind
    case SingleLineText =>
      && v.JStr? && (d.minLength.Some? ==> d.minLength.value <= |v.text|)
      && (d.maxLength.Some? ==> |v.text| <= d.maxLength.value)
    case MultiLineText =>
      && v.JStr? && (d.minLength.Some? ==> d.minLength.value <= |v.text|)
      && (d.maxLength.Some? ==> |v.text| <= d.maxLength.value)
    case Integer => v.JNum? && IsInteger(v.literal) && (IntegerIsDecimal(v.literal); InBounds(Value(v.literal), d))
    case Decimal => v.JStr? && IsDecimal(v.text) && InBounds(Value(v.text), d)
    case Boolean => v.JBool?
    case Date => v.JStr? && c.isDate(v.text)
    case Datetime => v.JStr? && c.instant(v.text).Some?
    case SingleSelect => v.JStr? && v.text in d.enumOptions
    case MultiSelect =>
      && v.JArr? && (forall i, j :: 0 <= i < j < |v.items| ==> v.items[i] != v.items[j])
      && (forall i :: i in v.items ==> i.JStr? && i.text in d.enumOptions)
    case AnyJson => true
    case ObjectField => v.JObj? && MembersFit(c, input.children, v.members)
    case RepeatableGroup => v.JArr? && forall i :: i in v.items ==> i.JObj? && MembersFit(c, input.children, i.members)
    case _ => false
  }

  /** Every member belongs to a child and fits it, and no required child is left out. */
  predicate MembersFit(c: Codec, children: seq<FieldInput>, members: map<string, Json>)
    decreases children, 0
  {
    && (forall key :: key in members ==> exists child :: child in children && child.key == key)
    && (forall child :: child in children ==>
          if child.key in members then members[child.key].JNull? || DefaultFits(c, child, members[child.key]) else !child.required)
  }

  lemma {:induction false} ItemsOfOptions(items: seq<Json>, options: seq<string>)
    ensures DistinctOptions(items, options) <==>
      (forall i, j :: 0 <= i < j < |items| ==> items[i] != items[j]) && (forall i :: i in items ==> i.JStr? && i.text in options)
  {
  }

  predicate AllUnique(inputs: seq<FieldInput>) { UniqueInputKeys(inputs) && forall v :: v in inputs ==> AllUnique(v.children) }

  lemma {:induction false} DefaultIff(c: Codec, input: FieldInput, v: Json)
    requires AllUnique(input.children) && !v.JNull?
    ensures DefaultValid(c, v, input) <==> DefaultFits(c, input, v)
    decreases input, 1
  {
    match input.kind
    case MultiSelect => if v.JArr? { ItemsOfOptions(v.items, input.constraints.enumOptions); }
    case ObjectField => if v.JObj? { MembersIff(c, input.children, v.members); }
    case RepeatableGroup =>
      if v.JArr? {
        forall i | 0 <= i < |v.items| && v.items[i].JObj?
          ensures CompositeDefaultValid(c, v.items[i].members, input.children) <==> MembersFit(c, input.children, v.items[i].members)
        {
          MembersIff(c, input.children, v.items[i].members);
        }
      }
    case _ =>
  }

  lemma {:induction false} MembersIff(c: Codec, children: seq<FieldInput>, members: map<string, Json>)
    requires AllUnique(children)
    ensures CompositeDefaultValid(c, members, children) <==> MembersFit(c, children, members)
    decreases children, 0
  {
    forall child | child in children
      ensures LookupInput(children, child.key) == Some(child)
      ensures child.key in members && !members[child.key].JNull? ==>
        (DefaultValid(c, members[child.key], child) <==> DefaultFits(c, child, members[child.key]))
    {
      LookupInputFinds(children, child);
      if child.key in members && !members[child.key].JNull? { DefaultIff(c, child, members[child.key]); }
    }
    MembersByChild(c, children, members);
  }

  lemma {:induction false} MembersByChild(c: Codec, children: seq<FieldInput>, members: map<string, Json>)
    requires forall child :: child in children ==> LookupInput(children, child.key) == Some(child)
    requires forall child :: child in children && child.key in members && !members[child.key].JNull? ==>
      (DefaultValid(c, members[child.key], child) <==> DefaultFits(c, child, members[child.key]))
    ensures CompositeDefaultValid(c, members, children) <==> MembersFit(c, children, members)
  {
    if MembersFit(c, children, members) {
      forall key | key in members
        ensures LookupInput(children, key).Some? && DefaultValid(c, members[key], LookupInput(children, key).value)
      {
        var child :| child in children && child.key == key;
        assert LookupInput(children, child.key) == Some(child);
      }
    }
  }

  /** The field itself: key, constraints and default fit, containers and only they have children, down to depth 2. */
  predicate OwnFits(c: Codec, input: FieldInput, depth: nat) {
    && KeyText(input.key) && ConstraintsFit(input, depth)
    && (input.defaultValue.JNull? || DefaultFits(c, input, input.defaultValue))
    && (|input.children| > 0 <==> HasChildren(input.kind))
    && (|input.children| > 0 ==> depth < 2)
  }

  /** An input at a depth: the field fits, and the children fit in turn. */
  predicate InputFits(c: Codec, input: FieldInput, depth: nat)
    decreases input
  {
    OwnFits(c, input, depth) && forall child :: child in input.children ==> InputFits(c, child, depth + 1)
  }

  lemma {:induction false} KeyIff(s: string)
    ensures IsKey(s) <==> KeyText(s)
  {
    forall ch: char ensures ch in LETTERS <==> 'a' <= ch <= 'z' { LetterIff(ch); }
    forall ch: char ensures ch in DIGITS <==> '0' <= ch <= '9' { DigitIff(ch); }
  }

  lemma LetterIff(ch: char)
    ensures ch in LETTERS <==> 'a' <= ch <= 'z'
  {
    if 'a' <= ch <= 'z' { assert LETTERS[ch as int - 'a' as int] == ch; }
  }

  lemma DigitIff(ch: char)
    ensures ch in DIGITS <==> '0' <= ch <= '9'
  {
    if '0' <= ch <= '9' { assert DIGITS[ch as int - '0' as int] == ch; }
  }

  lemma {:induction false} ConstraintsIff(input: FieldInput, depth: nat)
    ensures ConstraintsValid(input, depth) <==> ConstraintsFit(input, depth)
  {
    var (c, kind) := (input.constraints, input.kind);
    BoundsIff(kind, c);
    OptionsIff(c.enumOptions);
    assert c.enumOptions != [] <==> |c.enumOptions| > 0;
    assert IsRootScalar(kind) <==> IsProjected(kind);
  }

  lemma {:induction false} BoundsIff(kind: FieldType, c: Constraints)
    ensures BoundsFit(kind, c) <==>
      && (IsNumeric(kind) || (c.minimum.None? && c.maximum.None?))
      && (c.minimum.Some? ==> IsBound(c.minimum.value, kind)) && (c.maximum.Some? ==> IsBound(c.maximum.value, kind))
      && (c.minimum.Some? && c.maximum.Some? && IsDecimal(c.minimum.value) && IsDecimal(c.maximum.value)
          ==> Value(c.minimum.value) <= Value(c.maximum.value))
  {
    if c.minimum.Some? && IsInteger(c.minimum.value) { IntegerIsDecimal(c.minimum.value); }
    if c.maximum.Some? && IsInteger(c.maximum.value) { IntegerIsDecimal(c.maximum.value); }
  }

  lemma {:induction false} OptionsIff(options: seq<string>)
    ensures DistinctTexts(options) <==>
      forall i, j :: 0 <= i < |options| && 0 <= j < |options| && options[i] == options[j] ==> i == j
    ensures (forall i :: 0 <= i < |options| ==> 1 <= |options[i]| <= 120) <==> (forall o :: o in options ==> 0 < |o| < 121)
  {
  }

  lemma {:induction false} OwnIff(c: Codec, input: FieldInput, depth: nat)
    requires AllUnique(input.children)
    ensures OwnFits(c, input, depth) <==>
      && IsKey(input.key) && ConstraintsValid(input, depth) && DefaultValid(c, input.defaultValue, input)
      && (IsContainer(input.kind) <==> input.children != []) && (depth >= MAX_DEPTH ==> input.children == [])
  {
    KeyIff(input.key);
    ConstraintsIff(input, depth);
    if !input.defaultValue.JNull? { DefaultIff(c, input, input.defaultValue); }
  }

  lemma {:induction false} FitsIff(c: Codec, input: FieldInput, depth: nat)
    requires AllUnique(input.children)
    ensures InputValid(c, input, depth) <==> InputFits(c, input, depth)
    decreases input
  {
    OwnIff(c, input, depth);
    forall child | child in input.children ensures InputValid(c, child, depth + 1) <==> InputFits(c, child, depth + 1) {
      FitsIff(c, child, depth + 1);
    }
  }

  lemma {:induction false} FreshIsUnique(inputs: seq<FieldInput>, seen: set<string>)
    requires KeysFreshAll(inputs, seen)
    ensures AllUnique(inputs)
    decreases inputs
  {
    FreshKeysAreDistinct(inputs, seen);
    forall v | v in inputs ensures AllUnique(v.children) {
      FreshKeysWithin(inputs, seen, v);
      var s :| KeysFresh(v, s);
      FreshIsUnique(v.children, s + {v.key});
    }
  }

  /** The keys of a tree, parents first. */
  function KeyList(input: FieldInput): seq<string>
    decreases input, 1
  {
    [input.key] + KeyLists(input.children)
  }

  function KeyLists(inputs: seq<FieldInput>): seq<string>
    decreases inputs, 0
  {
    if inputs == [] then [] else KeyList(inputs[0]) + KeyLists(inputs[1..])
  }

  predicate NoneTwice(keys: seq<string>) { forall i, j :: 0 <= i < j < |keys| ==> keys[i] != keys[j] }

  predicate NoneIn(keys: seq<string>, seen: set<string>) { forall k :: k in keys ==> k !in seen }

  lemma NoneTwiceSplit(a: seq<string>, b: seq<string>)
    ensures NoneTwice(a + b) <==> NoneTwice(a) && NoneTwice(b) && forall k :: k in a ==> k !in b
  {
    var s := a + b;
    if NoneTwice(s) {
      forall i, j | 0 <= i < j < |b| ensures b[i] != b[j] { assert s[|a| + i] == b[i] && s[|a| + j] == b[j]; }
      forall i, j | 0 <= i < j < |a| ensures a[i] != a[j] { assert s[i] == a[i] && s[j] == a[j]; }
      forall k | k in a ensures k !in b {
        var i :| 0 <= i < |a| && a[i] == k;
        forall j | 0 <= j < |b| ensures b[j] != k { assert s[i] == k && s[|a| + j] == b[j]; }
      }
    }
    if NoneTwice(a) && NoneTwice(b) && forall k :: k in a ==> k !in b {
      forall i, j | 0 <= i < j < |s| ensures s[i] != s[j] {
        if i < |a| <= j { assert s[i] in a && s[j] in b; }
      }
    }
  }

  lemma {:induction false} KeysAre(input: FieldInput)
    ensures forall k :: k in KeysOf(input) <==> k in KeyList(input)
    decreases input, 1
  {
    KeysOfAllAre(input.children);
  }

  lemma {:induction false} KeysOfAllAre(inputs: seq<FieldInput>)
    ensures forall k :: k in KeysOfAll(inputs) <==> k in KeyLists(inputs)
    decreases inputs, 0
  {
    if inputs != [] {
      KeysAre(inputs[0]);
      KeysOfAllAre(inputs[1..]);
    }
  }

  /** The set of seen keys finds exactly the keys that occur twice, or before. */
  lemma {:induction false} FreshIff(input: FieldInput, seen: set<string>)
    ensures KeysFresh(input, seen) <==> NoneTwice(KeyList(input)) && NoneIn(KeyList(input), seen)
    decreases input, 1
  {
    AllFreshIff(input.children, seen + {input.key});
    NoneTwiceSplit([input.key], KeyLists(input.children));
  }

  lemma {:induction false} AllFreshIff(inputs: seq<FieldInput>, seen: set<string>)
    ensures KeysFreshAll(inputs, seen) <==> NoneTwice(KeyLists(inputs)) && NoneIn(KeyLists(inputs), seen)
    decreases inputs, 0
  {
    if inputs != [] {
      FreshIff(inputs[0], seen);
      AllFreshIff(inputs[1..], seen + KeysOf(inputs[0]));
      KeysAre(inputs[0]);
      NoneTwiceSplit(KeyList(inputs[0]), KeyLists(inputs[1..]));
    }
  }

  /** A field input is accepted exactly when it fits and no key occurs twice in its tree. */
  lemma {:induction false} ValidatedIff(c: Codec, input: FieldInput, depth: nat)
    ensures ValidateField(c, input, depth).Some? <==> InputFits(c, input, depth) && NoneTwice(KeyList(input))
  {
    FreshIff(input, {});
    if KeysFresh(input, {}) {
      assert {} + {input.key} == {input.key};
      FreshIsUnique(input.children, {input.key});
      FitsIff(c, input, depth);
    }
  }

  // ---- what archiving and reconciliation leave ----

  /** The field and everything below it is archived, and otherwise as it was. */
  predicate IsArchivedCopy(f: Field, g: Field)
    decreases f
  {
    && !g.active && g.(active := f.active, children := f.children) == f && |g.children| == |f.children|
    && forall i :: 0 <= i < |f.children| ==> IsArchivedCopy(f.children[i], g.children[i])
  }

  lemma {:induction false} ArchivedCopy(f: Field)
    ensures IsArchivedCopy(f, ArchiveTree(f))
    decreases f
  {
    forall i | 0 <= i < |f.children| ensures IsArchivedCopy(f.children[i], ArchiveTree(f).children[i]) { ArchivedCopy(f.children[i]); }
  }

  predicate Unnamed(inputs: seq<FieldInput>, key: string) { forall v :: v in inputs ==> v.key != key }

  predicate HasKey(fields: seq<Field>, key: string) { exists g :: g in fields && g.key == key }

  /** A child the inputs do not name: archived with its subtree, or left as it was if it was archived already. */
  predicate IsLeftover(existing: seq<Field>, inputs: seq<FieldInput>, g: Field) {
    && Unnamed(inputs, g.key)
    && exists f :: f in existing && if f.active then IsArchivedCopy(f, g) else g == f
  }

  /** What becomes of an input: the child that had its key keeps its id and is reconciled in turn, or a new field is
      built; either has the attributes of the input and is active. */
  predicate Reconciled(existing: seq<Field>, v: FieldInput, g: Field)
    decreases v
  {
    && g.key == v.key && g.kind == v.kind && g.required == v.required && g.defaultValue == v.defaultValue
    && g.constraints == v.constraints && g.active
    && (forall f :: f in existing && f.key == v.key ==> f.active && g.id == f.id && AllReconciled(f.children, v.children, g.children))
    && ((forall f :: f in existing ==> f.key != v.key) ==>
          |g.children| == |v.children| && forall i :: 0 <= i < |v.children| ==> Reconciled([], v.children[i], g.children[i]))
  }

  /** The inputs in their order, then the leftovers. */
  predicate AllReconciled(existing: seq<Field>, inputs: seq<FieldInput>, result: seq<Field>)
    decreases inputs
  {
    && |result| >= |inputs|
    && (forall i :: 0 <= i < |inputs| ==> Reconciled(existing, inputs[i], result[i]))
    && (forall g :: g in result[|inputs|..] ==> IsLeftover(existing, inputs, g))
    && (forall f :: f in existing && Unnamed(inputs, f.key) ==> HasKey(result[|inputs|..], f.key))
  }

  lemma {:induction false} BuiltReconciled(v: FieldInput, ids: string -> string)
    ensures Reconciled([], v, BuildField(v, ids))
    decreases v
  {
    forall i | 0 <= i < |v.children| ensures Reconciled([], v.children[i], BuildField(v, ids).children[i]) {
      BuiltReconciled(v.children[i], ids);
    }
  }

  lemma {:induction false} LeftoverIs(existing: seq<Field>, inputs: seq<FieldInput>)
    ensures forall g :: g in Leftover(existing, inputs) ==> IsLeftover(existing, inputs, g)
  {
    if existing != [] {
      var head, tail := existing[0], existing[1..];
      var rest := Leftover(tail, inputs);
      LeftoverIs(tail, inputs);
      ArchivedCopy(head);
      forall g | g in rest ensures IsLeftover(existing, inputs, g) {
        var f :| f in tail && if f.active then IsArchivedCopy(f, g) else g == f;
        assert f in existing;
      }
    }
  }

  lemma {:induction false} LeftoverHas(existing: seq<Field>, inputs: seq<FieldInput>, f: Field)
    requires f in existing && Unnamed(inputs, f.key)
    ensures HasKey(Leftover(existing, inputs), f.key)
  {
    var result, rest := Leftover(existing, inputs), Leftover(existing[1..], inputs);
    if f == existing[0] {
      assert result[0] in result && result[0].key == f.key;
    } else {
      LeftoverHas(existing[1..], inputs, f);
      var g :| g in rest && g.key == f.key;
      assert g in result;
    }
  }

  /** Reconciliation keeps the children the inputs name, in the order of the inputs and under their ids, builds the new
      ones, and archives the rest. */
  lemma {:induction false} ReconcileResult(existing: seq<Field>, inputs: seq<FieldInput>, ids: string -> string)
    requires WellFormed(existing) && Sane(inputs) && Reconcile(existing, inputs, ids).Ok?
    ensures AllReconciled(existing, inputs, Reconcile(existing, inputs, ids).value)
    decreases inputs, 1
  {
    var kept := ReconcileInputs(existing, inputs, ids).value;
    var result := kept + Leftover(existing, inputs);
    LeftoverIs(existing, inputs);
    assert result[|inputs|..] == Leftover(existing, inputs);
    forall i | 0 <= i < |inputs| ensures Reconciled(existing, inputs[i], result[i]) {
      ReconcileOneResult(existing, inputs[i], ids);
    }
    forall f | f in existing && Unnamed(inputs, f.key) ensures HasKey(result[|inputs|..], f.key) {
      LeftoverHas(existing, inputs, f);
    }
  }

  lemma {:induction false} ReconcileOneResult(existing: seq<Field>, v: FieldInput, ids: string -> string)
    requires WellFormed(existing) && BoundsAreDecimals(v.constraints) && Sane(v.children)
    requires ReconcileOne(existing, v, ids).Ok?
    ensures Reconciled(existing, v, ReconcileOne(existing, v, ids).value)
    decreases v, 0
  {
    var was := Lookup(existing, v.key);
    if was.Some? {
      forall f | f in existing && f.key == v.key ensures f == was.value { LookupFinds(existing, f); }
      ReconcileResult(was.value.children, v.children, ids);
    } else {
      BuiltReconciled(v, ids);
    }
  }

  // ---- the operations on the tree ----

  /** What is stored of an input: a negative zero as "0", a default time formatted, anything else as submitted. */
  predicate IsStoredForm(c: Codec, input: FieldInput, u: FieldInput)
    decreases input
  {
    && u.key == input.key && u.kind == input.kind && u.required == input.required && u.constraints == input.constraints
    && u.defaultValue == (
         if input.kind == Decimal && input.defaultValue.JStr? && IsDecimal(input.defaultValue.text)
            && Value(input.defaultValue.text) == 0.0 && input.defaultValue.text[0] == '-' then JStr("0")
         else if input.kind == Datetime && input.defaultValue.JStr? && c.instant(input.defaultValue.text).Some?
         then JStr(c.instant(input.defaultValue.text).value)
         else input.defaultValue)
    && |u.children| == |input.children| && forall i :: 0 <= i < |input.children| ==> IsStoredForm(c, input.children[i], u.children[i])
  }

  lemma {:induction false} RewriteIsStored(c: Codec, input: FieldInput)
    ensures IsStoredForm(c, input, Rewrite(c, input))
    decreases input
  {
    forall i | 0 <= i < |input.children| ensures IsStoredForm(c, input.children[i], Rewrite(c, input).children[i]) {
      RewriteIsStored(c, input.children[i]);
    }
  }

  /** Some field of the tree, archived or not, has the key. */
  predicate Anywhere(fields: seq<Field>, key: string) {
    exists f :: f in fields && (f.key == key || Anywhere(f.children, key))
  }

  lemma {:induction false} AnywhereIff(fields: seq<Field>, key: string)
    ensures key in ModelKeys(fields) <==> Anywhere(fields, key)
    decreases fields
  {
    if fields != [] {
      AnywhereIff(fields[0].children, key);
      AnywhereIff(fields[1..], key);
      assert forall f :: f in fields <==> f == fields[0] || f in fields[1..];
    }
  }

  predicate KeyTaken(fields: seq<Field>, input: FieldInput) { exists k :: k in KeyList(input) && Anywhere(fields, k) }

  lemma {:induction false} TakenIff(fields: seq<Field>, input: FieldInput)
    ensures KeysOf(input) * ModelKeys(fields) != {} <==> KeyTaken(fields, input)
  {
    KeysAre(input);
    forall k ensures k in ModelKeys(fields) <==> Anywhere(fields, k) { AnywhereIff(fields, k); }
    if KeysOf(input) * ModelKeys(fields) != {} {
      var k :| k in KeysOf(input) * ModelKeys(fields);
      assert k in KeyList(input) && Anywhere(fields, k);
    }
    if KeyTaken(fields, input) {
      var k :| k in KeyList(input) && Anywhere(fields, k);
      assert k in KeysOf(input) * ModelKeys(fields);
    }
  }

  /** A field was built from the input as it is stored. */
  ghost predicate IsBuilt(c: Codec, input: FieldInput, g: Field) {
    exists u :: IsStoredForm(c, input, u) && Reconciled([], u, g)
  }

  lemma {:induction false} BuiltIs(c: Codec, input: FieldInput, ids: string -> string)
    ensures IsBuilt(c, input, BuildField(Rewrite(c, input), ids))
  {
    RewriteIsStored(c, input);
    BuiltReconciled(Rewrite(c, input), ids);
  }

  /** A root field is built behind the others, exactly when the input is valid and no key of its tree is in use. */
  lemma {:induction false} CreateAnswer(c: Codec, fields: seq<Field>, input: FieldInput, contentExists: bool,
      ids: string -> string)
    ensures var answer := Apply(c, fields, Create(input), contentExists, ids);
      if !(InputFits(c, input, 0) && NoneTwice(KeyList(input))) then answer == Err(InvalidInput)
      else if KeyTaken(fields, input) then answer == Err(KeyConflict)
      else answer.Ok? && |answer.value| == |fields| + 1 && answer.value[..|fields|] == fields && IsBuilt(c, input, answer.value[|fields|])
  {
    ValidatedIff(c, input, 0);
    TakenIff(fields, input);
    BuiltIs(c, input, ids);
  }

  /** Two fields that differ in their children at most. */
  predicate SameButChildren(f: Field, g: Field) { g.(children := f.children) == f }

  predicate IsPrefix(path: seq<string>, other: seq<string>) { |path| <= |other| && other[..|path|] == path }

  /** The field at the path is replaced, and nothing beside it or above it changes but for the children on the way. */
  ghost predicate OnlyAt(fields: seq<Field>, updated: seq<Field>, path: seq<string>, g: Field) {
    && At(updated, path) == Some(g)
    && forall other :: !IsPrefix(path, other) ==>
         && (At(updated, other).Some? <==> At(fields, other).Some?)
         && (At(fields, other).Some? ==> SameButChildren(At(fields, other).value, At(updated, other).value))
  }

  lemma {:induction false} PutOnlyAt(fields: seq<Field>, path: seq<string>, g: Field)
    requires WellFormed(fields) && At(fields, path).Some? && g.key == At(fields, path).value.key
    ensures OnlyAt(fields, Put(fields, path, g), path, g)
    decreases |path|
  {
    var updated := Put(fields, path, g);
    PutAt(fields, path, g);
    forall other | !IsPrefix(path, other)
      ensures At(updated, other).Some? <==> At(fields, other).Some?
      ensures At(fields, other).Some? ==> SameButChildren(At(fields, other).value, At(updated, other).value)
    {
      PutElsewhere(fields, path, g, other);
    }
  }

  lemma {:induction false} PutLookup(fields: seq<Field>, path: seq<string>, g: Field, key: string)
    requires WellFormed(fields) && At(fields, path).Some? && g.key == At(fields, path).value.key
    ensures Lookup(Put(fields, path, g), key) ==
      match Lookup(fields, key)
      case None => None
      case Some(f) =>
        if key != path[0] then Some(f) else if |path| == 1 then Some(g) else Some(f.(children := Put(f.children, path[1..], g)))
  {
    var updated := Put(fields, path, g);
    assert forall i :: 0 <= i < |fields| ==> updated[i].key == fields[i].key by {
      forall i | 0 <= i < |fields| && fields[i].key == path[0] ensures updated[i].key == fields[i].key {
        if |path| == 1 { LookupFinds(fields, fields[i]); }
      }
    }
    if Lookup(fields, key).Some? {
      var at :| 0 <= at < |fields| && fields[at] == Lookup(fields, key).value;
      LookupFinds(updated, updated[at]);
    } else {
      forall f | f in updated ensures f.key != key {
        var i :| 0 <= i < |updated| && updated[i] == f;
        assert fields[i] in fields;
      }
    }
  }

  lemma {:induction false} PutAt(fields: seq<Field>, path: seq<string>, g: Field)
    requires WellFormed(fields) && At(fields, path).Some? && g.key == At(fields, path).value.key
    ensures At(Put(fields, path, g), path) == Some(g)
    decreases |path|
  {
    PutLookup(fields, path, g, path[0]);
    if |path| > 1 { PutAt(Lookup(fields, path[0]).value.children, path[1..], g); }
  }

  lemma {:induction false} PutElsewhere(fields: seq<Field>, path: seq<string>, g: Field, other: seq<string>)
    requires WellFormed(fields) && At(fields, path).Some? && g.key == At(fields, path).value.key
    requires !IsPrefix(path, other)
    ensures At(Put(fields, path, g), other).Some? <==> At(fields, other).Some?
    ensures At(fields, other).Some? ==> SameButChildren(At(fields, other).value, At(Put(fields, path, g), other).value)
    decreases |path|
  {
    if other != [] {
      PutLookup(fields, path, g, other[0]);
      PrefixTail(path, other);
      if other[0] == path[0] && |path| > 1 && |other| > 1 {
        PutElsewhere(Lookup(fields, path[0]).value.children, path[1..], g, other[1..]);
      }
    }
  }

  lemma PrefixTail(path: seq<string>, other: seq<string>)
    requires path != [] && other != []
    ensures IsPrefix(path, other) <==> path[0] == other[0] && IsPrefix(path[1..], other[1..])
  {
    assert path == [path[0]] + path[1..] && other == [other[0]] + other[1..];
    if |path| <= |other| {
      assert other[..|path|] == [other[0]] + other[1..][..|path| - 1];
      if other[..|path|] == path { assert other[1..][..|path| - 1] == other[..|path|][1..] && path[0] == other[..|path|][0]; }
    }
  }

  /** A field is archived with its subtree exactly when it exists and is active. */
  lemma {:induction false} ArchiveAnswer(c: Codec, fields: seq<Field>, path: seq<string>, contentExists: bool,
      ids: string -> string)
    requires WellFormed(fields)
    ensures var (f, answer) := (At(fields, path), Apply(c, fields, Archive(path), contentExists, ids));
      if f.None? then answer == Err(NotFound)
      else if !f.value.active then answer == Err(SchemaError.Archived)
      else answer.Ok? && At(answer.value, path).Some? && IsArchivedCopy(f.value, At(answer.value, path).value)
           && OnlyAt(fields, answer.value, path, At(answer.value, path).value)
  {
    if At(fields, path).Some? {
      ArchivedCopy(At(fields, path).value);
      PutOnlyAt(fields, path, ArchiveTree(At(fields, path).value));
    }
  }

  /** What a committed update leaves at its path: the field under its id and key, active, with the attributes of the
      stored form of the patched input, and its children reconciled or as they were. */
  lemma {:induction false} UpdateResult(c: Codec, fields: seq<Field>, path: seq<string>, patch: Patch,
      contentExists: bool, ids: string -> string)
    requires WellFormed(fields) && Apply(c, fields, Update(path, patch), contentExists, ids).Ok?
    ensures At(fields, path).Some?
    ensures var (f, updated) := (At(fields, path).value, Apply(c, fields, Update(path, patch), contentExists, ids).value);
      var u := Rewrite(c, PatchedInput(f, patch));
      && IsStoredForm(c, PatchedInput(f, patch), u) && At(updated, path).Some?
      && var g := At(updated, path).value;
         && OnlyAt(fields, updated, path, g)
         && g.id == f.id && g.key == f.key && g.active && g.kind == u.kind && g.required == u.required
         && g.defaultValue == u.defaultValue && g.constraints == u.constraints
         && (if patch.children.None? then g.children == f.children else AllReconciled(f.children, u.children, g.children))
  {
    UpdateShape(c, fields, path, patch, contentExists, ids);
    var f, g := At(fields, path).value, Patched(c, fields, path, patch, contentExists, ids);
    AtIsWellFormed(fields, path);
    RewriteIsStored(c, PatchedInput(f, patch));
    PutOnlyAt(fields, path, g);
    PatchedIs(c, f, |path| - 1, patch, contentExists, ids);
  }

  lemma {:induction false} PatchedIs(c: Codec, f: Field, depth: nat, patch: Patch, contentExists: bool,
      ids: string -> string)
    requires WellFormed(f.children) && UpdateField(c, f, depth, patch, contentExists, ids).Ok?
    ensures var (g, u) := (UpdateField(c, f, depth, patch, contentExists, ids).value, Rewrite(c, PatchedInput(f, patch)));
      && g.id == f.id && g.key == f.key && g.active && g.kind == u.kind && g.required == u.required
      && g.defaultValue == u.defaultValue && g.constraints == u.constraints
      && (if patch.children.None? then g.children == f.children else AllReconciled(f.children, u.children, g.children))
  {
    var input := PatchedInput(f, patch);
    ValidatedInputIsSane(c, input, depth);
    if patch.children.Some? { ReconcileResult(f.children, RewriteAll(c, input.children), ids); }
  }

  /** A child is built behind its siblings, exactly when the input is valid at its depth, the parent is an active
      container above the deepest level, and no key is in use. */
  lemma {:induction false} CreateChildAnswer(c: Codec, fields: seq<Field>, path: seq<string>, input: FieldInput,
      contentExists: bool, ids: string -> string)
    requires Sound(c) && WellFormed(fields)
    ensures var (parent, answer) := (At(fields, path), Apply(c, fields, CreateChild(path, input), contentExists, ids));
      if !(InputFits(c, input, 0) && NoneTwice(KeyList(input))) then answer == Err(InvalidInput)
      else if parent.None? then answer == Err(NotFound)
      else if !parent.value.active then answer == Err(SchemaError.Archived)
      else if !HasChildren(parent.value.kind) || |path| > 2 then answer == Err(ParentInvalid)
      else if !InputFits(c, Rewrite(c, input), |path|) then answer == Err(InvalidInput)
      else if KeyTaken(fields, input) then answer == Err(KeyConflict)
      else answer.Ok? && At(answer.value, path).Some?
           && var (was, g) := (parent.value.children, At(answer.value, path).value);
              && OnlyAt(fields, answer.value, path, g) && SameButChildren(parent.value, g)
              && |g.children| == |was| + 1 && g.children[..|was|] == was && IsBuilt(c, Rewrite(c, input), g.children[|was|])
  {
    ValidatedIff(c, input, 0);
    TakenIff(fields, input);
    var first := Rewrite(c, input);
    ValidatedIff(c, first, |path|);
    RewrittenKeys(c, input);
    ChildStages(c, fields, path, input, ids);
    if ApplyCreateChild(c, fields, path, input, ids).Ok? {
      var parent := At(fields, path).value;
      var next := parent.(children := parent.children + [BuildField(Rewrite(c, first), ids)]);
      PutOnlyAt(fields, path, next);
      BuiltIs(c, first, ids);
    }
  }

  /** The stages of CreateChildField. */
  lemma ChildStages(c: Codec, fields: seq<Field>, path: seq<string>, input: FieldInput, ids: string -> string)
    ensures var (parent, first, answer) := (At(fields, path), Rewrite(c, input), ApplyCreateChild(c, fields, path, input, ids));
      if ValidateField(c, input, 0).None? then answer == Err(InvalidInput)
      else if parent.None? then answer == Err(NotFound)
      else if !parent.value.active then answer == Err(SchemaError.Archived)
      else if !HasChildren(parent.value.kind) || |path| > 2 then answer == Err(ParentInvalid)
      else if ValidateField(c, first, |path|).None? then answer == Err(InvalidInput)
      else if KeysOf(input) * ModelKeys(fields) != {} then answer == Err(KeyConflict)
      else answer == Ok(Put(fields, path, parent.value.(children := parent.value.children + [BuildField(Rewrite(c, first), ids)])))
  {
  }

  lemma {:induction false} RewrittenKeys(c: Codec, input: FieldInput)
    ensures KeyList(Rewrite(c, input)) == KeyList(input)
    decreases input, 1
  {
    AllRewrittenKeys(c, input.children);
  }

  lemma {:induction false} AllRewrittenKeys(c: Codec, inputs: seq<FieldInput>)
    ensures KeyLists(RewriteAll(c, inputs)) == KeyLists(inputs)
    decreases inputs, 0
  {
    if inputs != [] {
      RewrittenKeys(c, inputs[0]);
      AllRewrittenKeys(c, inputs[1..]);
    }
  }
}
