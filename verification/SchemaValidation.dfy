/** The schema module's own checks on field inputs: constraints, keys, nesting and defaults. */
module SchemaValidation {
  import opened Wrappers
  import opened Decimals
  import opened FieldTree
  import opened ContentValidation

  const MAX_DEPTH: nat := 2

  /** `^[a-z][a-z0-9_]{0,63}$` */
  predicate IsKey(s: string) {
    && 1 <= |s| <= 64
    && 'a' <= s[0] <= 'z'
    && forall i :: 1 <= i < |s| ==> 'a' <= s[i] <= 'z' || IsDigit(s[i]) || s[i] == '_'
  }

  predicate IsBound(s: string, kind: FieldType) {
    if kind.Integer? then IsInteger(s) else IsDecimal(s)
  }

  predicate DistinctTexts(s: seq<string>) {
    forall i, j :: 0 <= i < j < |s| ==> s[i] != s[j]
  }

  /** validateConstraints adds no failure. */
  predicate ConstraintsValid(input: FieldInput, depth: nat) {
    var c := input.constraints;
    && (IsText(input.kind) || (c.minLength.None? && c.maxLength.None?))
    && (c.minLength.Some? ==> 0 <= c.minLength.value)
    && (c.maxLength.Some? ==> 0 <= c.maxLength.value)
    && (c.minLength.Some? && c.maxLength.Some? ==> c.minLength.value <= c.maxLength.value)
    && (IsNumeric(input.kind) || (c.minimum.None? && c.maximum.None?))
    && (c.minimum.Some? ==> IsBound(c.minimum.value, input.kind))
    && (c.maximum.Some? ==> IsBound(c.maximum.value, input.kind))
    && (c.minimum.Some? && c.maximum.Some? && IsDecimal(c.minimum.value) && IsDecimal(c.maximum.value)
        ==> Value(c.minimum.value) <= Value(c.maximum.value))
    && (IsSelect(input.kind) <==> c.enumOptions != [])
    && (forall i :: 0 <= i < |c.enumOptions| ==> 1 <= |c.enumOptions[i]| <= 120)
    && DistinctTexts(c.enumOptions)
    && (IsRelation(input.kind) <==> c.targetModelId.Some?)
    && (c.targetModelId.Some? ==> c.targetModelId.value != "")
    && (c.unique || c.filterable || c.sortable ==> depth == 0 && IsRootScalar(input.kind))
  }

  /** validateNumericValue: bounds that are not decimal texts are ignored. */
  predicate DefaultNumberWithin(text: string, c: Constraints)
    requires IsDecimal(text)
  {
    && (c.minimum.Some? && IsDecimal(c.minimum.value) ==> Value(c.minimum.value) <= Value(text))
    && (c.maximum.Some? && IsDecimal(c.maximum.value) ==> Value(text) <= Value(c.maximum.value))
  }

  /** validateDefault adds no failure for this default of this input. */
  predicate DefaultValid(c: Codec, v: Json, input: FieldInput)
    decreases input, 1
  {
    v.JNull? ||
    match input.kind
    case SingleLineText | MultiLineText => v.JStr? && LengthWithin(v.text, input.constraints)
    case RichText | SingleMedia | MultiMedia | SingleRelation | MultiRelation => false
    case Integer => v.JNum? && IsInteger(v.literal) && (IntegerIsDecimal(v.literal); DefaultNumberWithin(v.literal, input.constraints))
    case Decimal => v.JStr? && IsDecimal(v.text) && DefaultNumberWithin(v.text, input.constraints)
    case Boolean => v.JBool?
    case Date => v.JStr? && c.isDate(v.text)
    case Datetime => v.JStr? && c.instant(v.text).Some?
    case SingleSelect => v.JStr? && v.text in input.constraints.enumOptions
    case MultiSelect => v.JArr? && DistinctOptions(v.items, input.constraints.enumOptions)
    case AnyJson => true
    case ObjectField => v.JObj? && CompositeDefaultValid(c, v.members, input.children)
    case RepeatableGroup =>
      v.JArr? && forall i :: 0 <= i < |v.items| ==> v.items[i].JObj? && CompositeDefaultValid(c, v.items[i].members, input.children)
  }

  predicate CompositeDefaultValid(c: Codec, members: map<string, Json>, children: seq<FieldInput>)
    decreases children, 0
  {
    && (forall key :: key in members ==>
          LookupInput(children, key).Some? && DefaultValid(c, members[key], LookupInput(children, key).value))
    && (forall child :: child in children && child.required ==> child.key in members)
  }

  /** The default validateDefault stores in place of the submitted one. */
  function StoredDefault(c: Codec, input: FieldInput): Json {
    var v := input.defaultValue;
    match input.kind
    case Decimal => if v.JStr? && IsDecimal(v.text) && Value(v.text) == 0.0 && v.text[..1] == "-" then JStr("0") else v
    case Datetime => if v.JStr? && c.instant(v.text).Some? then JStr(c.instant(v.text).value) else v
    case _ => v
  }

  /** All keys of an input tree. */
  function KeysOf(input: FieldInput): set<string>
    decreases input, 1
  {
    {input.key} + KeysOfAll(input.children)
  }

  function KeysOfAll(inputs: seq<FieldInput>): set<string>
    decreases inputs, 0
  {
    if inputs == [] then {} else KeysOf(inputs[0]) + KeysOfAll(inputs[1..])
  }

  /** No key of the tree has been seen before, the way validateField threads its set of seen keys. */
  predicate KeysFresh(input: FieldInput, seen: set<string>)
    decreases input, 1
  {
    input.key !in seen && KeysFreshAll(input.children, seen + {input.key})
  }

  predicate KeysFreshAll(inputs: seq<FieldInput>, seen: set<string>)
    decreases inputs, 0
  {
    inputs == [] || (KeysFresh(inputs[0], seen) && KeysFreshAll(inputs[1..], seen + KeysOf(inputs[0])))
  }

  /** validateField without the key bookkeeping, at every depth of the tree. */
  predicate InputValid(c: Codec, input: FieldInput, depth: nat)
    decreases input
  {
    && IsKey(input.key)
    && ConstraintsValid(input, depth)
    && DefaultValid(c, input.defaultValue, input)
    && (IsContainer(input.kind) <==> input.children != [])
    && (depth >= MAX_DEPTH ==> input.children == [])
    && forall child :: child in input.children ==> InputValid(c, child, depth + 1)
  }

  /** validateFieldAtDepth: the rewritten input, or a refusal. */
  function ValidateField(c: Codec, input: FieldInput, depth: nat): Option<FieldInput> {
    if InputValid(c, input, depth) && KeysFresh(input, {}) then Some(Rewrite(c, input)) else None
  }

  function Rewrite(c: Codec, input: FieldInput): (r: FieldInput)
    ensures r.key == input.key && r.kind == input.kind && r.required == input.required
    ensures r.constraints == input.constraints
    decreases input, 1
  {
    FieldInput(input.key, input.kind, input.required, StoredDefault(c, input), input.constraints, RewriteAll(c, input.children))
  }

  function RewriteAll(c: Codec, inputs: seq<FieldInput>): (r: seq<FieldInput>)
    ensures |r| == |inputs|
    ensures forall i :: 0 <= i < |inputs| ==> r[i] == Rewrite(c, inputs[i])
    decreases inputs, 0
  {
    if inputs == [] then [] else [Rewrite(c, inputs[0])] + RewriteAll(c, inputs[1..])
  }

  /** Threading the seen keys makes siblings distinct. */
  lemma {:induction false} FreshKeysAreDistinct(inputs: seq<FieldInput>, seen: set<string>)
    requires KeysFreshAll(inputs, seen)
    ensures UniqueInputKeys(inputs)
    ensures forall f :: f in inputs ==> f.key !in seen
    decreases inputs
  {
    if inputs != [] {
      FreshKeysAreDistinct(inputs[1..], seen + KeysOf(inputs[0]));
      assert inputs == [inputs[0]] + inputs[1..];
      forall j | 0 < j < |inputs| ensures inputs[j].key != inputs[0].key {
        assert inputs[j] in inputs[1..];
      }
    }
  }

  lemma {:induction false} FreshKeysWithin(inputs: seq<FieldInput>, seen: set<string>, child: FieldInput)
    requires KeysFreshAll(inputs, seen) && child in inputs
    ensures exists s :: KeysFresh(child, s)
    decreases inputs
  {
    if child != inputs[0] { FreshKeysWithin(inputs[1..], seen + KeysOf(inputs[0]), child); }
  }

  /** What validateField guarantees of the rewritten tree: distinct sibling keys and decimal bounds. */
  predicate Sane(inputs: seq<FieldInput>) {
    && UniqueInputKeys(inputs)
    && forall f :: f in inputs ==> BoundsAreDecimals(f.constraints) && Sane(f.children)
  }

  lemma BoundsOfValidInput(input: FieldInput, depth: nat)
    requires ConstraintsValid(input, depth)
    ensures BoundsAreDecimals(input.constraints)
  {
    var c := input.constraints;
    if c.minimum.Some? && input.kind.Integer? { IntegerIsDecimal(c.minimum.value); }
    if c.maximum.Some? && input.kind.Integer? { IntegerIsDecimal(c.maximum.value); }
  }

  lemma {:induction false} ValidInputsAreSane(c: Codec, inputs: seq<FieldInput>, depth: nat, seen: set<string>)
    requires forall f :: f in inputs ==> InputValid(c, f, depth)
    requires KeysFreshAll(inputs, seen)
    ensures Sane(RewriteAll(c, inputs))
    decreases inputs, 0
  {
    FreshKeysAreDistinct(inputs, seen);
    var r := RewriteAll(c, inputs);
    forall g | g in r ensures BoundsAreDecimals(g.constraints) && Sane(g.children) {
      var i :| 0 <= i < |r| && r[i] == g;
      FreshKeysWithin(inputs, seen, inputs[i]);
      var s :| KeysFresh(inputs[i], s);
      ValidInputIsSane(c, inputs[i], depth, s);
    }
  }

  lemma {:induction false} ValidInputIsSane(c: Codec, input: FieldInput, depth: nat, seen: set<string>)
    requires InputValid(c, input, depth) && KeysFresh(input, seen)
    ensures BoundsAreDecimals(input.constraints) && Sane(RewriteAll(c, input.children))
    decreases input, 1
  {
    BoundsOfValidInput(input, depth);
    ValidInputsAreSane(c, input.children, depth + 1, seen + {input.key});
  }

  /** A validated field input yields a sane tree. */
  lemma ValidatedInputIsSane(c: Codec, input: FieldInput, depth: nat)
    requires ValidateField(c, input, depth).Some?
    ensures BoundsAreDecimals(input.constraints) && Sane(ValidateField(c, input, depth).value.children)
  {
    ValidInputIsSane(c, input, depth, {});
  }
}
