/** JSON values, content fields and the field inputs of the schema API.
    Object members are a map, as in the decoded Go value; texts are sequences of
    characters, so a length is a rune count. */
module FieldTree {
  import opened Wrappers
  import opened Decimals

  datatype Json =
    | JNull
    | JBool(b: bool)
    | JNum(literal: string)
    | JStr(text: string)
    | JArr(items: seq<Json>)
    | JObj(members: map<string, Json>)

  datatype FieldType =
    | SingleLineText | MultiLineText | RichText | Integer | Decimal | Boolean
    | Date | Datetime | SingleSelect | MultiSelect | AnyJson
    | SingleMedia | MultiMedia | SingleRelation | MultiRelation
    | ObjectField | RepeatableGroup

  /** Enum options carry their value only; labels are display text. */
  datatype Constraints = Constraints(
    minLength: Option<int>, maxLength: Option<int>,
    minimum: Option<string>, maximum: Option<string>,
    enumOptions: seq<string>, targetModelId: Option<string>,
    unique: bool, filterable: bool, sortable: bool)

  datatype Field = Field(
    id: string, key: string, kind: FieldType, required: bool, defaultValue: Json,
    constraints: Constraints, children: seq<Field>, active: bool)

  datatype FieldInput = FieldInput(
    key: string, kind: FieldType, required: bool, defaultValue: Json,
    constraints: Constraints, children: seq<FieldInput>)

  predicate IsText(kind: FieldType) { kind.SingleLineText? || kind.MultiLineText? }

  predicate IsNumeric(kind: FieldType) { kind.Integer? || kind.Decimal? }

  predicate IsSelect(kind: FieldType) { kind.SingleSelect? || kind.MultiSelect? }

  predicate IsRelation(kind: FieldType) { kind.SingleRelation? || kind.MultiRelation? }

  predicate IsContainer(kind: FieldType) { kind.ObjectField? || kind.RepeatableGroup? }

  predicate IsRootScalar(kind: FieldType) {
    IsText(kind) || IsNumeric(kind) || kind.Boolean? || kind.Date? || kind.Datetime? || kind.SingleSelect?
  }

  /** The field a key-indexed Go map holds after the fields were written to it in order. */
  function Lookup(fields: seq<Field>, key: string): (r: Option<Field>)
    ensures r.Some? ==> r.value in fields && r.value.key == key
    ensures r.None? ==> forall f :: f in fields ==> f.key != key
  {
    if fields == [] then None
    else if fields[|fields| - 1].key == key then Some(fields[|fields| - 1])
    else Lookup(fields[..|fields| - 1], key)
  }

  function LookupInput(inputs: seq<FieldInput>, key: string): (r: Option<FieldInput>)
    ensures r.Some? ==> r.value in inputs && r.value.key == key
    ensures r.None? ==> forall f :: f in inputs ==> f.key != key
  {
    if inputs == [] then None
    else if inputs[|inputs| - 1].key == key then Some(inputs[|inputs| - 1])
    else LookupInput(inputs[..|inputs| - 1], key)
  }

  /** The active field with this key, if any. */
  function ActiveField(fields: seq<Field>, key: string): (r: Option<Field>)
    ensures r.Some? ==> r.value in fields && r.value.key == key && r.value.active
  {
    var r := Lookup(fields, key);
    if r.Some? && r.value.active then r else None
  }

  predicate UniqueKeys(fields: seq<Field>) {
    forall i, j :: 0 <= i < j < |fields| ==> fields[i].key != fields[j].key
  }

  predicate UniqueInputKeys(inputs: seq<FieldInput>) {
    forall i, j :: 0 <= i < j < |inputs| ==> inputs[i].key != inputs[j].key
  }

  predicate BoundsAreDecimals(c: Constraints) {
    && (c.minimum.Some? ==> IsDecimal(c.minimum.value))
    && (c.maximum.Some? ==> IsDecimal(c.maximum.value))
  }

  /** What the table constraints and the schema validation guarantee of stored fields:
      sibling keys are distinct and numeric bounds are decimal texts, at every depth. */
  predicate WellFormed(fields: seq<Field>)
  {
    && UniqueKeys(fields)
    && forall f :: f in fields ==> BoundsAreDecimals(f.constraints) && WellFormed(f.children)
  }

  /** With distinct keys the key-indexed map finds every field. */
  lemma LookupFinds(fields: seq<Field>, f: Field)
    requires UniqueKeys(fields) && f in fields
    ensures Lookup(fields, f.key) == Some(f)
  {
    var r := Lookup(fields, f.key);
    var i :| 0 <= i < |fields| && fields[i] == f;
    var j :| 0 <= j < |fields| && fields[j] == r.value;
    if i < j { } else if j < i { }
  }

  lemma LookupInputFinds(inputs: seq<FieldInput>, f: FieldInput)
    requires UniqueInputKeys(inputs) && f in inputs
    ensures LookupInput(inputs, f.key) == Some(f)
  {
    var r := LookupInput(inputs, f.key);
    var i :| 0 <= i < |inputs| && inputs[i] == f;
    var j :| 0 <= j < |inputs| && inputs[j] == r.value;
    if i < j { } else if j < i { }
  }
}
