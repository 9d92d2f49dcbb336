/** Configuration values: the constraints an item may carry, the values they accept, and the normal
    form that is stored.
    The regular expressions, the JSON encoder and the text the database returns for a stored value are
    library matters: they are the functions of a Library. */
module ConfigurationValue {
  import opened Wrappers
  import opened Decimals
  import FieldTree

  type Json = FieldTree.Json

  const MAX_VALUE_BYTES: nat := 65536
  const MAX_MULTI_VALUES: nat := 50
  const MAX_PATTERN_BYTES: nat := 512
  const MAX_ASSET_SIZE: nat := 5368709120
  const MAX_INT64: int := 0x7fff_ffff_ffff_ffff

  datatype ValueType =
    | TextValue | IntegerValue | DecimalValue | BooleanValue | JsonValue
    | SingleAsset | MultiAsset | SingleRelation | MultiRelation

  predicate IsMulti(kind: ValueType) { kind.MultiAsset? || kind.MultiRelation? }

  predicate IsRelation(kind: ValueType) { kind.SingleRelation? || kind.MultiRelation? }

  predicate IsAsset(kind: ValueType) { kind.SingleAsset? || kind.MultiAsset? }

  datatype Constraints = Constraints(
    required: bool, minLength: Option<int>, maxLength: Option<int>, pattern: Option<string>,
    stringEnum: Option<seq<string>>, minimum: Option<string>, maximum: Option<string>,
    integerEnum: Option<seq<string>>, scale: Option<int>, decimalEnum: Option<seq<string>>,
    maxBytes: Option<int>, allowedMimeTypes: Option<seq<string>>, maxSize: Option<int>,
    targetModelId: Option<string>)

  datatype Library = Library(
    byteLength: string -> nat,
    compiles: string -> bool,
    matches: (string, string) -> bool,
    isMime: string -> bool,
    encodedSize: Json -> nat,
    storedSize: Json -> nat)

  /** No JSON text is empty. */
  ghost predicate NonEmpty(l: Library, v: Json) { l.storedSize(v) > 0 }

  ghost predicate Sound(l: Library) { forall v :: NonEmpty(l, v) }

  /** A request body: its length in bytes, and the value it decodes to unless it is malformed. */
  datatype Raw = Raw(size: nat, value: Option<Json>)

  /** The stored text of a value, as it is read back. */
  function Stored(l: Library, v: Json): Raw { Raw(l.storedSize(v), Some(v)) }

  // ---- number texts ----

  predicate ValidDecimal(s: string) {
    IsDecimal(s) && |WholePart(s)| <= 35 && (HasDot(s) ==> |FractionPart(s)| <= 30)
  }

  predicate ValidInteger(s: string) {
    IsInteger(s) && (IntegerIsDecimal(s); -(MAX_INT64 as real) - 1.0 <= Value(s) <= MAX_INT64 as real)
  }

  predicate ValidBound(s: string, kind: ValueType) {
    if kind.IntegerValue? then IsInteger(s) else kind.DecimalValue? && ValidDecimal(s)
  }

  function ScaleOf(s: string): nat { if HasDot(s) then |FractionPart(s)| else 0 }

  predicate AtLeast(number: real, bound: Option<string>) {
    bound.Some? && IsDecimal(bound.value) ==> Value(bound.value) <= number
  }

  predicate AtMost(number: real, bound: Option<string>) {
    bound.Some? && IsDecimal(bound.value) ==> number <= Value(bound.value)
  }

  predicate Within(number: real, c: Constraints) { AtLeast(number, c.minimum) && AtMost(number, c.maximum) }

  predicate EnumHas(options: seq<string>, number: real) {
    exists i :: 0 <= i < |options| && IsDecimal(options[i]) && Value(options[i]) == number
  }

  /** An enum with options restricts; the empty and the absent one do not. */
  predicate Listed(options: Option<seq<string>>, number: real) {
    options.Some? && options.value != [] ==> EnumHas(options.value, number)
  }

  // ---- constraints ----

  predicate LengthFits(text: string, c: Constraints) {
    && (c.minLength.Some? ==> c.minLength.value <= |text|)
    && (c.maxLength.Some? ==> |text| <= c.maxLength.value)
  }

  predicate PatternFits(l: Library, text: string, c: Constraints) {
    c.pattern.Some? && l.compiles(c.pattern.value) ==> l.matches(c.pattern.value, text)
  }

  predicate Distinct(texts: seq<string>) { forall i, j :: 0 <= i < j < |texts| ==> texts[i] != texts[j] }

  predicate TextsValid(l: Library, kind: ValueType, c: Constraints) {
    && (c.minLength.Some? || c.maxLength.Some? || c.pattern.Some? || c.stringEnum.Some? ==> kind.TextValue?)
    && (c.minLength.Some? ==> 0 <= c.minLength.value)
    && (c.maxLength.Some? ==> 0 <= c.maxLength.value)
    && (c.minLength.Some? && c.maxLength.Some? ==> c.minLength.value <= c.maxLength.value)
    && (c.pattern.Some? ==> l.byteLength(c.pattern.value) <= MAX_PATTERN_BYTES && l.compiles(c.pattern.value))
    && (c.stringEnum.Some? ==>
          && c.stringEnum.value != [] && Distinct(c.stringEnum.value)
          && forall t :: t in c.stringEnum.value ==> LengthFits(t, c) && PatternFits(l, t, c))
  }

  predicate OptionsValid(options: seq<string>, c: Constraints, scale: Option<int>) {
    && options != []
    && (forall i :: 0 <= i < |options| && ValidDecimal(options[i]) ==>
          Within(Value(options[i]), c) && (scale.Some? ==> ScaleOf(options[i]) <= scale.value))
    && (forall i, j :: 0 <= i < j < |options| && IsDecimal(options[i]) && IsDecimal(options[j])
          ==> Value(options[i]) != Value(options[j]))
  }

  predicate NumbersValid(kind: ValueType, c: Constraints) {
    && (c.minimum.Some? ==> ValidBound(c.minimum.value, kind))
    && (c.maximum.Some? ==> ValidBound(c.maximum.value, kind))
    && (c.maximum.Some? && IsDecimal(c.maximum.value) ==> AtLeast(Value(c.maximum.value), c.minimum))
    && (c.integerEnum.Some? ==>
          && kind.IntegerValue? && (forall t :: t in c.integerEnum.value ==> ValidInteger(t))
          && OptionsValid(c.integerEnum.value, c, None))
    && (c.scale.Some? ==> kind.DecimalValue? && 0 <= c.scale.value <= 30)
    && (c.decimalEnum.Some? ==>
          && kind.DecimalValue? && (forall t :: t in c.decimalEnum.value ==> ValidDecimal(t))
          && OptionsValid(c.decimalEnum.value, c, c.scale))
  }

  /** validateConstraints: no failure is recorded. */
  predicate ConstraintsValid(l: Library, kind: ValueType, c: Constraints) {
    && TextsValid(l, kind, c) && NumbersValid(kind, c)
    && (c.maxBytes.Some? ==> kind.JsonValue? && 1 <= c.maxBytes.value <= MAX_VALUE_BYTES)
    && (c.allowedMimeTypes.Some? || c.maxSize.Some? ==> IsAsset(kind))
    && (c.allowedMimeTypes.Some? ==> c.allowedMimeTypes.value != [] && forall t :: t in c.allowedMimeTypes.value ==> l.isMime(t))
    && (c.maxSize.Some? ==> 1 <= c.maxSize.value <= MAX_ASSET_SIZE)
    && (IsRelation(kind) ==> c.targetModelId.Some? && c.targetModelId.value != "")
    && (!IsRelation(kind) ==> c.targetModelId.None?)
  }

  // ---- values ----

  predicate IsId(v: Json) { v.JStr? && v.text != "" }

  /** The first occurrence of each item. */
  function Firsts(items: seq<Json>): (r: seq<Json>)
    ensures forall v :: v in r <==> v in items
    ensures forall i, j :: 0 <= i < j < |r| ==> r[i] != r[j]
  {
    if items == [] then []
    else
      var rest := Firsts(items[..|items| - 1]);
      if items[|items| - 1] in rest then rest else rest + [items[|items| - 1]]
  }

  /** The type and constraint checks on a value that is not null. */
  predicate Accepts(l: Library, v: Json, kind: ValueType, c: Constraints) {
    match kind
    case TextValue =>
      && v.JStr? && LengthFits(v.text, c) && PatternFits(l, v.text, c)
      && (c.stringEnum.Some? && c.stringEnum.value != [] ==> v.text in c.stringEnum.value)
    case IntegerValue =>
      && v.JNum? && ValidInteger(v.literal)
      && (IntegerIsDecimal(v.literal); Within(Value(v.literal), c) && Listed(c.integerEnum, Value(v.literal)))
    case DecimalValue =>
      && v.JStr? && ValidDecimal(v.text) && Within(Value(v.text), c)
      && (c.scale.Some? ==> ScaleOf(v.text) <= c.scale.value) && Listed(c.decimalEnum, Value(v.text))
    case BooleanValue => v.JBool?
    case JsonValue => true
    case SingleAsset | SingleRelation => IsId(v)
    case MultiAsset | MultiRelation =>
      v.JArr? && (forall i :: 0 <= i < |v.items| ==> IsId(v.items[i])) && |Firsts(v.items)| <= MAX_MULTI_VALUES
  }

  /** What is stored for an accepted value: every zero decimal as "0", ids once each; a Go slice that
      never received an id is nil, which encodes as null. */
  function Normal(v: Json, kind: ValueType): Json {
    if kind.DecimalValue? && v.JStr? && IsDecimal(v.text) && Value(v.text) == 0.0 then FieldTree.JStr("0")
    else if IsMulti(kind) && v.JArr? then (if v.items == [] then FieldTree.JNull else FieldTree.JArr(Firsts(v.items)))
    else v
  }

  predicate SizeFits(l: Library, v: Json, kind: ValueType, c: Constraints) {
    && l.encodedSize(v) <= MAX_VALUE_BYTES
    && (kind.JsonValue? && c.maxBytes.Some? ==> l.encodedSize(v) <= c.maxBytes.value)
  }

  datatype ValueError = MissingValue | Malformed | RequiredValue | Refused | TooLarge

  /** validateAndNormalizeValue. */
  function ValidateValue(l: Library, raw: Raw, kind: ValueType, c: Constraints): Result<Json, ValueError> {
    if raw.size == 0 then Err(MissingValue)
    else if raw.size > MAX_VALUE_BYTES then Err(TooLarge)
    else if raw.value.None? then Err(Malformed)
    else if raw.value.value.JNull? then (if c.required then Err(RequiredValue) else Ok(FieldTree.JNull))
    else if !Accepts(l, raw.value.value, kind, c) then Err(Refused)
    else if !SizeFits(l, Normal(raw.value.value, kind), kind, c) then Err(TooLarge)
    else Ok(Normal(raw.value.value, kind))
  }

  // ---- stored values under the item's constraints ----

  /** A stored value is in normal form and meets the constraints; null stands for an absent value, or
      for an empty list of a multi-valued item. */
  predicate Fits(l: Library, v: Json, kind: ValueType, c: Constraints) {
    if v.JNull? then c.required ==> IsMulti(kind)
    else Accepts(l, v, kind, c) && Normal(v, kind) == v && SizeFits(l, v, kind, c)
  }

  lemma {:induction false} DistinctKept(items: seq<Json>)
    requires forall i, j :: 0 <= i < j < |items| ==> items[i] != items[j]
    ensures Firsts(items) == items
  {
    if items != [] {
      var init := items[..|items| - 1];
      DistinctKept(init);
      assert items == init + [items[|items| - 1]];
    }
  }

  lemma {:induction false} FirstsNotEmpty(items: seq<Json>)
    ensures Firsts(items) == [] <==> items == []
  {
    if items != [] { assert items[0] in Firsts(items); }
  }

  lemma {:induction false} NormalAccepted(l: Library, v: Json, kind: ValueType, c: Constraints)
    requires Accepts(l, v, kind, c) && !v.JNull? && !Normal(v, kind).JNull?
    ensures Accepts(l, Normal(v, kind), kind, c) && Normal(Normal(v, kind), kind) == Normal(v, kind)
  {
    if kind.DecimalValue? {
      ZeroText();
      assert FractionPart("0") == "";
      assert |WholePart("0")| <= 1;
    } else if IsMulti(kind) {
      var ids := Firsts(v.items);
      FirstsNotEmpty(v.items);
      DistinctKept(ids);
      forall i | 0 <= i < |ids| ensures IsId(ids[i]) { assert ids[i] in v.items; }
    }
  }

  /** Whatever was accepted is stored in a form that fits. */
  lemma {:induction false} AcceptedFits(l: Library, raw: Raw, kind: ValueType, c: Constraints)
    requires ValidateValue(l, raw, kind, c).Ok?
    ensures Fits(l, ValidateValue(l, raw, kind, c).value, kind, c)
  {
    var v := raw.value.value;
    if !v.JNull? && !Normal(v, kind).JNull? { NormalAccepted(l, v, kind, c); }
  }

  /** Reading a fitting value back and validating it again returns it unchanged, exactly when its
      stored text is not over the limit and it is not a null for a required value. */
  lemma {:induction false} RevalidationIff(l: Library, v: Json, kind: ValueType, c: Constraints)
    requires Sound(l) && Fits(l, v, kind, c)
    ensures ValidateValue(l, Stored(l, v), kind, c) == Ok(v) <==> l.storedSize(v) <= MAX_VALUE_BYTES && !(v.JNull? && c.required)
    ensures ValidateValue(l, Stored(l, v), kind, c).Ok? ==> ValidateValue(l, Stored(l, v), kind, c) == Ok(v)
  {
    assert NonEmpty(l, v);
  }

  /** A required item holds null only after an empty list was saved for a multi-valued item. */
  lemma {:induction false} RequiredNullIff(l: Library, raw: Raw, kind: ValueType, c: Constraints)
    requires c.required && ValidateValue(l, raw, kind, c).Ok?
    ensures ValidateValue(l, raw, kind, c).value.JNull? <==> IsMulti(kind) && raw.value == Some(FieldTree.JArr([]))
  {
  }

  /** A value that satisfies one set of constraints and is accepted as stored under another fits the other. */
  lemma {:induction false} RecheckedFits(l: Library, v: Json, kind: ValueType, c: Constraints, d: Constraints)
    requires Fits(l, v, kind, c) && ValidateValue(l, Stored(l, v), kind, d).Ok?
    ensures Fits(l, v, kind, d) && !(v.JNull? && d.required)
  {
  }

  // ---- valid constraints are consistent with their own options ----

  /** Every option of a valid enum is a value the item accepts. */
  lemma {:induction false} EveryTextOptionIsAccepted(l: Library, c: Constraints, text: string)
    requires ConstraintsValid(l, TextValue, c) && c.stringEnum.Some? && text in c.stringEnum.value
    ensures Accepts(l, FieldTree.JStr(text), TextValue, c)
  {
  }

  lemma {:induction false} LongerIsLarger(digits: string)
    requires AllDigits(digits) && digits != "" && digits[0] != '0'
    ensures DigitsValue(digits) >= PowerOfTen(|digits| - 1)
  {
    if |digits| > 1 { LongerIsLarger(digits[..|digits| - 1]); }
  }

  lemma {:induction false} TwentyDigitsOverflow(n: nat)
    requires n >= 19
    ensures PowerOfTen(n) > MAX_INT64 + 1
    decreases n
  {
    if n == 19 {
      assert PowerOfTen(5) == 100_000 by { assert PowerOfTen(2) == 100; }
      assert PowerOfTen(10) == 10_000_000_000 by { assert PowerOfTen(7) == 10_000_000; }
      assert PowerOfTen(15) == 1_000_000_000_000_000 by { assert PowerOfTen(12) == 1_000_000_000_000; }
      assert PowerOfTen(17) == 100_000_000_000_000_000;
    } else {
      TwentyDigitsOverflow(n - 1);
    }
  }

  /** A 64-bit integer text is short enough to be a decimal of the service. */
  lemma {:induction false} IntegersAreShort(text: string)
    requires ValidInteger(text)
    ensures ValidDecimal(text)
  {
    IntegerIsDecimal(text);
    var whole := Unsigned(text);
    assert whole[..|whole|] == whole && WholePart(text) == whole;
    if |whole| > 35 {
      LongerIsLarger(whole);
      TwentyDigitsOverflow(|whole| - 1);
    }
  }

  lemma {:induction false} EveryIntegerOptionIsAccepted(l: Library, c: Constraints, text: string)
    requires ConstraintsValid(l, IntegerValue, c) && c.integerEnum.Some? && text in c.integerEnum.value
    ensures Accepts(l, FieldTree.JNum(text), IntegerValue, c)
  {
    IntegersAreShort(text);
    var i :| 0 <= i < |c.integerEnum.value| && c.integerEnum.value[i] == text;
    assert IsDecimal(c.integerEnum.value[i]) && Value(c.integerEnum.value[i]) == Value(text);
  }

  lemma {:induction false} EveryDecimalOptionIsAccepted(l: Library, c: Constraints, text: string)
    requires ConstraintsValid(l, DecimalValue, c) && c.decimalEnum.Some? && text in c.decimalEnum.value
    ensures Accepts(l, FieldTree.JStr(text), DecimalValue, c)
  {
    var i :| 0 <= i < |c.decimalEnum.value| && c.decimalEnum.value[i] == text;
    assert IsDecimal(c.decimalEnum.value[i]) && Value(c.decimalEnum.value[i]) == Value(text);
  }

  // ---- the validator as it runs ----

  /** The ids of a multi-valued body in order of first occurrence, and whether every item was an id. */
  method CollectIds(items: seq<Json>) returns (ids: seq<Json>, valid: bool)
    ensures valid <==> forall i :: 0 <= i < |items| ==> IsId(items[i])
    ensures valid ==> ids == Firsts(items)
  {
    ids, valid := [], true;
    for i := 0 to |items|
      invariant valid <==> forall j :: 0 <= j < i ==> IsId(items[j])
      invariant valid ==> ids == Firsts(items[..i])
    {
      assert items[..i + 1][..i] == items[..i];
      if !IsId(items[i]) {
        valid := false;
      } else if items[i] !in ids {
        ids := ids + [items[i]];
      }
    }
    assert items[..|items|] == items;
  }

  method ListedIn(options: seq<string>, number: real) returns (found: bool)
    ensures found <==> EnumHas(options, number)
  {
    for i := 0 to |options|
      invariant forall j :: 0 <= j < i ==> !(IsDecimal(options[j]) && Value(options[j]) == number)
    {
      if IsDecimal(options[i]) && Value(options[i]) == number { return true; }
    }
    return false;
  }

  method CheckNumber(number: real, c: Constraints, options: Option<seq<string>>) returns (failures: seq<string>)
    ensures failures == [] <==> Within(number, c) && Listed(options, number)
  {
    failures := [];
    if !AtLeast(number, c.minimum) { failures := failures + ["out_of_range"]; }
    if !AtMost(number, c.maximum) { failures := failures + ["out_of_range"]; }
    if options.Some? && options.value != [] {
      var found := ListedIn(options.value, number);
      if !found { failures := failures + ["not_in_enum"]; }
    }
  }

  method CheckText(l: Library, text: string, c: Constraints) returns (failures: seq<string>)
    ensures failures == [] <==> Accepts(l, FieldTree.JStr(text), TextValue, c)
  {
    failures := [];
    if c.minLength.Some? && |text| < c.minLength.value { failures := failures + ["out_of_range"]; }
    if c.maxLength.Some? && |text| > c.maxLength.value { failures := failures + ["out_of_range"]; }
    if !PatternFits(l, text, c) { failures := failures + ["pattern_mismatch"]; }
    if c.stringEnum.Some? && c.stringEnum.value != [] && text !in c.stringEnum.value { failures := failures + ["not_in_enum"]; }
  }

  /** validateAndNormalizeValue: the checks of one type, then the sizes of what they left. */
  method ValidateAndNormalize(l: Library, raw: Raw, kind: ValueType, c: Constraints)
    returns (r: Result<Json, ValueError>, failures: seq<string>)
    ensures r == ValidateValue(l, raw, kind, c)
    ensures r.Ok? <==> failures == []
  {
    failures := [];
    if raw.size == 0 { return Err(MissingValue), ["required"]; }
    if raw.size > MAX_VALUE_BYTES { return Err(TooLarge), ["too_large"]; }
    if raw.value.None? { return Err(Malformed), ["invalid_json"]; }
    var value := raw.value.value;
    if value.JNull? {
      if c.required { return Err(RequiredValue), ["required"]; }
      return Ok(value), [];
    }
    match kind {
      case TextValue =>
        if !value.JStr? { failures := ["invalid_type"]; } else { failures := CheckText(l, value.text, c); }
      case IntegerValue =>
        if !value.JNum? || !IsInteger(value.literal) {
          failures := ["invalid_type"];
        } else if !ValidInteger(value.literal) {
          failures := ["out_of_range"];
        } else {
          IntegerIsDecimal(value.literal);
          failures := CheckNumber(Value(value.literal), c, c.integerEnum);
        }
      case DecimalValue =>
        if !value.JStr? || !ValidDecimal(value.text) {
          failures := ["invalid_format"];
        } else {
          failures := CheckNumber(Value(value.text), c, c.decimalEnum);
          if c.scale.Some? && ScaleOf(value.text) > c.scale.value { failures := failures + ["out_of_range"]; }
          if Value(value.text) == 0.0 { value := FieldTree.JStr("0"); }
        }
      case BooleanValue =>
        if !value.JBool? { failures := ["invalid_type"]; }
      case JsonValue =>
      case SingleAsset | SingleRelation =>
        if !IsId(value) { failures := ["invalid_type"]; }
      case MultiAsset | MultiRelation =>
        if !value.JArr? {
          failures := ["invalid_type"];
        } else {
          var ids, valid := CollectIds(value.items);
          if !valid { failures := ["invalid_type"]; }
          if |ids| > MAX_MULTI_VALUES { failures := failures + ["too_many_items"]; }
          FirstsNotEmpty(value.items);
          value := if ids == [] then FieldTree.JNull else FieldTree.JArr(ids);
        }
    }
    if failures != [] { return Err(Refused), failures; }
    if l.encodedSize(value) > MAX_VALUE_BYTES { return Err(TooLarge), ["too_large"]; }
    if kind.JsonValue? && c.maxBytes.Some? && l.encodedSize(value) > c.maxBytes.value { return Err(TooLarge), ["too_large"]; }
    return Ok(value), [];
  }
}
