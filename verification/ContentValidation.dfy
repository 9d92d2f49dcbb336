/** What content.validateContent accepts and what it returns.
    The HTML sanitiser, the rich-text tokenizer and the time parser are library code:
    they are the functions of a Codec, and Sound states what is assumed of them. */
module ContentValidation {
  import opened Wrappers
  import opened Decimals
  import opened FieldTree

  const MAX_RICH_TEXT_RUNES: nat := 524288
  const MAX_MULTI_ITEMS: nat := 50

  /** One media element of a rich text: its asset, its kind and its index among the media elements. */
  datatype Mention = Mention(assetId: string, kind: string, position: nat)

  datatype Codec = Codec(
    sanitize: string -> string,
    mediaValid: string -> bool,
    mentions: string -> seq<Mention>,
    isDate: string -> bool,
    instant: string -> Option<string>,
    datetime: string -> Option<string>,
    otherRational: string -> Option<real>)

  ghost predicate SanitizesOnce(c: Codec, s: string) { c.sanitize(c.sanitize(s)) == c.sanitize(s) }

  /** `instant` reads an RFC 3339 time and formats it in UTC, truncated to microseconds;
      `datetime` does so for times that are whole microseconds, as every formatted time is. */
  ghost predicate FormatsOnce(c: Codec, s: string) {
    && (c.datetime(s).Some? ==> c.instant(s) == c.datetime(s))
    && (c.instant(s).Some? ==> c.datetime(c.instant(s).value) == c.instant(s))
  }

  /** Sanitising and formatting an instant are idempotent. */
  ghost predicate Sound(c: Codec) {
    && (forall s :: SanitizesOnce(c, s))
    && (forall s :: FormatsOnce(c, s))
  }

  /** big.Rat.SetString: decimal texts, and whatever else the library reads. */
  function Rational(c: Codec, s: string): Option<real> {
    if IsDecimal(s) then Some(Value(s)) else c.otherRational(s)
  }

  predicate NumberWithin(c: Codec, text: string, constraints: Constraints) {
    var number := Rational(c, text);
    number.Some? ==>
      && (constraints.minimum.Some? && Rational(c, constraints.minimum.value).Some?
          ==> Rational(c, constraints.minimum.value).value <= number.value)
      && (constraints.maximum.Some? && Rational(c, constraints.maximum.value).Some?
          ==> number.value <= Rational(c, constraints.maximum.value).value)
  }

  predicate LengthWithin(text: string, constraints: Constraints) {
    && (constraints.minLength.Some? ==> constraints.minLength.value <= |text|)
    && (constraints.maxLength.Some? ==> |text| <= constraints.maxLength.value)
  }

  /** Items are non-empty texts without repetition. */
  predicate DistinctIds(items: seq<Json>) {
    forall i :: 0 <= i < |items| ==>
      items[i].JStr? && items[i].text != "" && (forall j :: 0 <= j < i ==> items[j] != items[i])
  }

  predicate DistinctOptions(items: seq<Json>, options: seq<string>) {
    forall i :: 0 <= i < |items| ==>
      items[i].JStr? && items[i].text in options && (forall j :: 0 <= j < i ==> items[j] != items[i])
  }

  /** validateValue adds no failure for this value. */
  predicate AcceptsValue(c: Codec, v: Json, f: Field)
    decreases f, 1
  {
    v.JNull? ||
    match f.kind
    case SingleMedia | SingleRelation => v.JStr? && v.text != ""
    case MultiMedia | MultiRelation => v.JArr? && |v.items| <= MAX_MULTI_ITEMS && DistinctIds(v.items)
    case SingleLineText | MultiLineText => v.JStr? && LengthWithin(v.text, f.constraints)
    case RichText => v.JStr? && |v.text| <= MAX_RICH_TEXT_RUNES && c.mediaValid(c.sanitize(v.text))
    case Integer => v.JNum? && IsInteger(v.literal) && NumberWithin(c, v.literal, f.constraints)
    case Decimal => v.JStr? && IsDecimal(v.text) && NumberWithin(c, v.text, f.constraints)
    case Boolean => v.JBool?
    case Date => v.JStr? && c.isDate(v.text)
    case Datetime => v.JStr? && c.datetime(v.text).Some?
    case SingleSelect => v.JStr? && v.text in f.constraints.enumOptions
    case MultiSelect => v.JArr? && DistinctOptions(v.items, f.constraints.enumOptions)
    case AnyJson => true
    case ObjectField => v.JObj? && AcceptsObject(c, v.members, f.children)
    case RepeatableGroup =>
      v.JArr? && forall i :: 0 <= i < |v.items| ==> v.items[i].JObj? && AcceptsObject(c, v.items[i].members, f.children)
  }

  /** validateObject adds no failure for this object. */
  predicate AcceptsObject(c: Codec, members: map<string, Json>, fields: seq<Field>)
    decreases fields, 0
  {
    && (forall key :: key in members ==>
          ActiveField(fields, key).Some? && AcceptsValue(c, members[key], ActiveField(fields, key).value))
    && (forall f :: f in fields && f.active ==> AcceptsField(c, members, f))
  }

  /** The second loop of validateObject: defaults are filled and validated, required fields are present. */
  predicate AcceptsField(c: Codec, members: map<string, Json>, f: Field)
    decreases f, 2
  {
    if f.key in members then f.required ==> !members[f.key].JNull?
    else if f.defaultValue.JNull? then !f.required
    else AcceptsValue(c, f.defaultValue, f)
  }

  /** The value validateValue returns, whether or not it adds failures. */
  function NormalizeValue(c: Codec, v: Json, f: Field): (n: Json)
    ensures n.JNull? <==> v.JNull?
    decreases f, 1
  {
    match f.kind
    case RichText => if v.JStr? && |v.text| <= MAX_RICH_TEXT_RUNES then JStr(c.sanitize(v.text)) else v
    case Decimal => if v.JStr? && IsDecimal(v.text) && Value(v.text) == 0.0 then JStr("0") else v
    case Datetime => if v.JStr? && c.datetime(v.text).Some? then JStr(c.datetime(v.text).value) else v
    case ObjectField => if v.JObj? then JObj(NormalizeObject(c, v.members, f.children)) else v
    case RepeatableGroup => if v.JArr? then JArr(NormalizeItems(c, v.items, f.children)) else v
    case _ => v
  }

  function NormalizeItems(c: Codec, items: seq<Json>, fields: seq<Field>): (n: seq<Json>)
    ensures |n| == |items|
    decreases fields, 1
  {
    seq(|items|, i requires 0 <= i < |items| =>
      if items[i].JObj? then JObj(NormalizeObject(c, items[i].members, fields)) else items[i])
  }

  /** Keys of active fields that are absent and have a default. */
  function DefaultedKeys(members: map<string, Json>, fields: seq<Field>): set<string> {
    set f | f in fields && f.active && f.key !in members && !f.defaultValue.JNull? :: f.key
  }

  function NormalizeObject(c: Codec, members: map<string, Json>, fields: seq<Field>): map<string, Json>
    decreases fields, 0
  {
    map key | key in members.Keys + DefaultedKeys(members, fields) && ActiveField(fields, key).Some? ::
      NormalizeValue(c, if key in members then members[key] else ActiveField(fields, key).value.defaultValue,
                     ActiveField(fields, key).value)
  }

  datatype ContentError = Missing | NotObject | Rejected

  /** validateContent on a decoded body; None stands for an absent one. */
  function ValidateContent(c: Codec, body: Option<Json>, fields: seq<Field>): (r: Result<Json, ContentError>)
    ensures r.Ok? ==> r.value.JObj?
  {
    if body.None? then Err(Missing)
    else if !body.value.JObj? then Err(NotObject)
    else if !AcceptsObject(c, body.value.members, fields) then Err(Rejected)
    else Ok(JObj(NormalizeObject(c, body.value.members, fields)))
  }
}
