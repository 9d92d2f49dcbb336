/** What validated content is, said of the values themselves: which values each kind of field takes, what is
    stored for them, and what the content stored over a run of a model therefore holds. */
module ContentMeaning {
  import opened Wrappers
  import opened Decimals
  import opened FieldTree
  import opened ContentValidation
  import Normalization
  import opened SchemaService
  import opened SchemaRuns

  // ---- accepted values ----

  predicate InRange(x: real, c: Constraints)
    requires BoundsAreDecimals(c)
  {
    (c.minimum.Some? ==> Value(c.minimum.value) <= x) && (c.maximum.Some? ==> x <= Value(c.maximum.value))
  }

  predicate InLength(n: nat, c: Constraints) {
    (c.minLength.Some? ==> c.minLength.value <= n) && (c.maxLength.Some? ==> n <= c.maxLength.value)
  }

  /** The texts of a list, none twice. */
  predicate AllDifferent(items: seq<Json>) { forall i, j :: 0 <= i < j < |items| ==> items[i] != items[j] }

  /** A value other than null is one the field takes. */
  predicate Takes(c: Codec, f: Field, v: Json)
    requires BoundsAreDecimals(f.constraints) && WellFormed(f.children)
    decreases f, 1
  {
    match f.kind
    case SingleLineText => v.JStr? && InLength(|v.text|, f.constraints)
    case MultiLineText => v.JStr? && InLength(|v.text|, f.constraints)
    case RichText => v.JStr? && |v.text| <= 524288 && c.mediaValid(c.sanitize(v.text))
    case Integer => v.JNum? && IsInteger(v.literal) && (IntegerIsDecimal(v.literal); InRange(Value(v.literal), f.constraints))
    case Decimal => v.JStr? && IsDecimal(v.text) && InRange(Value(v.text), f.constraints)
    case Boolean => v.JBool?
    case Date => v.JStr? && c.isDate(v.text)
    case Datetime => v.JStr? && c.datetime(v.text).Some?
    case SingleSelect => v.JStr? && v.text in f.constraints.enumOptions
    case MultiSelect => v.JArr? && AllDifferent(v.items) && forall i :: i in v.items ==> i.JStr? && i.text in f.constraints.enumOptions
    case AnyJson => true
    case SingleMedia => v.JStr? && v.text != ""
    case SingleRelation => v.JStr? && v.text != ""
    case MultiMedia => v.JArr? && |v.items| <= 50 && AllDifferent(v.items) && forall i :: i in v.items ==> i.JStr? && i.text != ""
    case MultiRelation => v.JArr? && |v.items| <= 50 && AllDifferent(v.items) && forall i :: i in v.items ==> i.JStr? && i.text != ""
    case ObjectField => v.JObj? && ObjectTaken(c, f.children, v.members)
    case RepeatableGroup => v.JArr? && forall i :: i in v.items ==> i.JObj? && ObjectTaken(c, f.children, i.members)
  }

  /** Every member belongs to an active field, and every active field has what it takes: a member, which is null
      only if the field is optional, or else a default, or else nothing if the field is optional. */
  predicate ObjectTaken(c: Codec, fields: seq<Field>, members: map<string, Json>)
    requires WellFormed(fields)
    decreases fields, 0
  {
    && (forall key :: key in members ==> exists f :: f in fields && f.active && f.key == key)
    && (forall f :: f in fields && f.active ==>
          var v := if f.key in members then members[f.key] else f.defaultValue;
          if v.JNull? then !f.required else Takes(c, f, v))
  }

  lemma {:induction false} DifferentItems(items: seq<Json>)
    ensures (forall i :: 0 <= i < |items| ==> items[i].JStr? && items[i].text != "" && (forall j :: 0 <= j < i ==> items[j] != items[i]))
       <==> AllDifferent(items) && forall i :: i in items ==> i.JStr? && i.text != ""
  {
  }

  lemma {:induction false} TakesIff(c: Codec, f: Field, v: Json)
    requires BoundsAreDecimals(f.constraints) && WellFormed(f.children) && !v.JNull?
    ensures AcceptsValue(c, v, f) <==> Takes(c, f, v)
    decreases f, 1
  {
    match f.kind
    case Integer => if v.JNum? && IsInteger(v.literal) { IntegerIsDecimal(v.literal); }
    case MultiMedia => if v.JArr? { DifferentItems(v.items); }
    case MultiRelation => if v.JArr? { DifferentItems(v.items); }
    case ObjectField => if v.JObj? { ObjectTakenIff(c, f.children, v.members); }
    case RepeatableGroup =>
      if v.JArr? {
        forall i | 0 <= i < |v.items| && v.items[i].JObj?
          ensures AcceptsObject(c, v.items[i].members, f.children) <==> ObjectTaken(c, f.children, v.items[i].members)
        {
          ObjectTakenIff(c, f.children, v.items[i].members);
        }
      }
    case _ =>
  }

  lemma {:induction false} ObjectTakenIff(c: Codec, fields: seq<Field>, members: map<string, Json>)
    requires WellFormed(fields)
    ensures AcceptsObject(c, members, fields) <==> ObjectTaken(c, fields, members)
    decreases fields, 0
  {
    forall f | f in fields && f.active
      ensures ActiveField(fields, f.key) == Some(f)
      ensures var v := if f.key in members then members[f.key] else f.defaultValue;
        !v.JNull? ==> (AcceptsValue(c, v, f) <==> Takes(c, f, v))
    {
      LookupFinds(fields, f);
      var v := if f.key in members then members[f.key] else f.defaultValue;
      if !v.JNull? { TakesIff(c, f, v); }
    }
    SlotsTaken(c, fields, members);
  }

  lemma {:induction false} SlotsTaken(c: Codec, fields: seq<Field>, members: map<string, Json>)
    requires WellFormed(fields)
    requires forall f :: f in fields && f.active ==> ActiveField(fields, f.key) == Some(f)
    requires forall f :: f in fields && f.active ==>
      var v := if f.key in members then members[f.key] else f.defaultValue;
      !v.JNull? ==> (AcceptsValue(c, v, f) <==> Takes(c, f, v))
    ensures AcceptsObject(c, members, fields) <==> ObjectTaken(c, fields, members)
  {
    if AcceptsObject(c, members, fields) {
      forall f | f in fields && f.active
        ensures var v := if f.key in members then members[f.key] else f.defaultValue; if v.JNull? then !f.required else Takes(c, f, v)
      {
        assert AcceptsField(c, members, f);
      }
    }
    if ObjectTaken(c, fields, members) {
      forall f | f in fields && f.active ensures AcceptsField(c, members, f) {}
      forall key | key in members ensures ActiveField(fields, key).Some? && AcceptsValue(c, members[key], ActiveField(fields, key).value) {
        var f :| f in fields && f.active && f.key == key;
        assert ActiveField(fields, f.key) == Some(f);
      }
    }
  }

  /** validateContent refuses a missing body, a body that is no object, and an object with anything its fields do
      not take, and nothing else. */
  lemma {:induction false} AcceptedIff(c: Codec, body: Option<Json>, fields: seq<Field>)
    requires WellFormed(fields)
    ensures ValidateContent(c, body, fields).Ok? <==> body.Some? && body.value.JObj? && ObjectTaken(c, fields, body.value.members)
    ensures ValidateContent(c, body, fields) == Err(Missing) <==> body.None?
    ensures ValidateContent(c, body, fields) == Err(NotObject) <==> body.Some? && !body.value.JObj?
  {
    if body.Some? && body.value.JObj? { ObjectTakenIff(c, fields, body.value.members); }
  }

  // ---- stored values ----

  /** What is stored for a value: a rich text sanitised, a zero decimal as "0", a time formatted, objects member by
      member, anything else as it is. */
  predicate StoredFor(c: Codec, f: Field, v: Json, s: Json)
    decreases f, 1
  {
    if v.JNull? then s.JNull?
    else
      match f.kind
      case RichText => v.JStr? && s == JStr(c.sanitize(v.text))
      case Decimal => v.JStr? && IsDecimal(v.text) && s == (if Value(v.text) == 0.0 then JStr("0") else v)
      case Datetime => v.JStr? && c.datetime(v.text).Some? && s == JStr(c.datetime(v.text).value)
      case ObjectField => v.JObj? && s.JObj? && ObjectStoredFor(c, f.children, v.members, s.members)
      case RepeatableGroup =>
        && v.JArr? && s.JArr? && |s.items| == |v.items|
        && forall i :: 0 <= i < |v.items| ==>
             v.items[i].JObj? && s.items[i].JObj? && ObjectStoredFor(c, f.children, v.items[i].members, s.items[i].members)
      case _ => s == v
  }

  /** Every active field with a member or a default is stored, and nothing else. */
  predicate ObjectStoredFor(c: Codec, fields: seq<Field>, members: map<string, Json>, stored: map<string, Json>)
    decreases fields, 0
  {
    && (forall key :: key in stored ==> exists f :: f in fields && f.active && f.key == key)
    && (forall f :: f in fields && f.active ==>
          && (f.key in stored <==> f.key in members || !f.defaultValue.JNull?)
          && (f.key in stored ==> StoredFor(c, f, if f.key in members then members[f.key] else f.defaultValue, stored[f.key])))
  }

  lemma {:induction false} NormalStoredFor(c: Codec, f: Field, v: Json)
    requires WellFormed(f.children) && AcceptsValue(c, v, f)
    ensures StoredFor(c, f, v, NormalizeValue(c, v, f))
    decreases f, 1
  {
    if v.JNull? { return; }
    match f.kind
    case ObjectField => NormalObjectStoredFor(c, f.children, v.members);
    case RepeatableGroup =>
      forall i | 0 <= i < |v.items|
        ensures ObjectStoredFor(c, f.children, v.items[i].members, NormalizeObject(c, v.items[i].members, f.children))
      {
        NormalObjectStoredFor(c, f.children, v.items[i].members);
      }
    case _ =>
  }

  lemma {:induction false} NormalObjectStoredFor(c: Codec, fields: seq<Field>, members: map<string, Json>)
    requires WellFormed(fields) && AcceptsObject(c, members, fields)
    ensures ObjectStoredFor(c, fields, members, NormalizeObject(c, members, fields))
    decreases fields, 0
  {
    var stored := NormalizeObject(c, members, fields);
    forall f | f in fields && f.active
      ensures f.key in stored <==> f.key in members || !f.defaultValue.JNull?
      ensures f.key in stored ==> StoredFor(c, f, if f.key in members then members[f.key] else f.defaultValue, stored[f.key])
    {
      Normalization.StoredKeys(c, members, fields, f);
      LookupFinds(fields, f);
      if f.key in stored {
        assert AcceptsField(c, members, f);
        NormalStoredFor(c, f, if f.key in members then members[f.key] else f.defaultValue);
      }
    }
    forall key | key in stored ensures exists f :: f in fields && f.active && f.key == key {
      assert ActiveField(fields, key).Some?;
    }
  }

  /** What validateContent returns. */
  lemma {:induction false} StoredForAccepted(c: Codec, members: map<string, Json>, fields: seq<Field>)
    requires WellFormed(fields) && ValidateContent(c, Some(JObj(members)), fields).Ok?
    ensures ObjectStoredFor(c, fields, members, ValidateContent(c, Some(JObj(members)), fields).value.members)
  {
    NormalObjectStoredFor(c, fields, members);
  }

  // ---- content stored over a run ----

  /** A stored value is inside the constraints of its field; a stored rich text may have outgrown the limit. */
  predicate Holds(c: Codec, f: Field, s: Json)
    requires BoundsAreDecimals(f.constraints)
  {
    match f.kind
    case SingleLineText => s.JStr? && InLength(|s.text|, f.constraints)
    case MultiLineText => s.JStr? && InLength(|s.text|, f.constraints)
    case RichText => s.JStr? && c.mediaValid(s.text) && c.sanitize(s.text) == s.text
    case Integer => s.JNum? && IsInteger(s.literal) && (IntegerIsDecimal(s.literal); InRange(Value(s.literal), f.constraints))
    case Decimal => s.JStr? && IsDecimal(s.text) && InRange(Value(s.text), f.constraints)
    case Boolean => s.JBool?
    case Date => s.JStr? && c.isDate(s.text)
    case Datetime => s.JStr? && c.datetime(s.text) == Some(s.text)
    case SingleSelect => s.JStr? && s.text in f.constraints.enumOptions
    case _ => true
  }

  /** The root values of stored content under the tree it was validated with. */
  predicate RootsHold(c: Codec, stored: map<string, Json>, fields: seq<Field>)
    requires WellFormed(fields)
  {
    && (forall key :: key in stored ==> exists f :: f in fields && f.active && f.key == key)
    && (forall f :: f in fields && f.active ==>
          if f.key !in stored then !f.required && f.defaultValue.JNull?
          else if stored[f.key].JNull? then !f.required
          else Holds(c, f, stored[f.key]))
  }

  lemma {:induction false} StoredHolds(c: Codec, f: Field, v: Json, s: Json)
    requires Sound(c) && BoundsAreDecimals(f.constraints) && WellFormed(f.children)
    requires !v.JNull? && Takes(c, f, v) && StoredFor(c, f, v, s)
    ensures !s.JNull? && Holds(c, f, s)
  {
    match f.kind
    case RichText => assert SanitizesOnce(c, v.text);
    case Datetime => assert FormatsOnce(c, v.text);
    case Decimal => ZeroText();
    case _ =>
  }

  lemma {:induction false} AcceptedRootsHold(c: Codec, body: Json, fields: seq<Field>)
    requires Sound(c) && WellFormed(fields) && ValidateContent(c, Some(body), fields).Ok?
    ensures RootsHold(c, ValidateContent(c, Some(body), fields).value.members, fields)
  {
    var stored := ValidateContent(c, Some(body), fields).value.members;
    AcceptedIff(c, Some(body), fields);
    StoredForAccepted(c, body.members, fields);
    forall f | f in fields && f.active
      ensures if f.key !in stored then !f.required && f.defaultValue.JNull?
              else if stored[f.key].JNull? then !f.required
              else Holds(c, f, stored[f.key])
    {
      var v := if f.key in body.members then body.members[f.key] else f.defaultValue;
      if f.key in stored && !v.JNull? { StoredHolds(c, f, v, stored[f.key]); }
    }
  }

  /** Everything ever stored was written by some event of the run, under the tree the model had then, and its
      root values are inside the constraints of that tree. */
  lemma {:induction false} StoredContentHolds(c: Codec, ids: string -> string, events: seq<Event>, stored: Json)
    requires Sound(c) && stored in After(c, ids, events).stored
    ensures exists n :: 0 <= n < |events| && WrittenAt(c, ids, events, stored, n)
    decreases |events|
  {
    var last := |events| - 1;
    var before := events[..last];
    RunSustains(c, ids, before);
    if stored in After(c, ids, before).stored {
      StoredContentHolds(c, ids, before, stored);
      var n :| 0 <= n < last && WrittenAt(c, ids, before, stored, n);
      assert before[..n] == events[..n];
      assert WrittenAt(c, ids, events, stored, n);
    } else {
      AcceptedRootsHold(c, events[last].body, After(c, ids, before).fields);
      assert WrittenAt(c, ids, events, stored, last);
    }
  }

  ghost predicate WrittenAt(c: Codec, ids: string -> string, events: seq<Event>, stored: Json, n: nat)
    requires n < |events|
  {
    var fields := After(c, ids, events[..n]).fields;
    && events[n].Write? && ValidateContent(c, Some(events[n].body), fields) == Ok(stored)
    && WellFormed(fields) && RootsHold(c, stored.members, fields)
  }
}
