/** validateContent as the program runs it: recursion that fills result maps and appends to one
    shared list of failures. Failures carry a path and a code; messages are display text.
    Go sorts the member keys before it visits them; the method visits them in any order. */
module ContentValidator {
  import opened Wrappers
  import opened Decimals
  import opened FieldTree
  import opened ContentValidation

  datatype Step = Member(key: string) | Item(index: nat)

  datatype Failure = Failure(path: seq<Step>, code: string)

  class ValidationErrors {
    var items: seq<Failure>

    constructor ()
      ensures items == []
    {
      items := [];
    }

    method Add(path: seq<Step>, code: string)
      modifies this
      ensures items == old(items) + [Failure(path, code)]
    {
      items := items + [Failure(path, code)];
    }

    /** The list grew from an earlier one, and only by failures at or below a path. */
    ghost predicate GrewFrom(before: seq<Failure>, path: seq<Step>)
      reads this
    {
      before <= items && forall i :: |before| <= i < |items| ==> path <= items[i].path
    }
  }

  /** The media and relation lists: non-empty texts, at most fifty, none twice. */
  method ValidateIds(items: seq<Json>, path: seq<Step>, failures: ValidationErrors)
    modifies failures
    ensures failures.GrewFrom(old(failures.items), path)
    ensures failures.items == old(failures.items) <==> |items| <= MAX_MULTI_ITEMS && DistinctIds(items)
  {
    if |items| > MAX_MULTI_ITEMS {
      failures.Add(path, "out_of_range");
    }
    var seen: set<string> := {};
    for i := 0 to |items|
      invariant failures.GrewFrom(old(failures.items), path)
      invariant failures.items == old(failures.items) <==> |items| <= MAX_MULTI_ITEMS && DistinctIds(items[..i])
      invariant forall t :: t in seen && t != "" ==> JStr(t) in items[..i]
      invariant forall j :: 0 <= j < i && items[j].JStr? ==> items[j].text in seen
    {
      var text := if items[i].JStr? then items[i].text else "";
      if text == "" {
        failures.Add(path + [Item(i)], "invalid_type");
      } else if text in seen {
        failures.Add(path + [Item(i)], "duplicate");
      }
      seen := seen + {text};
      assert items[..i + 1] == items[..i] + [items[i]];
    }
    assert items[..|items|] == items;
  }

  lemma OptionsOneMore(items: seq<Json>, options: seq<string>, i: nat)
    requires i < |items|
    ensures DistinctOptions(items[..i + 1], options) <==>
      DistinctOptions(items[..i], options) && items[i].JStr? && items[i].text in options && items[i] !in items[..i]
  {
    var next := items[..i + 1];
    assert next == items[..i] + [items[i]];
    if DistinctOptions(next, options) {
      assert next[i] == items[i];
      forall k | 0 <= k < i ensures items[..i][k] == next[k] && next[k] != items[i] {}
    }
  }

  method ValidateOptions(items: seq<Json>, options: seq<string>, path: seq<Step>, failures: ValidationErrors)
    modifies failures
    ensures failures.GrewFrom(old(failures.items), path)
    ensures failures.items == old(failures.items) <==> DistinctOptions(items, options)
  {
    var seen: set<string> := {};
    for i := 0 to |items|
      invariant failures.GrewFrom(old(failures.items), path)
      invariant failures.items == old(failures.items) <==> DistinctOptions(items[..i], options)
      invariant failures.items == old(failures.items) ==> forall t :: t in seen ==> JStr(t) in items[..i]
      invariant forall j :: 0 <= j < i && items[j].JStr? ==> items[j].text in seen
    {
      OptionsOneMore(items, options, i);
      var text := if items[i].JStr? then items[i].text else "";
      if !items[i].JStr? || text !in options {
        failures.Add(path + [Item(i)], "invalid_value");
      } else if text in seen {
        failures.Add(path + [Item(i)], "duplicate");
      }
      seen := seen + {text};
      assert items[..i + 1] == items[..i] + [items[i]];
    }
    assert items[..|items|] == items;
  }

  method ValidateNumber(c: Codec, text: string, constraints: Constraints, path: seq<Step>, failures: ValidationErrors)
    modifies failures
    ensures failures.GrewFrom(old(failures.items), path)
    ensures failures.items == old(failures.items) <==> NumberWithin(c, text, constraints)
  {
    var number := Rational(c, text);
    if number.None? { return; }
    if constraints.minimum.Some? {
      var minimum := Rational(c, constraints.minimum.value);
      if minimum.Some? && number.value < minimum.value { failures.Add(path, "out_of_range"); }
    }
    if constraints.maximum.Some? {
      var maximum := Rational(c, constraints.maximum.value);
      if maximum.Some? && number.value > maximum.value { failures.Add(path, "out_of_range"); }
    }
  }

  method ValidateValue(c: Codec, value: Json, field: Field, path: seq<Step>, failures: ValidationErrors)
    returns (result: Json)
    requires WellFormed(field.children)
    modifies failures
    ensures result == NormalizeValue(c, value, field)
    ensures failures.GrewFrom(old(failures.items), path)
    ensures failures.items == old(failures.items) <==> AcceptsValue(c, value, field)
    decreases field, 1
  {
    result := value;
    if value.JNull? { return; }
    match field.kind {
      case SingleMedia | SingleRelation =>
        if !value.JStr? || value.text == "" { failures.Add(path, "invalid_type"); }
      case MultiMedia | MultiRelation =>
        if !value.JArr? { failures.Add(path, "invalid_type"); return; }
        ValidateIds(value.items, path, failures);
      case SingleLineText | MultiLineText =>
        if !value.JStr? { failures.Add(path, "invalid_type"); return; }
        if !LengthWithin(value.text, field.constraints) { failures.Add(path, "out_of_range"); }
      case RichText =>
        if !value.JStr? { failures.Add(path, "invalid_type"); return; }
        if |value.text| > MAX_RICH_TEXT_RUNES { failures.Add(path, "too_long"); return; }
        var cleaned := c.sanitize(value.text);
        if !c.mediaValid(cleaned) { failures.Add(path, "media"); }
        result := JStr(cleaned);
      case Integer =>
        if !value.JNum? || !IsInteger(value.literal) { failures.Add(path, "invalid_type"); return; }
        ValidateNumber(c, value.literal, field.constraints, path, failures);
      case Decimal =>
        if !value.JStr? || !IsDecimal(value.text) { failures.Add(path, "invalid_format"); return; }
        ValidateNumber(c, value.text, field.constraints, path, failures);
        if Value(value.text) == 0.0 { result := JStr("0"); }
      case Boolean =>
        if !value.JBool? { failures.Add(path, "invalid_type"); }
      case Date =>
        if !value.JStr? || !c.isDate(value.text) { failures.Add(path, "invalid_format"); }
      case Datetime =>
        if !value.JStr? || c.datetime(value.text).None? { failures.Add(path, "invalid_format"); }
        else { result := JStr(c.datetime(value.text).value); }
      case SingleSelect =>
        if !value.JStr? || value.text !in field.constraints.enumOptions { failures.Add(path, "invalid_value"); }
      case MultiSelect =>
        if !value.JArr? { failures.Add(path, "invalid_type"); return; }
        ValidateOptions(value.items, field.constraints.enumOptions, path, failures);
      case AnyJson =>
      case ObjectField =>
        if !value.JObj? { failures.Add(path, "invalid_type"); return; }
        var members := ValidateObject(c, value.members, field.children, path, failures);
        result := JObj(members);
      case RepeatableGroup =>
        if !value.JArr? { failures.Add(path, "invalid_type"); return; }
        var items := ValidateItems(c, value.items, field.children, path, failures);
        result := JArr(items);
    }
  }

  method ValidateItems(c: Codec, items: seq<Json>, children: seq<Field>, path: seq<Step>, failures: ValidationErrors)
    returns (result: seq<Json>)
    requires WellFormed(children)
    modifies failures
    ensures result == NormalizeItems(c, items, children)
    ensures failures.GrewFrom(old(failures.items), path)
    ensures failures.items == old(failures.items) <==>
      forall i :: 0 <= i < |items| ==> items[i].JObj? && AcceptsObject(c, items[i].members, children)
    decreases children, 1
  {
    result := [];
    for i := 0 to |items|
      invariant |result| == i && result == NormalizeItems(c, items, children)[..i]
      invariant failures.GrewFrom(old(failures.items), path)
      invariant failures.items == old(failures.items) <==>
        forall j :: 0 <= j < i ==> items[j].JObj? && AcceptsObject(c, items[j].members, children)
    {
      if items[i].JObj? {
        var members := ValidateObject(c, items[i].members, children, path + [Item(i)], failures);
        result := result + [JObj(members)];
      } else {
        failures.Add(path + [Item(i)], "invalid_type");
        result := result + [items[i]];
      }
    }
  }

  /** The result map once the given keys have been visited. */
  ghost function Filled(c: Codec, members: map<string, Json>, fields: seq<Field>,
      visited: set<string>): map<string, Json> {
    map key | key in visited && ActiveField(fields, key).Some? ::
      NormalizeValue(c, if key in members then members[key] else ActiveField(fields, key).value.defaultValue,
                     ActiveField(fields, key).value)
  }

  lemma {:induction false} FilledByOne(c: Codec, members: map<string, Json>, fields: seq<Field>, visited: set<string>,
      key: string)
    ensures Filled(c, members, fields, visited + {key}) ==
      if ActiveField(fields, key).None? then Filled(c, members, fields, visited)
      else Filled(c, members, fields, visited)[key :=
        NormalizeValue(c, if key in members then members[key] else ActiveField(fields, key).value.defaultValue,
                       ActiveField(fields, key).value)]
  {
  }

  ghost predicate MemberAccepted(c: Codec, members: map<string, Json>, fields: seq<Field>, key: string)
    requires key in members
  {
    ActiveField(fields, key).Some? && AcceptsValue(c, members[key], ActiveField(fields, key).value)
  }

  ghost predicate FieldAccepted(c: Codec, members: map<string, Json>, f: Field) {
    f.active ==> AcceptsField(c, members, f)
  }

  lemma AcceptedBothWays(c: Codec, members: map<string, Json>, fields: seq<Field>)
    ensures AcceptsObject(c, members, fields) <==>
      (forall key :: key in members ==> MemberAccepted(c, members, fields, key)) &&
      (forall j :: 0 <= j < |fields| ==> FieldAccepted(c, members, fields[j]))
  {
    if forall j :: 0 <= j < |fields| ==> FieldAccepted(c, members, fields[j]) {
      forall f | f in fields && f.active ensures AcceptsField(c, members, f) {
        var j :| 0 <= j < |fields| && fields[j] == f;
        assert FieldAccepted(c, members, fields[j]);
      }
    }
    if AcceptsObject(c, members, fields) {
      forall j | 0 <= j < |fields| ensures FieldAccepted(c, members, fields[j]) { assert fields[j] in fields; }
    }
  }

  method ValidateObject(c: Codec, members: map<string, Json>, fields: seq<Field>, path: seq<Step>,
      failures: ValidationErrors)
    returns (result: map<string, Json>)
    requires WellFormed(fields)
    modifies failures
    ensures result == NormalizeObject(c, members, fields)
    ensures failures.GrewFrom(old(failures.items), path)
    ensures failures.items == old(failures.items) <==> AcceptsObject(c, members, fields)
    decreases fields, 0, 1
  {
    result := ValidateMembers(c, members, fields, path, failures);
    result := ValidateFields(c, members, fields, result, path, failures);
    AcceptedBothWays(c, members, fields);
  }

  /** The second loop of validateObject: defaults are filled in and required fields looked for. */
  method ValidateFields(c: Codec, members: map<string, Json>, fields: seq<Field>, partial: map<string, Json>,
      path: seq<Step>, failures: ValidationErrors)
    returns (result: map<string, Json>)
    requires WellFormed(fields) && partial == Filled(c, members, fields, members.Keys + DefaultedKeys(members, []))
    modifies failures
    ensures result == Filled(c, members, fields, members.Keys + DefaultedKeys(members, fields))
    ensures failures.GrewFrom(old(failures.items), path)
    ensures failures.items == old(failures.items) <==> forall j :: 0 <= j < |fields| ==> FieldAccepted(c, members, fields[j])
    decreases fields, 0, 0
  {
    result := partial;
    for i := 0 to |fields|
      invariant result == Filled(c, members, fields, members.Keys + DefaultedKeys(members, fields[..i]))
      invariant failures.GrewFrom(old(failures.items), path)
      invariant failures.items == old(failures.items) <==> forall j :: 0 <= j < i ==> FieldAccepted(c, members, fields[j])
    {
      assert fields[..i + 1] == fields[..i] + [fields[i]];
      result := ValidateOneField(c, members, fields, fields[..i], fields[i], result, path, failures);
    }
    assert fields[..|fields|] == fields;
  }

  /** One round of the second loop: fill the default in, then check that a required field is there. */
  method ValidateOneField(c: Codec, members: map<string, Json>, fields: seq<Field>, ghost before: seq<Field>, f: Field,
                          partial: map<string, Json>, path: seq<Step>, failures: ValidationErrors)
    returns (result: map<string, Json>)
    requires UniqueKeys(fields) && f in fields && WellFormed(f.children)
    requires partial == Filled(c, members, fields, members.Keys + DefaultedKeys(members, before))
    modifies failures
    ensures result == Filled(c, members, fields, members.Keys + DefaultedKeys(members, before + [f]))
    ensures failures.GrewFrom(old(failures.items), path)
    ensures failures.items == old(failures.items) <==> FieldAccepted(c, members, f)
    decreases f, 2
  {
    LookupFinds(fields, f);
    result := partial;
    DefaultedByOne(members, before, f);
    ghost var visited := members.Keys + DefaultedKeys(members, before);
    if !f.active { return; }
    var value := if f.key in members then members[f.key] else f.defaultValue;
    if f.key !in members && !f.defaultValue.JNull? {
      FilledByOne(c, members, fields, visited, f.key);
      assert visited + {f.key} == members.Keys + DefaultedKeys(members, before + [f]);
      var filled := ValidateValue(c, f.defaultValue, f, path + [Member(f.key)], failures);
      result := result[f.key := filled];
    }
    if f.required && value.JNull? {
      failures.Add(path + [Member(f.key)], "required");
    }
  }

  lemma DefaultedByOne(members: map<string, Json>, before: seq<Field>, f: Field)
    ensures DefaultedKeys(members, before + [f])
      == DefaultedKeys(members, before) + (if f.active && f.key !in members && !f.defaultValue.JNull? then {f.key} else {})
  {
    var s := before + [f];
    assert forall g :: g in s <==> g in before || g == f;
  }

  /** The first loop of validateObject: every member belongs to an active field and is valid. */
  method ValidateMembers(c: Codec, members: map<string, Json>, fields: seq<Field>, path: seq<Step>,
      failures: ValidationErrors)
    returns (result: map<string, Json>)
    requires WellFormed(fields)
    modifies failures
    ensures result == Filled(c, members, fields, members.Keys + DefaultedKeys(members, []))
    ensures failures.GrewFrom(old(failures.items), path)
    ensures failures.items == old(failures.items) <==> forall key :: key in members ==> MemberAccepted(c, members, fields, key)
    decreases fields, 0, 0
  {
    result := map[];
    var todo := members.Keys;
    while todo != {}
      invariant todo <= members.Keys
      invariant result == Filled(c, members, fields, members.Keys - todo)
      invariant failures.GrewFrom(old(failures.items), path)
      invariant failures.items == old(failures.items) <==>
        forall key :: key in members.Keys - todo ==> MemberAccepted(c, members, fields, key)
      decreases todo
    {
      var key :| key in todo;
      FilledByOne(c, members, fields, members.Keys - todo, key);
      assert members.Keys - (todo - {key}) == (members.Keys - todo) + {key};
      var field := Lookup(fields, key);
      if field.None? {
        failures.Add(path + [Member(key)], "unknown_property");
      } else if !field.value.active {
        failures.Add(path + [Member(key)], "archived_field");
      } else {
        var normalized := ValidateValue(c, members[key], field.value, path + [Member(key)], failures);
        result := result[key := normalized];
      }
      todo := todo - {key};
    }
    assert members.Keys + DefaultedKeys(members, []) == members.Keys - todo;
  }

  /** validateContent: the normalised object, or the failures it was refused for. */
  method Validate(c: Codec, body: Option<Json>, fields: seq<Field>)
    returns (r: Result<Json, ContentError>, failures: ValidationErrors)
    requires WellFormed(fields)
    ensures fresh(failures)
    ensures r == ValidateContent(c, body, fields)
    ensures r.Ok? <==> failures.items == []
  {
    failures := new ValidationErrors();
    if body.None? {
      failures.Add([], "required");
      return Err(Missing), failures;
    }
    if !body.value.JObj? {
      failures.Add([], "invalid_type");
      return Err(NotObject), failures;
    }
    var normalized := ValidateObject(c, body.value.members, fields, [], failures);
    if failures.items != [] {
      return Err(Rejected), failures;
    }
    return Ok(JObj(normalized)), failures;
  }
}
