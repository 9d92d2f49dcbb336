/** What a configuration value is, said of the value itself: what each type takes under valid constraints, what is
    stored for it, and what changing the constraints of an item leaves. */
module ConfigurationMeaning {
  import opened Wrappers
  import opened Decimals
  import FieldTree
  import opened ConfigurationValue
  import opened RevisionWorkflow
  import opened ConfigurationService
  import opened ConfigurationRuns

  // ---- accepted values ----

  predicate NumericBounds(c: Constraints) {
    (c.minimum.Some? ==> IsDecimal(c.minimum.value)) && (c.maximum.Some? ==> IsDecimal(c.maximum.value))
  }

  lemma BoundsAreNumbers(l: Library, kind: ValueType, c: Constraints)
    requires ConstraintsValid(l, kind, c)
    ensures NumericBounds(c)
  {
    if c.minimum.Some? && kind.IntegerValue? { IntegerIsDecimal(c.minimum.value); }
    if c.maximum.Some? && kind.IntegerValue? { IntegerIsDecimal(c.maximum.value); }
  }

  predicate InBounds(x: real, c: Constraints)
    requires NumericBounds(c)
  {
    (c.minimum.Some? ==> Value(c.minimum.value) <= x) && (c.maximum.Some? ==> x <= Value(c.maximum.value))
  }

  /** If there are options one of them denotes this number. */
  predicate AmongOptions(options: Option<seq<string>>, x: real) {
    options.Some? ==> exists o :: o in options.value && IsDecimal(o) && Value(o) == x
  }

  predicate IsIdText(v: Json) { v.JStr? && v.text != "" }

  function Members(items: seq<Json>): set<Json> { set i | i in items }

  /** A value other than null is one the type takes under these constraints. */
  predicate Takes(l: Library, kind: ValueType, c: Constraints, v: Json)
    requires NumericBounds(c)
  {
    match kind
    case TextValue =>
      && v.JStr?
      && (c.minLength.Some? ==> c.minLength.value <= |v.text|) && (c.maxLength.Some? ==> |v.text| <= c.maxLength.value)
      && (c.pattern.Some? ==> l.matches(c.pattern.value, v.text))
      && (c.stringEnum.Some? ==> v.text in c.stringEnum.value)
    case IntegerValue =>
      v.JNum? && IsInteger(v.literal) &&
      (IntegerIsDecimal(v.literal);
       && -9223372036854775808.0 <= Value(v.literal) <= 9223372036854775807.0
       && InBounds(Value(v.literal), c) && AmongOptions(c.integerEnum, Value(v.literal)))
    case DecimalValue =>
      && v.JStr? && IsDecimal(v.text) && |WholePart(v.text)| <= 35 && |FractionPart(v.text)| <= 30
      && (c.scale.Some? ==> |FractionPart(v.text)| <= c.scale.value)
      && InBounds(Value(v.text), c) && AmongOptions(c.decimalEnum, Value(v.text))
    case BooleanValue => v.JBool?
    case JsonValue => true
    case SingleAsset => IsIdText(v)
    case SingleRelation => IsIdText(v)
    case MultiAsset => v.JArr? && (forall i :: i in v.items ==> IsIdText(i)) && |Members(v.items)| <= 50
    case MultiRelation => v.JArr? && (forall i :: i in v.items ==> IsIdText(i)) && |Members(v.items)| <= 50
  }

  lemma {:induction false} DistinctMembers(items: seq<Json>)
    requires forall i, j :: 0 <= i < j < |items| ==> items[i] != items[j]
    ensures |Members(items)| == |items|
  {
    if items != [] {
      var init, last := items[..|items| - 1], items[|items| - 1];
      DistinctMembers(init);
      assert items == init + [last];
      assert Members(items) == Members(init) + {last} && last !in Members(init);
    }
  }

  lemma {:induction false} FirstsCount(items: seq<Json>)
    ensures |Firsts(items)| == |Members(items)|
  {
    DistinctMembers(Firsts(items));
    assert Members(Firsts(items)) == Members(items);
  }

  lemma NoDotNoFraction(s: string)
    requires !HasDot(s)
    ensures FractionPart(s) == ""
  {
  }

  lemma {:induction false} NumbersAgree(l: Library, kind: ValueType, c: Constraints, x: real)
    requires ConstraintsValid(l, kind, c) && NumericBounds(c)
    ensures Within(x, c) <==> InBounds(x, c)
    ensures Listed(c.integerEnum, x) <==> AmongOptions(c.integerEnum, x)
    ensures Listed(c.decimalEnum, x) <==> AmongOptions(c.decimalEnum, x)
  {
  }

  lemma {:induction false} TakesIff(l: Library, kind: ValueType, c: Constraints, v: Json)
    requires ConstraintsValid(l, kind, c) && NumericBounds(c)
    ensures Accepts(l, v, kind, c) <==> Takes(l, kind, c, v)
  {
    match kind
    case IntegerValue =>
      if v.JNum? && IsInteger(v.literal) {
        IntegerIsDecimal(v.literal);
        NumbersAgree(l, kind, c, Value(v.literal));
      }
    case DecimalValue =>
      if v.JStr? && IsDecimal(v.text) {
        if !HasDot(v.text) { NoDotNoFraction(v.text); }
        NumbersAgree(l, kind, c, Value(v.text));
      }
    case MultiAsset => if v.JArr? { IdList(v.items); }
    case MultiRelation => if v.JArr? { IdList(v.items); }
    case _ =>
  }

  // ---- valid constraints ----

  predicate IsOrdered(low: Option<int>, high: Option<int>) {
    && (low.Some? ==> low.value >= 0) && (high.Some? ==> high.value >= 0)
    && (low.Some? && high.Some? ==> low.value <= high.value)
  }

  predicate IsOneOf(low: int, value: Option<int>, high: int) { value.Some? ==> low <= value.value <= high }

  /** Some bound of either side is missing, or the interval is not empty. */
  predicate IsInterval(c: Constraints) {
    && NumericBounds(c)
    && (c.minimum.Some? && c.maximum.Some? ==> Value(c.minimum.value) <= Value(c.maximum.value))
  }

  predicate DifferentNumbers(options: seq<string>) {
    forall i, j :: 0 <= i < j < |options| && IsDecimal(options[i]) && IsDecimal(options[j]) ==>
      Value(options[i]) != Value(options[j])
  }

  predicate HasDigits(bound: Option<string>) {
    bound.Some? ==> IsDecimal(bound.value) && |WholePart(bound.value)| <= 35 && |FractionPart(bound.value)| <= 30
  }

  /** The constraints an item of each type may have: those of its type and no others, bounds that leave something
      between them, and options that are different values the item takes. */
  predicate MayHave(l: Library, kind: ValueType, c: Constraints) {
    var plain := Constraints(c.required, None, None, None, None, None, None, None, None, None, None, None, None, None);
    match kind
    case TextValue =>
      && c == plain.(minLength := c.minLength, maxLength := c.maxLength, pattern := c.pattern, stringEnum := c.stringEnum)
      && IsOrdered(c.minLength, c.maxLength)
      && (c.pattern.Some? ==> l.byteLength(c.pattern.value) <= 512 && l.compiles(c.pattern.value))
      && (c.stringEnum.Some? ==>
            && c.stringEnum.value != [] && (forall t :: t in c.stringEnum.value ==> Takes(l, kind, c, FieldTree.JStr(t)))
            && forall i, j :: 0 <= i < j < |c.stringEnum.value| ==> c.stringEnum.value[i] != c.stringEnum.value[j])
    case IntegerValue =>
      && c == plain.(minimum := c.minimum, maximum := c.maximum, integerEnum := c.integerEnum)
      && (c.minimum.Some? ==> IsInteger(c.minimum.value)) && (c.maximum.Some? ==> IsInteger(c.maximum.value))
      && IsInterval(c)
      && (c.integerEnum.Some? ==>
            && c.integerEnum.value != [] && (forall t :: t in c.integerEnum.value ==> Takes(l, kind, c, FieldTree.JNum(t)))
            && DifferentNumbers(c.integerEnum.value))
    case DecimalValue =>
      && c == plain.(minimum := c.minimum, maximum := c.maximum, scale := c.scale, decimalEnum := c.decimalEnum)
      && HasDigits(c.minimum) && HasDigits(c.maximum) && IsInterval(c) && IsOneOf(0, c.scale, 30)
      && (c.decimalEnum.Some? ==>
            && c.decimalEnum.value != [] && (forall t :: t in c.decimalEnum.value ==> Takes(l, kind, c, FieldTree.JStr(t)))
            && DifferentNumbers(c.decimalEnum.value))
    case BooleanValue => c == plain
    case JsonValue => c == plain.(maxBytes := c.maxBytes) && IsOneOf(1, c.maxBytes, 65536)
    case SingleAsset | MultiAsset =>
      && c == plain.(allowedMimeTypes := c.allowedMimeTypes, maxSize := c.maxSize) && IsOneOf(1, c.maxSize, 5368709120)
      && (c.allowedMimeTypes.Some? ==>
            c.allowedMimeTypes.value != [] && forall t :: t in c.allowedMimeTypes.value ==> l.isMime(t))
    case SingleRelation | MultiRelation =>
      c == plain.(targetModelId := c.targetModelId) && c.targetModelId.Some? && c.targetModelId.value != ""
  }

  lemma {:induction false} ConstraintsIff(l: Library, kind: ValueType, c: Constraints)
    ensures ConstraintsValid(l, kind, c) <==> MayHave(l, kind, c)
  {
    match kind
    case TextValue => TextConstraintsIff(l, c);
    case IntegerValue => IntegerConstraintsIff(l, c);
    case DecimalValue => DecimalConstraintsIff(l, c);
    case _ =>
  }

  lemma {:induction false} TextConstraintsIff(l: Library, c: Constraints)
    ensures ConstraintsValid(l, TextValue, c) <==> MayHave(l, TextValue, c)
  {
  }

  lemma {:induction false} IntegerConstraintsIff(l: Library, c: Constraints)
    ensures ConstraintsValid(l, IntegerValue, c) <==> MayHave(l, IntegerValue, c)
  {
    if c.minimum.Some? && IsInteger(c.minimum.value) { IntegerIsDecimal(c.minimum.value); }
    if c.maximum.Some? && IsInteger(c.maximum.value) { IntegerIsDecimal(c.maximum.value); }
    if c.integerEnum.Some? && NumericBounds(c) { IntegerOptionsIff(l, c); }
  }

  lemma {:induction false} IntegerOptionsIff(l: Library, c: Constraints)
    requires c.integerEnum.Some? && NumericBounds(c)
    ensures var options := c.integerEnum.value;
      (forall t :: t in options ==> ValidInteger(t)) && OptionsValid(options, c, None) <==>
      && options != [] && (forall t :: t in options ==> Takes(l, IntegerValue, c, FieldTree.JNum(t)))
      && DifferentNumbers(options)
  {
    var options := c.integerEnum.value;
    forall i | 0 <= i < |options|
      ensures Takes(l, IntegerValue, c, FieldTree.JNum(options[i])) <==>
              ValidInteger(options[i]) && ValidDecimal(options[i]) && Within(Value(options[i]), c)
      ensures ValidInteger(options[i]) ==> ValidDecimal(options[i])
    {
      IntegerOption(l, c, i);
    }
  }

  lemma {:induction false} IntegerOption(l: Library, c: Constraints, i: nat)
    requires c.integerEnum.Some? && i < |c.integerEnum.value| && NumericBounds(c)
    ensures var t := c.integerEnum.value[i];
      && (ValidInteger(t) ==> ValidDecimal(t))
      && (Takes(l, IntegerValue, c, FieldTree.JNum(t)) <==> ValidInteger(t) && ValidDecimal(t) && Within(Value(t), c))
  {
    var t := c.integerEnum.value[i];
    if IsInteger(t) { IntegerIsDecimal(t); }
    if ValidInteger(t) { IntegersAreShort(t); }
    assert t in c.integerEnum.value;
  }

  lemma {:induction false} DecimalConstraintsIff(l: Library, c: Constraints)
    ensures ConstraintsValid(l, DecimalValue, c) <==> MayHave(l, DecimalValue, c)
  {
    DigitsIff(c.minimum);
    DigitsIff(c.maximum);
    if c.decimalEnum.Some? && NumericBounds(c) && (c.scale.Some? ==> 0 <= c.scale.value) { DecimalOptionsIff(l, c); }
  }

  lemma {:induction false} DigitsIff(bound: Option<string>)
    ensures HasDigits(bound) <==> (bound.Some? ==> ValidDecimal(bound.value))
  {
    if bound.Some? && !HasDot(bound.value) { NoDotNoFraction(bound.value); }
  }

  lemma {:induction false} DecimalOptionsIff(l: Library, c: Constraints)
    requires c.decimalEnum.Some? && NumericBounds(c) && (c.scale.Some? ==> 0 <= c.scale.value)
    ensures var options := c.decimalEnum.value;
      (forall t :: t in options ==> ValidDecimal(t)) && OptionsValid(options, c, c.scale) <==>
      && options != [] && (forall t :: t in options ==> Takes(l, DecimalValue, c, FieldTree.JStr(t)))
      && DifferentNumbers(options)
  {
    var options := c.decimalEnum.value;
    forall i | 0 <= i < |options|
      ensures Takes(l, DecimalValue, c, FieldTree.JStr(options[i])) <==>
              && ValidDecimal(options[i]) && Within(Value(options[i]), c)
              && (c.scale.Some? ==> ScaleOf(options[i]) <= c.scale.value)
    {
      DecimalOption(l, c, i);
    }
  }

  lemma {:induction false} DecimalOption(l: Library, c: Constraints, i: nat)
    requires c.decimalEnum.Some? && i < |c.decimalEnum.value| && NumericBounds(c)
    requires c.scale.Some? ==> 0 <= c.scale.value
    ensures var t := c.decimalEnum.value[i];
      Takes(l, DecimalValue, c, FieldTree.JStr(t)) <==>
      ValidDecimal(t) && Within(Value(t), c) && (c.scale.Some? ==> ScaleOf(t) <= c.scale.value)
  {
    var t := c.decimalEnum.value[i];
    DigitsIff(Some(t));
    ScaleIs(t);
    if IsDecimal(t) {
      assert AmongOptions(c.decimalEnum, Value(t));
      WithinIff(Value(t), c);
    }
  }

  lemma ScaleIs(s: string)
    ensures ScaleOf(s) == |FractionPart(s)|
  {
  }

  lemma WithinIff(x: real, c: Constraints)
    requires NumericBounds(c)
    ensures Within(x, c) <==> InBounds(x, c)
  {
  }

  lemma {:induction false} IdList(items: seq<Json>)
    ensures (forall i :: 0 <= i < |items| ==> IsId(items[i])) <==> (forall i :: i in items ==> IsIdText(i))
    ensures |Firsts(items)| == |Members(items)|
  {
    FirstsCount(items);
    if forall i :: i in items ==> IsIdText(i) {
      forall i | 0 <= i < |items| ensures IsId(items[i]) { assert IsIdText(items[i]); }
    }
  }

  // ---- stored values ----

  function FirstIndex(items: seq<Json>, v: Json): (i: nat)
    requires v in items
    ensures i < |items| && items[i] == v && forall j :: 0 <= j < i ==> items[j] != v
  {
    if items[0] == v then 0 else 1 + FirstIndex(items[1..], v)
  }

  /** The members of a list, each once, in the order of their first occurrence. */
  predicate OnceEach(items: seq<Json>, ids: seq<Json>) {
    && (forall v :: v in ids ==> v in items) && (forall v :: v in items ==> v in ids)
    && forall i, j :: 0 <= i < j < |ids| ==> FirstIndex(items, ids[i]) < FirstIndex(items, ids[j])
  }

  /** What is stored for a value: zero as "0", a list of ids with each of them once, an empty list as null. */
  predicate StoredFor(kind: ValueType, v: Json, s: Json) {
    if kind.DecimalValue? && v.JStr? && IsDecimal(v.text) then s == if Value(v.text) == 0.0 then FieldTree.JStr("0") else v
    else if (kind.MultiAsset? || kind.MultiRelation?) && v.JArr? then
      if v.items == [] then s.JNull? else s.JArr? && OnceEach(v.items, s.items)
    else s == v
  }

  lemma FirstIndexKept(init: seq<Json>, last: Json, v: Json)
    requires v in init
    ensures FirstIndex(init + [last], v) == FirstIndex(init, v)
  {
    var items := init + [last];
    assert forall k :: 0 <= k < |init| ==> items[k] == init[k];
    assert items[FirstIndex(init, v)] == v;
  }

  lemma {:induction false} FirstsInOrder(items: seq<Json>)
    ensures OnceEach(items, Firsts(items))
  {
    if items != [] {
      var init, last := items[..|items| - 1], items[|items| - 1];
      FirstsInOrder(init);
      assert items == init + [last];
      var before, ids := Firsts(init), Firsts(items);
      forall i, j | 0 <= i < j < |ids| ensures FirstIndex(items, ids[i]) < FirstIndex(items, ids[j]) {
        assert ids[i] == before[i] && ids[i] in init;
        FirstIndexKept(init, last, ids[i]);
        if j < |before| {
          assert ids[j] == before[j] && ids[j] in init;
          FirstIndexKept(init, last, ids[j]);
        } else {
          assert ids[j] == last && last !in init;
        }
      }
    }
  }

  lemma {:induction false} NormalStoredFor(kind: ValueType, v: Json)
    ensures StoredFor(kind, v, Normal(v, kind))
  {
    if v.JArr? {
      FirstsInOrder(v.items);
      FirstsNotEmpty(v.items);
    }
  }

  // ---- the answer ----

  /** The size limits of a stored value. */
  predicate SizeTaken(l: Library, kind: ValueType, c: Constraints, s: Json) {
    l.encodedSize(s) <= 65536 && (kind.JsonValue? && c.maxBytes.Some? ==> l.encodedSize(s) <= c.maxBytes.value)
  }

  /** Validation refuses, in this order, an empty body, one over 64 KiB, a malformed one, null for a required value, a
      value the type does not take, and one whose stored form is too large; anything else is stored. */
  lemma {:induction false} ValueAnswer(l: Library, raw: Raw, kind: ValueType, c: Constraints)
    requires ConstraintsValid(l, kind, c)
    ensures NumericBounds(c)
    ensures var answer := ValidateValue(l, raw, kind, c);
      if raw.size == 0 then answer == Err(MissingValue)
      else if raw.size > 65536 then answer == Err(TooLarge)
      else if raw.value.None? then answer == Err(Malformed)
      else if raw.value.value.JNull? then (if c.required then answer == Err(RequiredValue) else answer == Ok(FieldTree.JNull))
      else if !Takes(l, kind, c, raw.value.value) then answer == Err(ValueError.Refused)
      else answer == Err(TooLarge) || (answer.Ok? && StoredFor(kind, raw.value.value, answer.value) && SizeTaken(l, kind, c, answer.value))
    ensures ValidateValue(l, raw, kind, c) == Err(TooLarge) && raw.size <= 65536 ==>
      raw.value.Some? && exists s :: StoredFor(kind, raw.value.value, s) && !SizeTaken(l, kind, c, s)
  {
    BoundsAreNumbers(l, kind, c);
    if raw.value.Some? && !raw.value.value.JNull? {
      TakesIff(l, kind, c, raw.value.value);
      NormalStoredFor(kind, raw.value.value);
    }
  }

  // ---- changing the constraints of an item ----

  /** The current values of an item: of its draft, and of its published revision. */
  ghost predicate IsCurrentValue(db: Db, item: string, v: Json)
    requires PointersValid(db.tables) && item in db.tables.drafts
  {
    || v == db.tables.revisions[db.tables.drafts[item]].content.value
    || (item in db.tables.published && v == db.tables.revisions[db.tables.published[item]].content.value)
  }

  /** Every current value, read back, is accepted under these constraints. */
  ghost predicate ValuesStayValid(l: Library, db: Db, item: string, c: Constraints)
    requires PointersValid(db.tables) && item in db.items
  {
    item in db.tables.drafts ==> forall v :: IsCurrentValue(db, item, v) ==> ValidateValue(l, Stored(l, v), db.items[item].kind, c).Ok?
  }

  lemma {:induction false} CompatibleIff(l: Library, db: Db, item: string, c: Constraints)
    requires PointersValid(db.tables) && item in db.items
    ensures Compatible(l, db, item, c) <==> ValuesStayValid(l, db, item, c)
  {
    if item in db.tables.drafts {
      var draft := db.tables.drafts[item];
      assert draft in CurrentRevisions(db.tables, item);
      assert IsCurrentValue(db, item, db.tables.revisions[draft].content.value);
      if item in db.tables.published {
        var live := db.tables.published[item];
        assert live in CurrentRevisions(db.tables, item);
        assert IsCurrentValue(db, item, db.tables.revisions[live].content.value);
      }
    }
  }

  /** A patch that is committed is what the item has afterwards, and nothing else changes; it is refused for an unknown
      or archived item, invalid constraints, another target of an item with revisions, and a current value that does
      not satisfy the changed constraints. */
  ghost predicate UpdateAnswers(l: Library, db: Db, ns: string, item: string, patch: Option<Constraints>,
      permitted: bool, available: bool, answer: Result<Db, Refusal>)
    requires PointersValid(db.tables)
  {
    if !permitted then answer == Err(External)
    else if ns !in db.namespaces || item !in db.items || db.items[item].namespaceId != ns then answer == Err(NotFound)
    else if db.namespaces[ns].archived || db.items[item].archived then answer == Err(Archived)
    else
      var was := db.items[item].constraints;
      var c := if patch.Some? then patch.value else was;
      if !ConstraintsValid(l, db.items[item].kind, c) then answer == Err(Invalid)
      else if item in db.tables.drafts && c.targetModelId != was.targetModelId then answer == Err(RelationLocked)
      else if c != was && !(ValuesStayValid(l, db, item, c) && available) then answer == Err(Incompatible)
      else answer.Ok? && HasConstraints(db, answer.value, item, c)
  }

  lemma {:induction false} UpdateItemAnswer(l: Library, db: Db, ns: string, item: string, patch: Option<Constraints>,
      permitted: bool, available: bool)
    requires PointersValid(db.tables) && DefinitionsValid(l, db)
    ensures UpdateAnswers(l, db, ns, item, patch, permitted, available, UpdateItem(l, db, ns, item, patch, permitted, available))
  {
    if permitted && Found(db, ns, item) && !IsArchived(db, ns, item) { UpdateStages(l, db, ns, item, patch, available); }
  }

  /** So it is in every reachable state. */
  lemma {:induction false} ReachableUpdateAnswer(l: Library, states: seq<Db>, requests: seq<Request>, n: nat,
      ns: string, item: string, patch: Option<Constraints>, permitted: bool, available: bool)
    requires IsRun(l, states, requests) && n < |states|
    ensures PointersValid(states[n].tables)
    ensures UpdateAnswers(l, states[n], ns, item, patch, permitted, available,
                          UpdateItem(l, states[n], ns, item, patch, permitted, available))
  {
    RunsStayValid(l, states, requests, n);
    UpdateItemAnswer(l, states[n], ns, item, patch, permitted, available);
  }

  lemma {:induction false} UpdateStages(l: Library, db: Db, ns: string, item: string, patch: Option<Constraints>,
      available: bool)
    requires PointersValid(db.tables) && item in db.items
    requires ConstraintsValid(l, db.items[item].kind, db.items[item].constraints)
    requires ns in db.namespaces && db.items[item].namespaceId == ns && !db.namespaces[ns].archived
    requires !db.items[item].archived
    ensures var answer := UpdateItem(l, db, ns, item, patch, true, available);
      var was := db.items[item].constraints;
      var c := if patch.Some? then patch.value else was;
      if !ConstraintsValid(l, db.items[item].kind, c) then answer == Err(Invalid)
      else if item in db.tables.drafts && c.targetModelId != was.targetModelId then answer == Err(RelationLocked)
      else if c != was && !(ValuesStayValid(l, db, item, c) && available) then answer == Err(Incompatible)
      else answer.Ok? && HasConstraints(db, answer.value, item, c)
  {
    CompatibleIff(l, db, item, if patch.Some? then patch.value else db.items[item].constraints);
  }

  /** The item has these constraints, and everything else is as it was. */
  ghost predicate HasConstraints(db: Db, next: Db, item: string, c: Constraints) {
    && next.namespaces == db.namespaces && next.tables == db.tables && next.items.Keys == db.items.Keys
    && item in db.items && next.items[item].constraints == c
    && next.items[item].namespaceId == db.items[item].namespaceId && next.items[item].key == db.items[item].key
    && next.items[item].kind == db.items[item].kind && next.items[item].archived == db.items[item].archived
    && forall i :: i in db.items && i != item ==> next.items[i] == db.items[i]
  }
}
