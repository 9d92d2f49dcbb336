/** Normalised content: what re-validation makes of it, under the same and under a looser schema. */
module Normalization {
  import opened Wrappers
  import opened Decimals
  import opened FieldTree
  import opened ContentValidation
  import opened ContentProjection

  /** Normalising is idempotent, on every value and at any nesting, accepted or not. */
  lemma {:induction false} NormalizeValueIdempotent(c: Codec, v: Json, f: Field)
    requires Sound(c) && WellFormed(f.children)
    ensures NormalizeValue(c, NormalizeValue(c, v, f), f) == NormalizeValue(c, v, f)
    decreases f, 1
  {
    match f.kind
    case RichText => if v.JStr? { assert SanitizesOnce(c, v.text); }
    case Decimal => ZeroText();
    case Datetime => if v.JStr? { assert FormatsOnce(c, v.text); }
    case ObjectField => if v.JObj? { NormalizeObjectIdempotent(c, v.members, f.children); }
    case RepeatableGroup =>
      if v.JArr? {
        forall i | 0 <= i < |v.items| && v.items[i].JObj?
          ensures NormalizeObject(c, NormalizeObject(c, v.items[i].members, f.children), f.children)
               == NormalizeObject(c, v.items[i].members, f.children)
        {
          NormalizeObjectIdempotent(c, v.items[i].members, f.children);
        }
        var once := NormalizeItems(c, v.items, f.children);
        assert NormalizeItems(c, once, f.children) == once;
      }
    case _ =>
  }

  lemma {:induction false} NormalizeObjectIdempotent(c: Codec, members: map<string, Json>, fields: seq<Field>)
    requires Sound(c) && WellFormed(fields)
    ensures NormalizeObject(c, NormalizeObject(c, members, fields), fields) == NormalizeObject(c, members, fields)
    decreases fields, 0
  {
    var once := NormalizeObject(c, members, fields);
    var twice := NormalizeObject(c, once, fields);
    forall f | f in fields && f.active && f.key !in once ensures f.defaultValue.JNull? {
      LookupFinds(fields, f);
    }
    assert DefaultedKeys(once, fields) == {};
    assert twice.Keys == once.Keys;
    forall key | key in once ensures twice[key] == once[key] {
      var f := ActiveField(fields, key).value;
      NormalizeValueIdempotent(c, if key in members then members[key] else f.defaultValue, f);
    }
  }

  /** Every rich text of the value, at any nesting, is within the length limit. The limit is
      checked on the text before it is sanitised, so a stored text may exceed it. */
  predicate RichTextFits(v: Json, f: Field)
    decreases f, 1
  {
    match f.kind
    case RichText => v.JStr? ==> |v.text| <= MAX_RICH_TEXT_RUNES
    case ObjectField => v.JObj? ==> RichTextsFit(v.members, f.children)
    case RepeatableGroup =>
      v.JArr? ==> forall i :: 0 <= i < |v.items| && v.items[i].JObj? ==> RichTextsFit(v.items[i].members, f.children)
    case _ => true
  }

  predicate RichTextsFit(members: map<string, Json>, fields: seq<Field>)
    decreases fields, 0
  {
    forall key :: key in members && ActiveField(fields, key).Some? ==>
      RichTextFits(members[key], ActiveField(fields, key).value)
  }

  predicate NotAbove(low: Option<int>, limit: Option<int>) {
    low.Some? ==> low.value <= 0 || (limit.Some? && low.value <= limit.value)
  }

  /** The second set of constraints admits every value the first admits. */
  predicate ConstraintsLoosened(a: Constraints, b: Constraints)
    requires BoundsAreDecimals(a) && BoundsAreDecimals(b)
  {
    && NotAbove(b.minLength, a.minLength)
    && (b.maxLength.Some? ==> a.maxLength.Some? && a.maxLength.value <= b.maxLength.value)
    && (b.minimum.Some? ==> a.minimum.Some? && Value(b.minimum.value) <= Value(a.minimum.value))
    && (b.maximum.Some? ==> a.maximum.Some? && Value(a.maximum.value) <= Value(b.maximum.value))
    && (forall option :: option in a.enumOptions ==> option in b.enumOptions)
  }

  /** The second field is a looser version of the first. */
  predicate Loosens(f: Field, g: Field)
    decreases f, 1
  {
    && BoundsAreDecimals(f.constraints) && BoundsAreDecimals(g.constraints)
    && f.key == g.key && f.kind == g.kind
    && (g.required ==> f.required)
    && ConstraintsLoosened(f.constraints, g.constraints)
    && LoosensAll(f.children, g.children)
  }

  /** Fields are kept: an active one is only loosened or archived, an archived one stays archived.
      Nothing is said of new fields. */
  predicate LoosensAll(fields: seq<Field>, updated: seq<Field>)
    decreases fields, 0
  {
    forall f :: f in fields ==> Lookup(updated, f.key).Some? && LoosensOrArchives(f, Lookup(updated, f.key).value)
  }

  predicate LoosensOrArchives(f: Field, g: Field)
    decreases f, 2
  {
    g.active ==> f.active && Loosens(f, g)
  }

  /** No active field is archived, at any depth. */
  predicate KeepsAll(fields: seq<Field>, updated: seq<Field>) {
    forall f :: f in fields && f.active ==>
      ActiveField(updated, f.key).Some? && KeepsAll(f.children, ActiveField(updated, f.key).value.children)
  }

  // ---- fields the content has no value for ----

  /** The default of a field passes validateValue under the field itself. */
  predicate DefaultPasses(c: Codec, f: Field) {
    f.defaultValue.JNull? || AcceptsValue(c, f.defaultValue, f)
  }

  /** An object may lack this field: it is optional without a default, or its default passes. */
  predicate MayLack(c: Codec, f: Field) {
    if f.defaultValue.JNull? then !f.required else AcceptsValue(c, f.defaultValue, f)
  }

  /** Every object of the value, at any nesting, may lack the fields it lacks. */
  predicate LackFitsIn(c: Codec, v: Json, f: Field)
    decreases f, 1
  {
    match f.kind
    case ObjectField => v.JObj? ==> LackFits(c, v.members, f.children)
    case RepeatableGroup =>
      v.JArr? ==> forall i :: 0 <= i < |v.items| && v.items[i].JObj? ==> LackFits(c, v.items[i].members, f.children)
    case _ => true
  }

  predicate LackFits(c: Codec, members: map<string, Json>, fields: seq<Field>)
    decreases fields, 0
  {
    forall f :: f in fields && f.active ==> if f.key in members then LackFitsIn(c, members[f.key], f) else MayLack(c, f)
  }

  /** What content written under the old tree can lack, the updated tree lets it lack: a new field,
      or a field that had no default and has one now. */
  predicate FillsPass(c: Codec, fields: seq<Field>, updated: seq<Field>)
    decreases updated
  {
    forall g :: g in updated && g.active ==>
      var f := ActiveField(fields, g.key);
      && (f.None? ==> MayLack(c, g))
      && (f.Some? ==> (f.value.defaultValue.JNull? ==> DefaultPasses(c, g)) && FillsPass(c, f.value.children, g.children))
  }

  /** Every tree loosens and keeps itself, and there is nothing of its own left to fill in. */
  lemma {:induction false} LoosensReflexive(c: Codec, fields: seq<Field>)
    requires WellFormed(fields)
    ensures LoosensAll(fields, fields) && KeepsAll(fields, fields) && FillsPass(c, fields, fields)
    decreases fields
  {
    forall f | f in fields
      ensures Lookup(fields, f.key) == Some(f) && Loosens(f, f)
      ensures KeepsAll(f.children, f.children) && FillsPass(c, f.children, f.children)
    {
      LookupFinds(fields, f);
      LoosensReflexive(c, f.children);
    }
    assert forall f :: f in fields && f.active ==> ActiveField(fields, f.key) == Some(f);
  }

  lemma {:induction false} LoosensTransitive(f: Field, g: Field, h: Field)
    requires Loosens(f, g) && Loosens(g, h) && WellFormed(h.children)
    ensures Loosens(f, h)
    decreases f, 1
  {
    LoosensAllTransitive(f.children, g.children, h.children);
  }

  lemma {:induction false} LoosensAllTransitive(a: seq<Field>, b: seq<Field>, d: seq<Field>)
    requires LoosensAll(a, b) && LoosensAll(b, d) && WellFormed(d)
    ensures LoosensAll(a, d)
    decreases a, 0
  {
    forall f | f in a
      ensures Lookup(d, f.key).Some? && LoosensOrArchives(f, Lookup(d, f.key).value)
    {
      var g := Lookup(b, f.key).value;
      assert LoosensOrArchives(f, g) && LoosensOrArchives(g, Lookup(d, g.key).value);
      if Lookup(d, f.key).value.active {
        LoosensTransitive(f, g, Lookup(d, f.key).value);
      }
    }
  }

  /** A number admitted by the old constraints is admitted by the loosened ones. */
  lemma {:induction false} NumberStaysWithin(c: Codec, text: string, a: Constraints, b: Constraints)
    requires BoundsAreDecimals(a) && BoundsAreDecimals(b) && ConstraintsLoosened(a, b)
    requires NumberWithin(c, text, a)
    ensures NumberWithin(c, text, b)
  {
  }

  /** What is stored for a value under the old field and read through the new one. */
  function Reread(c: Codec, v: Json, f: Field, g: Field): Json {
    ActiveValue(NormalizeValue(c, v, f), g)
  }

  /** A value stored under the old field is accepted by the loosened one, once projected to its
      active children, exactly when its rich texts fit and its objects may lack what they lack. */
  lemma {:induction false} PreserveValue(c: Codec, v: Json, f: Field, g: Field)
    requires Sound(c) && WellFormed(f.children) && WellFormed(g.children) && Loosens(f, g) && AcceptsValue(c, v, f)
    ensures var p := Reread(c, v, f, g);
      AcceptsValue(c, p, g) <==> RichTextFits(p, g) && LackFitsIn(c, p, g)
    decreases f, 1
  {
    if v.JNull? { return; }
    match f.kind
    case RichText => assert SanitizesOnce(c, v.text);
    case Integer => NumberStaysWithin(c, v.literal, f.constraints, g.constraints);
    case Decimal =>
      NumberStaysWithin(c, v.text, f.constraints, g.constraints);
      ZeroText();
      if Value(v.text) == 0.0 { assert NumberWithin(c, "0", g.constraints); }
    case Datetime => assert FormatsOnce(c, v.text);
    case ObjectField => PreserveObject(c, v.members, f.children, g.children);
    case RepeatableGroup =>
      var n := NormalizeItems(c, v.items, f.children);
      var p := ActiveItems(n, g.children);
      forall i | 0 <= i < |p|
        ensures p[i].JObj?
        ensures var m := p[i].members;
          AcceptsObject(c, m, g.children) <==> RichTextsFit(m, g.children) && LackFits(c, m, g.children)
      {
        PreserveObject(c, v.items[i].members, f.children, g.children);
      }
    case _ =>
  }

  /** Content stored under the old tree and projected to the active fields of a loosened tree is
      accepted there exactly when its rich texts fit and every object may lack the fields it lacks. */
  lemma {:induction false} PreserveObject(c: Codec, members: map<string, Json>, fields: seq<Field>, updated: seq<Field>)
    requires Sound(c) && WellFormed(fields) && WellFormed(updated) && LoosensAll(fields, updated)
    requires AcceptsObject(c, members, fields)
    ensures var p := ActiveObject(NormalizeObject(c, members, fields), updated);
      AcceptsObject(c, p, updated) <==> RichTextsFit(p, updated) && LackFits(c, p, updated)
    decreases fields, 0
  {
    var n := NormalizeObject(c, members, fields);
    var p := ActiveObject(n, updated);
    forall key | key in p
      ensures var g := ActiveField(updated, key).value;
        AcceptsValue(c, p[key], g) <==> RichTextFits(p[key], g) && LackFitsIn(c, p[key], g)
    {
      var f := ActiveField(fields, key).value;
      assert LoosensOrArchives(f, Lookup(updated, f.key).value);
      assert AcceptsField(c, members, f);
      PreserveValue(c, if key in members then members[key] else f.defaultValue, f, ActiveField(updated, key).value);
    }
    forall g | g in updated && g.active
      ensures ActiveField(updated, g.key) == Some(g)
      ensures if g.key in p then AcceptsField(c, p, g) else AcceptsField(c, p, g) <==> MayLack(c, g)
    {
      LookupFinds(updated, g);
      if g.key in p {
        var f := ActiveField(fields, g.key).value;
        assert LoosensOrArchives(f, Lookup(updated, f.key).value);
        StoredMemberPresent(c, members, fields, f, g);
      }
    }
    AcceptsByParts(c, p, updated);
  }

  /** Acceptance of an object is acceptance of what it holds and of what it lacks. */
  lemma {:induction false} AcceptsByParts(c: Codec, p: map<string, Json>, updated: seq<Field>)
    requires forall key :: key in p ==> ActiveField(updated, key).Some?
    requires forall key :: key in p ==>
      var g := ActiveField(updated, key).value;
      AcceptsValue(c, p[key], g) <==> RichTextFits(p[key], g) && LackFitsIn(c, p[key], g)
    requires forall g :: g in updated && g.active ==> ActiveField(updated, g.key) == Some(g)
    requires forall g :: g in updated && g.active ==>
      if g.key in p then AcceptsField(c, p, g) else AcceptsField(c, p, g) <==> MayLack(c, g)
    ensures AcceptsObject(c, p, updated) <==> RichTextsFit(p, updated) && LackFits(c, p, updated)
  {
    if RichTextsFit(p, updated) && LackFits(c, p, updated) {
      forall key | key in p ensures AcceptsValue(c, p[key], ActiveField(updated, key).value) {
        assert LackFitsIn(c, p[key], ActiveField(updated, key).value);
      }
    }
  }

  /** Which keys of active fields are stored, and which of them hold null. */
  lemma {:induction false} StoredKeys(c: Codec, members: map<string, Json>, fields: seq<Field>, f: Field)
    requires UniqueKeys(fields) && f in fields && f.active
    ensures var n := NormalizeObject(c, members, fields);
      && (f.key in n <==> f.key in members || !f.defaultValue.JNull?)
      && (f.key in n ==> (n[f.key].JNull? <==> f.key in members && members[f.key].JNull?))
  {
    LookupFinds(fields, f);
    var n := NormalizeObject(c, members, fields);
    assert f.key !in members && !f.defaultValue.JNull? ==> f.key in DefaultedKeys(members, fields);
    forall h | h in fields && h.key == f.key ensures h == f { LookupFinds(fields, h); }
  }

  /** A required member that is stored was required before and is not null. */
  lemma {:induction false} StoredMemberPresent(c: Codec, members: map<string, Json>, fields: seq<Field>, f: Field,
      g: Field)
    requires UniqueKeys(fields) && f in fields && f.active && Loosens(f, g) && AcceptsField(c, members, f)
    requires f.key in NormalizeObject(c, members, fields)
    ensures g.required ==> !ActiveValue(NormalizeObject(c, members, fields)[f.key], g).JNull?
  {
    StoredKeys(c, members, fields, f);
  }

  /** If the updated tree lets go everything the old one did, stored content lacks nothing. */
  lemma {:induction false} FilledLacksNothing(c: Codec, members: map<string, Json>, fields: seq<Field>,
      updated: seq<Field>)
    requires UniqueKeys(fields) && WellFormed(fields) && WellFormed(updated) && LoosensAll(fields, updated)
    requires FillsPass(c, fields, updated) && AcceptsObject(c, members, fields)
    ensures LackFits(c, ActiveObject(NormalizeObject(c, members, fields), updated), updated)
    decreases fields, 0
  {
    var n := NormalizeObject(c, members, fields);
    var p := ActiveObject(n, updated);
    forall g | g in updated && g.active
      ensures if g.key in p then LackFitsIn(c, p[g.key], g) else MayLack(c, g)
    {
      LookupFinds(updated, g);
      assert g.key in p <==> g.key in n;
      var f := ActiveField(fields, g.key);
      if f.Some? {
        StoredKeys(c, members, fields, f.value);
        assert AcceptsField(c, members, f.value);
        assert LoosensOrArchives(f.value, Lookup(updated, f.value.key).value);
        if g.key in p {
          FilledValueLacksNothing(c, if g.key in members then members[g.key] else f.value.defaultValue, f.value, g);
        } else {
          assert f.value.defaultValue.JNull? && !f.value.required;
          assert Loosens(f.value, g);
        }
      } else {
        assert g.key !in n;
      }
    }
  }

  lemma {:induction false} FilledValueLacksNothing(c: Codec, v: Json, f: Field, g: Field)
    requires WellFormed(f.children) && WellFormed(g.children) && Loosens(f, g)
    requires FillsPass(c, f.children, g.children) && AcceptsValue(c, v, f)
    ensures LackFitsIn(c, Reread(c, v, f, g), g)
    decreases f, 1
  {
    if v.JNull? { return; }
    match f.kind
    case ObjectField => FilledLacksNothing(c, v.members, f.children, g.children);
    case RepeatableGroup =>
      var n := NormalizeItems(c, v.items, f.children);
      var p := ActiveItems(n, g.children);
      forall i | 0 <= i < |p| ensures p[i].JObj? && LackFits(c, p[i].members, g.children) {
        FilledLacksNothing(c, v.items[i].members, f.children, g.children);
      }
    case _ =>
  }

  /** When no active field has been archived the projection leaves stored content as it is. */
  lemma {:induction false} KeptValueUnchanged(c: Codec, v: Json, f: Field, g: Field)
    requires AcceptsValue(c, v, f) && Loosens(f, g) && KeepsAll(f.children, g.children)
    ensures ActiveValue(NormalizeValue(c, v, f), g) == NormalizeValue(c, v, f)
    decreases f, 1
  {
    match f.kind
    case ObjectField => if v.JObj? { KeptObjectUnchanged(c, v.members, f.children, g.children); }
    case RepeatableGroup =>
      if v.JArr? {
        var n := NormalizeItems(c, v.items, f.children);
        forall i | 0 <= i < |n| ensures ActiveObject(n[i].members, g.children) == n[i].members {
          KeptObjectUnchanged(c, v.items[i].members, f.children, g.children);
        }
        assert ActiveItems(n, g.children) == n;
      }
    case _ =>
  }

  lemma {:induction false} KeptObjectUnchanged(c: Codec, members: map<string, Json>, fields: seq<Field>,
      updated: seq<Field>)
    requires AcceptsObject(c, members, fields) && LoosensAll(fields, updated) && KeepsAll(fields, updated)
    ensures ActiveObject(NormalizeObject(c, members, fields), updated) == NormalizeObject(c, members, fields)
    decreases fields, 0
  {
    var n := NormalizeObject(c, members, fields);
    forall key | key in n
      ensures ActiveField(updated, key).Some? && ActiveValue(n[key], ActiveField(updated, key).value) == n[key]
    {
      var f := ActiveField(fields, key).value;
      assert ActiveField(updated, f.key).Some?;
      assert LoosensOrArchives(f, Lookup(updated, f.key).value);
      assert AcceptsField(c, members, f);
      KeptValueUnchanged(c, if key in members then members[key] else f.defaultValue, f, ActiveField(updated, key).value);
    }
  }

  /** Re-validating stored content under its own schema returns it unchanged, and is refused
      exactly when sanitising has made one of its rich texts too long. */
  lemma RevalidationIsIdempotent(c: Codec, body: Json, fields: seq<Field>)
    requires Sound(c) && WellFormed(fields)
    requires ValidateContent(c, Some(body), fields).Ok?
    ensures var stored := ValidateContent(c, Some(body), fields).value;
      ValidateContent(c, Some(stored), fields) == if RichTextsFit(stored.members, fields) then Ok(stored) else Err(Rejected)
  {
    LoosensReflexive(c, fields);
    PreserveObject(c, body.members, fields, fields);
    FilledLacksNothing(c, body.members, fields, fields);
    KeptObjectUnchanged(c, body.members, fields, fields);
    NormalizeObjectIdempotent(c, body.members, fields);
  }

  /** The failing family: a rich text within the limit whose sanitised form is not. */
  lemma GrowingRichTextIsRefusedLater(c: Codec, text: string, f: Field)
    requires Sound(c) && f.kind.RichText? && f.active
    requires |text| <= MAX_RICH_TEXT_RUNES < |c.sanitize(text)| && c.mediaValid(c.sanitize(text))
    ensures var first := ValidateContent(c, Some(JObj(map[f.key := JStr(text)])), [f]);
      first.Ok? && ValidateContent(c, Some(first.value), [f]) == Err(Rejected)
  {
    var m := map[f.key := JStr(text)];
    assert Lookup([f], f.key) == Some(f);
    assert AcceptsField(c, m, f);
    assert AcceptsObject(c, m, [f]);
    var n := NormalizeObject(c, m, [f]);
    assert f.key in m.Keys + DefaultedKeys(m, [f]);
    assert n[f.key] == NormalizeValue(c, m[f.key], f);
    assert !AcceptsValue(c, n[f.key], ActiveField([f], f.key).value);
  }
}
