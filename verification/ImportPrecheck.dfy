/** The import pre-check collects identifiers from the raw drafts and locks them once; the write
    later looks for references of the validated content in that locked set. */
module ImportPrecheck {
  import opened Wrappers
  import opened FieldTree
  import opened ContentValidation
  import opened ContentValidator
  import opened ContentReferences
  import opened SchemaValidation

  /** json.Unmarshal into a list of strings: null elements become empty texts. */
  function DecodeTexts(v: Json): Option<seq<string>> {
    if v.JArr? && forall i :: 0 <= i < |v.items| ==> v.items[i].JStr? || v.items[i].JNull?
    then Some(seq(|v.items|, i requires 0 <= i < |v.items| => IdText(v.items[i])))
    else None
  }

  function MentionedAssets(mentions: seq<Mention>): set<string> {
    set i | 0 <= i < |mentions| && mentions[i].assetId != "" :: mentions[i].assetId
  }

  function NonEmpty(texts: seq<string>): set<string> { set t | t in texts && t != "" }

  /** The asset identifiers draftIdentifiers collects from a raw value. */
  function DraftValueAssets(c: Codec, v: Json, f: Field): set<string>
    decreases f, 1
  {
    match f.kind
    case SingleMedia => if v.JStr? then NonEmpty([v.text]) else {}
    case MultiMedia => if DecodeTexts(v).Some? then NonEmpty(DecodeTexts(v).value) else {}
    case RichText => if v.JStr? then MentionedAssets(c.mentions(v.text)) else {}
    case ObjectField => if v.JObj? then DraftAssets(c, v.members, f.children) else {}
    case RepeatableGroup => if v.JArr? && GroupDecodes(v.items) then DraftGroupAssets(c, v.items, f.children) else {}
    case _ => {}
  }

  predicate GroupDecodes(items: seq<Json>) { forall i :: 0 <= i < |items| ==> items[i].JObj? || items[i].JNull? }

  function DraftGroupAssets(c: Codec, items: seq<Json>, children: seq<Field>): set<string>
    decreases children, 1, |items|
  {
    if items == [] then {}
    else (if items[0].JObj? then DraftAssets(c, items[0].members, children) else {}) + DraftGroupAssets(c, items[1..], children)
  }

  function DraftAssets(c: Codec, members: map<string, Json>, fields: seq<Field>): set<string>
    decreases fields, 0
  {
    if fields == [] then {}
    else
      var f := fields[0];
      (if f.key in members && !members[f.key].JNull? && f.active then DraftValueAssets(c, members[f.key], f) else {})
      + DraftAssets(c, members, fields[1..])
  }

  /** A relation target: the model and the entry. */
  datatype Target = Target(modelId: string, entryId: string)

  function RelationTargets(f: Field, v: Json): seq<Target>
    requires f.constraints.targetModelId.Some?
  {
    if f.kind.SingleRelation? then [Target(f.constraints.targetModelId.value, IdText(v))]
    else if v.JArr? then seq(|v.items|, i requires 0 <= i < |v.items| => Target(f.constraints.targetModelId.value, IdText(v.items[i])))
    else []
  }

  /** The relations revisionDerivatives derives: root fields only. */
  function StoredTargets(members: map<string, Json>, fields: seq<Field>): seq<Target> {
    if fields == [] then []
    else
      var f := fields[0];
      (if f.key in members && !members[f.key].JNull? && f.active && IsRelation(f.kind) && f.constraints.targetModelId.Some?
       then RelationTargets(f, members[f.key]) else [])
      + StoredTargets(members, fields[1..])
  }

  /** A root value of a relation field names the entry. */
  predicate NamesEntry(f: Field, v: Json, entryId: string) {
    || (f.kind.SingleRelation? && IdText(v) == entryId)
    || (f.kind.MultiRelation? && v.JArr? && exists i :: i in v.items && IdText(i) == entryId)
  }

  /** Exactly the entries the active root relations name, in the model each points to. */
  lemma {:induction false} StoredTargetIff(members: map<string, Json>, fields: seq<Field>, t: Target)
    ensures t in StoredTargets(members, fields) <==>
      exists f :: f in fields && f.active && f.constraints.targetModelId == Some(t.modelId)
                  && f.key in members && !members[f.key].JNull? && NamesEntry(f, members[f.key], t.entryId)
  {
    if fields != [] {
      var f := fields[0];
      StoredTargetIff(members, fields[1..], t);
      assert forall g :: g in fields <==> g == f || g in fields[1..];
      if f.key in members && IsRelation(f.kind) && f.constraints.targetModelId.Some? { TargetIff(f, members[f.key], t); }
    }
  }

  lemma TargetIff(f: Field, v: Json, t: Target)
    requires IsRelation(f.kind) && f.constraints.targetModelId.Some?
    ensures t in RelationTargets(f, v) <==> f.constraints.targetModelId == Some(t.modelId) && NamesEntry(f, v, t.entryId)
  {
    if f.kind.MultiRelation? && v.JArr? {
      if exists i :: i in v.items && IdText(i) == t.entryId && f.constraints.targetModelId == Some(t.modelId) {
        var k :| 0 <= k < |v.items| && IdText(v.items[k]) == t.entryId;
        assert RelationTargets(f, v)[k] == t;
      }
    }
  }

  /** The relations draftIdentifiers collects, at any depth. */
  function DraftValueTargets(v: Json, f: Field): set<Target>
    decreases f, 1
  {
    match f.kind
    case SingleRelation =>
      if f.constraints.targetModelId.Some? && v.JStr? && v.text != "" then {Target(f.constraints.targetModelId.value, v.text)} else {}
    case MultiRelation =>
      if f.constraints.targetModelId.Some? && DecodeTexts(v).Some?
      then set t | t in NonEmpty(DecodeTexts(v).value) :: Target(f.constraints.targetModelId.value, t) else {}
    case ObjectField => if v.JObj? then DraftTargets(v.members, f.children) else {}
    case RepeatableGroup => if v.JArr? && GroupDecodes(v.items) then DraftGroupTargets(v.items, f.children) else {}
    case _ => {}
  }

  function DraftGroupTargets(items: seq<Json>, children: seq<Field>): set<Target>
    decreases children, 1, |items|
  {
    if items == [] then {}
    else (if items[0].JObj? then DraftTargets(items[0].members, children) else {}) + DraftGroupTargets(items[1..], children)
  }

  function DraftTargets(members: map<string, Json>, fields: seq<Field>): set<Target>
    decreases fields, 0
  {
    if fields == [] then {}
    else
      var f := fields[0];
      (if f.key in members && !members[f.key].JNull? && f.active then DraftValueTargets(members[f.key], f) else {})
      + DraftTargets(members, fields[1..])
  }

  /** The sanitiser adds no media element. */
  ghost predicate SanitizerKeepsAssets(c: Codec) { forall s :: AssetsKept(c, s) }

  ghost predicate AssetsKept(c: Codec, s: string) {
    MentionedAssets(c.mentions(c.sanitize(s))) <= MentionedAssets(c.mentions(s))
  }

  // ---- the references of stored content, as a set of assets ----

  function RefAssets(refs: seq<MediaReference>): set<string> { set r | r in refs :: r.assetId }

  lemma RefAssetsConcat(a: seq<MediaReference>, b: seq<MediaReference>)
    ensures RefAssets(a + b) == RefAssets(a) + RefAssets(b)
  {
    assert forall r :: r in a + b <==> r in a || r in b;
  }

  lemma {:induction false} InlineAssets(fieldId: string, mentions: seq<Mention>, pointer: seq<Step>)
    ensures RefAssets(InlineRefs(fieldId, mentions, pointer)) == MentionedAssets(mentions)
  {
    if mentions != [] {
      InlineAssets(fieldId, mentions[1..], pointer);
      RefAssetsConcat(InlineRefs(fieldId, mentions[..1], pointer), InlineRefs(fieldId, mentions[1..], pointer));
      var first := if mentions[0].assetId == "" then {} else {mentions[0].assetId};
      assert RefAssets(InlineRefs(fieldId, mentions, pointer)) == first + MentionedAssets(mentions[1..]);
      forall a ensures a in MentionedAssets(mentions) <==> a in first + MentionedAssets(mentions[1..]) {
        MentionedLater(mentions, a);
      }
    }
  }

  lemma {:induction false} MentionedLater(mentions: seq<Mention>, a: string)
    requires mentions != []
    ensures a in MentionedAssets(mentions) <==> (a != "" && mentions[0].assetId == a) || a in MentionedAssets(mentions[1..])
  {
    if a in MentionedAssets(mentions[1..]) {
      var i :| 0 <= i < |mentions[1..]| && mentions[1..][i].assetId == a && a != "";
      assert mentions[i + 1].assetId == a;
    }
    if a in MentionedAssets(mentions) {
      var i :| 0 <= i < |mentions| && mentions[i].assetId == a && a != "";
      if i > 0 { assert mentions[1..][i - 1].assetId == a; }
    }
  }

  /** On stored content the reference walk and the draft walk name the same assets. */
  lemma {:induction false} ValueAssetsAgree(c: Codec, v: Json, f: Field, pointer: seq<Step>)
    requires WellFormed(f.children) && AcceptsValue(c, v, f) && !v.JNull?
    ensures var n := NormalizeValue(c, v, f);
      RefAssets(ValueRefs(c, n, f, pointer)) == DraftValueAssets(c, n, f)
    decreases f, 1
  {
    var n := NormalizeValue(c, v, f);
    match f.kind
    case SingleMedia =>
    case MultiMedia =>
      assert DecodeTexts(v).Some?;
      forall i | 0 <= i < |v.items| ensures IdText(v.items[i]) in DraftValueAssets(c, v, f) {
        assert DecodeTexts(v).value[i] == v.items[i].text;
      }
      forall a | a in DraftValueAssets(c, v, f) ensures a in RefAssets(ValueRefs(c, v, f, pointer)) {
        var i :| 0 <= i < |v.items| && DecodeTexts(v).value[i] == a;
        assert ValueRefs(c, v, f, pointer)[i].assetId == a;
      }
    case RichText => InlineAssets(f.id, c.mentions(n.text), pointer);
    case ObjectField => ObjectAssetsAgree(c, v.members, f.children, f.children, pointer);
    case RepeatableGroup => GroupAssetsAgree(c, v.items, f.children, pointer, 0);
    case _ =>
  }

  lemma {:induction false} GroupAssetsAgree(c: Codec, items: seq<Json>, children: seq<Field>, pointer: seq<Step>,
      at: nat)
    requires WellFormed(children) && at <= |items|
    requires forall i :: 0 <= i < |items| ==> items[i].JObj? && AcceptsObject(c, items[i].members, children)
    ensures var n := NormalizeItems(c, items, children);
      RefAssets(GroupRefs(c, n, children, pointer, at)) == DraftGroupAssets(c, n[at..], children)
    ensures at == 0 ==>
      RefAssets(GroupRefs(c, NormalizeItems(c, items, children), children, pointer, at)) ==
        DraftGroupAssets(c, NormalizeItems(c, items, children), children)
    decreases children, 1, |items| - at
  {
    var n := NormalizeItems(c, items, children);
    assert n[0..] == n;
    if at < |items| {
      ObjectAssetsAgree(c, items[at].members, children, children, pointer + [Item(at)]);
      GroupAssetsAgree(c, items, children, pointer, at + 1);
      assert n[at..][0] == n[at] && n[at..][1..] == n[at + 1..];
      RefAssetsConcat(ObjectRefs(c, n[at].members, children, pointer + [Item(at)]), GroupRefs(c, n, children, pointer, at + 1));
    }
  }

  lemma {:induction false} ObjectAssetsAgree(c: Codec, members: map<string, Json>, fields: seq<Field>, rest: seq<Field>,
      parent: seq<Step>)
    requires WellFormed(fields) && AcceptsObject(c, members, fields) && forall f :: f in rest ==> f in fields
    ensures var n := NormalizeObject(c, members, fields);
      RefAssets(ObjectRefs(c, n, rest, parent)) == DraftAssets(c, n, rest)
    decreases fields, 0, |rest|
  {
    if rest != [] {
      var f, n := rest[0], NormalizeObject(c, members, fields);
      LookupFinds(fields, f);
      if f.active && f.key in n && !n[f.key].JNull? {
        assert AcceptsField(c, members, f);
        ValueAssetsAgree(c, if f.key in members then members[f.key] else f.defaultValue, f, parent + [Member(f.key)]);
      }
      ObjectAssetsAgree(c, members, fields, rest[1..], parent);
      RefAssetsConcat(FieldRefs(c, n, f, parent), ObjectRefs(c, n, rest[1..], parent));
    }
  }

  // ---- what the defaults add ----

  /** The assets named by the defaults filled into a raw value. */
  function FilledValueAssets(c: Codec, v: Json, f: Field): set<string>
    decreases f, 1
  {
    match f.kind
    case ObjectField => if v.JObj? then FilledAssets(c, v.members, f.children) else {}
    case RepeatableGroup => if v.JArr? then FilledGroupAssets(c, v.items, f.children) else {}
    case _ => {}
  }

  function FilledGroupAssets(c: Codec, items: seq<Json>, children: seq<Field>): set<string>
    decreases children, 1, |items|
  {
    if items == [] then {}
    else (if items[0].JObj? then FilledAssets(c, items[0].members, children) else {}) + FilledGroupAssets(c, items[1..], children)
  }

  function FilledFieldAssets(c: Codec, members: map<string, Json>, f: Field): set<string>
    decreases f, 2
  {
    if !f.active then {}
    else if f.key in members then FilledValueAssets(c, members[f.key], f)
    else if f.defaultValue.JNull? then {}
    else DraftValueAssets(c, NormalizeValue(c, f.defaultValue, f), f)
  }

  function FilledAssets(c: Codec, members: map<string, Json>, fields: seq<Field>): set<string>
    decreases fields, 0
  {
    if fields == [] then {} else FilledFieldAssets(c, members, fields[0]) + FilledAssets(c, members, fields[1..])
  }

  /** The stored assets lie between the filled ones and the filled and collected ones together. */
  predicate Between(filled: set<string>, stored: set<string>, collected: set<string>) {
    filled <= stored <= collected + filled
  }

  lemma {:induction false} ValueAssetsBetween(c: Codec, v: Json, f: Field)
    requires SanitizerKeepsAssets(c) && WellFormed(f.children) && AcceptsValue(c, v, f)
    ensures Between(FilledValueAssets(c, v, f), DraftValueAssets(c, NormalizeValue(c, v, f), f), DraftValueAssets(c, v, f))
    decreases f, 1
  {
    if v.JNull? { return; }
    match f.kind
    case RichText => assert AssetsKept(c, v.text);
    case ObjectField => ObjectAssetsBetween(c, v.members, f.children, f.children);
    case RepeatableGroup => GroupAssetsBetween(c, v.items, f.children);
    case _ =>
  }

  lemma {:induction false} GroupAssetsBetween(c: Codec, items: seq<Json>, children: seq<Field>)
    requires SanitizerKeepsAssets(c) && WellFormed(children)
    requires forall i :: 0 <= i < |items| ==> items[i].JObj? && AcceptsObject(c, items[i].members, children)
    ensures Between(FilledGroupAssets(c, items, children), DraftGroupAssets(c, NormalizeItems(c, items, children), children),
                    DraftGroupAssets(c, items, children))
    decreases children, 1, |items|
  {
    if items != [] {
      ObjectAssetsBetween(c, items[0].members, children, children);
      GroupAssetsBetween(c, items[1..], children);
      var n := NormalizeItems(c, items, children);
      assert n[1..] == NormalizeItems(c, items[1..], children);
      assert n[0] == JObj(NormalizeObject(c, items[0].members, children));
    }
  }

  lemma {:induction false} ObjectAssetsBetween(c: Codec, members: map<string, Json>, fields: seq<Field>,
      rest: seq<Field>)
    requires SanitizerKeepsAssets(c) && WellFormed(fields) && AcceptsObject(c, members, fields)
    requires forall f :: f in rest ==> f in fields
    ensures Between(FilledAssets(c, members, rest), DraftAssets(c, NormalizeObject(c, members, fields), rest),
              DraftAssets(c, members, rest))
    decreases fields, 0, |rest|
  {
    if rest != [] {
      var f, n := rest[0], NormalizeObject(c, members, fields);
      LookupFinds(fields, f);
      if f.active && f.key in n {
        assert AcceptsField(c, members, f);
        if f.key in members { ValueAssetsBetween(c, members[f.key], f); }
      }
      ObjectAssetsBetween(c, members, fields, rest[1..]);
      FieldKeys(c, members, fields, f);
    }
  }

  /** A field that is absent from the stored content was absent before and has no default. */
  lemma {:induction false} FieldKeys(c: Codec, members: map<string, Json>, fields: seq<Field>, f: Field)
    requires UniqueKeys(fields) && f in fields
    ensures f.active && f.key !in NormalizeObject(c, members, fields) ==> f.key !in members && f.defaultValue.JNull?
  {
    LookupFinds(fields, f);
    if f.active && f.key !in members && !f.defaultValue.JNull? { assert f.key in DefaultedKeys(members, fields); }
  }

  lemma {:induction false} ValueTargetsCovered(c: Codec, v: Json, f: Field)
    requires IsRelation(f.kind) && f.constraints.targetModelId.Some? && AcceptsValue(c, v, f) && !v.JNull?
    ensures forall t :: t in RelationTargets(f, v) ==> t in DraftValueTargets(v, f)
  {
    if f.kind.MultiRelation? {
      assert DecodeTexts(v).Some?;
      forall i | 0 <= i < |v.items| ensures RelationTargets(f, v)[i] in DraftValueTargets(v, f) {
        assert DecodeTexts(v).value[i] == v.items[i].text;
      }
    }
  }

  /** A relation is never filled from a default and never rewritten. */
  lemma {:induction false} RelationIsRaw(c: Codec, members: map<string, Json>, fields: seq<Field>, f: Field)
    requires UniqueKeys(fields) && AcceptsObject(c, members, fields) && f in fields && f.active && IsRelation(f.kind)
    requires f.defaultValue.JNull? && f.key in NormalizeObject(c, members, fields)
    ensures f.key in members && NormalizeObject(c, members, fields)[f.key] == members[f.key]
    ensures AcceptsValue(c, members[f.key], f)
  {
    LookupFinds(fields, f);
  }

  lemma {:induction false} TargetsCovered(c: Codec, members: map<string, Json>, fields: seq<Field>, rest: seq<Field>)
    requires WellFormed(fields) && AcceptsObject(c, members, fields) && forall f :: f in rest ==> f in fields
    requires forall f :: f in fields && f.active && IsRelation(f.kind) ==> f.defaultValue.JNull?
    ensures forall t :: t in StoredTargets(NormalizeObject(c, members, fields), rest) ==> t in DraftTargets(members, rest)
    decreases |rest|
  {
    if rest != [] {
      var f, n := rest[0], NormalizeObject(c, members, fields);
      if f.active && f.key in n && IsRelation(f.kind) && f.constraints.targetModelId.Some? && !n[f.key].JNull? {
        RelationIsRaw(c, members, fields, f);
        ValueTargetsCovered(c, n[f.key], f);
      }
      TargetsCovered(c, members, fields, rest[1..]);
    }
  }

  // ---- the two conflicts ----

  /** The write refuses the draft because an asset of the validated content was not locked. */
  predicate AssetConflict(c: Codec, raw: Json, fields: seq<Field>)
    requires ValidateContent(c, Some(raw), fields).Ok?
  {
    exists r :: r in ObjectRefs(c, ValidateContent(c, Some(raw), fields).value.members, fields, [])
                && r.assetId !in DraftAssets(c, raw.members, fields)
  }

  /** The write refuses the draft because a relation target of the validated content was not locked. */
  predicate RelationConflict(c: Codec, raw: Json, fields: seq<Field>)
    requires ValidateContent(c, Some(raw), fields).Ok?
  {
    exists t :: t in StoredTargets(ValidateContent(c, Some(raw), fields).value.members, fields)
                && t !in DraftTargets(raw.members, fields)
  }

  /** With an unchanged schema the asset conflict fires exactly when a default filled into the draft names
      an asset the draft does not. */
  lemma AssetConflictIff(c: Codec, raw: Json, fields: seq<Field>)
    requires SanitizerKeepsAssets(c) && WellFormed(fields) && ValidateContent(c, Some(raw), fields).Ok?
    ensures AssetConflict(c, raw, fields) <==> !(FilledAssets(c, raw.members, fields) <= DraftAssets(c, raw.members, fields))
  {
    var refs := ObjectRefs(c, NormalizeObject(c, raw.members, fields), fields, []);
    ObjectAssetsAgree(c, raw.members, fields, fields, []);
    ObjectAssetsBetween(c, raw.members, fields, fields);
    forall r | r in refs ensures r.assetId in RefAssets(refs) {}
    if !(FilledAssets(c, raw.members, fields) <= DraftAssets(c, raw.members, fields)) {
      var a :| a in FilledAssets(c, raw.members, fields) && a !in DraftAssets(c, raw.members, fields);
      assert a in RefAssets(refs);
    }
  }

  /** If no default names an asset, as read through the current children, there is nothing to fill in. */
  predicate DefaultsNameNothing(c: Codec, fields: seq<Field>) {
    forall f :: f in fields && f.active ==> DraftValueAssets(c, f.defaultValue, f) == {} && DefaultsNameNothing(c, f.children)
  }

  lemma {:induction false} NothingFilled(c: Codec, members: map<string, Json>, fields: seq<Field>, rest: seq<Field>)
    requires SanitizerKeepsAssets(c) && WellFormed(fields) && AcceptsObject(c, members, fields)
    requires DefaultsNameNothing(c, fields)
    requires forall f :: f in rest ==> f in fields
    ensures FilledAssets(c, members, rest) == {}
    decreases fields, 0, |rest|
  {
    if rest != [] {
      var f := rest[0];
      LookupFinds(fields, f);
      if f.active {
        assert AcceptsField(c, members, f) && DraftValueAssets(c, f.defaultValue, f) == {};
        var v := if f.key in members then members[f.key] else f.defaultValue;
        if !v.JNull? {
          NothingFilledIn(c, v, f);
          ValueAssetsBetween(c, v, f);
        }
        assert FilledFieldAssets(c, members, f) == {};
      }
      NothingFilled(c, members, fields, rest[1..]);
    }
  }

  lemma {:induction false} NothingFilledIn(c: Codec, v: Json, f: Field)
    requires SanitizerKeepsAssets(c) && WellFormed(f.children) && AcceptsValue(c, v, f)
    requires DefaultsNameNothing(c, f.children)
    ensures FilledValueAssets(c, v, f) == {}
    decreases f, 1
  {
    if v.JNull? { return; }
    match f.kind
    case ObjectField => NothingFilled(c, v.members, f.children, f.children);
    case RepeatableGroup => NothingFilledInGroup(c, v.items, f.children);
    case _ =>
  }

  lemma {:induction false} NothingFilledInGroup(c: Codec, items: seq<Json>, children: seq<Field>)
    requires SanitizerKeepsAssets(c) && WellFormed(children) && DefaultsNameNothing(c, children)
    requires forall i :: 0 <= i < |items| ==> items[i].JObj? && AcceptsObject(c, items[i].members, children)
    ensures FilledGroupAssets(c, items, children) == {}
    decreases children, 1, |items|
  {
    if items != [] {
      NothingFilled(c, items[0].members, children, children);
      NothingFilledInGroup(c, items[1..], children);
    }
  }

  /** What can be checked on the tree: while no default names an asset no draft meets the conflict. */
  lemma NoNamesNoConflict(c: Codec, raw: Json, fields: seq<Field>)
    requires SanitizerKeepsAssets(c) && WellFormed(fields) && ValidateContent(c, Some(raw), fields).Ok?
    requires DefaultsNameNothing(c, fields)
    ensures !AssetConflict(c, raw, fields)
  {
    NothingFilled(c, raw.members, fields, fields);
    AssetConflictIff(c, raw, fields);
  }

  /** The empty draft meets it exactly when a root default, filled in, names an asset. */
  lemma EmptyDraftConflictIff(c: Codec, fields: seq<Field>)
    requires SanitizerKeepsAssets(c) && WellFormed(fields) && ValidateContent(c, Some(JObj(map[])), fields).Ok?
    ensures AssetConflict(c, JObj(map[]), fields) <==>
      exists f :: f in fields && f.active && !f.defaultValue.JNull? && DraftValueAssets(c, NormalizeValue(c, f.defaultValue, f), f) != {}
  {
    AssetConflictIff(c, JObj(map[]), fields);
    EmptyDraftAssets(c, fields);
  }

  lemma {:induction false} EmptyDraftAssets(c: Codec, fields: seq<Field>)
    ensures DraftAssets(c, map[], fields) == {}
    ensures FilledAssets(c, map[], fields) != {} <==>
      exists f :: f in fields && f.active && !f.defaultValue.JNull? && DraftValueAssets(c, NormalizeValue(c, f.defaultValue, f), f) != {}
  {
    if fields != [] {
      EmptyDraftAssets(c, fields[1..]);
      assert fields == [fields[0]] + fields[1..];
    }
  }
}
