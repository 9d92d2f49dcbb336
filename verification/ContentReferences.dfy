/** mediaReferences and revisionDerivatives: the assets and entries a content object refers to. */
module ContentReferences {
  import opened Wrappers
  import opened FieldTree
  import opened ContentValidation
  import opened ContentProjection
  import opened ContentValidator

  /** `inline` is the element kind when the reference stands inside a rich text. */
  datatype MediaReference = MediaReference(fieldId: string, assetId: string, pointer: seq<Step>, position: nat, inline: Option<string>)

  function IdText(v: Json): string { if v.JStr? then v.text else "" }

  function InlineRefs(fieldId: string, mentions: seq<Mention>, pointer: seq<Step>): seq<MediaReference> {
    if mentions == [] then []
    else
      (if mentions[0].assetId == "" then []
       else [MediaReference(fieldId, mentions[0].assetId, pointer, mentions[0].position, Some(mentions[0].kind))])
      + InlineRefs(fieldId, mentions[1..], pointer)
  }

  function FieldRefs(c: Codec, members: map<string, Json>, f: Field, parent: seq<Step>): seq<MediaReference>
    decreases f, 2
  {
    if f.key !in members || members[f.key].JNull? || !f.active then []
    else ValueRefs(c, members[f.key], f, parent + [Member(f.key)])
  }

  function ValueRefs(c: Codec, v: Json, f: Field, pointer: seq<Step>): seq<MediaReference>
    decreases f, 1
  {
    match f.kind
    case SingleMedia => [MediaReference(f.id, IdText(v), pointer, 0, None)]
    case MultiMedia =>
      if v.JArr? then seq(|v.items|, i requires 0 <= i < |v.items| => MediaReference(f.id, IdText(v.items[i]), pointer, i, None)) else []
    case RichText => if v.JStr? then InlineRefs(f.id, c.mentions(v.text), pointer) else []
    case ObjectField => if v.JObj? then ObjectRefs(c, v.members, f.children, pointer) else []
    case RepeatableGroup => if v.JArr? then GroupRefs(c, v.items, f.children, pointer, 0) else []
    case _ => []
  }

  function GroupRefs(c: Codec, items: seq<Json>, children: seq<Field>, pointer: seq<Step>, at: nat): seq<MediaReference>
    requires at <= |items|
    decreases children, 1, |items| - at
  {
    if at == |items| then []
    else
      (if items[at].JObj? then ObjectRefs(c, items[at].members, children, pointer + [Item(at)]) else [])
      + GroupRefs(c, items, children, pointer, at + 1)
  }

  /** The references of an object, in field order. */
  function ObjectRefs(c: Codec, members: map<string, Json>, fields: seq<Field>, parent: seq<Step>): seq<MediaReference>
    decreases fields, 0
  {
    if fields == [] then [] else FieldRefs(c, members, fields[0], parent) + ObjectRefs(c, members, fields[1..], parent)
  }

  // ---- the walk that appends to one result list ----

  method Walk(c: Codec, members: map<string, Json>, fields: seq<Field>, parent: seq<Step>, before: seq<MediaReference>)
    returns (result: seq<MediaReference>)
    ensures result == before + ObjectRefs(c, members, fields, parent)
    decreases fields, 0
  {
    result := before;
    for i := 0 to |fields|
      invariant result + ObjectRefs(c, members, fields[i..], parent) == before + ObjectRefs(c, members, fields, parent)
    {
      var f := fields[i];
      ghost var rest := ObjectRefs(c, members, fields[i + 1..], parent);
      assert fields[i..] == [f] + fields[i + 1..];
      assert result + (FieldRefs(c, members, f, parent) + rest) == (result + FieldRefs(c, members, f, parent)) + rest;
      if f.key in members && !members[f.key].JNull? && f.active {
        result := WalkValue(c, members[f.key], f, parent + [Member(f.key)], result);
      }
    }
  }

  method WalkValue(c: Codec, v: Json, f: Field, pointer: seq<Step>, before: seq<MediaReference>)
    returns (result: seq<MediaReference>)
    ensures result == before + ValueRefs(c, v, f, pointer)
    decreases f, 1
  {
    result := before;
    match f.kind {
      case SingleMedia =>
        result := result + [MediaReference(f.id, IdText(v), pointer, 0, None)];
      case MultiMedia =>
        if v.JArr? {
          for position := 0 to |v.items|
            invariant result == before + ValueRefs(c, v, f, pointer)[..position]
          {
            result := result + [MediaReference(f.id, IdText(v.items[position]), pointer, position, None)];
          }
        }
      case RichText =>
        if v.JStr? { result := result + InlineRefs(f.id, c.mentions(v.text), pointer); }
      case ObjectField =>
        if v.JObj? { result := Walk(c, v.members, f.children, pointer, result); }
      case RepeatableGroup =>
        if v.JArr? {
          for position := 0 to |v.items|
            invariant result + GroupRefs(c, v.items, f.children, pointer, position) ==
              before + GroupRefs(c, v.items, f.children, pointer, 0)
          {
            if v.items[position].JObj? {
              ghost var own := ObjectRefs(c, v.items[position].members, f.children, pointer + [Item(position)]);
              ghost var rest := GroupRefs(c, v.items, f.children, pointer, position + 1);
              assert result + (own + rest) == (result + own) + rest;
              result := Walk(c, v.items[position].members, f.children, pointer + [Item(position)], result);
            }
          }
        }
      case _ =>
    }
  }

  // ---- projecting to active fields loses no reference ----

  lemma {:induction false} ProjectedValueRefs(c: Codec, v: Json, f: Field, pointer: seq<Step>)
    requires WellFormed(f.children)
    ensures ValueRefs(c, ActiveValue(v, f), f, pointer) == ValueRefs(c, v, f, pointer)
    decreases f, 1
  {
    match f.kind
    case ObjectField => if v.JObj? { ProjectedObjectRefs(c, v.members, f.children, f.children, pointer); }
    case RepeatableGroup => if v.JArr? { ProjectedGroupRefs(c, v.items, f.children, pointer, 0); }
    case _ =>
  }

  lemma {:induction false} ProjectedGroupRefs(c: Codec, items: seq<Json>, children: seq<Field>, pointer: seq<Step>,
      at: nat)
    requires WellFormed(children) && at <= |items|
    ensures GroupRefs(c, ActiveItems(items, children), children, pointer, at) == GroupRefs(c, items, children, pointer, at)
    decreases children, 1, |items| - at
  {
    if at < |items| {
      if items[at].JObj? { ProjectedObjectRefs(c, items[at].members, children, children, pointer + [Item(at)]); }
      ProjectedGroupRefs(c, items, children, pointer, at + 1);
    }
  }

  lemma {:induction false} ProjectedObjectRefs(c: Codec, members: map<string, Json>, fields: seq<Field>,
      rest: seq<Field>, parent: seq<Step>)
    requires WellFormed(fields) && forall f :: f in rest ==> f in fields
    ensures ObjectRefs(c, ActiveObject(members, fields), rest, parent) == ObjectRefs(c, members, rest, parent)
    decreases fields, 0, |rest|
  {
    if rest != [] {
      var f := rest[0];
      LookupFinds(fields, f);
      if f.active && f.key in members { ProjectedValueRefs(c, members[f.key], f, parent + [Member(f.key)]); }
      ProjectedObjectRefs(c, members, fields, rest[1..], parent);
    }
  }

  /** Reading references off the projected content gives exactly the references of the stored content. */
  lemma ProjectionKeepsReferences(c: Codec, content: Json, fields: seq<Field>)
    requires WellFormed(fields) && content.JObj? && ActiveRootContent(content, fields).Some?
    ensures ObjectRefs(c, ActiveRootContent(content, fields).value.members, fields, []) == ObjectRefs(c, content.members, fields, [])
  {
    ProjectedObjectRefs(c, content.members, fields, fields, []);
  }

  // ---- what the projection shows ----

  /** The value at a place in a JSON value. */
  function ValueAt(v: Json, place: seq<Step>): Option<Json> {
    if place == [] then Some(v)
    else
      match place[0]
      case Member(key) => if v.JObj? && key in v.members then ValueAt(v.members[key], place[1..]) else None
      case Item(i) => if v.JArr? && i < |v.items| then ValueAt(v.items[i], place[1..]) else None
  }

  /** Every member on the way to the place is an active field's. */
  predicate IsShown(f: Field, place: seq<Step>)
    decreases f, 1
  {
    match f.kind
    case ObjectField => IsShownIn(f.children, place)
    case RepeatableGroup => place == [] || IsShownIn(f.children, place[1..])
    case _ => true
  }

  predicate IsShownIn(fields: seq<Field>, place: seq<Step>)
    decreases fields, 0
  {
    place == [] ||
    exists f :: f in fields && f.active && place[0] == Member(f.key) && IsShown(f, place[1..])
  }

  /** At a shown place the projection has a value exactly when the content has one, at any other it has none, and
      values without members are as they were. */
  predicate ShowsAt(v: Json, p: Json, place: seq<Step>, shown: bool) {
    && (ValueAt(p, place).Some? <==> shown && ValueAt(v, place).Some?)
    && (ValueAt(p, place).Some? && !ValueAt(v, place).value.JObj? && !ValueAt(v, place).value.JArr? ==>
          ValueAt(p, place) == ValueAt(v, place))
  }

  lemma {:induction false} ProjectedValueShows(v: Json, f: Field, place: seq<Step>)
    requires WellFormed(f.children) && Shaped(v, f)
    ensures ShowsAt(v, ActiveValue(v, f), place, IsShown(f, place))
    decreases f, 1
  {
    if place == [] { return; }
    match f.kind
    case ObjectField => if v.JObj? { ProjectedObjectShows(v.members, f.children, place); }
    case RepeatableGroup =>
      if v.JArr? && place[0].Item? && place[0].index < |v.items| && v.items[place[0].index].JObj? {
        ProjectedObjectShows(v.items[place[0].index].members, f.children, place[1..]);
      }
    case _ =>
  }

  lemma {:induction false} ProjectedObjectShows(members: map<string, Json>, fields: seq<Field>, place: seq<Step>)
    requires WellFormed(fields) && ShapedObject(members, fields)
    ensures ShowsAt(JObj(members), JObj(ActiveObject(members, fields)), place, IsShownIn(fields, place))
    decreases fields, 0
  {
    if place != [] && place[0].Member? {
      forall f | f in fields && f.active && f.key == place[0].key
        ensures ActiveField(fields, place[0].key) == Some(f)
      {
        LookupFinds(fields, f);
      }
      var active := ActiveField(fields, place[0].key);
      if active.Some? && place[0].key in members { ProjectedValueShows(members[place[0].key], active.value, place[1..]); }
    }
  }

  /** Published content shows what stands below active fields, all of it, unchanged, and nothing else. */
  lemma {:induction false} ProjectionShowsActive(content: Json, fields: seq<Field>, place: seq<Step>)
    requires WellFormed(fields) && content.JObj? && ActiveRootContent(content, fields).Some?
    ensures ShowsAt(content, ActiveRootContent(content, fields).value, place, IsShownIn(fields, place))
  {
    ProjectedObjectShows(content.members, fields, place);
  }

  // ---- which references there are ----

  /** The value of the field holds the reference at this place in it. */
  predicate RefInValue(c: Codec, v: Json, f: Field, r: MediaReference, place: seq<Step>)
    decreases f, 1
  {
    match f.kind
    case SingleMedia => place == [] && r.fieldId == f.id && r.assetId == IdText(v) && r.position == 0 && r.inline.None?
    case MultiMedia =>
      && place == [] && v.JArr? && r.position < |v.items|
      && r.fieldId == f.id && r.assetId == IdText(v.items[r.position]) && r.inline.None?
    case RichText =>
      && place == [] && v.JStr? && r.fieldId == f.id && r.assetId != "" && r.inline.Some?
      && Mention(r.assetId, r.inline.value, r.position) in c.mentions(v.text)
    case ObjectField => v.JObj? && RefInObject(c, v.members, f.children, r, place)
    case RepeatableGroup =>
      && v.JArr? && place != [] && place[0].Item? && place[0].index < |v.items| && v.items[place[0].index].JObj?
      && RefInObject(c, v.items[place[0].index].members, f.children, r, place[1..])
    case _ => false
  }

  /** A member of an active field holds it. */
  predicate RefInObject(c: Codec, members: map<string, Json>, fields: seq<Field>, r: MediaReference, place: seq<Step>)
    decreases fields, 0
  {
    && place != [] && place[0].Member?
    && exists f :: && f in fields && f.active && f.key == place[0].key && f.key in members && !members[f.key].JNull?
                   && RefInValue(c, members[f.key], f, r, place[1..])
  }

  predicate IsBelow(pointer: seq<Step>, r: MediaReference) {
    |pointer| <= |r.pointer| && r.pointer[..|pointer|] == pointer
  }

  lemma {:induction false} InlineRefIff(fieldId: string, mentions: seq<Mention>, pointer: seq<Step>, r: MediaReference)
    ensures r in InlineRefs(fieldId, mentions, pointer) <==>
      r.fieldId == fieldId && r.pointer == pointer && r.assetId != "" && r.inline.Some?
      && Mention(r.assetId, r.inline.value, r.position) in mentions
  {
    if mentions != [] {
      InlineRefIff(fieldId, mentions[1..], pointer, r);
      assert mentions == [mentions[0]] + mentions[1..];
    }
  }

  lemma PointerSplit(pointer: seq<Step>, step: Step, r: MediaReference)
    ensures IsBelow(pointer + [step], r) <==> IsBelow(pointer, r) && |r.pointer| > |pointer| && r.pointer[|pointer|] == step
    ensures IsBelow(pointer + [step], r) ==> r.pointer[|pointer + [step]|..] == r.pointer[|pointer|..][1..]
  {
    var n := |pointer|;
    if |r.pointer| > n { assert r.pointer[..n + 1] == r.pointer[..n] + [r.pointer[n]]; }
    if IsBelow(pointer + [step], r) { assert r.pointer[..n] == r.pointer[..n + 1][..n]; }
  }

  lemma {:induction false} ValueRefIff(c: Codec, v: Json, f: Field, pointer: seq<Step>, r: MediaReference)
    ensures r in ValueRefs(c, v, f, pointer) <==> IsBelow(pointer, r) && RefInValue(c, v, f, r, r.pointer[|pointer|..])
    decreases f, 1
  {
    assert IsBelow(pointer, r) && r.pointer[|pointer|..] == [] <==> r.pointer == pointer by {
      if IsBelow(pointer, r) && r.pointer[|pointer|..] == [] { assert r.pointer == r.pointer[..|pointer|] + r.pointer[|pointer|..]; }
    }
    match f.kind
    case MultiMedia =>
      if v.JArr? && r.position < |v.items| { assert r in ValueRefs(c, v, f, pointer) <==> r == ValueRefs(c, v, f, pointer)[r.position]; }
    case RichText => if v.JStr? { InlineRefIff(f.id, c.mentions(v.text), pointer, r); }
    case ObjectField => if v.JObj? { ObjectRefIff(c, v.members, f.children, pointer, r); }
    case RepeatableGroup => if v.JArr? { GroupRefIff(c, v.items, f.children, pointer, 0, r); }
    case _ =>
  }

  lemma {:induction false} GroupRefIff(c: Codec, items: seq<Json>, children: seq<Field>, pointer: seq<Step>, at: nat,
      r: MediaReference)
    requires at <= |items|
    ensures r in GroupRefs(c, items, children, pointer, at) <==>
      var place := if IsBelow(pointer, r) then r.pointer[|pointer|..] else [];
      && place != [] && place[0].Item? && at <= place[0].index < |items| && items[place[0].index].JObj?
      && RefInObject(c, items[place[0].index].members, children, r, place[1..])
    decreases children, 1, |items| - at
  {
    if at < |items| {
      PointerSplit(pointer, Item(at), r);
      if items[at].JObj? { ObjectRefIff(c, items[at].members, children, pointer + [Item(at)], r); }
      GroupRefIff(c, items, children, pointer, at + 1, r);
    }
  }

  /** The walk finds exactly the media of the active fields: each under the pointer to its value, with the position in
      its list, or as a mention in a rich text. */
  lemma {:induction false} ObjectRefIff(c: Codec, members: map<string, Json>, fields: seq<Field>, parent: seq<Step>,
      r: MediaReference)
    ensures r in ObjectRefs(c, members, fields, parent) <==>
      IsBelow(parent, r) && RefInObject(c, members, fields, r, r.pointer[|parent|..])
    decreases fields, 0
  {
    if fields != [] {
      var f := fields[0];
      ObjectRefIff(c, members, fields[1..], parent, r);
      PointerSplit(parent, Member(f.key), r);
      if f.key in members && !members[f.key].JNull? && f.active { ValueRefIff(c, members[f.key], f, parent + [Member(f.key)], r); }
      assert forall g :: g in fields <==> g == f || g in fields[1..];
    }
  }
}
