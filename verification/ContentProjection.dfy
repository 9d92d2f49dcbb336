/** activeRootContent: the part of stored content that belongs to active fields. */
module ContentProjection {
  import opened Wrappers
  import opened FieldTree
  import opened ContentValidation

  /** The value of a field without the members of archived or unknown children. */
  function ActiveValue(v: Json, f: Field): (p: Json)
    ensures p.JNull? <==> v.JNull?
    decreases f, 1
  {
    match f.kind
    case ObjectField => if v.JObj? then JObj(ActiveObject(v.members, f.children)) else v
    case RepeatableGroup => if v.JArr? then JArr(ActiveItems(v.items, f.children)) else v
    case _ => v
  }

  function ActiveItems(items: seq<Json>, fields: seq<Field>): (p: seq<Json>)
    ensures |p| == |items|
    decreases fields, 1
  {
    seq(|items|, i requires 0 <= i < |items| => if items[i].JObj? then JObj(ActiveObject(items[i].members, fields)) else items[i])
  }

  function ActiveObject(members: map<string, Json>, fields: seq<Field>): map<string, Json>
    decreases fields, 0
  {
    map key | key in members && ActiveField(fields, key).Some? :: ActiveValue(members[key], ActiveField(fields, key).value)
  }

  /** The shape json.Unmarshal demands along active fields: objects and arrays of objects where the
      field says so, null allowed everywhere. */
  predicate Shaped(v: Json, f: Field)
    decreases f, 1
  {
    v.JNull? ||
    match f.kind
    case ObjectField => v.JObj? && ShapedObject(v.members, f.children)
    case RepeatableGroup =>
      v.JArr? && forall i :: 0 <= i < |v.items| ==>
        v.items[i].JNull? || (v.items[i].JObj? && ShapedObject(v.items[i].members, f.children))
    case _ => true
  }

  predicate ShapedObject(members: map<string, Json>, fields: seq<Field>)
    decreases fields, 0
  {
    forall key :: key in members && ActiveField(fields, key).Some? ==> Shaped(members[key], ActiveField(fields, key).value)
  }

  /** activeRootContent: None is the decoding error; null decodes to no members. */
  function ActiveRootContent(content: Json, fields: seq<Field>): Option<Json> {
    if content.JNull? then Some(JObj(map[]))
    else if content.JObj? && ShapedObject(content.members, fields) then Some(JObj(ActiveObject(content.members, fields)))
    else None
  }

  lemma {:induction false} ActiveValueIdempotent(v: Json, f: Field)
    ensures ActiveValue(ActiveValue(v, f), f) == ActiveValue(v, f)
    ensures Shaped(v, f) ==> Shaped(ActiveValue(v, f), f)
    decreases f, 1
  {
    match f.kind
    case ObjectField => if v.JObj? { ActiveObjectIdempotent(v.members, f.children); }
    case RepeatableGroup =>
      if v.JArr? {
        var once := ActiveItems(v.items, f.children);
        forall i | 0 <= i < |once| && v.items[i].JObj?
          ensures ActiveObject(once[i].members, f.children) == once[i].members
          ensures ShapedObject(v.items[i].members, f.children) ==> ShapedObject(once[i].members, f.children)
        {
          ActiveObjectIdempotent(v.items[i].members, f.children);
        }
        assert ActiveItems(once, f.children) == once;
      }
    case _ =>
  }

  lemma {:induction false} ActiveObjectIdempotent(members: map<string, Json>, fields: seq<Field>)
    ensures ActiveObject(ActiveObject(members, fields), fields) == ActiveObject(members, fields)
    ensures ShapedObject(members, fields) ==> ShapedObject(ActiveObject(members, fields), fields)
    decreases fields, 0
  {
    var once := ActiveObject(members, fields);
    forall key | key in once
      ensures ActiveValue(once[key], ActiveField(fields, key).value) == once[key]
      ensures Shaped(members[key], ActiveField(fields, key).value) ==> Shaped(once[key], ActiveField(fields, key).value)
    {
      ActiveValueIdempotent(members[key], ActiveField(fields, key).value);
    }
  }

  /** Projecting is idempotent and never fails on its own output. */
  lemma ProjectionIsIdempotent(content: Json, fields: seq<Field>)
    requires ActiveRootContent(content, fields).Some?
    ensures ActiveRootContent(ActiveRootContent(content, fields).value, fields) == ActiveRootContent(content, fields)
  {
    if content.JObj? { ActiveObjectIdempotent(content.members, fields); }
  }
}
