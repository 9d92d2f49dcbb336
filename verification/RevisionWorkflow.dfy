/** Revisions, the draft and published pointers, and the workflow event log.
    The content and the configuration services run the same machine; an owner is a content entry or
    a configuration item, and V is what a revision holds. */
module RevisionWorkflow {
  import opened Wrappers

  datatype Status = Draft | PendingReview | Rejected | Published | Unpublished

  datatype EventKind = Submitted | Approved | Refused | TakenDown

  function FromStatus(kind: EventKind): Status {
    match kind
    case Submitted => Draft
    case Approved => PendingReview
    case Refused => PendingReview
    case TakenDown => Published
  }

  function ToStatus(kind: EventKind): Status {
    match kind
    case Submitted => PendingReview
    case Approved => Published
    case Refused => Rejected
    case TakenDown => Unpublished
  }

  datatype Revision<V> = Revision(owner: string, number: nat, content: V, status: Status)

  datatype Event = Event(owner: string, revision: string, kind: EventKind)

  datatype Tables<V> = Tables(
    revisions: map<string, Revision<V>>,
    drafts: map<string, string>,
    published: map<string, string>,
    events: seq<Event>)

  datatype Refusal =
    | Required | NotFound | Archived | Invalid | External
    | DraftExists | DraftConflict | RevisionConflict | InvalidTransition | PointerConflict
    | PublishedForbidden | NotUnique | DuplicateKey | Limit | Incompatible
    | NotEmpty | NamespacePublished | RelationLocked

  /** The row update "set status = to where id = id and status = from". */
  function Transition<V>(revisions: map<string, Revision<V>>, id: string, from: Status,
      until: Status): Option<map<string, Revision<V>>> {
    if id in revisions && revisions[id].status == from then Some(revisions[id := revisions[id].(status := until)]) else None
  }

  /** Saving a draft: `base` is the revision the client edited, None for the first draft. */
  function SaveDraft<V>(t: Tables<V>, owner: string, id: string, base: Option<string>,
      content: V): Result<Tables<V>, Refusal>
    requires forall o :: o in t.drafts ==> t.drafts[o] in t.revisions
  {
    if base.None? && owner in t.drafts then Err(DraftExists)
    else if base.Some? && (owner !in t.drafts || t.drafts[owner] != base.value) then Err(DraftConflict)
    else if base.Some? && t.revisions[t.drafts[owner]].status == PendingReview then Err(InvalidTransition)
    else if id in t.revisions then Err(DuplicateKey)
    else
      var number := if owner in t.drafts then t.revisions[t.drafts[owner]].number + 1 else 1;
      Ok(t.(revisions := t.revisions[id := Revision(owner, number, content, Draft)], drafts := t.drafts[owner := id]))
  }

  /** The pointer a workflow request is compared with. */
  function Expected<V>(t: Tables<V>, owner: string, kind: EventKind): string
    requires owner in t.drafts
  {
    if kind.TakenDown? then (if owner in t.published then t.published[owner] else "") else t.drafts[owner]
  }

  /** One workflow transaction: the transition, the supersession of the published revision, the
      pointer, and the event. */
  function Workflow<V>(t: Tables<V>, owner: string, id: string, kind: EventKind): Result<Tables<V>, Refusal> {
    if id == "" then Err(Required)
    else if owner !in t.drafts then Err(NotFound)
    else if Expected(t, owner, kind) != id then Err(RevisionConflict)
    else if id !in t.revisions || t.revisions[id].owner != owner then Err(NotFound)
    else if t.revisions[id].status != FromStatus(kind) then Err(InvalidTransition)
    else
      var moved := t.revisions[id := t.revisions[id].(status := ToStatus(kind))];
      var event := Event(owner, id, kind);
      match kind
      case Approved =>
        if owner in t.published && t.published[owner] != id then
          var superseded := Transition(moved, t.published[owner], Published, Unpublished);
          if superseded.None? then Err(PointerConflict)
          else Ok(Tables(superseded.value, t.drafts, t.published[owner := id], t.events + [event]))
        else Ok(Tables(moved, t.drafts, t.published[owner := id], t.events + [event]))
      case TakenDown =>
        if owner !in t.published || t.published[owner] != id then Err(PointerConflict)
        else Ok(Tables(moved, t.drafts, t.published - {owner}, t.events + [event]))
      case _ => Ok(Tables(moved, t.drafts, t.published, t.events + [event]))
  }

  // ---- replaying the event log ----

  datatype Replayed = Replayed(statuses: map<string, Status>, published: map<string, string>)

  function ReplayEvent(r: Replayed, e: Event): Replayed {
    var moved := r.statuses[e.revision := ToStatus(e.kind)];
    match e.kind
    case Approved =>
      Replayed(
        if e.owner in r.published && r.published[e.owner] != e.revision then moved[r.published[e.owner] := Unpublished] else moved,
        r.published[e.owner := e.revision])
    case TakenDown => Replayed(moved, r.published - {e.owner})
    case _ => Replayed(moved, r.published)
  }

  function Replay(events: seq<Event>): Replayed {
    if events == [] then Replayed(map[], map[]) else ReplayEvent(Replay(events[..|events| - 1]), events[|events| - 1])
  }

  function ReplayedStatus(r: Replayed, id: string): Status { if id in r.statuses then r.statuses[id] else Draft }

  // ---- what every committed state satisfies ----

  ghost predicate PointersValid<V>(t: Tables<V>) {
    && (forall o :: o in t.drafts ==> t.drafts[o] in t.revisions && t.revisions[t.drafts[o]].owner == o)
    && (forall o :: o in t.published ==> o in t.drafts && t.published[o] in t.revisions && t.revisions[t.published[o]].owner == o)
    && (forall r :: r in t.revisions ==> t.revisions[r].owner in t.drafts)
    && "" !in t.revisions
  }

  /** A revision is published exactly when it is the pointer's target, and under review only as the current draft. */
  ghost predicate StatusesValid<V>(t: Tables<V>)
    requires PointersValid(t)
  {
    forall r :: r in t.revisions ==>
      && (t.revisions[r].status == Published <==> t.revisions[r].owner in t.published && t.published[t.revisions[r].owner] == r)
      && (t.revisions[r].status == PendingReview ==> t.drafts[t.revisions[r].owner] == r)
  }

  function Latest<V>(t: Tables<V>, owner: string): nat
    requires owner in t.drafts && t.drafts[owner] in t.revisions
  {
    t.revisions[t.drafts[owner]].number
  }

  ghost predicate HasNumber<V>(t: Tables<V>, owner: string, k: nat) {
    exists r :: r in t.revisions && t.revisions[r].owner == owner && t.revisions[r].number == k
  }

  /** The revision numbers of an owner are exactly 1..n, each once, and the draft pointer holds n. */
  ghost predicate NumbersLinear<V>(t: Tables<V>)
    requires PointersValid(t)
  {
    && (forall r :: r in t.revisions ==> 1 <= t.revisions[r].number <= Latest(t, t.revisions[r].owner))
    && (forall r, s :: r in t.revisions && s in t.revisions && r != s && t.revisions[r].owner == t.revisions[s].owner
          ==> t.revisions[r].number != t.revisions[s].number)
    && (forall o, k: nat :: o in t.drafts && 1 <= k <= Latest(t, o) ==> HasNumber(t, o, k))
  }

  /** Replaying the log reconstructs every status and every published pointer. */
  ghost predicate LogAgrees<V>(t: Tables<V>) {
    var r := Replay(t.events);
    && r.published == t.published
    && r.statuses.Keys <= t.revisions.Keys
    && forall id :: id in t.revisions ==> ReplayedStatus(r, id) == t.revisions[id].status
  }

  ghost predicate Consistent<V>(t: Tables<V>) {
    PointersValid(t) && StatusesValid(t) && NumbersLinear(t) && LogAgrees(t)
  }

  function Empty<V>(): Tables<V> { Tables(map[], map[], map[], []) }

  /** Neither operation ever leaves a dangling pointer. */
  lemma {:induction false} SavePointers<V>(t: Tables<V>, owner: string, id: string, base: Option<string>, content: V)
    requires PointersValid(t) && id != "" && SaveDraft(t, owner, id, base, content).Ok?
    ensures PointersValid(SaveDraft(t, owner, id, base, content).value)
  {
  }

  lemma {:induction false} WorkflowPointers<V>(t: Tables<V>, owner: string, id: string, kind: EventKind)
    requires PointersValid(t) && Workflow(t, owner, id, kind).Ok?
    ensures PointersValid(Workflow(t, owner, id, kind).value) && owner in Workflow(t, owner, id, kind).value.drafts
  {
    var u := Workflow(t, owner, id, kind).value;
    WorkflowEffect(t, owner, id, kind);
    EffectPointers(t, u, owner, id, kind);
  }

  lemma {:induction false} EffectPointers<V>(t: Tables<V>, u: Tables<V>, owner: string, id: string, kind: EventKind)
    requires PointersValid(t) && Effect(t, u, owner, id, kind)
    ensures PointersValid(u)
  {
    forall r | r in t.revisions ensures u.revisions[r].owner == t.revisions[r].owner {
      assert u.revisions[r] == t.revisions[r].(status := StatusAfter(t, owner, id, kind, r));
    }
  }

  /** The only change of a save: a new draft revision, and the draft pointer on it. */
  ghost predicate SavedAs<V>(t: Tables<V>, u: Tables<V>, owner: string, id: string, r: Revision<V>) {
    && id !in t.revisions && id != "" && r.owner == owner && r.status == Draft
    && (owner in t.drafts ==> t.drafts[owner] in t.revisions && t.revisions[t.drafts[owner]].status != PendingReview)
    && u == t.(revisions := t.revisions[id := r], drafts := t.drafts[owner := id])
  }

  lemma {:induction false} SaveIsSaved<V>(t: Tables<V>, owner: string, id: string, base: Option<string>, content: V)
    requires PointersValid(t) && id != "" && SaveDraft(t, owner, id, base, content).Ok?
    ensures var u := SaveDraft(t, owner, id, base, content).value;
      id in u.revisions && SavedAs(t, u, owner, id, u.revisions[id])
      && u.revisions[id] == Revision(owner, if owner in t.drafts then t.revisions[t.drafts[owner]].number + 1 else 1, content, Draft)
  {
  }

  lemma {:induction false} SavedPointers<V>(t: Tables<V>, u: Tables<V>, owner: string, id: string, r: Revision<V>)
    requires PointersValid(t) && SavedAs(t, u, owner, id, r)
    ensures PointersValid(u)
  {
  }

  lemma {:induction false} SavedStatuses<V>(t: Tables<V>, u: Tables<V>, owner: string, id: string, r: Revision<V>)
    requires PointersValid(t) && PointersValid(u) && StatusesValid(t) && SavedAs(t, u, owner, id, r)
    ensures StatusesValid(u)
  {
  }

  lemma {:induction false} SavedLog<V>(t: Tables<V>, u: Tables<V>, owner: string, id: string, r: Revision<V>)
    requires LogAgrees(t) && SavedAs(t, u, owner, id, r)
    ensures LogAgrees(u)
  {
  }

  lemma {:induction false} SaveKeepsPointers<V>(t: Tables<V>, owner: string, id: string, base: Option<string>,
      content: V)
    requires Consistent(t) && id != "" && SaveDraft(t, owner, id, base, content).Ok?
    ensures var u := SaveDraft(t, owner, id, base, content).value;
      PointersValid(u) && StatusesValid(u) && LogAgrees(u)
  {
    var u := SaveDraft(t, owner, id, base, content).value;
    SaveIsSaved(t, owner, id, base, content);
    SavedPointers(t, u, owner, id, u.revisions[id]);
    SavedStatuses(t, u, owner, id, u.revisions[id]);
    SavedLog(t, u, owner, id, u.revisions[id]);
  }

  /** A new revision of an owner, numbered one above the current draft, and the draft pointer moved to it. */
  ghost predicate Numbered<V>(t: Tables<V>, u: Tables<V>, owner: string, id: string) {
    && PointersValid(t) && NumbersLinear(t) && PointersValid(u)
    && id !in t.revisions && u.revisions.Keys == t.revisions.Keys + {id}
    && (forall r :: r in t.revisions ==> u.revisions[r] == t.revisions[r])
    && u.drafts == t.drafts[owner := id]
    && u.revisions[id].owner == owner
    && u.revisions[id].number == (if owner in t.drafts then Latest(t, owner) + 1 else 1)
  }

  lemma {:induction false} NumberedHasAll<V>(t: Tables<V>, u: Tables<V>, owner: string, id: string, o: string, k: nat)
    requires Numbered(t, u, owner, id) && o in u.drafts && 1 <= k <= Latest(u, o)
    ensures HasNumber(u, o, k)
  {
    if o == owner && k == u.revisions[id].number {
      assert u.revisions[id].number == k;
    } else {
      assert o in t.drafts && k <= Latest(t, o);
      assert HasNumber(t, o, k);
      var r :| r in t.revisions && t.revisions[r].owner == o && t.revisions[r].number == k;
      assert u.revisions[r].number == k;
    }
  }

  lemma {:induction false} LatestAfter<V>(t: Tables<V>, u: Tables<V>, owner: string, id: string, o: string)
    requires Numbered(t, u, owner, id) && o in u.drafts
    ensures Latest(u, o) == if o == owner then u.revisions[id].number else Latest(t, o)
  {
  }

  lemma {:induction false} NumberedBounded<V>(t: Tables<V>, u: Tables<V>, owner: string, id: string)
    requires Numbered(t, u, owner, id)
    ensures forall r :: r in u.revisions ==> 1 <= u.revisions[r].number <= Latest(u, u.revisions[r].owner)
    ensures forall r :: r in t.revisions && u.revisions[r].owner == owner ==> u.revisions[r].number < u.revisions[id].number
  {
    forall r | r in t.revisions
      ensures 1 <= u.revisions[r].number <= Latest(u, u.revisions[r].owner)
      ensures u.revisions[r].owner == owner ==> u.revisions[r].number < u.revisions[id].number
    {
      assert t.revisions[r].number <= Latest(t, t.revisions[r].owner);
      LatestAfter(t, u, owner, id, t.revisions[r].owner);
    }
    LatestAfter(t, u, owner, id, owner);
  }

  lemma {:induction false} NumberedIsLinear<V>(t: Tables<V>, u: Tables<V>, owner: string, id: string)
    requires Numbered(t, u, owner, id)
    ensures NumbersLinear(u)
  {
    NumberedBounded(t, u, owner, id);
    forall o, k: nat | o in u.drafts && 1 <= k <= Latest(u, o) ensures HasNumber(u, o, k) {
      NumberedHasAll(t, u, owner, id, o, k);
    }
  }

  lemma {:induction false} SavedNumbered<V>(t: Tables<V>, u: Tables<V>, owner: string, id: string, r: Revision<V>)
    requires PointersValid(t) && NumbersLinear(t) && PointersValid(u) && SavedAs(t, u, owner, id, r)
    requires r.number == (if owner in t.drafts then Latest(t, owner) + 1 else 1)
    ensures Numbered(t, u, owner, id)
  {
  }

  /** Saving keeps the whole state consistent. */
  lemma {:induction false} SaveKeepsConsistent<V>(t: Tables<V>, owner: string, id: string, base: Option<string>,
      content: V)
    requires Consistent(t) && id != "" && SaveDraft(t, owner, id, base, content).Ok?
    ensures Consistent(SaveDraft(t, owner, id, base, content).value)
  {
    var u := SaveDraft(t, owner, id, base, content).value;
    SaveKeepsPointers(t, owner, id, base, content);
    SaveIsSaved(t, owner, id, base, content);
    SavedNumbered(t, u, owner, id, u.revisions[id]);
    NumberedIsLinear(t, u, owner, id);
  }

  /** The refusal "the published revision has changed" is unreachable, and so is "the pointer has changed". */
  lemma SupersessionNeverConflicts<V>(t: Tables<V>, owner: string, id: string, kind: EventKind)
    requires Consistent(t)
    ensures Workflow(t, owner, id, kind) != Err(PointerConflict)
  {
  }

  /** The status a committed workflow step leaves a revision in. */
  function StatusAfter<V>(t: Tables<V>, owner: string, id: string, kind: EventKind, r: string): Status
    requires r in t.revisions
  {
    if r == id then ToStatus(kind)
    else if kind.Approved? && owner in t.published && t.published[owner] == r then Unpublished
    else t.revisions[r].status
  }

  /** All a committed workflow step does, table by table. */
  ghost predicate Effect<V>(t: Tables<V>, u: Tables<V>, owner: string, id: string, kind: EventKind) {
    && owner in t.drafts && id in t.revisions && t.revisions[id].owner == owner && t.revisions[id].status == FromStatus(kind)
    && (if kind.TakenDown? then owner in t.published && t.published[owner] == id else t.drafts[owner] == id)
    && u.revisions.Keys == t.revisions.Keys
    && (forall r :: r in t.revisions ==> u.revisions[r] == t.revisions[r].(status := StatusAfter(t, owner, id, kind, r)))
    && u.drafts == t.drafts
    && u.published == (if kind.Approved? then t.published[owner := id] else if kind.TakenDown? then t.published - {owner} else t.published)
    && u.events == t.events + [Event(owner, id, kind)]
  }

  lemma {:induction false} WorkflowEffect<V>(t: Tables<V>, owner: string, id: string, kind: EventKind)
    requires Workflow(t, owner, id, kind).Ok?
    ensures Effect(t, Workflow(t, owner, id, kind).value, owner, id, kind)
  {
  }

  lemma {:induction false} EffectKeepsPointers<V>(t: Tables<V>, u: Tables<V>, owner: string, id: string,
      kind: EventKind)
    requires PointersValid(t) && StatusesValid(t) && Effect(t, u, owner, id, kind)
    ensures PointersValid(u) && StatusesValid(u)
  {
    EffectPointers(t, u, owner, id, kind);
    forall r | r in u.revisions
      ensures u.revisions[r].status == Published <==> u.revisions[r].owner in u.published && u.published[u.revisions[r].owner] == r
      ensures u.revisions[r].status == PendingReview ==> u.drafts[u.revisions[r].owner] == r
    {
      assert u.revisions[r] == t.revisions[r].(status := StatusAfter(t, owner, id, kind, r));
    }
  }

  lemma {:induction false} EffectKeepsNumbers<V>(t: Tables<V>, u: Tables<V>, owner: string, id: string, kind: EventKind)
    requires PointersValid(t) && PointersValid(u) && NumbersLinear(t) && Effect(t, u, owner, id, kind)
    ensures NumbersLinear(u)
  {
    assert forall r :: r in t.revisions ==> u.revisions[r].number == t.revisions[r].number && u.revisions[r].owner == t.revisions[r].owner;
    forall o, k: nat | o in u.drafts && 1 <= k <= Latest(u, o) ensures HasNumber(u, o, k) {
      assert HasNumber(t, o, k);
      var r :| r in t.revisions && t.revisions[r].owner == o && t.revisions[r].number == k;
      assert r in u.revisions;
    }
  }

  lemma {:induction false} ReplayStep(r: Replayed, e: Event, x: string)
    ensures ReplayedStatus(ReplayEvent(r, e), x) ==
      if x == e.revision then ToStatus(e.kind)
      else if e.kind.Approved? && e.owner in r.published && r.published[e.owner] == x then Unpublished
      else ReplayedStatus(r, x)
    ensures ReplayEvent(r, e).published ==
      if e.kind.Approved? then r.published[e.owner := e.revision] else if e.kind.TakenDown? then r.published - {e.owner} else r.published
    ensures forall k :: k in ReplayEvent(r, e).statuses ==>
      k in r.statuses || k == e.revision || (e.owner in r.published && k == r.published[e.owner])
  {
  }

  lemma {:induction false} EffectKeepsLog<V>(t: Tables<V>, u: Tables<V>, owner: string, id: string, kind: EventKind)
    requires PointersValid(t) && LogAgrees(t) && Effect(t, u, owner, id, kind)
    ensures LogAgrees(u)
  {
    assert u.events[..|u.events| - 1] == t.events;
    var r, e := Replay(t.events), Event(owner, id, kind);
    assert Replay(u.events) == ReplayEvent(r, e);
    ReplayStep(r, e, id);
    forall x | x in u.revisions ensures ReplayedStatus(Replay(u.events), x) == u.revisions[x].status {
      ReplayStep(r, e, x);
      assert u.revisions[x].status == StatusAfter(t, owner, id, kind, x);
      assert ReplayedStatus(r, x) == t.revisions[x].status;
    }
  }

  /** Every workflow step keeps the whole state consistent. */
  lemma {:induction false} WorkflowKeepsConsistent<V>(t: Tables<V>, owner: string, id: string, kind: EventKind)
    requires Consistent(t) && Workflow(t, owner, id, kind).Ok?
    ensures Consistent(Workflow(t, owner, id, kind).value)
  {
    var u := Workflow(t, owner, id, kind).value;
    WorkflowEffect(t, owner, id, kind);
    EffectKeepsPointers(t, u, owner, id, kind);
    EffectKeepsNumbers(t, u, owner, id, kind);
    EffectKeepsLog(t, u, owner, id, kind);
  }

  // ---- history only grows ----

  /** A status is never left for one it came from: a draft may go anywhere, a revision under review to published,
      unpublished or rejected, a published one to unpublished; rejected and unpublished are final. */
  predicate Forward(a: Status, b: Status) {
    || a == b || a.Draft?
    || (a.PendingReview? && (b.Published? || b.Unpublished? || b.Rejected?))
    || (a.Published? && b.Unpublished?)
  }

  ghost predicate StatusesForward<V>(t: Tables<V>, u: Tables<V>) {
    forall r :: r in t.revisions ==> r in u.revisions && Forward(t.revisions[r].status, u.revisions[r].status)
  }

  lemma ForwardTransitive<V>(t: Tables<V>, u: Tables<V>, w: Tables<V>)
    requires StatusesForward(t, u) && StatusesForward(u, w)
    ensures StatusesForward(t, w)
  {
    forall r | r in t.revisions ensures r in w.revisions && Forward(t.revisions[r].status, w.revisions[r].status) {
      assert Forward(t.revisions[r].status, u.revisions[r].status) && Forward(u.revisions[r].status, w.revisions[r].status);
    }
  }

  lemma {:induction false} EffectForward<V>(t: Tables<V>, u: Tables<V>, owner: string, id: string, kind: EventKind)
    requires PointersValid(t) && StatusesValid(t) && Effect(t, u, owner, id, kind)
    ensures StatusesForward(t, u)
  {
    forall r | r in t.revisions ensures r in u.revisions && Forward(t.revisions[r].status, u.revisions[r].status) {
      assert u.revisions[r].status == StatusAfter(t, owner, id, kind, r);
    }
  }

  /** Revisions keep their owner, number and content, and their status moves forward; draft pointers only move to
      higher numbers; the log is appended to. */
  ghost predicate Extends<V>(t: Tables<V>, u: Tables<V>)
    requires PointersValid(t) && PointersValid(u)
  {
    && (forall r :: r in t.revisions ==> r in u.revisions && u.revisions[r] == t.revisions[r].(status := u.revisions[r].status))
    && StatusesForward(t, u)
    && (forall o :: o in t.drafts ==> o in u.drafts && Latest(t, o) <= Latest(u, o))
    && t.events <= u.events
  }

  lemma {:induction false} SaveExtends<V>(t: Tables<V>, owner: string, id: string, base: Option<string>, content: V)
    requires Consistent(t) && id != "" && SaveDraft(t, owner, id, base, content).Ok?
    ensures Consistent(SaveDraft(t, owner, id, base, content).value)
    ensures Extends(t, SaveDraft(t, owner, id, base, content).value)
    ensures var u := SaveDraft(t, owner, id, base, content).value;
      u.drafts == t.drafts[owner := id] && u.revisions[id].content == content
      && (owner in t.drafts ==> Latest(u, owner) == Latest(t, owner) + 1)
  {
    var u := SaveDraft(t, owner, id, base, content).value;
    SaveKeepsConsistent(t, owner, id, base, content);
    SaveIsSaved(t, owner, id, base, content);
    SavedNumbered(t, u, owner, id, u.revisions[id]);
    forall o | o in t.drafts ensures Latest(t, o) <= Latest(u, o) { LatestAfter(t, u, owner, id, o); }
  }

  lemma {:induction false} WorkflowExtends<V>(t: Tables<V>, owner: string, id: string, kind: EventKind)
    requires Consistent(t) && Workflow(t, owner, id, kind).Ok?
    ensures var u := Workflow(t, owner, id, kind).value;
      Consistent(u) && Extends(t, u) && u.drafts == t.drafts
  {
    var u := Workflow(t, owner, id, kind).value;
    WorkflowKeepsConsistent(t, owner, id, kind);
    WorkflowEffect(t, owner, id, kind);
    EffectExtends(t, u, owner, id, kind);
  }

  lemma {:induction false} EffectExtends<V>(t: Tables<V>, u: Tables<V>, owner: string, id: string, kind: EventKind)
    requires PointersValid(t) && StatusesValid(t) && PointersValid(u) && Effect(t, u, owner, id, kind)
    ensures Extends(t, u)
  {
    EffectForward(t, u, owner, id, kind);
  }

  lemma ExtendsReflexive<V>(t: Tables<V>)
    requires PointersValid(t)
    ensures Extends(t, t)
  {
  }

  lemma ExtendsTransitive<V>(t: Tables<V>, u: Tables<V>, w: Tables<V>)
    requires PointersValid(t) && PointersValid(u) && PointersValid(w) && Extends(t, u) && Extends(u, w)
    ensures Extends(t, w)
  {
    ForwardTransitive(t, u, w);
  }

  /** No lost update: once a save based on a revision has succeeded, no later save may name that base,
      whatever happened in between. */
  lemma BaseIsSpent<V>(t: Tables<V>, owner: string, id: string, base: string, content: V, later: Tables<V>,
      nextId: string, next: V)
    requires Consistent(t) && id != "" && SaveDraft(t, owner, id, Some(base), content).Ok?
    requires var u := SaveDraft(t, owner, id, Some(base), content).value;
      PointersValid(u) && PointersValid(later) && Extends(u, later)
    ensures SaveDraft(later, owner, nextId, Some(base), next) == Err(DraftConflict)
  {
    BaseIsLeft(t, owner, id, base, content);
    PointerMovedOn(SaveDraft(t, owner, id, Some(base), content).value, later, owner, base);
  }

  /** A save moves the draft pointer above its base. */
  lemma BaseIsLeft<V>(t: Tables<V>, owner: string, id: string, base: string, content: V)
    requires PointersValid(t) && id != "" && SaveDraft(t, owner, id, Some(base), content).Ok?
    ensures var u := SaveDraft(t, owner, id, Some(base), content).value;
      && owner in u.drafts && u.drafts[owner] in u.revisions && base in u.revisions
      && u.revisions[base].number < Latest(u, owner)
  {
  }

  /** A draft pointer never comes back to a revision it has left behind. */
  lemma PointerMovedOn<V>(t: Tables<V>, later: Tables<V>, owner: string, base: string)
    requires PointersValid(t) && PointersValid(later) && Extends(t, later)
    requires owner in t.drafts && base in t.revisions && t.revisions[base].number < Latest(t, owner)
    ensures owner in later.drafts && later.drafts[owner] != base
  {
  }

  // ---- the repository and the transactions on it ----

  class Repository<V> {
    var revisions: map<string, Revision<V>>
    var drafts: map<string, string>
    var published: map<string, string>
    var events: seq<Event>

    ghost function State(): Tables<V>
      reads this
    {
      Tables(revisions, drafts, published, events)
    }

    constructor ()
      ensures State() == Empty()
    {
      revisions, drafts, published, events := map[], map[], map[], [];
    }

    method TransitionRevision(id: string, from: Status, until: Status) returns (changed: bool)
      modifies this`revisions
      ensures changed <==> Transition(old(revisions), id, from, until).Some?
      ensures revisions == if changed then Transition(old(revisions), id, from, until).value else old(revisions)
    {
      changed := id in revisions && revisions[id].status == from;
      if changed { revisions := revisions[id := revisions[id].(status := until)]; }
    }

    method DeletePublishedPointer(owner: string, id: string) returns (deleted: bool)
      modifies this`published
      ensures deleted <==> owner in old(published) && old(published)[owner] == id
      ensures published == if deleted then old(published) - {owner} else old(published)
    {
      deleted := owner in published && published[owner] == id;
      if deleted { published := published - {owner}; }
    }

    /** The body of a save; nothing is written unless every check passes. */
    method Save(owner: string, id: string, base: Option<string>, content: V) returns (refusal: Option<Refusal>)
      requires PointersValid(State())
      modifies this
      ensures refusal.None? ==> Ok(State()) == SaveDraft(old(State()), owner, id, base, content)
      ensures refusal.Some? ==> State() == old(State()) && SaveDraft(old(State()), owner, id, base, content) == Err(refusal.value)
    {
      if base.None? && owner in drafts { return Some(DraftExists); }
      if base.Some? {
        if owner !in drafts || drafts[owner] != base.value { return Some(DraftConflict); }
        if revisions[drafts[owner]].status == PendingReview { return Some(InvalidTransition); }
      }
      if id in revisions { return Some(DuplicateKey); }
      var number := 1;
      if owner in drafts { number := revisions[drafts[owner]].number + 1; }
      revisions := revisions[id := Revision(owner, number, content, Draft)];
      drafts := drafts[owner := id];
      return None;
    }

    /** The workflow transaction, step by step; a refusal midway rolls everything back. */
    method RunWorkflow(owner: string, id: string, kind: EventKind) returns (refusal: Option<Refusal>)
      modifies this
      ensures refusal.None? ==> Ok(State()) == Workflow(old(State()), owner, id, kind)
      ensures refusal.Some? ==> State() == old(State()) && Workflow(old(State()), owner, id, kind) == Err(refusal.value)
    {
      if id == "" { return Some(Required); }
      if owner !in drafts { return Some(NotFound); }
      var expected := drafts[owner];
      if kind.TakenDown? {
        expected := if owner in published then published[owner] else "";
      }
      if expected != id { return Some(RevisionConflict); }
      if id !in revisions || revisions[id].owner != owner { return Some(NotFound); }
      if revisions[id].status != FromStatus(kind) { return Some(InvalidTransition); }
      var before := revisions;
      var changed := TransitionRevision(id, FromStatus(kind), ToStatus(kind));
      assert changed;
      if kind.Approved? {
        if owner in published && published[owner] != id {
          changed := TransitionRevision(published[owner], Published, Unpublished);
          if !changed {
            revisions := before;
            return Some(PointerConflict);
          }
        }
        published := published[owner := id];
      }
      if kind.TakenDown? {
        // The pointer was compared above and is still locked, so the deletion finds it.
        var deleted := DeletePublishedPointer(owner, id);
        if !deleted { assert false; }
      }
      events := events + [Event(owner, id, kind)];
      return None;
    }
  }
}
