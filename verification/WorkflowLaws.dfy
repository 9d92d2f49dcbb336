/** The workflow by its statuses: what each request needs and leaves, when it is refused, and what no run of
    either service ever does. */
module WorkflowLaws {
  import opened Wrappers
  import opened RevisionWorkflow
  import ContentService
  import ContentRuns
  import ConfigurationValue
  import ConfigurationService
  import ConfigurationRuns
  import ConfigurationHistory

  /** The revision goes from one status to another, a superseded one from published to unpublished, the rest stay. */
  ghost predicate Moves<V>(t: Tables<V>, u: Tables<V>, id: string, from: Status, until: Status,
      superseded: Option<string>) {
    && id in t.revisions && t.revisions[id].status == from
    && u.revisions.Keys == t.revisions.Keys && u.revisions[id].status == until
    && (superseded.Some? && superseded.value != id ==>
          superseded.value in t.revisions && t.revisions[superseded.value].status.Published?
          && u.revisions[superseded.value].status.Unpublished?)
    && forall r :: r in t.revisions && r != id && superseded != Some(r) ==> u.revisions[r] == t.revisions[r]
  }

  /** Submitting takes a draft under review; approving publishes it and takes down what was published; refusing
      rejects it; taking down unpublishes it. */
  lemma {:induction false} Transitions<V>(t: Tables<V>, owner: string, id: string, kind: EventKind)
    requires Consistent(t) && Workflow(t, owner, id, kind).Ok?
    ensures var u := Workflow(t, owner, id, kind).value;
      var live := if owner in t.published then Some(t.published[owner]) else None;
      match kind
      case Submitted => Moves(t, u, id, Draft, PendingReview, None)
      case Approved => Moves(t, u, id, PendingReview, Published, live)
      case Refused => Moves(t, u, id, PendingReview, Rejected, None)
      case TakenDown => Moves(t, u, id, Published, Unpublished, None)
  {
    WorkflowEffect(t, owner, id, kind);
  }

  /** Every refusal of the workflow: no id, an unknown owner, a revision that is not the current draft (or, to be
      taken down, not the published one), and a revision in another status than the request needs. */
  lemma {:induction false} WorkflowAnswer<V>(t: Tables<V>, owner: string, id: string, kind: EventKind)
    requires Consistent(t)
    ensures var answer := Workflow(t, owner, id, kind);
      if id == "" then answer == Err(Required)
      else if owner !in t.drafts then answer == Err(NotFound)
      else if kind.TakenDown? then
        if owner in t.published && t.published[owner] == id then answer.Ok? else answer == Err(RevisionConflict)
      else if t.drafts[owner] != id then answer == Err(RevisionConflict)
      else
        var needed := if kind.Submitted? then Draft else PendingReview;
        if t.revisions[id].status == needed then answer.Ok? else answer == Err(InvalidTransition)
  {
    SupersessionNeverConflicts(t, owner, id, kind);
  }

  /** A save commits exactly when it is the first of its owner, or based on the current draft and that is not under
      review, and its id is new. It adds a draft numbered one above the current one and leaves the rest alone. */
  lemma {:induction false} SaveAnswer<V>(t: Tables<V>, owner: string, id: string, base: Option<string>, content: V)
    requires Consistent(t)
    ensures var answer := SaveDraft(t, owner, id, base, content);
      match base
      case None =>
        if owner in t.drafts then answer == Err(DraftExists)
        else if id in t.revisions then answer == Err(DuplicateKey)
        else answer == Ok(t.(revisions := t.revisions[id := Revision(owner, 1, content, Draft)], drafts := t.drafts[owner := id]))
      case Some(current) =>
        if owner !in t.drafts || t.drafts[owner] != current then answer == Err(DraftConflict)
        else if t.revisions[current].status.PendingReview? then answer == Err(InvalidTransition)
        else if id in t.revisions then answer == Err(DuplicateKey)
        else answer == Ok(t.(revisions := t.revisions[id := Revision(owner, t.revisions[current].number + 1, content, Draft)],
                             drafts := t.drafts[owner := id]))
  {
  }

  // ---- laws over runs ----

  /** A revision that was submitted, in a later state or the next one. */
  lemma {:induction false} SubmittedIsSpent<V>(t: Tables<V>, owner: string, id: string, next: Tables<V>,
      later: Tables<V>, other: string)
    requires Consistent(t) && Workflow(t, owner, id, Submitted) == Ok(next) && StatusesForward(next, later)
    ensures Workflow(later, other, id, Submitted).Err?
  {
    Transitions(t, owner, id, Submitted);
    LeftDraft(next, later, id, other);
  }

  lemma LeftDraft<V>(next: Tables<V>, later: Tables<V>, id: string, other: string)
    requires StatusesForward(next, later) && id in next.revisions && next.revisions[id].status.PendingReview?
    ensures Workflow(later, other, id, Submitted).Err?
  {
    assert Forward(PendingReview, later.revisions[id].status);
  }

  lemma {:induction false} RefusedIsFinal<V>(t: Tables<V>, owner: string, id: string, next: Tables<V>, later: Tables<V>)
    requires Consistent(t) && Workflow(t, owner, id, Refused) == Ok(next) && StatusesForward(next, later)
    ensures id in later.revisions && later.revisions[id].status.Rejected?
    ensures forall other, kind :: Workflow(later, other, id, kind).Err?
  {
    Transitions(t, owner, id, Refused);
    StaysRejected(next, later, id);
  }

  lemma StaysRejected<V>(next: Tables<V>, later: Tables<V>, id: string)
    requires StatusesForward(next, later) && id in next.revisions && next.revisions[id].status.Rejected?
    ensures id in later.revisions && later.revisions[id].status.Rejected?
    ensures forall other, kind :: Workflow(later, other, id, kind).Err?
  {
    assert Forward(Rejected, later.revisions[id].status);
  }

  // ---- content ----

  ghost predicate ContentFlow(m: ContentService.Model, db: ContentService.Db, q: ContentRuns.Request, id: string,
      kind: EventKind) {
    && q.Flow? && q.revision == id && q.kind == kind && PointersValid(db.tables) && ContentRuns.Answer(m, db, q).Ok?
  }

  lemma {:induction false} ContentMoved(m: ContentService.Model, db: ContentService.Db, q: ContentRuns.Request,
      id: string, kind: EventKind)
    requires ContentFlow(m, db, q, id, kind)
    ensures Workflow(db.tables, q.entry, id, kind) == Ok(ContentRuns.After(m, db, q).tables)
  {
    ContentService.WorkflowShape(m.fields, db, q.entry, id, kind, ContentRuns.Answer(m, db, q).value);
  }

  /** No revision of an entry is submitted twice in a run. */
  lemma {:induction false} ContentSubmittedOnce(m: ContentService.Model, states: seq<ContentService.Db>,
      requests: seq<ContentRuns.Request>, id: string, i: nat, j: nat)
    requires ContentRuns.IsRun(m, states, requests) && i < j < |requests|
    ensures !(ContentFlow(m, states[i], requests[i], id, Submitted) && ContentFlow(m, states[j], requests[j], id, Submitted))
  {
    if ContentFlow(m, states[i], requests[i], id, Submitted) {
      ContentForwardAfter(m, states, requests, i, j);
      ContentSubmitted(m, states[i], requests[i], id, states[j], requests[j]);
    }
  }

  lemma {:induction false} ContentSubmitted(m: ContentService.Model, db: ContentService.Db, q: ContentRuns.Request,
      id: string, later: ContentService.Db, r: ContentRuns.Request)
    requires Consistent(db.tables) && ContentRuns.Generated(q) && ContentFlow(m, db, q, id, Submitted)
    requires StatusesForward(ContentRuns.After(m, db, q).tables, later.tables)
    ensures !ContentFlow(m, later, r, id, Submitted)
  {
    ContentMoved(m, db, q, id, Submitted);
    if ContentFlow(m, later, r, id, Submitted) {
      ContentMoved(m, later, r, id, Submitted);
      SubmittedIsSpent(db.tables, q.entry, id, ContentRuns.After(m, db, q).tables, later.tables, r.entry);
    }
  }

  /** A refused revision is rejected in every later state, and no workflow request for it commits any more: its entry
      needs a new save. */
  lemma {:induction false} ContentRefusedIsFinal(m: ContentService.Model, states: seq<ContentService.Db>,
      requests: seq<ContentRuns.Request>, id: string, i: nat, j: nat)
    requires ContentRuns.IsRun(m, states, requests) && i < j < |states|
    requires ContentFlow(m, states[i], requests[i], id, Refused)
    ensures id in states[j].tables.revisions && states[j].tables.revisions[id].status.Rejected?
    ensures forall owner, kind :: Workflow(states[j].tables, owner, id, kind).Err?
  {
    ContentForwardAfter(m, states, requests, i, j);
    ContentRefused(m, states[i], requests[i], id, states[j].tables);
  }

  lemma {:induction false} ContentForwardAfter(m: ContentService.Model, states: seq<ContentService.Db>,
      requests: seq<ContentRuns.Request>, i: nat, j: nat)
    requires ContentRuns.IsRun(m, states, requests) && i < j < |states|
    ensures Consistent(states[i].tables) && ContentRuns.Generated(requests[i])
    ensures StatusesForward(ContentRuns.After(m, states[i], requests[i]).tables, states[j].tables)
  {
    ContentRuns.GrewSince(m, states, requests, i, j);
    assert ContentRuns.Grew(ContentRuns.After(m, states[i], requests[i]), states[j]);
  }

  lemma {:induction false} ContentRefused(m: ContentService.Model, db: ContentService.Db, q: ContentRuns.Request,
      id: string, later: Tables<ContentService.Content>)
    requires Consistent(db.tables) && ContentRuns.Generated(q) && ContentFlow(m, db, q, id, Refused)
    requires StatusesForward(ContentRuns.After(m, db, q).tables, later)
    ensures id in later.revisions && later.revisions[id].status.Rejected?
    ensures forall owner, kind :: Workflow(later, owner, id, kind).Err?
  {
    ContentMoved(m, db, q, id, Refused);
    RefusedIsFinal(db.tables, q.entry, id, ContentRuns.After(m, db, q).tables, later);
  }

  // ---- configuration ----

  ghost predicate ItemFlow(l: ConfigurationValue.Library, db: ConfigurationService.Db, q: ConfigurationRuns.Request,
      id: string, kind: EventKind) {
    && q.Flow? && q.revision == id && q.event == kind && PointersValid(db.tables) && ConfigurationRuns.Answer(l, db, q).Ok?
  }

  lemma {:induction false} ItemMoved(l: ConfigurationValue.Library, db: ConfigurationService.Db,
      q: ConfigurationRuns.Request, id: string, kind: EventKind)
    requires ItemFlow(l, db, q, id, kind)
    ensures Workflow(db.tables, q.item, id, kind) == Ok(ConfigurationRuns.After(l, db, q).tables)
  {
    ConfigurationService.ItemWorkflowShape(db, q.ns, q.item, id, kind, q.available, ConfigurationRuns.Answer(l, db, q).value);
  }

  /** No revision of an item is submitted twice in a run. */
  lemma {:induction false} ItemSubmittedOnce(l: ConfigurationValue.Library, states: seq<ConfigurationService.Db>,
      requests: seq<ConfigurationRuns.Request>, id: string, i: nat, j: nat)
    requires ConfigurationRuns.IsRun(l, states, requests) && i < j < |requests|
    ensures !(ItemFlow(l, states[i], requests[i], id, Submitted) && ItemFlow(l, states[j], requests[j], id, Submitted))
  {
    if ItemFlow(l, states[i], requests[i], id, Submitted) {
      ItemForwardAfter(l, states, requests, i, j);
      ItemSubmitted(l, states[i], requests[i], id, states[j], requests[j]);
    }
  }

  lemma {:induction false} ItemSubmitted(l: ConfigurationValue.Library, db: ConfigurationService.Db,
      q: ConfigurationRuns.Request, id: string, later: ConfigurationService.Db, r: ConfigurationRuns.Request)
    requires Consistent(db.tables) && ItemFlow(l, db, q, id, Submitted)
    requires StatusesForward(ConfigurationRuns.After(l, db, q).tables, later.tables)
    ensures !ItemFlow(l, later, r, id, Submitted)
  {
    ItemMoved(l, db, q, id, Submitted);
    if ItemFlow(l, later, r, id, Submitted) {
      ItemMoved(l, later, r, id, Submitted);
      SubmittedIsSpent(db.tables, q.item, id, ConfigurationRuns.After(l, db, q).tables, later.tables, r.item);
    }
  }

  /** A refused revision of an item is rejected in every later state, and no workflow request for it commits any more. */
  lemma {:induction false} ItemRefusedIsFinal(l: ConfigurationValue.Library, states: seq<ConfigurationService.Db>,
      requests: seq<ConfigurationRuns.Request>, id: string, i: nat, j: nat)
    requires ConfigurationRuns.IsRun(l, states, requests) && i < j < |states|
    requires ItemFlow(l, states[i], requests[i], id, Refused)
    ensures id in states[j].tables.revisions && states[j].tables.revisions[id].status.Rejected?
    ensures forall owner, kind :: Workflow(states[j].tables, owner, id, kind).Err?
  {
    ItemForwardAfter(l, states, requests, i, j);
    ItemRefused(l, states[i], requests[i], id, states[j].tables);
  }

  lemma {:induction false} ItemForwardAfter(l: ConfigurationValue.Library, states: seq<ConfigurationService.Db>,
      requests: seq<ConfigurationRuns.Request>, i: nat, j: nat)
    requires ConfigurationRuns.IsRun(l, states, requests) && i < j < |states|
    ensures Consistent(states[i].tables)
    ensures StatusesForward(ConfigurationRuns.After(l, states[i], requests[i]).tables, states[j].tables)
  {
    ConfigurationHistory.GrewSince(l, states, requests, i, j);
    assert ConfigurationHistory.Grew(ConfigurationRuns.After(l, states[i], requests[i]), states[j]);
  }

  lemma {:induction false} ItemRefused(l: ConfigurationValue.Library, db: ConfigurationService.Db,
      q: ConfigurationRuns.Request, id: string, later: Tables<ConfigurationService.Payload>)
    requires Consistent(db.tables) && ItemFlow(l, db, q, id, Refused)
    requires StatusesForward(ConfigurationRuns.After(l, db, q).tables, later)
    ensures id in later.revisions && later.revisions[id].status.Rejected?
    ensures forall owner, kind :: Workflow(later, owner, id, kind).Err?
  {
    ItemMoved(l, db, q, id, Refused);
    RefusedIsFinal(db.tables, q.item, id, ConfigurationRuns.After(l, db, q).tables, later);
  }
}
