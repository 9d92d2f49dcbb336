/** The answers of the configuration service: exactly when each request is refused, and all a committed one changes. */
module ConfigurationAnswers {
  import opened Wrappers
  import opened ConfigurationValue
  import opened RevisionWorkflow
  import opened ConfigurationService
  import opened ConfigurationRuns
  import opened ConfigurationMeaning
  import WorkflowLaws

  function ActiveIn(db: Db, ns: string): set<string> {
    set i | i in db.items && db.items[i].namespaceId == ns && !db.items[i].archived
  }

  /** Only this namespace is new or different. */
  ghost predicate NamespaceSet(db: Db, next: Db, ns: string, n: Namespace) {
    && next.items == db.items && next.tables == db.tables
    && ns in next.namespaces && next.namespaces[ns] == n
    && (forall m :: m != ns ==> (m in next.namespaces <==> m in db.namespaces))
    && (forall m :: m in db.namespaces && m != ns ==> next.namespaces[m] == db.namespaces[m])
  }

  /** Only this item is new or different. */
  ghost predicate ItemSet(db: Db, next: Db, item: string, x: Item) {
    && next.namespaces == db.namespaces && next.tables == db.tables
    && item in next.items && next.items[item] == x
    && (forall i :: i != item ==> (i in next.items <==> i in db.items))
    && (forall i :: i in db.items && i != item ==> next.items[i] == db.items[i])
  }

  /** A namespace is created active under a key no namespace has. */
  lemma {:induction false} NamespaceAnswer(db: Db, ns: string, key: string, permitted: bool)
    ensures var answer := CreateNamespace(db, ns, key, permitted);
      if !permitted then answer == Err(External)
      else if ns in db.namespaces || exists n :: n in db.namespaces && db.namespaces[n].key == key then answer == Err(DuplicateKey)
      else answer.Ok? && NamespaceSet(db, answer.value, ns, Namespace(key, false))
  {
  }

  /** In every reachable state a namespace is archived exactly when it exists, is active and has no active item. */
  lemma {:induction false} ArchiveNamespaceAnswer(l: Library, states: seq<Db>, requests: seq<Request>, n: nat,
      ns: string, permitted: bool)
    requires IsRun(l, states, requests) && n < |states|
    ensures var (db, answer) := (states[n], ArchiveNamespace(states[n], ns, permitted));
      if !permitted then answer == Err(External)
      else if ns !in db.namespaces then answer == Err(NotFound)
      else if db.namespaces[ns].archived then answer == Err(Archived)
      else if exists i :: i in db.items && db.items[i].namespaceId == ns && !db.items[i].archived then answer == Err(NotEmpty)
      else answer.Ok? && NamespaceSet(db, answer.value, ns, db.namespaces[ns].(archived := true))
  {
    NamespacePublishedUnreachable(l, states, requests, n, ns, permitted);
    var db := states[n];
    if exists i :: i in db.items && db.items[i].namespaceId == ns && !db.items[i].archived {
      var i :| i in db.items && db.items[i].namespaceId == ns && !db.items[i].archived;
      assert i in ActiveItems(db, ns);
    }
  }

  /** An item is created with the requested key, type and constraints exactly when the constraints are valid, the
      namespace is active with fewer than 100 active items, and the key is new in it. */
  lemma {:induction false} CreateItemAnswer(l: Library, db: Db, ns: string, id: string, key: string, kind: ValueType,
      c: Constraints, permitted: bool)
    ensures var answer := CreateItem(l, db, ns, id, key, kind, c, permitted);
      if !ConstraintsValid(l, kind, c) then answer == Err(Invalid)
      else if !permitted then answer == Err(External)
      else if ns !in db.namespaces then answer == Err(NotFound)
      else if db.namespaces[ns].archived then answer == Err(Archived)
      else if |ActiveIn(db, ns)| >= 100 then answer == Err(Limit)
      else if id in db.items || exists i :: i in db.items && db.items[i].namespaceId == ns && db.items[i].key == key
        then answer == Err(DuplicateKey)
      else answer.Ok? && ItemSet(db, answer.value, id, Item(ns, key, kind, c, false))
  {
    assert ActiveIn(db, ns) == ActiveItems(db, ns);
  }

  /** An item is archived exactly when it is in the namespace, active and not published. */
  lemma {:induction false} ArchiveItemAnswer(db: Db, ns: string, item: string, permitted: bool)
    ensures var answer := ArchiveItem(db, ns, item, permitted);
      if !permitted then answer == Err(External)
      else if ns !in db.namespaces || item !in db.items || db.items[item].namespaceId != ns then answer == Err(NotFound)
      else if db.items[item].archived then answer == Err(Archived)
      else if item in db.tables.published then answer == Err(PublishedForbidden)
      else answer.Ok? && ItemSet(db, answer.value, item, db.items[item].(archived := true))
  {
  }

  /** A draft is saved with the validated value and the constraints of the item, exactly when item and namespace are
      active, the value is accepted, the revision tables take the save, and the looked-up targets are available. */
  lemma {:induction false} SaveItemAnswer(l: Library, db: Db, ns: string, item: string, revision: string,
      base: Option<string>, raw: Raw, permitted: bool, available: bool)
    requires PointersValid(db.tables)
    ensures var answer := SaveItemDraft(l, db, ns, item, revision, base, raw, permitted, available);
      if base == Some("") then answer == Err(Required)
      else if !permitted then answer == Err(External)
      else if ns !in db.namespaces || item !in db.items || db.items[item].namespaceId != ns then answer == Err(NotFound)
      else if db.namespaces[ns].archived || db.items[item].archived then answer == Err(Archived)
      else
        var (kind, c) := (db.items[item].kind, db.items[item].constraints);
        var value := ValidateValue(l, raw, kind, c);
        if value.Err? then answer == Err(Invalid)
        else
          var saved := SaveDraft(db.tables, item, revision, base, Payload(value.value, c));
          if saved.Err? then answer == Err(saved.error)
          else if !available then answer == Err(External)
          else answer.Ok? && answer.value == db.(tables := saved.value)
  {
  }

  /** A workflow request moves the revision tables, exactly when item and namespace are active, the tables take the
      step, and, for an approval, the looked-up targets are available. */
  lemma {:induction false} FlowItemAnswer(db: Db, ns: string, item: string, revision: string, kind: EventKind,
      permitted: bool, available: bool)
    ensures var answer := ItemWorkflow(db, ns, item, revision, kind, permitted, available);
      if revision == "" then answer == Err(Required)
      else if !permitted then answer == Err(External)
      else if ns !in db.namespaces || item !in db.items || db.items[item].namespaceId != ns then answer == Err(NotFound)
      else if db.namespaces[ns].archived || db.items[item].archived then answer == Err(Archived)
      else
        var moved := Workflow(db.tables, item, revision, kind);
        if moved.Err? then answer == Err(moved.error)
        else if kind.Approved? && !available then answer == Err(External)
        else answer.Ok? && answer.value == db.(tables := moved.value)
  {
  }

  // ---- every request in every reachable state ----

  predicate IsActiveItem(db: Db, ns: string, item: string) {
    && ns in db.namespaces && item in db.items && db.items[item].namespaceId == ns
    && !db.namespaces[ns].archived && !db.items[item].archived
  }

  /** The constraints a patch leaves the item with. */
  function PatchedConstraints(db: Db, item: string, patch: Option<Constraints>): Constraints
    requires item in db.items
  {
    if patch.Some? then patch.value else db.items[item].constraints
  }

  /** When a request commits. */
  ghost predicate MayCommit(l: Library, db: Db, q: Request)
    requires PointersValid(db.tables)
  {
    match q
    case NewNamespace(ns, key, permitted) =>
      permitted && ns !in db.namespaces && forall n :: n in db.namespaces ==> db.namespaces[n].key != key
    case CloseNamespace(ns, permitted) =>
      permitted && ns in db.namespaces && !db.namespaces[ns].archived
      && forall i :: i in db.items && db.items[i].namespaceId == ns ==> db.items[i].archived
    case NewItem(ns, item, key, kind, constraints, permitted) =>
      && permitted && MayHave(l, kind, constraints) && ns in db.namespaces && !db.namespaces[ns].archived
      && |ActiveIn(db, ns)| < 100 && item !in db.items
      && forall i :: i in db.items && db.items[i].namespaceId == ns ==> db.items[i].key != key
    case Patch(ns, item, patch, permitted, available) =>
      && permitted && IsActiveItem(db, ns, item)
      && var c := PatchedConstraints(db, item, patch);
         && MayHave(l, db.items[item].kind, c)
         && (item in db.tables.drafts ==> c.targetModelId == db.items[item].constraints.targetModelId)
         && (c != db.items[item].constraints ==> ValuesStayValid(l, db, item, c) && available)
    case CloseItem(ns, item, permitted) =>
      && permitted && ns in db.namespaces && item in db.items && db.items[item].namespaceId == ns
      && !db.items[item].archived && item !in db.tables.published
    case Save(ns, item, revision, base, raw, permitted, available) =>
      && permitted && available && base != Some("") && IsActiveItem(db, ns, item) && revision !in db.tables.revisions
      && ValidateValue(l, raw, db.items[item].kind, db.items[item].constraints).Ok?
      && (match base
          case None => item !in db.tables.drafts
          case Some(current) => item in db.tables.drafts && db.tables.drafts[item] == current
                                && !db.tables.revisions[current].status.PendingReview?)
    case Flow(ns, item, revision, event, permitted, available) =>
      && permitted && revision != "" && IsActiveItem(db, ns, item) && item in db.tables.drafts && (event.Approved? ==> available)
      && (match event
          case Submitted => db.tables.drafts[item] == revision && db.tables.revisions[revision].status.Draft?
          case Approved => db.tables.drafts[item] == revision && db.tables.revisions[revision].status.PendingReview?
          case Refused => db.tables.drafts[item] == revision && db.tables.revisions[revision].status.PendingReview?
          case TakenDown => item in db.tables.published && db.tables.published[item] == revision)
  }

  /** What a committed request has changed. */
  ghost predicate Done(l: Library, db: Db, q: Request, next: Db)
    requires PointersValid(db.tables) && MayCommit(l, db, q)
  {
    match q
    case NewNamespace(ns, key, permitted) => NamespaceSet(db, next, ns, Namespace(key, false))
    case CloseNamespace(ns, permitted) => NamespaceSet(db, next, ns, Namespace(db.namespaces[ns].key, true))
    case NewItem(ns, item, key, kind, constraints, permitted) => ItemSet(db, next, item, Item(ns, key, kind, constraints, false))
    case Patch(ns, item, patch, permitted, available) => HasConstraints(db, next, item, PatchedConstraints(db, item, patch))
    case CloseItem(ns, item, permitted) => ItemSet(db, next, item, db.items[item].(archived := true))
    case Save(ns, item, revision, base, raw, permitted, available) =>
      var c := db.items[item].constraints;
      && next.namespaces == db.namespaces && next.items == db.items
      && next.tables.published == db.tables.published && next.tables.events == db.tables.events
      && next.tables.drafts == db.tables.drafts[item := revision]
      && next.tables.revisions == db.tables.revisions[revision :=
           Revision(item, if base.Some? then db.tables.revisions[base.value].number + 1 else 1,
                    Payload(ValidateValue(l, raw, db.items[item].kind, c).value, c), Draft)]
    case Flow(ns, item, revision, event, permitted, available) =>
      && next.namespaces == db.namespaces && next.items == db.items && next.tables.drafts == db.tables.drafts
      && next.tables.events == db.tables.events + [Event(item, revision, event)]
      && next.tables.published == (match event
           case Approved => db.tables.published[item := revision]
           case TakenDown => db.tables.published - {item}
           case _ => db.tables.published)
      && revision in next.tables.revisions
      && next.tables.revisions[revision].status == (match event
           case Submitted => PendingReview case Approved => Published case Refused => Rejected case TakenDown => Unpublished)
  }

  lemma {:induction false} SaveRequestAnswer(l: Library, db: Db, q: Request)
    requires Consistent(db.tables) && q.Save?
    ensures Answer(l, db, q).Ok? <==> MayCommit(l, db, q)
    ensures MayCommit(l, db, q) ==> Done(l, db, q, Answer(l, db, q).value)
  {
    SaveItemAnswer(l, db, q.ns, q.item, q.revision, q.base, q.raw, q.permitted, q.available);
    if q.item in db.items {
      var c := db.items[q.item].constraints;
      var value := ValidateValue(l, q.raw, db.items[q.item].kind, c);
      if value.Ok? { WorkflowLaws.SaveAnswer(db.tables, q.item, q.revision, q.base, Payload(value.value, c)); }
    }
  }

  lemma {:induction false} FlowRequestAnswer(l: Library, db: Db, q: Request)
    requires Consistent(db.tables) && q.Flow?
    ensures Answer(l, db, q).Ok? <==> MayCommit(l, db, q)
    ensures MayCommit(l, db, q) ==> Done(l, db, q, Answer(l, db, q).value)
  {
    FlowItemAnswer(db, q.ns, q.item, q.revision, q.event, q.permitted, q.available);
    WorkflowLaws.WorkflowAnswer(db.tables, q.item, q.revision, q.event);
    if MayCommit(l, db, q) { FlowDone(l, db, q); }
  }

  lemma {:induction false} FlowDone(l: Library, db: Db, q: Request)
    requires Consistent(db.tables) && q.Flow? && MayCommit(l, db, q) && Answer(l, db, q).Ok?
    requires Workflow(db.tables, q.item, q.revision, q.event).Ok?
    requires Answer(l, db, q).value == db.(tables := Workflow(db.tables, q.item, q.revision, q.event).value)
    ensures Done(l, db, q, Answer(l, db, q).value)
  {
    WorkflowEffect(db.tables, q.item, q.revision, q.event);
    WorkflowLaws.Transitions(db.tables, q.item, q.revision, q.event);
  }

  lemma {:induction false} ItemsAnswer(l: Library, db: Db, q: Request)
    requires PointersValid(db.tables) && DefinitionsValid(l, db) && !q.Save? && !q.Flow? && !q.CloseNamespace?
    ensures Answer(l, db, q).Ok? <==> MayCommit(l, db, q)
    ensures MayCommit(l, db, q) ==> Done(l, db, q, Answer(l, db, q).value)
  {
    match q
    case NewNamespace(ns, key, permitted) => NamespaceAnswer(db, ns, key, permitted);
    case NewItem(ns, item, key, kind, constraints, permitted) =>
      ConstraintsIff(l, kind, constraints);
      CreateItemAnswer(l, db, ns, item, key, kind, constraints, permitted);
    case Patch(ns, item, patch, permitted, available) =>
      if item in db.items { ConstraintsIff(l, db.items[item].kind, PatchedConstraints(db, item, patch)); }
      UpdateItemAnswer(l, db, ns, item, patch, permitted, available);
    case CloseItem(ns, item, permitted) => ArchiveItemAnswer(db, ns, item, permitted);
  }

  /** In every reachable state every request commits exactly under its condition, and then changes exactly this. */
  lemma {:induction false} EveryRequestAnswered(l: Library, states: seq<Db>, requests: seq<Request>, n: nat, q: Request)
    requires IsRun(l, states, requests) && n < |states|
    ensures PointersValid(states[n].tables)
    ensures Answer(l, states[n], q).Ok? <==> MayCommit(l, states[n], q)
    ensures MayCommit(l, states[n], q) ==> Done(l, states[n], q, Answer(l, states[n], q).value)
  {
    RunsStayValid(l, states, requests, n);
    if q.CloseNamespace? {
      ArchiveNamespaceAnswer(l, states, requests, n, q.ns, q.permitted);
    } else if q.Save? {
      SaveRequestAnswer(l, states[n], q);
    } else if q.Flow? {
      FlowRequestAnswer(l, states[n], q);
    } else {
      ItemsAnswer(l, states[n], q);
    }
  }
}
