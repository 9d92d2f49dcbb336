/** Runs of the configuration service, and the class that executes its transactions. */
module ConfigurationRuns {
  import opened Wrappers
  import opened ConfigurationValue
  import opened RevisionWorkflow
  import opened ConfigurationService

  datatype Request =
    | NewNamespace(ns: string, key: string, permitted: bool)
    | CloseNamespace(ns: string, permitted: bool)
    | NewItem(ns: string, item: string, key: string, kind: ValueType, constraints: Constraints, permitted: bool)
    | Patch(ns: string, item: string, patch: Option<Constraints>, permitted: bool, available: bool)
    | CloseItem(ns: string, item: string, permitted: bool)
    | Save(ns: string, item: string, revision: string, base: Option<string>, raw: Raw, permitted: bool, available: bool)
    | Flow(ns: string, item: string, revision: string, event: EventKind, permitted: bool, available: bool)

  /** Generated revision ids are never empty. */
  predicate Generated(q: Request) { q.Save? ==> q.revision != "" }

  function Answer(l: Library, db: Db, q: Request): Result<Db, Refusal>
    requires PointersValid(db.tables)
  {
    match q
    case NewNamespace(ns, key, permitted) => CreateNamespace(db, ns, key, permitted)
    case CloseNamespace(ns, permitted) => ArchiveNamespace(db, ns, permitted)
    case NewItem(ns, item, key, kind, constraints, permitted) => CreateItem(l, db, ns, item, key, kind, constraints, permitted)
    case Patch(ns, item, patch, permitted, available) => UpdateItem(l, db, ns, item, patch, permitted, available)
    case CloseItem(ns, item, permitted) => ArchiveItem(db, ns, item, permitted)
    case Save(ns, item, revision, base, raw, permitted, available) =>
      SaveItemDraft(l, db, ns, item, revision, base, raw, permitted, available)
    case Flow(ns, item, revision, event, permitted, available) => ItemWorkflow(db, ns, item, revision, event, permitted, available)
  }

  /** A refused transaction is rolled back. */
  function After(l: Library, db: Db, q: Request): Db
    requires PointersValid(db.tables)
  {
    if Answer(l, db, q).Ok? then Answer(l, db, q).value else db
  }

  ghost predicate IsStep(l: Library, db: Db, q: Request, next: Db) {
    Generated(q) && (PointersValid(db.tables) ==> next == After(l, db, q))
  }

  ghost predicate StepAt(l: Library, states: seq<Db>, requests: seq<Request>, i: nat)
    requires i < |requests| < |states|
  {
    IsStep(l, states[i], requests[i], states[i + 1])
  }

  ghost predicate IsRun(l: Library, states: seq<Db>, requests: seq<Request>) {
    && |states| == |requests| + 1 && states[0] == EMPTY
    && forall i :: 0 <= i < |requests| ==> StepAt(l, states, requests, i)
  }

  lemma {:induction false} StepConsistent(l: Library, db: Db, q: Request)
    requires Consistent(db.tables) && Generated(q)
    ensures Consistent(After(l, db, q).tables)
  {
    if Answer(l, db, q).Ok? {
      match q
      case Save(ns, item, revision, base, raw, permitted, available) =>
        SaveShape(l, db, ns, item, revision, base, raw, available, Answer(l, db, q).value);
        var c := db.items[item].constraints;
        SaveKeepsConsistent(db.tables, item, revision, base, Payload(ValidateValue(l, raw, db.items[item].kind, c).value, c));
      case Flow(ns, item, revision, event, permitted, available) => WorkflowKeepsConsistent(db.tables, item, revision, event);
      case _ =>
    }
  }

  lemma {:induction false} StepKeeps(l: Library, db: Db, q: Request)
    requires PointersValid(db.tables) && Structured(db) && Typed(l, db) && Generated(q)
    ensures Structured(After(l, db, q)) && Typed(l, After(l, db, q))
  {
    if Answer(l, db, q).Ok? {
      var next := Answer(l, db, q).value;
      match q
      case NewNamespace(ns, key, permitted) => NamespaceKeeps(l, db, ns, key, permitted, next);
      case CloseNamespace(ns, permitted) => ArchiveNamespaceKeeps(l, db, ns, permitted, next);
      case NewItem(ns, item, key, kind, constraints, permitted) => CreateItemKeeps(l, db, ns, item, key, kind, constraints, next);
      case Patch(ns, item, patch, permitted, available) => UpdateItemKeeps(l, db, ns, item, patch, available, next);
      case CloseItem(ns, item, permitted) => ArchiveItemKeeps(l, db, ns, item, next);
      case Save(ns, item, revision, base, raw, permitted, available) => SaveKeeps(l, db, ns, item, revision, base, raw, available, next);
      case Flow(ns, item, revision, event, permitted, available) => WorkflowKeeps(l, db, ns, item, revision, event, available, next);
    }
  }

  lemma {:induction false} RunStepValid(l: Library, states: seq<Db>, requests: seq<Request>, n: nat)
    requires IsRun(l, states, requests) && n < |requests| && Valid(l, states[n])
    ensures Valid(l, states[n + 1])
  {
    assert StepAt(l, states, requests, n);
    StepConsistent(l, states[n], requests[n]);
    StepKeeps(l, states[n], requests[n]);
  }

  /** Every reachable state: the machine is consistent, archived items are unpublished, archived
      namespaces hold no active items, no namespace has more than 100 of them, and the current values
      satisfy the current constraints. */
  lemma {:induction false} RunsStayValid(l: Library, states: seq<Db>, requests: seq<Request>, n: nat)
    requires IsRun(l, states, requests) && n < |states|
    ensures Valid(l, states[n])
  {
    if n > 0 {
      var last := n - 1;
      RunsStayValid(l, states, requests, last);
      RunStepValid(l, states, requests, last);
    }
  }

  /** In every reachable state, reading a current value back and validating it against the item's
      current constraints returns it, unless its stored text is over the limit or it is the null that an
      empty list of a required multi-valued item was stored as. */
  lemma {:induction false} CurrentValueRevalidatesIff(l: Library, states: seq<Db>, requests: seq<Request>, n: nat,
      i: string, r: string)
    requires Sound(l) && IsRun(l, states, requests) && n < |states| && i in states[n].tables.drafts
    requires r == states[n].tables.drafts[i] || (i in states[n].tables.published && r == states[n].tables.published[i])
    ensures r in states[n].tables.revisions && i in states[n].items
    ensures var item := states[n].items[i];
      var v := states[n].tables.revisions[r].content.value;
      && (ValidateValue(l, Stored(l, v), item.kind, item.constraints) == Ok(v)
          <==> l.storedSize(v) <= MAX_VALUE_BYTES && !(v.JNull? && item.constraints.required))
      && (v.JNull? && item.constraints.required ==> IsMulti(item.kind))
  {
    RunsStayValid(l, states, requests, n);
    var db := states[n];
    assert CurrentFits(l, db, r, i);
    RevalidationIff(l, db.tables.revisions[r].content.value, db.items[i].kind, db.items[i].constraints);
  }

  /** In no reachable state is archiving a namespace refused because something in it is published. */
  lemma {:induction false} NamespacePublishedUnreachable(l: Library, states: seq<Db>, requests: seq<Request>, n: nat,
      ns: string, permitted: bool)
    requires IsRun(l, states, requests) && n < |states|
    ensures ArchiveNamespace(states[n], ns, permitted) != Err(NamespacePublished)
  {
    RunsStayValid(l, states, requests, n);
    NamespaceNeverPublished(states[n], ns, permitted);
  }

  // ---- the transactions as they run ----

  class Service {
    const library: Library
    const repository: Repository<Payload>
    var namespaces: map<string, Namespace>
    var items: map<string, Item>

    ghost function State(): Db
      reads this, repository
    {
      Db(namespaces, items, repository.State())
    }

    constructor (library: Library)
      ensures State() == EMPTY && this.library == library && fresh(repository)
    {
      this.library := library;
      repository := new Repository<Payload>();
      namespaces, items := map[], map[];
    }

    method CountActiveItems(ns: string) returns (count: nat)
      ensures count == |ActiveItems(State(), ns)|
    {
      var rows := items.Keys;
      count := 0;
      ghost var counted: set<string> := {};
      ghost var active := ActiveItems(State(), ns);
      while rows != {}
        invariant rows <= items.Keys && counted == active - rows && count == |counted|
        decreases rows
      {
        var i :| i in rows;
        rows := rows - {i};
        if items[i].namespaceId == ns && !items[i].archived {
          assert i in active && i !in counted && active - rows == counted + {i};
          counted := counted + {i};
          count := count + 1;
        } else {
          assert i !in active && active - rows == counted;
        }
      }
      assert active - {} == active;
    }

    method ArchiveNamespace(ns: string, permitted: bool) returns (refusal: Option<Refusal>)
      modifies this`namespaces
      ensures refusal.None? ==> ConfigurationService.ArchiveNamespace(old(State()), ns, permitted) == Ok(State())
      ensures refusal.Some? ==> State() == old(State())
      ensures refusal.Some? ==> ConfigurationService.ArchiveNamespace(old(State()), ns, permitted) == Err(refusal.value)
    {
      if !permitted { return Some(External); }
      if ns !in namespaces { return Some(NotFound); }
      if namespaces[ns].archived { return Some(Archived); }
      var active := CountActiveItems(ns);
      if active > 0 {
        assert ActiveItems(State(), ns) != {};
        return Some(NotEmpty);
      }
      if exists i :: i in repository.published.Keys && i in items && items[i].namespaceId == ns { return Some(NamespacePublished); }
      namespaces := namespaces[ns := namespaces[ns].(archived := true)];
      return None;
    }

    method CreateItem(ns: string, id: string, key: string, kind: ValueType, c: Constraints, permitted: bool)
      returns (refusal: Option<Refusal>)
      modifies this`items
      ensures refusal.None? ==> ConfigurationService.CreateItem(library, old(State()), ns, id, key, kind, c, permitted) == Ok(State())
      ensures refusal.Some? ==> State() == old(State())
      ensures refusal.Some? ==>
        ConfigurationService.CreateItem(library, old(State()), ns, id, key, kind, c, permitted) == Err(refusal.value)
    {
      if !ConstraintsValid(library, kind, c) { return Some(Invalid); }
      if !permitted { return Some(External); }
      if ns !in namespaces { return Some(NotFound); }
      if namespaces[ns].archived { return Some(Archived); }
      var active := CountActiveItems(ns);
      if active >= MAX_ACTIVE_ITEMS { return Some(Limit); }
      if id in items || exists i :: i in items.Keys && items[i].namespaceId == ns && items[i].key == key { return Some(DuplicateKey); }
      items := items[id := Item(ns, key, kind, c, false)];
      return None;
    }

    /** The loop over the current revisions of UpdateItem. */
    method CheckCurrentRevisions(item: string, c: Constraints) returns (compatible: bool)
      requires PointersValid(repository.State()) && item in items
      ensures compatible <==> Compatible(library, State(), item, c)
    {
      var current := [];
      if item in repository.drafts {
        current := [repository.drafts[item]];
        if item in repository.published && repository.published[item] != repository.drafts[item] {
          current := current + [repository.published[item]];
        }
      }
      assert current == CurrentRevisions(repository.State(), item);
      for i := 0 to |current|
        invariant forall j :: 0 <= j < i ==>
          ValidateValue(library, Stored(library, repository.revisions[current[j]].content.value), items[item].kind, c).Ok?
      {
        var checked, failures :=
          ValidateAndNormalize(library, Stored(library, repository.revisions[current[i]].content.value), items[item].kind, c);
        if checked.Err? { return false; }
      }
      return true;
    }

    method UpdateItem(ns: string, item: string, patch: Option<Constraints>, permitted: bool, available: bool)
      returns (refusal: Option<Refusal>)
      requires PointersValid(repository.State())
      modifies this`items
      ensures refusal.None? ==> ConfigurationService.UpdateItem(library, old(State()), ns, item, patch, permitted, available) == Ok(State())
      ensures refusal.Some? ==> State() == old(State())
      ensures refusal.Some? ==>
        ConfigurationService.UpdateItem(library, old(State()), ns, item, patch, permitted, available) == Err(refusal.value)
    {
      if !permitted { return Some(External); }
      if ns !in namespaces || item !in items || items[item].namespaceId != ns { return Some(NotFound); }
      if namespaces[ns].archived || items[item].archived { return Some(Archived); }
      var was := items[item].constraints;
      var c := if patch.Some? then patch.value else was;
      if !ConstraintsValid(library, items[item].kind, c) { return Some(Invalid); }
      if c.targetModelId.Some? && was.targetModelId.Some? && c.targetModelId != was.targetModelId && item in repository.drafts {
        return Some(RelationLocked);
      }
      if c != was {
        var compatible := CheckCurrentRevisions(item, c);
        if !compatible || !available { return Some(Incompatible); }
      }
      items := items[item := items[item].(constraints := c)];
      return None;
    }

    method ArchiveItem(ns: string, item: string, permitted: bool) returns (refusal: Option<Refusal>)
      modifies this`items
      ensures refusal.None? ==> ConfigurationService.ArchiveItem(old(State()), ns, item, permitted) == Ok(State())
      ensures refusal.Some? ==> State() == old(State())
      ensures refusal.Some? ==> ConfigurationService.ArchiveItem(old(State()), ns, item, permitted) == Err(refusal.value)
    {
      if !permitted { return Some(External); }
      if ns !in namespaces || item !in items || items[item].namespaceId != ns { return Some(NotFound); }
      if items[item].archived { return Some(Archived); }
      if item in repository.published { return Some(PublishedForbidden); }
      items := items[item := items[item].(archived := true)];
      return None;
    }

    method SaveDraft(ns: string, item: string, revision: string, base: Option<string>, raw: Raw, permitted: bool,
        available: bool)
      returns (refusal: Option<Refusal>)
      requires PointersValid(repository.State())
      modifies repository
      ensures refusal.None? ==> SaveItemDraft(library, old(State()), ns, item, revision, base, raw, permitted, available) == Ok(State())
      ensures refusal.Some? ==> State() == old(State())
      ensures refusal.Some? ==>
        SaveItemDraft(library, old(State()), ns, item, revision, base, raw, permitted, available) == Err(refusal.value)
    {
      if base == Some("") { return Some(Required); }
      if !permitted { return Some(External); }
      if ns !in namespaces || item !in items || items[item].namespaceId != ns { return Some(NotFound); }
      if namespaces[ns].archived || items[item].archived { return Some(Archived); }
      var value, failures := ValidateAndNormalize(library, raw, items[item].kind, items[item].constraints);
      if value.Err? { return Some(Invalid); }
      var revisions0, drafts0 := repository.revisions, repository.drafts;
      refusal := repository.Save(item, revision, base, Payload(value.value, items[item].constraints));
      if refusal.Some? { return; }
      if !available {
        repository.revisions, repository.drafts := revisions0, drafts0;
        return Some(External);
      }
    }

    method Workflow(ns: string, item: string, revision: string, kind: EventKind, permitted: bool, available: bool)
      returns (refusal: Option<Refusal>)
      modifies repository
      ensures refusal.None? ==> ItemWorkflow(old(State()), ns, item, revision, kind, permitted, available) == Ok(State())
      ensures refusal.Some? ==> State() == old(State())
      ensures refusal.Some? ==> ItemWorkflow(old(State()), ns, item, revision, kind, permitted, available) == Err(refusal.value)
    {
      if revision == "" { return Some(Required); }
      if !permitted { return Some(External); }
      if ns !in namespaces || item !in items || items[item].namespaceId != ns { return Some(NotFound); }
      if namespaces[ns].archived || items[item].archived { return Some(Archived); }
      var revisions0, drafts0, published0, events0 := repository.revisions, repository.drafts, repository.published, repository.events;
      refusal := repository.RunWorkflow(item, revision, kind);
      if refusal.Some? { return; }
      if kind.Approved? && !available {
        repository.revisions, repository.drafts, repository.published, repository.events := revisions0, drafts0, published0, events0;
        return Some(External);
      }
    }
  }
}
