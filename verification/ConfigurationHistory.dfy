/** Along a run of the configuration service history only grows, and no update is lost: of the saves
    that name one base at most one succeeds, and an item has at most one initial draft. */
module ConfigurationHistory {
  import opened Wrappers
  import opened ConfigurationValue
  import opened RevisionWorkflow
  import opened ConfigurationService
  import opened ConfigurationRuns

  lemma {:induction false} StepExtends(l: Library, db: Db, q: Request)
    requires Consistent(db.tables) && Generated(q)
    ensures PointersValid(After(l, db, q).tables) && Extends(db.tables, After(l, db, q).tables)
  {
    if Answer(l, db, q).Ok? {
      match q
      case Save(ns, item, revision, base, raw, permitted, available) =>
        var c := db.items[item].constraints;
        SaveShape(l, db, ns, item, revision, base, raw, available, Answer(l, db, q).value);
        SaveExtends(db.tables, item, revision, base, Payload(ValidateValue(l, raw, db.items[item].kind, c).value, c));
      case Flow(ns, item, revision, event, permitted, available) =>
        ItemWorkflowShape(db, ns, item, revision, event, available, Answer(l, db, q).value);
        WorkflowExtends(db.tables, item, revision, event);
      case _ =>
    }
  }

  ghost predicate Grew(a: Db, b: Db) {
    PointersValid(a.tables) && PointersValid(b.tables) && Extends(a.tables, b.tables)
  }

  lemma {:induction false} RunStepGrew(l: Library, states: seq<Db>, requests: seq<Request>, n: nat)
    requires IsRun(l, states, requests) && n < |requests|
    ensures Grew(states[n], states[n + 1])
  {
    RunsStayValid(l, states, requests, n);
    assert StepAt(l, states, requests, n);
    StepExtends(l, states[n], requests[n]);
  }

  /** Along a run revisions keep their owner, number and content, draft pointers only move up, and the
      event log is only appended to. */
  lemma {:induction false} RunExtends(l: Library, states: seq<Db>, requests: seq<Request>, i: nat, j: nat)
    requires IsRun(l, states, requests) && i <= j < |states|
    ensures Grew(states[i], states[j])
    decreases j - i
  {
    if i == j {
      RunsStayValid(l, states, requests, i);
      ExtendsReflexive(states[i].tables);
    } else {
      var last := j - 1;
      RunExtends(l, states, requests, i, last);
      RunStepGrew(l, states, requests, last);
      ExtendsTransitive(states[i].tables, states[last].tables, states[j].tables);
    }
  }

  /** A save of this item, naming this base or none for an initial draft, that commits. */
  ghost predicate Saved(l: Library, db: Db, q: Request, item: string, base: Option<string>) {
    q.Save? && Generated(q) && q.item == item && q.base == base && PointersValid(db.tables) && Answer(l, db, q).Ok?
  }

  /** What a committed save did to the revision tables. */
  lemma {:induction false} SavedTables(l: Library, db: Db, q: Request, item: string, base: Option<string>)
    requires Saved(l, db, q, item, base)
    ensures item in db.items
    ensures var c := db.items[item].constraints;
      var value := ValidateValue(l, q.raw, db.items[item].kind, c);
      value.Ok? && SaveDraft(db.tables, item, q.revision, base, Payload(value.value, c)) == Ok(After(l, db, q).tables)
  {
    SaveShape(l, db, q.ns, item, q.revision, base, q.raw, q.available, Answer(l, db, q).value);
  }

  /** The revision tables refuse a second save from the same base, or a second initial draft. */
  lemma {:induction false} SpentRefuses(t: Tables<Payload>, u: Tables<Payload>, later: Tables<Payload>, item: string,
      base: Option<string>,
                                        id: string, content: Payload, nextId: string, next: Payload)
    requires Consistent(t) && id != "" && SaveDraft(t, item, id, base, content) == Ok(u)
    requires PointersValid(u) && Consistent(later) && Extends(u, later)
    ensures SaveDraft(later, item, nextId, base, next).Err?
  {
    match base
    case Some(revision) => BaseIsSpent(t, item, id, revision, content, later, nextId, next);
    case None => assert item in u.drafts;
  }

  lemma {:induction false} SavedOnce(l: Library, db: Db, q: Request, later: Db, r: Request, item: string,
      base: Option<string>)
    requires Consistent(db.tables) && Saved(l, db, q, item, base)
    requires Consistent(later.tables) && Grew(After(l, db, q), later)
    ensures !Saved(l, later, r, item, base)
  {
    SavedTables(l, db, q, item, base);
    if Saved(l, later, r, item, base) {
      SavedTables(l, later, r, item, base);
      var c, d := db.items[item].constraints, later.items[item].constraints;
      SpentRefuses(db.tables, After(l, db, q).tables, later.tables, item, base,
                   q.revision, Payload(ValidateValue(l, q.raw, db.items[item].kind, c).value, c),
                   r.revision, Payload(ValidateValue(l, r.raw, later.items[item].kind, d).value, d));
    }
  }

  /** Of all the saves in a run that name the same base revision of an item, and of all its initial drafts,
      at most one succeeds, whatever happened in between. */
  lemma {:induction false} OneSavePerBase(l: Library, states: seq<Db>, requests: seq<Request>, item: string,
      base: Option<string>, i: nat, j: nat)
    requires IsRun(l, states, requests) && i < j < |requests|
    ensures !(Saved(l, states[i], requests[i], item, base) && Saved(l, states[j], requests[j], item, base))
  {
    if Saved(l, states[i], requests[i], item, base) {
      GrewSince(l, states, requests, i, j);
      SavedOnce(l, states[i], requests[i], states[j], requests[j], item, base);
    }
  }

  lemma {:induction false} GrewSince(l: Library, states: seq<Db>, requests: seq<Request>, i: nat, j: nat)
    requires IsRun(l, states, requests) && i < j < |states|
    ensures Consistent(states[i].tables) && Consistent(states[j].tables)
    ensures Grew(After(l, states[i], requests[i]), states[j])
  {
    GrewFromNext(l, states, requests, i, j);
    NextIs(l, states, requests, i);
    RunsStayValid(l, states, requests, j);
  }

  lemma {:induction false} GrewFromNext(l: Library, states: seq<Db>, requests: seq<Request>, i: nat, j: nat)
    requires IsRun(l, states, requests) && i < j < |states|
    ensures Grew(states[i + 1], states[j])
  {
    RunExtends(l, states, requests, i + 1, j);
  }

  lemma {:induction false} NextIs(l: Library, states: seq<Db>, requests: seq<Request>, i: nat)
    requires IsRun(l, states, requests) && i < |requests|
    ensures Consistent(states[i].tables) && states[i + 1] == After(l, states[i], requests[i])
  {
    RunsStayValid(l, states, requests, i);
    assert StepAt(l, states, requests, i);
  }
}
