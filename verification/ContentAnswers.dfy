/** The answers of archiving, of the workflow and of imports, in every reachable state of the content service. */
module ContentAnswers {
  import opened Wrappers
  import opened FieldTree
  import opened ContentValidation
  import opened RevisionWorkflow
  import opened ContentService
  import opened ContentRuns
  import opened UniqueConflicts
  import WorkflowLaws

  /** Only this entry changed: it is archived and has no row in the table of claims any more. */
  ghost predicate OnlyArchived(db: Db, next: Db, entry: string) {
    && next.tables == db.tables && next.entries == db.entries[entry := true]
    && (forall k :: k in next.claims <==> k in db.claims && db.claims[k] != entry)
    && (forall k :: k in next.claims ==> next.claims[k] == db.claims[k])
  }

  /** An entry is archived exactly when it exists, is active and has nothing published. */
  lemma {:induction false} ArchiveAnswer(db: Db, entry: string, admitted: bool)
    ensures var answer := ArchiveEntry(db, entry, admitted);
      if !admitted then answer == Err(External)
      else if entry !in db.entries then answer == Err(NotFound)
      else if db.entries[entry] then answer == Err(Archived)
      else if entry in db.tables.published then answer == Err(PublishedForbidden)
      else answer.Ok? && OnlyArchived(db, answer.value, entry)
  {
  }

  /** Approving and taking down leave the entry with its draft as its only content, and that is checked. */
  ghost predicate DraftConflicts(m: Model, db: Db, entry: string)
    requires Sane(m, db) && entry in db.entries
  {
    CurrentIsTyped(m, db, entry, db.tables.revisions[db.tables.drafts[entry]].content);
    Conflicts(m.fields, db, entry, db.tables.revisions[db.tables.drafts[entry]].content)
  }

  lemma {:induction false} MovedClaims(fields: seq<Field>, t: Tables<Content>, entry: string, revision: string,
      kind: EventKind)
    requires Consistent(t) && Workflow(t, entry, revision, kind).Ok? && (kind.Approved? || kind.TakenDown?)
    ensures var u := Workflow(t, entry, revision, kind).value;
      && PointersValid(u) && entry in u.drafts && entry in t.drafts
      && CurrentClaims(fields, u, entry) == UniqueValues(t.revisions[t.drafts[entry]].content, fields)
  {
    WorkflowPointers(t, entry, revision, kind);
    WorkflowEffect(t, entry, revision, kind);
    EffectClaims(fields, t, Workflow(t, entry, revision, kind).value, entry, revision, kind);
  }

  lemma {:induction false} EffectClaims(fields: seq<Field>, t: Tables<Content>, u: Tables<Content>, entry: string,
      revision: string, kind: EventKind)
    requires PointersValid(t) && PointersValid(u) && Effect(t, u, entry, revision, kind)
    requires (kind.Approved? || kind.TakenDown?)
    ensures entry in u.drafts && entry in t.drafts
    ensures CurrentClaims(fields, u, entry) == UniqueValues(t.revisions[t.drafts[entry]].content, fields)
  {
    assert u.revisions[u.drafts[entry]].content == t.revisions[t.drafts[entry]].content;
    assert entry in u.published ==> u.published[entry] == u.drafts[entry];
  }

  /** In every reachable state a permitted workflow request for a known entry is answered as the workflow of its
      revisions answers it, except that approving or taking down an archived entry is refused when another entry has
      taken a unique value of its draft. */
  lemma {:induction false} FlowAnswer(m: Model, states: seq<Db>, requests: seq<Request>, n: nat, entry: string,
      revision: string, kind: EventKind, admitted: bool)
    requires FieldsValid(m.fields) && IsRun(m, states, requests) && n < |states|
    ensures Sane(m, states[n])
    ensures var (db, answer) := (states[n], RunWorkflow(m.fields, states[n], entry, revision, kind, admitted));
      if revision == "" then answer == Err(Required)
      else if !admitted then answer == Err(External)
      else if entry !in db.entries then answer == Err(NotFound)
      else
        match Workflow(db.tables, entry, revision, kind)
        case Err(e) => answer == Err(e)
        case Ok(tables) =>
          if (kind.Approved? || kind.TakenDown?) && DraftConflicts(m, db, entry) then db.entries[entry] && answer == Err(NotUnique)
          else answer.Ok? && answer.value.tables == tables && answer.value.entries == db.entries
  {
    ReachableSane(m, states, requests, n);
    if entry in states[n].entries && Workflow(states[n].tables, entry, revision, kind).Ok? {
      if !states[n].entries[entry] { WorkflowNeverLosesUniqueness(m.fields, states[n], entry, revision, kind, true); }
      FlowStages(m, states[n], entry, revision, kind);
    }
  }

  lemma {:induction false} FlowStages(m: Model, db: Db, entry: string, revision: string, kind: EventKind)
    requires Sane(m, db) && entry in db.entries && revision != "" && Workflow(db.tables, entry, revision, kind).Ok?
    ensures var answer := RunWorkflow(m.fields, db, entry, revision, kind, true);
      var tables := Workflow(db.tables, entry, revision, kind).value;
      if (kind.Approved? || kind.TakenDown?) && DraftConflicts(m, db, entry) then answer == Err(NotUnique)
      else answer.Ok? && answer.value.tables == tables && answer.value.entries == db.entries
  {
    if kind.Approved? || kind.TakenDown? {
      var content := db.tables.revisions[db.tables.drafts[entry]].content;
      MovedClaims(m.fields, db.tables, entry, revision, kind);
      CurrentIsTyped(m, db, entry, content);
      ConflictsIff(m, db, entry, content);
      RebuildStages(m.fields, db, entry, revision, kind, UniqueValues(content, m.fields));
    }
  }

  lemma {:induction false} RebuildStages(fields: seq<Field>, db: Db, entry: string, revision: string, kind: EventKind,
      values: set<Claim>)
    requires PointersValid(db.tables) && entry in db.entries && revision != ""
    requires Workflow(db.tables, entry, revision, kind).Ok?
    requires kind.Approved? || kind.TakenDown?
    requires var u := Workflow(db.tables, entry, revision, kind).value;
      PointersValid(u) && entry in u.drafts && CurrentClaims(fields, u, entry) == values
    ensures var answer := RunWorkflow(fields, db, entry, revision, kind, true);
      var tables := Workflow(db.tables, entry, revision, kind).value;
      if exists v :: v in values && v in db.claims && db.claims[v] != entry then answer == Err(NotUnique)
      else answer.Ok? && answer.value.tables == tables && answer.value.entries == db.entries
  {
    ConflictIff(db.claims, entry, values);
  }

  /** The draft was new, and is stored as the first revision of an active entry. */
  ghost predicate Imported(m: Model, db: Db, next: Db, d: ContentService.Draft) {
    var body := ValidateContent(m.codec, d.raw, m.fields);
    && body.Ok? && d.entry !in db.entries && d.revision !in db.tables.revisions
    && d.entry in next.entries && !next.entries[d.entry]
    && d.entry in next.tables.drafts && next.tables.drafts[d.entry] == d.revision
    && d.revision in next.tables.revisions
    && next.tables.revisions[d.revision] == Revision(d.entry, 1, body.value.members, RevisionWorkflow.Draft)
  }

  /** A committed import has stored every draft, each in an entry of its own, and left everything else alone. */
  lemma {:induction false} ImportStoresAll(m: Model, db: Db, drafts: seq<ContentService.Draft>, admitted: bool)
    requires Valid(m.fields, db) && (forall d :: d in drafts ==> d.revision != "")
    requires Import(m, db, drafts, admitted).Ok?
    ensures var next := Import(m, db, drafts, admitted).value;
      && (forall i :: 0 <= i < |drafts| ==> Imported(m, db, next, drafts[i]))
      && (forall i, j :: 0 <= i < j < |drafts| ==> drafts[i].entry != drafts[j].entry && drafts[i].revision != drafts[j].revision)
      && Untouched(db, next, drafts)
    decreases |drafts|
  {
    if drafts != [] {
      var d, rest := drafts[0], drafts[1..];
      var first := CreateEntry(m, db, d.entry, d.revision, d.raw, admitted).value;
      CreateKeepsValid(m, db, d.entry, d.revision, d.raw, admitted);
      ImportStoresAll(m, first, rest, admitted);
      CreatedIs(m, db, d, admitted);
      ImportedMore(m, db, first, Import(m, first, rest, admitted).value, drafts);
    }
  }

  /** What was there is still there, and what is new is one of the drafts. */
  ghost predicate Untouched(db: Db, next: Db, drafts: seq<ContentService.Draft>) {
    && (forall e :: e in db.entries ==> e in next.entries && next.entries[e] == db.entries[e])
    && (forall e :: e in next.entries && e !in db.entries ==> exists i :: 0 <= i < |drafts| && drafts[i].entry == e)
    && (forall r :: r in db.tables.revisions ==> r in next.tables.revisions && next.tables.revisions[r] == db.tables.revisions[r])
    && (forall e :: e in db.tables.drafts ==> e in next.tables.drafts && next.tables.drafts[e] == db.tables.drafts[e])
    && next.tables.published == db.tables.published && next.tables.events == db.tables.events
  }

  lemma {:induction false} CreatedIs(m: Model, db: Db, d: ContentService.Draft, admitted: bool)
    requires Valid(m.fields, db) && d.revision != "" && CreateEntry(m, db, d.entry, d.revision, d.raw, admitted).Ok?
    ensures var next := CreateEntry(m, db, d.entry, d.revision, d.raw, admitted).value;
      Imported(m, db, next, d) && Untouched(db, next, [d])
  {
    var content := ValidateContent(m.codec, d.raw, m.fields).value.members;
    var next := CreateEntry(m, db, d.entry, d.revision, d.raw, admitted).value;
    CreateShape(m.fields, db, d.entry, d.revision, content, next);
    WorkflowLaws.SaveAnswer(db.tables, d.entry, d.revision, None, content);
    assert [d][0].entry == d.entry;
  }

  lemma {:induction false} ImportedMore(m: Model, db: Db, first: Db, next: Db, drafts: seq<ContentService.Draft>)
    requires drafts != [] && Imported(m, db, first, drafts[0]) && Untouched(db, first, [drafts[0]])
    requires Untouched(first, next, drafts[1..])
    requires forall i :: 0 <= i < |drafts[1..]| ==> Imported(m, first, next, drafts[1..][i])
    requires forall i, j :: 0 <= i < j < |drafts[1..]| ==>
      drafts[1..][i].entry != drafts[1..][j].entry && drafts[1..][i].revision != drafts[1..][j].revision
    ensures forall i :: 0 <= i < |drafts| ==> Imported(m, db, next, drafts[i])
    ensures forall i, j :: 0 <= i < j < |drafts| ==> drafts[i].entry != drafts[j].entry && drafts[i].revision != drafts[j].revision
    ensures Untouched(db, next, drafts)
  {
    forall i | 0 < i < |drafts| ensures Imported(m, db, next, drafts[i]) && Imported(m, first, next, drafts[i]) {
      assert Imported(m, first, next, drafts[1..][i - 1]);
    }
    forall i, j | 0 < i < j < |drafts| ensures drafts[i].entry != drafts[j].entry && drafts[i].revision != drafts[j].revision {
      assert drafts[1..][i - 1] == drafts[i] && drafts[1..][j - 1] == drafts[j];
    }
    forall e | e in next.entries && e !in db.entries ensures exists i :: 0 <= i < |drafts| && drafts[i].entry == e {
      if e in first.entries {
        assert drafts[0].entry == e;
      } else {
        var i :| 0 <= i < |drafts[1..]| && drafts[1..][i].entry == e;
        assert drafts[i + 1].entry == e;
      }
    }
  }
}
