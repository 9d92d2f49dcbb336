/** Runs of the content service: any requests, in any order, refused ones rolled back. */
module ContentRuns {
  import opened Wrappers
  import opened FieldTree
  import opened ContentValidation
  import opened RevisionWorkflow
  import opened ContentService

  datatype Request =
    | Create(entry: string, revision: string, raw: Option<Json>, admitted: bool)
    | Update(entry: string, revision: string, base: string, raw: Option<Json>, admitted: bool)
    | Flow(entry: string, revision: string, kind: EventKind, admitted: bool)
    | Archive(entry: string, admitted: bool)
    | ImportAll(drafts: seq<ContentService.Draft>, admitted: bool)

  /** Generated revision ids are never empty. */
  predicate Generated(q: Request) {
    match q
    case Create(_, revision, _, _) => revision != ""
    case Update(_, revision, _, _, _) => revision != ""
    case ImportAll(drafts, _) => forall d :: d in drafts ==> d.revision != ""
    case _ => true
  }

  function Answer(m: Model, db: Db, q: Request): Result<Db, Refusal>
    requires PointersValid(db.tables) && Generated(q)
  {
    match q
    case Create(entry, revision, raw, admitted) => CreateEntry(m, db, entry, revision, raw, admitted)
    case Update(entry, revision, base, raw, admitted) => UpdateEntry(m, db, entry, revision, base, raw, admitted)
    case Flow(entry, revision, kind, admitted) => RunWorkflow(m.fields, db, entry, revision, kind, admitted)
    case Archive(entry, admitted) => ArchiveEntry(db, entry, admitted)
    case ImportAll(drafts, admitted) => Import(m, db, drafts, admitted)
  }

  /** A refused transaction is rolled back. */
  function After(m: Model, db: Db, q: Request): Db
    requires PointersValid(db.tables) && Generated(q)
  {
    if Answer(m, db, q).Ok? then Answer(m, db, q).value else db
  }

  ghost predicate IsStep(m: Model, db: Db, q: Request, next: Db) {
    Generated(q) && (PointersValid(db.tables) ==> next == After(m, db, q))
  }

  ghost predicate StepAt(m: Model, states: seq<Db>, requests: seq<Request>, i: nat)
    requires i < |requests| < |states|
  {
    IsStep(m, states[i], requests[i], states[i + 1])
  }

  ghost predicate IsRun(m: Model, states: seq<Db>, requests: seq<Request>) {
    && |states| == |requests| + 1 && states[0] == EMPTY
    && forall i :: 0 <= i < |requests| ==> StepAt(m, states, requests, i)
  }

  lemma {:induction false} StepKeepsValid(m: Model, db: Db, q: Request)
    requires Valid(m.fields, db) && Generated(q)
    ensures Valid(m.fields, After(m, db, q))
  {
    if Answer(m, db, q).Ok? {
      match q
      case Create(entry, revision, raw, admitted) => CreateKeepsValid(m, db, entry, revision, raw, admitted);
      case Update(entry, revision, base, raw, admitted) => UpdateKeepsValid(m, db, entry, revision, base, raw, admitted);
      case Flow(entry, revision, kind, admitted) => WorkflowKeepsValid(m.fields, db, entry, revision, kind, admitted);
      case Archive(entry, admitted) => ArchiveKeepsClaims(m.fields, db, entry, admitted);
      case ImportAll(drafts, admitted) => ImportKeepsValid(m, db, drafts, admitted);
    }
  }

  lemma {:induction false} RunStepValid(m: Model, states: seq<Db>, requests: seq<Request>, n: nat)
    requires IsRun(m, states, requests) && n < |requests| && Valid(m.fields, states[n])
    ensures Valid(m.fields, states[n + 1])
  {
    assert StepAt(m, states, requests, n);
    StepKeepsValid(m, states[n], requests[n]);
  }

  /** Every reachable state keeps the workflow consistent and the claims exact. */
  lemma {:induction false} RunsStayValid(m: Model, states: seq<Db>, requests: seq<Request>, n: nat)
    requires IsRun(m, states, requests) && n < |states|
    ensures Valid(m.fields, states[n])
  {
    if n == 0 {
      EmptyValid(m.fields);
    } else {
      var last := n - 1;
      RunsStayValid(m, states, requests, last);
      RunStepValid(m, states, requests, last);
    }
  }

  /** The canonical value an entry currently holds in a unique field: in its draft or its published revision. */
  ghost predicate Holds(db: Db, entry: string, f: Field, value: Canonical)
    requires PointersValid(db.tables) && entry in db.tables.drafts
  {
    || HoldsIn(db.tables.revisions[db.tables.drafts[entry]].content, f, value)
    || (entry in db.tables.published && HoldsIn(db.tables.revisions[db.tables.published[entry]].content, f, value))
  }

  predicate HoldsIn(content: Content, f: Field, value: Canonical) {
    f.key in content && !content[f.key].JNull? && CanonicalValue(f.kind, content[f.key]) == value
  }

  lemma {:induction false} HoldsClaims(fields: seq<Field>, db: Db, entry: string, f: Field, value: Canonical)
    requires PointersValid(db.tables) && entry in db.tables.drafts && f in fields && f.active && f.constraints.unique
    requires Holds(db, entry, f, value)
    ensures Claim(f.id, f.kind, value) in CurrentClaims(fields, db.tables, entry)
  {
    var draft := db.tables.revisions[db.tables.drafts[entry]].content;
    if HoldsIn(draft, f, value) {
      assert Claims(draft, f) && ClaimOf(draft, f) == Claim(f.id, f.kind, value);
    } else {
      var live := db.tables.revisions[db.tables.published[entry]].content;
      assert Claims(live, f) && ClaimOf(live, f) == Claim(f.id, f.kind, value);
    }
  }

  lemma {:induction false} HeldIsOwned(fields: seq<Field>, db: Db, entry: string, f: Field, value: Canonical)
    requires ClaimsExact(fields, db) && entry in db.entries && !db.entries[entry] && f in fields && f.active
    requires f.constraints.unique
    ensures Holds(db, entry, f, value) ==> Claim(f.id, f.kind, value) in db.claims && db.claims[Claim(f.id, f.kind, value)] == entry
  {
    assert EntryExact(fields, db, entry);
    if Holds(db, entry, f, value) {
      HoldsClaims(fields, db, entry, f, value);
      assert Claim(f.id, f.kind, value) in OwnedBy(db.claims, entry);
    }
  }

  /** In every reachable state no two active entries hold the same value of a unique field, whether
      in a draft or in a published revision. */
  lemma {:induction false} NoSharedUniqueValue(m: Model, states: seq<Db>, requests: seq<Request>, n: nat, d: string,
      e: string, f: Field, value: Canonical)
    requires IsRun(m, states, requests) && n < |states| && f in m.fields && f.active && f.constraints.unique
    requires d in states[n].entries && e in states[n].entries && d != e && !states[n].entries[d]
    requires !states[n].entries[e]
    ensures PointersValid(states[n].tables) && d in states[n].tables.drafts && e in states[n].tables.drafts
    ensures !(Holds(states[n], d, f, value) && Holds(states[n], e, f, value))
  {
    var db := states[n];
    RunsStayValid(m, states, requests, n);
    HeldIsOwned(m.fields, db, d, f, value);
    HeldIsOwned(m.fields, db, e, f, value);
  }

  /** Publishing or taking down an active entry is never refused for a duplicate value: what the
      rebuild claims, the entry already owns. */
  lemma {:induction false} WorkflowNeverLosesUniqueness(fields: seq<Field>, db: Db, entry: string, revision: string,
      kind: EventKind, admitted: bool)
    requires Valid(fields, db) && entry in db.entries && !db.entries[entry]
    ensures RunWorkflow(fields, db, entry, revision, kind, admitted) != Err(NotUnique)
  {
    if Workflow(db.tables, entry, revision, kind).Ok? { MovedNeverConflicts(fields, db, entry, revision, kind); }
    RefusalNotUnique(fields, db, entry, revision, kind, admitted);
  }

  lemma {:induction false} MovedNeverConflicts(fields: seq<Field>, db: Db, entry: string, revision: string,
      kind: EventKind)
    requires Valid(fields, db) && entry in db.entries && !db.entries[entry]
    requires Workflow(db.tables, entry, revision, kind).Ok?
    ensures PointersValid(Workflow(db.tables, entry, revision, kind).value)
    ensures entry in Workflow(db.tables, entry, revision, kind).value.drafts
    ensures ReplaceClaims(db.claims, entry, CurrentClaims(fields, Workflow(db.tables, entry, revision, kind).value, entry)).Ok?
  {
    var moved := Workflow(db.tables, entry, revision, kind).value;
    WorkflowPointers(db.tables, entry, revision, kind);
    WorkflowEffect(db.tables, entry, revision, kind);
    WorkflowShrinksClaims(fields, db.tables, moved, entry, revision, kind);
    assert EntryExact(fields, db, entry);
    OwnedNeverConflict(db.claims, entry, CurrentClaims(fields, moved, entry));
  }

  /** Only the replacement of the claims is refused for a duplicate. */
  lemma {:induction false} RefusalNotUnique(fields: seq<Field>, db: Db, entry: string, revision: string,
      kind: EventKind, admitted: bool)
    requires PointersValid(db.tables)
    requires Workflow(db.tables, entry, revision, kind).Ok? ==>
      var moved := Workflow(db.tables, entry, revision, kind).value;
      PointersValid(moved) && entry in moved.drafts && ReplaceClaims(db.claims, entry, CurrentClaims(fields, moved, entry)).Ok?
    ensures RunWorkflow(fields, db, entry, revision, kind, admitted) != Err(NotUnique)
  {
  }

  lemma {:induction false} WorkflowShrinksClaims(fields: seq<Field>, t: Tables<Content>, u: Tables<Content>,
      entry: string, revision: string, kind: EventKind)
    requires PointersValid(t) && PointersValid(u) && Effect(t, u, entry, revision, kind)
    ensures CurrentClaims(fields, u, entry) <= CurrentClaims(fields, t, entry)
  {
    assert u.revisions[u.drafts[entry]].content == t.revisions[t.drafts[entry]].content;
    if entry in u.published {
      assert u.revisions[u.published[entry]].content == t.revisions[u.published[entry]].content;
    }
  }

  lemma {:induction false} OwnedNeverConflict(claims: map<Claim, string>, entry: string, values: set<Claim>)
    requires values <= OwnedBy(claims, entry)
    ensures ReplaceClaims(claims, entry, values).Ok?
  {
    forall v | v in values ensures v !in Released(claims, entry) {
      assert v in OwnedBy(claims, entry);
    }
  }

  // ---- archived entries ----

  ghost predicate ArchivedUnpublished(db: Db) {
    forall e :: e in db.entries && db.entries[e] ==> e !in db.tables.published
  }

  /** An approval that publishes an archived entry: the draft of an entry was left under review when
      the entry was archived, and no other entry has since taken its unique values. */
  ghost predicate PublishesArchived(fields: seq<Field>, db: Db, q: Request)
    requires PointersValid(db.tables)
  {
    && q.Flow? && q.kind.Approved? && q.admitted && q.entry in db.entries && db.entries[q.entry]
    && q.entry in db.tables.drafts && db.tables.drafts[q.entry] == q.revision
    && db.tables.revisions[q.revision].status == PendingReview
    && forall v :: v in UniqueValues(db.tables.revisions[q.revision].content, fields) && v in db.claims ==> db.claims[v] == q.entry
  }

  lemma {:induction false} ApprovedClaims(fields: seq<Field>, db: Db, next: Tables<Content>, entry: string,
      revision: string)
    requires PointersValid(db.tables) && PointersValid(next) && Effect(db.tables, next, entry, revision, Approved)
    ensures CurrentClaims(fields, next, entry) == UniqueValues(db.tables.revisions[revision].content, fields)
  {
    assert next.revisions[revision].content == db.tables.revisions[revision].content;
    assert next.drafts[entry] == revision && next.published[entry] == revision;
  }

  /** content.workflow does not look at the archive flag. Archived entries stay unpublished through a
      step exactly when the step is not the approval of an archived entry still under review. */
  lemma {:induction false} ArchivedUnpublishedKeptIff(m: Model, db: Db, q: Request)
    requires Valid(m.fields, db) && ArchivedUnpublished(db) && Generated(q)
    ensures ArchivedUnpublished(After(m, db, q)) <==> !PublishesArchived(m.fields, db, q)
  {
    if q.Flow? {
      ArchivedFlow(m, db, q.entry, q.revision, q.kind, q.admitted);
    } else if Answer(m, db, q).Ok? {
      OtherKeepsUnpublished(m, db, q);
    }
  }

  /** Only the workflow publishes. */
  lemma {:induction false} OtherKeepsUnpublished(m: Model, db: Db, q: Request)
    requires PointersValid(db.tables) && ArchivedUnpublished(db) && Generated(q) && !q.Flow? && Answer(m, db, q).Ok?
    ensures ArchivedUnpublished(Answer(m, db, q).value)
  {
    match q
    case Create(entry, revision, raw, admitted) => CreateKeepsArchived(m, db, entry, revision, raw, admitted);
    case Update(entry, revision, base, raw, admitted) => UpdateKeepsPublished(m, db, entry, revision, base, raw, admitted);
    case Archive(entry, admitted) =>
    case ImportAll(drafts, admitted) => ImportKeepsArchived(m, db, drafts, admitted);
  }

  lemma {:induction false} CreateKeepsArchived(m: Model, db: Db, entry: string, revision: string, raw: Option<Json>,
      admitted: bool)
    requires PointersValid(db.tables) && CreateEntry(m, db, entry, revision, raw, admitted).Ok?
    ensures var next := CreateEntry(m, db, entry, revision, raw, admitted).value;
      next.entries == db.entries[entry := false] && next.tables.published == db.tables.published
  {
    CreateShape(m.fields, db, entry, revision, ValidateContent(m.codec, raw, m.fields).value.members,
                CreateEntry(m, db, entry, revision, raw, admitted).value);
  }

  lemma {:induction false} UpdateKeepsPublished(m: Model, db: Db, entry: string, revision: string, base: string,
      raw: Option<Json>, admitted: bool)
    requires PointersValid(db.tables) && revision != "" && UpdateEntry(m, db, entry, revision, base, raw, admitted).Ok?
    ensures var next := UpdateEntry(m, db, entry, revision, base, raw, admitted).value;
      next.entries == db.entries && next.tables.published == db.tables.published
  {
    SavePointers(db.tables, entry, revision, Some(base), ValidateContent(m.codec, raw, m.fields).value.members);
  }

  lemma {:induction false} ImportKeepsArchived(m: Model, db: Db, drafts: seq<ContentService.Draft>, admitted: bool)
    requires PointersValid(db.tables) && (forall d :: d in drafts ==> d.revision != "")
    requires Import(m, db, drafts, admitted).Ok?
    ensures var next := Import(m, db, drafts, admitted).value;
      && next.tables.published == db.tables.published
      && forall e :: e in next.entries && next.entries[e] ==> e in db.entries && db.entries[e]
    decreases |drafts|
  {
    if drafts != [] {
      var content := ValidateContent(m.codec, drafts[0].raw, m.fields).value.members;
      var first := CreateEntry(m, db, drafts[0].entry, drafts[0].revision, drafts[0].raw, admitted).value;
      CreateShape(m.fields, db, drafts[0].entry, drafts[0].revision, content, first);
      SavePointers(db.tables, drafts[0].entry, drafts[0].revision, None, content);
      ImportKeepsArchived(m, first, drafts[1..], admitted);
    }
  }

  /** The transaction commits exactly when the machine moves and the claims can be replaced. */
  lemma {:induction false} ApprovalCommits(fields: seq<Field>, db: Db, entry: string, revision: string)
    requires PointersValid(db.tables) && entry in db.entries
    requires revision != "" && Workflow(db.tables, entry, revision, Approved).Ok?
    ensures var moved := Workflow(db.tables, entry, revision, Approved).value;
      var values := UniqueValues(db.tables.revisions[revision].content, fields);
      var answer := RunWorkflow(fields, db, entry, revision, Approved, true);
      && (answer.Ok? <==> forall v :: v in values && v in db.claims ==> db.claims[v] == entry)
      && (answer.Ok? ==> answer.value.tables == moved && answer.value.entries == db.entries)
      && entry in moved.published
  {
    var moved := Workflow(db.tables, entry, revision, Approved).value;
    WorkflowPointers(db.tables, entry, revision, Approved);
    WorkflowEffect(db.tables, entry, revision, Approved);
    ApprovedClaims(fields, db, moved, entry, revision);
    ConflictIff(db.claims, entry, UniqueValues(db.tables.revisions[revision].content, fields));
  }

  lemma {:induction false} ConflictIff(claims: map<Claim, string>, entry: string, values: set<Claim>)
    ensures ReplaceClaims(claims, entry, values).Ok? <==> forall v :: v in values && v in claims ==> claims[v] == entry
  {
    assert forall v :: v in Released(claims, entry) <==> v in claims && claims[v] != entry;
  }

  lemma {:induction false} PublishingMoves(fields: seq<Field>, db: Db, q: Request)
    requires Consistent(db.tables) && PublishesArchived(fields, db, q)
    ensures q.revision != "" && Workflow(db.tables, q.entry, q.revision, Approved).Ok?
  {
    SupersessionNeverConflicts(db.tables, q.entry, q.revision, Approved);
  }

  lemma {:induction false} PublishingArchived(m: Model, db: Db, q: Request)
    requires Valid(m.fields, db) && PublishesArchived(m.fields, db, q)
    ensures !ArchivedUnpublished(After(m, db, q))
  {
    PublishingMoves(m.fields, db, q);
    ApprovalCommits(m.fields, db, q.entry, q.revision);
    assert q.entry in After(m, db, q).entries;
  }

  /** A committed approval that is not the exception is of an active entry. */
  lemma {:induction false} ApprovalOfActive(m: Model, db: Db, entry: string, revision: string, next: Db)
    requires PointersValid(db.tables) && ArchivedUnpublished(db)
    requires !PublishesArchived(m.fields, db, Flow(entry, revision, Approved, true))
    requires RunWorkflow(m.fields, db, entry, revision, Approved, true) == Ok(next)
    ensures ArchivedUnpublished(next)
  {
    ApprovalCommits(m.fields, db, entry, revision);
    WorkflowEffect(db.tables, entry, revision, Approved);
    assert !db.entries[entry];
    assert next.tables.published == db.tables.published[entry := revision];
  }

  lemma {:induction false} ArchivedFlow(m: Model, db: Db, entry: string, revision: string, kind: EventKind,
      admitted: bool)
    requires Valid(m.fields, db) && ArchivedUnpublished(db)
    ensures var q := Flow(entry, revision, kind, admitted);
      ArchivedUnpublished(After(m, db, q)) <==> !PublishesArchived(m.fields, db, q)
  {
    var q := Flow(entry, revision, kind, admitted);
    if PublishesArchived(m.fields, db, q) {
      PublishingArchived(m, db, q);
    } else if Answer(m, db, q).Ok? {
      if kind.Approved? {
        ApprovalOfActive(m, db, entry, revision, Answer(m, db, q).value);
      } else {
        FlowPublishesNothing(m.fields, db, entry, revision, kind);
      }
    }
  }

  lemma {:induction false} FlowPublishesNothing(fields: seq<Field>, db: Db, entry: string, revision: string,
      kind: EventKind)
    requires PointersValid(db.tables) && !kind.Approved? && RunWorkflow(fields, db, entry, revision, kind, true).Ok?
    ensures var next := RunWorkflow(fields, db, entry, revision, kind, true).value;
      next.entries == db.entries && next.tables.published.Keys <= db.tables.published.Keys
  {
    WorkflowShape(fields, db, entry, revision, kind, RunWorkflow(fields, db, entry, revision, kind, true).value);
    WorkflowEffect(db.tables, entry, revision, kind);
  }

  /** The state after the first `step` requests of the run below. */
  function Stage(step: nat): Db
    requires 1 <= step <= 4
  {
    var status := if step == 1 then Status.Draft else if step < 4 then PendingReview else Published;
    var submitted := Event("e", "r", Submitted);
    Db(map["e" := step >= 3],
       Tables(
         map["r" := Revision("e", 1, map[], status)], map["e" := "r"], if step == 4 then map["e" := "r"] else map[],
         if step == 1 then [] else if step < 4 then [submitted] else [submitted, Event("e", "r", Approved)]),
       map[])
  }

  lemma {:induction false} NoFieldsNoClaims(content: Content, claims: map<Claim, string>)
    requires claims == map[]
    ensures UniqueValues(content, []) == {} && ReplaceClaims(claims, "e", {}) == Ok(map[])
    ensures Released(claims, "e") == map[]
  {
    assert UniqueValues(content, []) == {};
    assert Released(claims, "e") == map[];
  }

  lemma {:induction false} StageOne(c: Codec)
    ensures After(Model(c, []), EMPTY, Create("e", "r", Some(JObj(map[])), true)) == Stage(1)
  {
    assert NormalizeObject(c, map[], []) == map[];
    NoFieldsNoClaims(map[], map[]);
    assert CreateValidated([], EMPTY, "e", "r", map[], true) == Ok(Stage(1));
  }

  lemma {:induction false} StageTwo(c: Codec)
    ensures After(Model(c, []), Stage(1), Flow("e", "r", Submitted, true)) == Stage(2)
  {
    assert [] + [Event("e", "r", Submitted)] == [Event("e", "r", Submitted)];
    assert Stage(1).tables.revisions["r" := Revision("e", 1, map[], PendingReview)] == Stage(2).tables.revisions;
    assert Workflow(Stage(1).tables, "e", "r", Submitted) == Ok(Stage(2).tables);
  }

  lemma {:induction false} StageFour(c: Codec)
    ensures After(Model(c, []), Stage(3), Flow("e", "r", Approved, true)) == Stage(4)
  {
    NoFieldsNoClaims(map[], map[]);
    assert Stage(3).tables.events + [Event("e", "r", Approved)] == Stage(4).tables.events;
    assert Stage(3).tables.revisions["r" := Revision("e", 1, map[], Published)] == Stage(4).tables.revisions;
    assert Workflow(Stage(3).tables, "e", "r", Approved) == Ok(Stage(4).tables);
    assert CurrentClaims([], Stage(4).tables, "e") == {};
  }

  lemma {:induction false} StageThree(c: Codec)
    ensures After(Model(c, []), Stage(2), Archive("e", true)) == Stage(3)
  {
    NoFieldsNoClaims(map[], map[]);
    assert Stage(2).entries["e" := true] == Stage(3).entries;
  }

  function Requests(): seq<Request> {
    [Create("e", "r", Some(JObj(map[])), true), Flow("e", "r", Submitted, true), Archive("e", true), Flow("e", "r", Approved, true)]
  }

  /** The exception is reachable: submit, archive, approve. */
  lemma {:induction false} ArchivedEntryCanBePublished(c: Codec)
    ensures IsRun(Model(c, []), [EMPTY, Stage(1), Stage(2), Stage(3), Stage(4)], Requests())
    ensures !ArchivedUnpublished(Stage(4))
  {
    StageOne(c);
    StageTwo(c);
    StageThree(c);
    StageFour(c);
    assert "e" in Stage(4).entries;
    var states := [EMPTY, Stage(1), Stage(2), Stage(3), Stage(4)];
    forall i | 0 <= i < |Requests()| ensures StepAt(Model(c, []), states, Requests(), i) {
      assert i == 0 || i == 1 || i == 2 || i == 3;
    }
  }

  // ---- no lost update ----

  lemma {:induction false} ImportExtends(m: Model, db: Db, drafts: seq<ContentService.Draft>, admitted: bool)
    requires Valid(m.fields, db) && (forall d :: d in drafts ==> d.revision != "")
    requires Import(m, db, drafts, admitted).Ok?
    ensures Valid(m.fields, Import(m, db, drafts, admitted).value)
    ensures Extends(db.tables, Import(m, db, drafts, admitted).value.tables)
    decreases |drafts|
  {
    if drafts != [] {
      var content := ValidateContent(m.codec, drafts[0].raw, m.fields).value.members;
      var first := CreateEntry(m, db, drafts[0].entry, drafts[0].revision, drafts[0].raw, admitted).value;
      CreateShape(m.fields, db, drafts[0].entry, drafts[0].revision, content, first);
      SaveExtends(db.tables, drafts[0].entry, drafts[0].revision, None, content);
      CreateKeepsValid(m, db, drafts[0].entry, drafts[0].revision, drafts[0].raw, admitted);
      ImportExtends(m, first, drafts[1..], admitted);
      ExtendsTransitive(db.tables, first.tables, Import(m, first, drafts[1..], admitted).value.tables);
    }
  }

  lemma {:induction false} UpdateExtends(m: Model, db: Db, entry: string, revision: string, base: string,
      raw: Option<Json>, admitted: bool, next: Db)
    requires Valid(m.fields, db) && revision != ""
    requires UpdateEntry(m, db, entry, revision, base, raw, admitted) == Ok(next)
    ensures PointersValid(next.tables) && Extends(db.tables, next.tables)
    ensures SaveDraft(db.tables, entry, revision, Some(base), ValidateContent(m.codec, raw, m.fields).value.members) == Ok(next.tables)
  {
    var content := ValidateContent(m.codec, raw, m.fields).value.members;
    SavedShape(m.fields, db.tables, entry, revision, Some(base), content);
    UpdateShape(m.fields, db, entry, revision, base, content, next);
    SaveExtends(db.tables, entry, revision, Some(base), content);
  }

  lemma {:induction false} StepExtends(m: Model, db: Db, q: Request)
    requires Valid(m.fields, db) && Generated(q)
    ensures PointersValid(After(m, db, q).tables) && Extends(db.tables, After(m, db, q).tables)
  {
    if Answer(m, db, q).Ok? {
      var next := Answer(m, db, q).value;
      match q
      case Create(entry, revision, raw, admitted) =>
        var content := ValidateContent(m.codec, raw, m.fields).value.members;
        CreateShape(m.fields, db, entry, revision, content, next);
        SaveExtends(db.tables, entry, revision, None, content);
      case Update(entry, revision, base, raw, admitted) => UpdateExtends(m, db, entry, revision, base, raw, admitted, next);
      case Flow(entry, revision, kind, admitted) =>
        WorkflowShape(m.fields, db, entry, revision, kind, next);
        WorkflowExtends(db.tables, entry, revision, kind);
      case Archive(entry, admitted) =>
      case ImportAll(drafts, admitted) => ImportExtends(m, db, drafts, admitted);
    }
  }

  lemma {:induction false} RunStepExtends(m: Model, states: seq<Db>, requests: seq<Request>, n: nat)
    requires IsRun(m, states, requests) && n < |requests| && Valid(m.fields, states[n])
    ensures PointersValid(states[n + 1].tables) && Extends(states[n].tables, states[n + 1].tables)
  {
    assert StepAt(m, states, requests, n);
    StepExtends(m, states[n], requests[n]);
  }

  lemma {:induction false} RunPointers(m: Model, states: seq<Db>, requests: seq<Request>, n: nat)
    requires IsRun(m, states, requests) && n < |states|
    ensures PointersValid(states[n].tables)
    ensures n > 0 ==> PointersValid(states[n - 1].tables) && Extends(states[n - 1].tables, states[n].tables)
  {
    RunsStayValid(m, states, requests, n);
    if n > 0 {
      var last := n - 1;
      RunsStayValid(m, states, requests, last);
      RunStepExtends(m, states, requests, last);
    }
  }

  ghost predicate Grew(a: Db, b: Db) {
    PointersValid(a.tables) && PointersValid(b.tables) && Extends(a.tables, b.tables)
  }

  lemma {:induction false} GrewAtOnce(m: Model, states: seq<Db>, requests: seq<Request>, i: nat)
    requires IsRun(m, states, requests) && i < |states|
    ensures Grew(states[i], states[i])
  {
    RunPointers(m, states, requests, i);
    ExtendsReflexive(states[i].tables);
  }

  lemma {:induction false} GrewOnce(m: Model, states: seq<Db>, requests: seq<Request>, i: nat, j: nat)
    requires IsRun(m, states, requests) && i < j < |states| && Grew(states[i], states[j - 1])
    ensures Grew(states[i], states[j])
  {
    RunPointers(m, states, requests, j);
    ExtendsTransitive(states[i].tables, states[j - 1].tables, states[j].tables);
  }

  /** Along a run history only grows. */
  lemma {:induction false} RunExtends(m: Model, states: seq<Db>, requests: seq<Request>, i: nat, j: nat)
    requires IsRun(m, states, requests) && i <= j < |states|
    ensures Grew(states[i], states[j])
    decreases j - i
  {
    if i == j {
      GrewAtOnce(m, states, requests, i);
    } else {
      RunExtends(m, states, requests, i, j - 1);
      GrewOnce(m, states, requests, i, j);
    }
  }

  ghost predicate Saved(m: Model, db: Db, q: Request, entry: string, base: string) {
    q.Update? && Generated(q) && q.entry == entry && q.base == base && PointersValid(db.tables) && Answer(m, db, q).Ok?
  }

  /** Of all the saves in a run that name the same base revision of an entry, at most one succeeds. */
  lemma {:induction false} OneSavePerBase(m: Model, states: seq<Db>, requests: seq<Request>, entry: string,
      base: string, i: nat, j: nat)
    requires IsRun(m, states, requests) && i < j < |requests|
    ensures !(Saved(m, states[i], requests[i], entry, base) && Saved(m, states[j], requests[j], entry, base))
  {
    if Saved(m, states[i], requests[i], entry, base) {
      GrewSince(m, states, requests, i, j);
      SavedOnce(m, states[i], requests[i], states[j], requests[j], entry, base);
    }
  }

  lemma {:induction false} GrewSince(m: Model, states: seq<Db>, requests: seq<Request>, i: nat, j: nat)
    requires IsRun(m, states, requests) && i < j < |states|
    ensures Valid(m.fields, states[i]) && Consistent(states[j].tables) && Generated(requests[i])
    ensures Grew(After(m, states[i], requests[i]), states[j])
  {
    GrewFromNext(m, states, requests, i, j);
    NextIs(m, states, requests, i);
    RunsStayValid(m, states, requests, j);
  }

  lemma {:induction false} GrewFromNext(m: Model, states: seq<Db>, requests: seq<Request>, i: nat, j: nat)
    requires IsRun(m, states, requests) && i < j < |states|
    ensures Grew(states[i + 1], states[j])
  {
    RunExtends(m, states, requests, i + 1, j);
  }

  lemma {:induction false} NextIs(m: Model, states: seq<Db>, requests: seq<Request>, i: nat)
    requires IsRun(m, states, requests) && i < |requests|
    ensures Valid(m.fields, states[i]) && Generated(requests[i])
    ensures states[i + 1] == After(m, states[i], requests[i])
  {
    RunsStayValid(m, states, requests, i);
    assert StepAt(m, states, requests, i);
  }

  lemma {:induction false} SavedOnce(m: Model, db: Db, q: Request, later: Db, r: Request, entry: string, base: string)
    requires Valid(m.fields, db) && Saved(m, db, q, entry, base)
    requires Consistent(later.tables) && Grew(After(m, db, q), later)
    ensures !Saved(m, later, r, entry, base)
  {
    var next := After(m, db, q);
    UpdateExtends(m, db, entry, q.revision, base, q.raw, q.admitted, next);
    SpentBaseRefuses(m, db.tables, entry, q.revision, base, ValidateContent(m.codec, q.raw, m.fields).value.members, next.tables, later, r);
  }

  /** A save that needs a draft base that is spent is refused. */
  lemma {:induction false} ConflictRefuses(m: Model, db: Db, q: Request, content: Content)
    requires PointersValid(db.tables) && q.Update? && Generated(q)
    requires ValidateContent(m.codec, q.raw, m.fields) == Ok(JObj(content))
    requires SaveDraft(db.tables, q.entry, q.revision, Some(q.base), content).Err?
    ensures Answer(m, db, q).Err?
  {
  }

  lemma {:induction false} SpentBaseRefuses(m: Model, t: Tables<Content>, entry: string, revision: string, base: string,
      content: Content, u: Tables<Content>, later: Db, q: Request)
    requires Consistent(t) && revision != "" && SaveDraft(t, entry, revision, Some(base), content) == Ok(u)
    requires PointersValid(u) && Consistent(later.tables) && Extends(u, later.tables)
    ensures !Saved(m, later, q, entry, base)
  {
    if q.Update? && Generated(q) && q.entry == entry && q.base == base {
      var body := ValidateContent(m.codec, q.raw, m.fields);
      if body.Ok? {
        BaseIsSpent(t, entry, revision, base, content, later.tables, q.revision, body.value.members);
        ConflictRefuses(m, later, q, body.value.members);
      }
    }
  }

  // ---- what the revisions hold ----

  /** Content that validateContent returned for some body. */
  ghost predicate Normal(m: Model, content: Content) {
    exists raw :: ValidateContent(m.codec, raw, m.fields) == Ok(JObj(content))
  }

  ghost predicate AllNormal(m: Model, t: Tables<Content>) {
    forall r :: r in t.revisions ==> Normal(m, t.revisions[r].content)
  }

  lemma {:induction false} CreateKeepsNormal(m: Model, db: Db, entry: string, revision: string, raw: Option<Json>,
      admitted: bool)
    requires PointersValid(db.tables) && AllNormal(m, db.tables)
    requires CreateEntry(m, db, entry, revision, raw, admitted).Ok?
    ensures AllNormal(m, CreateEntry(m, db, entry, revision, raw, admitted).value.tables)
  {
    var content := ValidateContent(m.codec, raw, m.fields).value.members;
    var next := CreateEntry(m, db, entry, revision, raw, admitted).value;
    assert Normal(m, content);
    CreateShape(m.fields, db, entry, revision, content, next);
    SaveKeepsNormal(m, db.tables, next.tables, entry, revision, None, content);
  }

  lemma {:induction false} SaveKeepsNormal(m: Model, t: Tables<Content>, u: Tables<Content>, entry: string,
      revision: string, base: Option<string>, content: Content)
    requires PointersValid(t) && AllNormal(m, t) && Normal(m, content)
    requires SaveDraft(t, entry, revision, base, content) == Ok(u)
    ensures AllNormal(m, u)
  {
    forall r | r in u.revisions ensures Normal(m, u.revisions[r].content) {
      assert r != revision ==> u.revisions[r] == t.revisions[r];
    }
  }

  lemma {:induction false} UpdateKeepsNormal(m: Model, db: Db, entry: string, revision: string, base: string,
      raw: Option<Json>, admitted: bool)
    requires PointersValid(db.tables) && AllNormal(m, db.tables) && revision != ""
    requires UpdateEntry(m, db, entry, revision, base, raw, admitted).Ok?
    ensures AllNormal(m, UpdateEntry(m, db, entry, revision, base, raw, admitted).value.tables)
  {
    var content := ValidateContent(m.codec, raw, m.fields).value.members;
    var next := UpdateEntry(m, db, entry, revision, base, raw, admitted).value;
    assert Normal(m, content);
    SavedShape(m.fields, db.tables, entry, revision, Some(base), content);
    UpdateShape(m.fields, db, entry, revision, base, content, next);
    SaveKeepsNormal(m, db.tables, next.tables, entry, revision, Some(base), content);
  }

  lemma {:induction false} ImportKeepsNormal(m: Model, db: Db, drafts: seq<ContentService.Draft>, admitted: bool)
    requires PointersValid(db.tables) && AllNormal(m, db.tables)
    requires (forall d :: d in drafts ==> d.revision != "") && Import(m, db, drafts, admitted).Ok?
    ensures AllNormal(m, Import(m, db, drafts, admitted).value.tables)
    decreases |drafts|
  {
    if drafts != [] {
      var content := ValidateContent(m.codec, drafts[0].raw, m.fields).value.members;
      CreateKeepsNormal(m, db, drafts[0].entry, drafts[0].revision, drafts[0].raw, admitted);
      SavePointers(db.tables, drafts[0].entry, drafts[0].revision, None, content);
      ImportKeepsNormal(m, CreateEntry(m, db, drafts[0].entry, drafts[0].revision, drafts[0].raw, admitted).value, drafts[1..], admitted);
    }
  }

  lemma {:induction false} FlowKeepsNormal(m: Model, db: Db, entry: string, revision: string, kind: EventKind,
      admitted: bool)
    requires PointersValid(db.tables) && AllNormal(m, db.tables)
    requires RunWorkflow(m.fields, db, entry, revision, kind, admitted).Ok?
    ensures AllNormal(m, RunWorkflow(m.fields, db, entry, revision, kind, admitted).value.tables)
  {
    var next := RunWorkflow(m.fields, db, entry, revision, kind, admitted).value;
    WorkflowShape(m.fields, db, entry, revision, kind, next);
    WorkflowEffect(db.tables, entry, revision, kind);
    forall r | r in next.tables.revisions ensures Normal(m, next.tables.revisions[r].content) {
      assert next.tables.revisions[r].content == db.tables.revisions[r].content;
    }
  }

  lemma {:induction false} StepKeepsNormal(m: Model, db: Db, q: Request)
    requires PointersValid(db.tables) && AllNormal(m, db.tables) && Generated(q)
    ensures AllNormal(m, After(m, db, q).tables)
  {
    if Answer(m, db, q).Ok? {
      match q
      case Create(entry, revision, raw, admitted) => CreateKeepsNormal(m, db, entry, revision, raw, admitted);
      case Update(entry, revision, base, raw, admitted) => UpdateKeepsNormal(m, db, entry, revision, base, raw, admitted);
      case Flow(entry, revision, kind, admitted) => FlowKeepsNormal(m, db, entry, revision, kind, admitted);
      case Archive(entry, admitted) =>
      case ImportAll(drafts, admitted) => ImportKeepsNormal(m, db, drafts, admitted);
    }
  }

  /** In every reachable state every revision, old or current, holds the normal form of a body the schema accepts. */
  lemma {:induction false} RevisionsStayNormal(m: Model, states: seq<Db>, requests: seq<Request>, n: nat)
    requires IsRun(m, states, requests) && n < |states|
    ensures AllNormal(m, states[n].tables)
  {
    if n > 0 {
      var last := n - 1;
      RevisionsStayNormal(m, states, requests, last);
      RunsStayValid(m, states, requests, last);
      assert StepAt(m, states, requests, last);
      StepKeepsNormal(m, states[last], requests[last]);
    }
  }
}
