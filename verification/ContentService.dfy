/** The content service: drafts, workflow, archiving and import, with the table of unique-value
    claims. Each transaction is one step; a refused one changes nothing.
    Permissions, relation targets and assets are looked up elsewhere: `admitted` says whether those
    checks pass. The schema of the model is fixed. */
module ContentService {
  import opened Wrappers
  import opened Decimals
  import opened FieldTree
  import opened ContentValidation
  import opened RevisionWorkflow

  type Content = map<string, Json>

  /** The text canonicalUniqueValue hashes; the digest is taken as injective. */
  datatype Canonical = AsText(text: string) | AsNumber(number: real) | AsBoolean(flag: bool)

  datatype Claim = Claim(fieldId: string, kind: FieldType, value: Canonical)

  function CanonicalValue(kind: FieldType, v: Json): Canonical {
    match kind
    case Integer => if v.JNum? && IsInteger(v.literal) then (IntegerIsDecimal(v.literal); AsNumber(Value(v.literal))) else AsText("")
    case Decimal => if v.JStr? && IsDecimal(v.text) then AsNumber(Value(v.text)) else AsText("")
    case Boolean => AsBoolean(v.JBool? && v.b)
    case _ => if v.JStr? then AsText(v.text) else AsText("")
  }

  predicate Claims(content: Content, f: Field) {
    f.key in content && !content[f.key].JNull? && f.active && f.constraints.unique
  }

  function ClaimOf(content: Content, f: Field): Claim
    requires Claims(content, f)
  {
    Claim(f.id, f.kind, CanonicalValue(f.kind, content[f.key]))
  }

  /** uniqueValues: the claims of one content object. */
  function UniqueValues(content: Content, fields: seq<Field>): set<Claim> {
    set f | f in fields && Claims(content, f) :: ClaimOf(content, f)
  }

  datatype Db = Db(entries: map<string, bool>, tables: Tables<Content>, claims: map<Claim, string>)

  datatype Model = Model(codec: Codec, fields: seq<Field>)

  /** The claims of the current draft together with those of the current published revision. */
  function CurrentClaims(fields: seq<Field>, t: Tables<Content>, entry: string): set<Claim>
    requires entry in t.drafts && t.drafts[entry] in t.revisions
    requires entry in t.published ==> t.published[entry] in t.revisions
  {
    UniqueValues(t.revisions[t.drafts[entry]].content, fields)
    + (if entry in t.published then UniqueValues(t.revisions[t.published[entry]].content, fields) else {})
  }

  function Released(claims: map<Claim, string>, entry: string): map<Claim, string> {
    map k | k in claims && claims[k] != entry :: claims[k]
  }

  /** ReplaceUniqueValues: delete the entry's rows, insert the new ones; the primary key refuses a taken value. */
  function ReplaceClaims(claims: map<Claim, string>, entry: string,
      values: set<Claim>): Result<map<Claim, string>, Refusal> {
    var freed := Released(claims, entry);
    if exists v :: v in values && v in freed then Err(NotUnique) else Ok(freed + map v | v in values :: entry)
  }

  /** createDraftInTx once the body is validated. */
  function CreateValidated(fields: seq<Field>, db: Db, entry: string, revision: string, content: Content,
      admitted: bool): Result<Db, Refusal>
    requires PointersValid(db.tables)
  {
    if !admitted then Err(External)
    else if entry in db.entries then Err(DuplicateKey)
    else
      match SaveDraft(db.tables, entry, revision, None, content)
      case Err(e) => Err(e)
      case Ok(tables) =>
        match ReplaceClaims(db.claims, entry, UniqueValues(content, fields))
        case Err(e) => Err(e)
        case Ok(claims) => Ok(Db(db.entries[entry := false], tables, claims))
  }

  function CreateEntry(m: Model, db: Db, entry: string, revision: string, raw: Option<Json>,
      admitted: bool): Result<Db, Refusal>
    requires PointersValid(db.tables)
  {
    match ValidateContent(m.codec, raw, m.fields)
    case Err(_) => Err(Invalid)
    case Ok(content) => CreateValidated(m.fields, db, entry, revision, content.members, admitted)
  }

  /** rebuildUniqueValues on the tables a step leaves. */
  function Rebuild(fields: seq<Field>, db: Db, entry: string): Result<Db, Refusal>
    requires PointersValid(db.tables) && entry in db.tables.drafts
  {
    match ReplaceClaims(db.claims, entry, CurrentClaims(fields, db.tables, entry))
    case Err(e) => Err(e)
    case Ok(claims) => Ok(db.(claims := claims))
  }

  function UpdateValidated(fields: seq<Field>, db: Db, entry: string, revision: string, base: string, content: Content,
      admitted: bool): Result<Db, Refusal>
    requires PointersValid(db.tables) && revision != ""
  {
    if !admitted then Err(External)
    else if entry !in db.entries then Err(NotFound)
    else if db.entries[entry] then Err(Archived)
    else
      match SaveDraft(db.tables, entry, revision, Some(base), content)
      case Err(e) => Err(e)
      case Ok(tables) =>
        SavePointers(db.tables, entry, revision, Some(base), content);
        Rebuild(fields, db.(tables := tables), entry)
  }

  function UpdateEntry(m: Model, db: Db, entry: string, revision: string, base: string, raw: Option<Json>,
      admitted: bool): Result<Db, Refusal>
    requires PointersValid(db.tables) && revision != ""
  {
    if base == "" then Err(Required)
    else
      match ValidateContent(m.codec, raw, m.fields)
      case Err(_) => Err(Invalid)
      case Ok(content) => UpdateValidated(m.fields, db, entry, revision, base, content.members, admitted)
  }

  /** Approving and taking down also rebuild the claims. Archived entries are not refused. */
  function RunWorkflow(fields: seq<Field>, db: Db, entry: string, revision: string, kind: EventKind,
      admitted: bool): Result<Db, Refusal>
    requires PointersValid(db.tables)
  {
    if revision == "" then Err(Required)
    else if !admitted then Err(External)
    else if entry !in db.entries then Err(NotFound)
    else
      match Workflow(db.tables, entry, revision, kind)
      case Err(e) => Err(e)
      case Ok(tables) =>
        WorkflowPointers(db.tables, entry, revision, kind);
        if kind.Approved? || kind.TakenDown? then Rebuild(fields, db.(tables := tables), entry)
        else Ok(db.(tables := tables))
  }

  function ArchiveEntry(db: Db, entry: string, admitted: bool): Result<Db, Refusal> {
    if !admitted then Err(External)
    else if entry !in db.entries then Err(NotFound)
    else if db.entries[entry] then Err(Archived)
    else if entry in db.tables.published then Err(PublishedForbidden)
    else Ok(Db(db.entries[entry := true], db.tables, Released(db.claims, entry)))
  }

  datatype Draft = Draft(entry: string, revision: string, raw: Option<Json>)

  /** ImportDrafts: one transaction, the first refused row refuses them all. */
  function Import(m: Model, db: Db, drafts: seq<Draft>, admitted: bool): Result<Db, Refusal>
    requires PointersValid(db.tables) && forall d :: d in drafts ==> d.revision != ""
    decreases |drafts|
  {
    if drafts == [] then Ok(db)
    else
      match CreateEntry(m, db, drafts[0].entry, drafts[0].revision, drafts[0].raw, admitted)
      case Err(e) => Err(e)
      case Ok(next) =>
        SavePointers(db.tables, drafts[0].entry, drafts[0].revision, None, ValidateContent(m.codec, drafts[0].raw, m.fields).value.members);
        Import(m, next, drafts[1..], admitted)
  }

  // ---- what every reachable state satisfies ----

  function OwnedBy(claims: map<Claim, string>, entry: string): set<Claim> { set k | k in claims && claims[k] == entry }

  /** An active entry owns exactly its current claims; an archived one owns those or none. */
  ghost predicate EntryExact(fields: seq<Field>, db: Db, e: string)
    requires PointersValid(db.tables) && e in db.tables.drafts && e in db.entries
  {
    || OwnedBy(db.claims, e) == CurrentClaims(fields, db.tables, e)
    || (db.entries[e] && OwnedBy(db.claims, e) == {})
  }

  ghost predicate ClaimsExact(fields: seq<Field>, db: Db) {
    && PointersValid(db.tables) && db.entries.Keys == db.tables.drafts.Keys
    && (forall k :: k in db.claims ==> db.claims[k] in db.entries)
    && (forall e :: e in db.entries ==> EntryExact(fields, db, e))
  }

  ghost predicate Valid(fields: seq<Field>, db: Db) { Consistent(db.tables) && ClaimsExact(fields, db) }

  const EMPTY := Db(map[], Empty(), map[])

  lemma EmptyValid(fields: seq<Field>)
    ensures Valid(fields, EMPTY)
  {
  }

  lemma {:induction false} ReplacedClaims(claims: map<Claim, string>, entry: string, values: set<Claim>)
    requires ReplaceClaims(claims, entry, values).Ok?
    ensures var r := ReplaceClaims(claims, entry, values).value;
      && OwnedBy(r, entry) == values
      && (forall e :: e != entry ==> OwnedBy(r, e) == OwnedBy(claims, e))
      && (forall k :: k in r ==> r[k] == entry || (k in claims && r[k] == claims[k]))
  {
    var r := ReplaceClaims(claims, entry, values).value;
    forall e | e != entry ensures OwnedBy(r, e) == OwnedBy(claims, e) {
      assert forall k :: k in OwnedBy(claims, e) ==> k in Released(claims, entry) && k !in values;
    }
  }

  /** The other entries keep their pointers, and every revision its content. */
  ghost predicate OthersKept(t: Tables<Content>, u: Tables<Content>, entry: string) {
    && (forall r :: r in t.revisions ==> r in u.revisions && u.revisions[r].content == t.revisions[r].content)
    && (forall e :: e in t.drafts && e != entry ==> e in u.drafts && u.drafts[e] == t.drafts[e])
    && (forall e :: e != entry ==> (e in t.published <==> e in u.published))
    && (forall e :: e in t.published && e != entry ==> u.published[e] == t.published[e])
  }

  lemma {:induction false} OthersKeepClaims(fields: seq<Field>, t: Tables<Content>, u: Tables<Content>, entry: string,
      e: string)
    requires PointersValid(t) && PointersValid(u) && OthersKept(t, u, entry) && e in t.drafts && e != entry
    ensures CurrentClaims(fields, u, e) == CurrentClaims(fields, t, e)
  {
    assert u.revisions[u.drafts[e]].content == t.revisions[t.drafts[e]].content;
  }

  /** A step that leaves the other entries alone and rebuilds this entry's claims. */
  ghost predicate Rebuilt(fields: seq<Field>, db: Db, next: Db, entry: string) {
    && PointersValid(next.tables)
    && next.entries.Keys == next.tables.drafts.Keys == db.entries.Keys + {entry}
    && (forall e :: e in db.entries && e != entry ==> next.entries[e] == db.entries[e])
    && OthersKept(db.tables, next.tables, entry)
    && ReplaceClaims(db.claims, entry, CurrentClaims(fields, next.tables, entry)) == Ok(next.claims)
  }

  lemma {:induction false} RebuiltIsExact(fields: seq<Field>, db: Db, next: Db, entry: string)
    requires ClaimsExact(fields, db) && Rebuilt(fields, db, next, entry)
    ensures ClaimsExact(fields, next)
  {
    ReplacedClaims(db.claims, entry, CurrentClaims(fields, next.tables, entry));
    forall e | e in next.entries ensures EntryExact(fields, next, e) {
      if e != entry {
        assert EntryExact(fields, db, e);
        OthersKeepClaims(fields, db.tables, next.tables, entry, e);
      }
    }
  }

  lemma {:induction false} SaveKeepsOthers(t: Tables<Content>, entry: string, revision: string, base: Option<string>,
      content: Content)
    requires PointersValid(t) && SaveDraft(t, entry, revision, base, content).Ok?
    ensures OthersKept(t, SaveDraft(t, entry, revision, base, content).value, entry)
  {
  }

  lemma {:induction false} WorkflowKeepsOthers(t: Tables<Content>, entry: string, revision: string, kind: EventKind)
    requires PointersValid(t) && Workflow(t, entry, revision, kind).Ok?
    ensures OthersKept(t, Workflow(t, entry, revision, kind).value, entry)
  {
    WorkflowEffect(t, entry, revision, kind);
  }

  /** What the save of a first draft, or of a later one, leaves behind. */
  lemma {:induction false} SavedShape(fields: seq<Field>, t: Tables<Content>, entry: string, revision: string,
      base: Option<string>, content: Content)
    requires PointersValid(t) && revision != "" && SaveDraft(t, entry, revision, base, content).Ok?
    ensures var u := SaveDraft(t, entry, revision, base, content).value;
      && PointersValid(u) && u.drafts.Keys == t.drafts.Keys + {entry} && OthersKept(t, u, entry)
      && (base.None? ==> CurrentClaims(fields, u, entry) == UniqueValues(content, fields))
  {
    var u := SaveDraft(t, entry, revision, base, content).value;
    SavePointers(t, entry, revision, base, content);
    SaveKeepsOthers(t, entry, revision, base, content);
    if base.None? {
      assert entry !in t.published;
      assert UniqueValues(content, fields) + {} == UniqueValues(content, fields);
      assert CurrentClaims(fields, u, entry) == UniqueValues(content, fields) + {};
    }
  }

  lemma {:induction false} CreateShape(fields: seq<Field>, db: Db, entry: string, revision: string, content: Content,
      next: Db)
    requires PointersValid(db.tables) && CreateValidated(fields, db, entry, revision, content, true) == Ok(next)
    ensures SaveDraft(db.tables, entry, revision, None, content) == Ok(next.tables)
    ensures next.entries == db.entries[entry := false]
    ensures ReplaceClaims(db.claims, entry, UniqueValues(content, fields)) == Ok(next.claims)
  {
  }

  lemma {:induction false} UpdateShape(fields: seq<Field>, db: Db, entry: string, revision: string, base: string,
      content: Content, next: Db)
    requires PointersValid(db.tables) && PointersValid(next.tables) && entry in next.tables.drafts
    requires revision != "" && UpdateValidated(fields, db, entry, revision, base, content, true) == Ok(next)
    ensures SaveDraft(db.tables, entry, revision, Some(base), content) == Ok(next.tables)
    ensures next.entries == db.entries && entry in db.entries
    ensures ReplaceClaims(db.claims, entry, CurrentClaims(fields, next.tables, entry)) == Ok(next.claims)
  {
  }

  /** The tables of a save, with the entry's claims replaced, are a rebuild. */
  lemma {:induction false} SavedRebuilds(fields: seq<Field>, db: Db, next: Db, entry: string)
    requires PointersValid(next.tables) && next.tables.drafts.Keys == db.tables.drafts.Keys + {entry}
    requires OthersKept(db.tables, next.tables, entry)
    requires db.entries.Keys == db.tables.drafts.Keys
    requires (next.entries == db.entries[entry := false] || (next.entries == db.entries && entry in db.entries))
    requires ReplaceClaims(db.claims, entry, CurrentClaims(fields, next.tables, entry)) == Ok(next.claims)
    ensures Rebuilt(fields, db, next, entry)
  {
  }

  lemma {:induction false} CreateRebuilds(fields: seq<Field>, db: Db, entry: string, revision: string, content: Content,
      next: Db)
    requires PointersValid(db.tables) && db.entries.Keys == db.tables.drafts.Keys && revision != ""
    requires CreateValidated(fields, db, entry, revision, content, true) == Ok(next)
    ensures Rebuilt(fields, db, next, entry)
  {
    CreateShape(fields, db, entry, revision, content, next);
    SavedShape(fields, db.tables, entry, revision, None, content);
    SavedRebuilds(fields, db, next, entry);
  }

  lemma {:induction false} UpdateRebuilds(fields: seq<Field>, db: Db, entry: string, revision: string, base: string,
      content: Content, next: Db)
    requires PointersValid(db.tables) && db.entries.Keys == db.tables.drafts.Keys && revision != ""
    requires UpdateValidated(fields, db, entry, revision, base, content, true) == Ok(next)
    ensures Rebuilt(fields, db, next, entry)
  {
    SavedShape(fields, db.tables, entry, revision, Some(base), content);
    UpdateShape(fields, db, entry, revision, base, content, next);
    SavedRebuilds(fields, db, next, entry);
  }

  lemma {:induction false} CreateKeepsClaims(fields: seq<Field>, db: Db, entry: string, revision: string,
      content: Content, next: Db)
    requires ClaimsExact(fields, db) && revision != ""
    requires CreateValidated(fields, db, entry, revision, content, true) == Ok(next)
    ensures ClaimsExact(fields, next)
  {
    CreateRebuilds(fields, db, entry, revision, content, next);
    RebuiltIsExact(fields, db, next, entry);
  }

  lemma {:induction false} UpdateKeepsClaims(fields: seq<Field>, db: Db, entry: string, revision: string, base: string,
      content: Content, next: Db)
    requires ClaimsExact(fields, db) && revision != ""
    requires UpdateValidated(fields, db, entry, revision, base, content, true) == Ok(next)
    ensures ClaimsExact(fields, next)
  {
    UpdateRebuilds(fields, db, entry, revision, base, content, next);
    RebuiltIsExact(fields, db, next, entry);
  }

  lemma {:induction false} WorkflowShape(fields: seq<Field>, db: Db, entry: string, revision: string, kind: EventKind,
      next: Db)
    requires PointersValid(db.tables) && RunWorkflow(fields, db, entry, revision, kind, true) == Ok(next)
    ensures Workflow(db.tables, entry, revision, kind) == Ok(next.tables) && next.entries == db.entries
    ensures entry in db.entries
    ensures PointersValid(next.tables) && entry in next.tables.drafts
    ensures kind.Approved? || kind.TakenDown? ==>
      ReplaceClaims(db.claims, entry, CurrentClaims(fields, next.tables, entry)) == Ok(next.claims)
    ensures kind.Submitted? || kind.Refused? ==> next.claims == db.claims
  {
    WorkflowPointers(db.tables, entry, revision, kind);
  }

  /** Submitting and refusing move no pointer and change no content, so the claims they leave stay exact. */
  lemma {:induction false} SamePointersKeepClaims(fields: seq<Field>, db: Db, next: Db)
    requires ClaimsExact(fields, db) && PointersValid(next.tables) && next.entries == db.entries
    requires next.claims == db.claims
    requires next.tables.drafts == db.tables.drafts && next.tables.published == db.tables.published
    requires forall r :: r in db.tables.revisions ==>
      r in next.tables.revisions && next.tables.revisions[r].content == db.tables.revisions[r].content
    ensures ClaimsExact(fields, next)
  {
    forall e | e in next.entries ensures EntryExact(fields, next, e) {
      assert EntryExact(fields, db, e);
      assert CurrentClaims(fields, next.tables, e) == CurrentClaims(fields, db.tables, e);
    }
  }

  lemma {:induction false} WorkflowKeepsClaims(fields: seq<Field>, db: Db, entry: string, revision: string,
      kind: EventKind, next: Db)
    requires ClaimsExact(fields, db) && RunWorkflow(fields, db, entry, revision, kind, true) == Ok(next)
    ensures ClaimsExact(fields, next)
  {
    WorkflowShape(fields, db, entry, revision, kind, next);
    WorkflowEffect(db.tables, entry, revision, kind);
    if kind.Approved? || kind.TakenDown? {
      WorkflowRebuilt(fields, db, entry, revision, kind, next);
      RebuiltIsExact(fields, db, next, entry);
    } else {
      SamePointersKeepClaims(fields, db, next);
    }
  }

  lemma {:induction false} WorkflowRebuilt(fields: seq<Field>, db: Db, entry: string, revision: string, kind: EventKind,
      next: Db)
    requires ClaimsExact(fields, db) && RunWorkflow(fields, db, entry, revision, kind, true) == Ok(next)
    requires kind.Approved? || kind.TakenDown?
    ensures Rebuilt(fields, db, next, entry)
  {
    WorkflowShape(fields, db, entry, revision, kind, next);
    WorkflowKeepsOthers(db.tables, entry, revision, kind);
    WorkflowEffect(db.tables, entry, revision, kind);
  }

  lemma {:induction false} ArchiveKeepsClaims(fields: seq<Field>, db: Db, entry: string, admitted: bool)
    requires ClaimsExact(fields, db) && ArchiveEntry(db, entry, admitted).Ok?
    ensures ClaimsExact(fields, ArchiveEntry(db, entry, admitted).value)
  {
    var next := ArchiveEntry(db, entry, admitted).value;
    assert OwnedBy(next.claims, entry) == {};
    forall e | e in next.entries ensures EntryExact(fields, next, e) {
      assert EntryExact(fields, db, e);
      if e != entry { assert OwnedBy(next.claims, e) == OwnedBy(db.claims, e); }
    }
  }

  lemma CreateKeepsValid(m: Model, db: Db, entry: string, revision: string, raw: Option<Json>, admitted: bool)
    requires Valid(m.fields, db) && revision != "" && CreateEntry(m, db, entry, revision, raw, admitted).Ok?
    ensures Valid(m.fields, CreateEntry(m, db, entry, revision, raw, admitted).value)
  {
    var content := ValidateContent(m.codec, raw, m.fields).value.members;
    SaveKeepsConsistent(db.tables, entry, revision, None, content);
    CreateKeepsClaims(m.fields, db, entry, revision, content, CreateEntry(m, db, entry, revision, raw, admitted).value);
  }

  lemma UpdateKeepsValid(m: Model, db: Db, entry: string, revision: string, base: string, raw: Option<Json>,
      admitted: bool)
    requires Valid(m.fields, db) && revision != "" && UpdateEntry(m, db, entry, revision, base, raw, admitted).Ok?
    ensures Valid(m.fields, UpdateEntry(m, db, entry, revision, base, raw, admitted).value)
  {
    var content := ValidateContent(m.codec, raw, m.fields).value.members;
    SaveKeepsConsistent(db.tables, entry, revision, Some(base), content);
    UpdateKeepsClaims(m.fields, db, entry, revision, base, content, UpdateEntry(m, db, entry, revision, base, raw, admitted).value);
  }

  lemma WorkflowKeepsValid(fields: seq<Field>, db: Db, entry: string, revision: string, kind: EventKind, admitted: bool)
    requires Valid(fields, db) && RunWorkflow(fields, db, entry, revision, kind, admitted).Ok?
    ensures Valid(fields, RunWorkflow(fields, db, entry, revision, kind, admitted).value)
  {
    WorkflowKeepsConsistent(db.tables, entry, revision, kind);
    WorkflowKeepsClaims(fields, db, entry, revision, kind, RunWorkflow(fields, db, entry, revision, kind, admitted).value);
  }

  lemma {:induction false} ImportKeepsValid(m: Model, db: Db, drafts: seq<Draft>, admitted: bool)
    requires Valid(m.fields, db) && (forall d :: d in drafts ==> d.revision != "")
    requires Import(m, db, drafts, admitted).Ok?
    ensures Valid(m.fields, Import(m, db, drafts, admitted).value)
    decreases |drafts|
  {
    if drafts != [] {
      CreateKeepsValid(m, db, drafts[0].entry, drafts[0].revision, drafts[0].raw, admitted);
      ImportKeepsValid(m, CreateEntry(m, db, drafts[0].entry, drafts[0].revision, drafts[0].raw, admitted).value, drafts[1..], admitted);
    }
  }
}
