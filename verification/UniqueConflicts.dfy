/** The answers of creating and saving content in every reachable state. A value is refused as taken exactly
    when another entry holds an equal one, said of the JSON values in the revisions. */
module UniqueConflicts {
  import opened Wrappers
  import opened Decimals
  import opened FieldTree
  import opened ContentValidation
  import opened RevisionWorkflow
  import opened ContentService
  import opened ContentRuns
  import opened ContentMeaning

  /** What the field table guarantees: well-formed trees, one field an id, and unique only on scalar root fields. */
  predicate FieldsValid(fields: seq<Field>) {
    && WellFormed(fields)
    && (forall f, g :: f in fields && g in fields && f.id == g.id ==> f == g)
    && (forall f :: f in fields && f.constraints.unique ==> IsRootScalar(f.kind))
  }

  /** The JSON a scalar field of this kind holds. */
  predicate TypedAs(kind: FieldType, v: Json) {
    match kind
    case Integer => v.JNum? && IsInteger(v.literal)
    case Decimal => v.JStr? && IsDecimal(v.text)
    case Boolean => v.JBool?
    case _ => v.JStr?
  }

  /** Equal values: the same number, the same boolean, the same text. */
  predicate SameValue(kind: FieldType, v: Json, w: Json)
    requires TypedAs(kind, v) && TypedAs(kind, w)
  {
    match kind
    case Integer =>
      IntegerIsDecimal(v.literal);
      IntegerIsDecimal(w.literal);
      Value(v.literal) == Value(w.literal)
    case Decimal => Value(v.text) == Value(w.text)
    case Boolean => v.b == w.b
    case _ => v.text == w.text
  }

  predicate HasValue(content: Content, f: Field) { f.key in content && !content[f.key].JNull? }

  /** Content whose unique values have the JSON type of their field. */
  predicate Typed(fields: seq<Field>, content: Content) {
    forall f :: f in fields && f.active && f.constraints.unique && HasValue(content, f) ==> TypedAs(f.kind, content[f.key])
  }

  lemma {:induction false} NormalIsTyped(m: Model, content: Content)
    requires FieldsValid(m.fields) && Normal(m, content)
    ensures Typed(m.fields, content)
  {
    var raw :| ValidateContent(m.codec, raw, m.fields) == Ok(JObj(content));
    AcceptedIff(m.codec, raw, m.fields);
    StoredForAccepted(m.codec, raw.value.members, m.fields);
    forall f | f in m.fields && f.active && f.constraints.unique && HasValue(content, f) ensures TypedAs(f.kind, content[f.key]) {
      var v := if f.key in raw.value.members then raw.value.members[f.key] else f.defaultValue;
      assert StoredFor(m.codec, f, v, content[f.key]);
      assert Takes(m.codec, f, v);
      ZeroText();
    }
  }

  lemma {:induction false} SameCanonical(kind: FieldType, v: Json, w: Json)
    requires TypedAs(kind, v) && TypedAs(kind, w) && IsRootScalar(kind)
    ensures CanonicalValue(kind, v) == CanonicalValue(kind, w) <==> SameValue(kind, v, w)
  {
  }

  // ---- who holds what ----

  /** The contents an entry currently shows: its draft, and its published revision. */
  ghost predicate Current(db: Db, e: string, content: Content)
    requires PointersValid(db.tables) && e in db.tables.drafts
  {
    || content == db.tables.revisions[db.tables.drafts[e]].content
    || (e in db.tables.published && content == db.tables.revisions[db.tables.published[e]].content)
  }

  /** The entry takes part in the uniqueness check: it is active, or archived and has rows in the table of claims. */
  ghost predicate Live(db: Db, e: string) {
    e in db.entries && (!db.entries[e] || exists k :: k in db.claims && db.claims[k] == e)
  }

  ghost predicate HoldsEqual(db: Db, e: string, f: Field, v: Json)
    requires PointersValid(db.tables) && e in db.tables.drafts && TypedAs(f.kind, v)
  {
    exists held :: Current(db, e, held) && HasValue(held, f) && TypedAs(f.kind, held[f.key]) && SameValue(f.kind, held[f.key], v)
  }

  /** Another live entry holds an equal value of this field. */
  ghost predicate TakenByOther(db: Db, entry: string, f: Field, content: Content)
    requires PointersValid(db.tables) && db.entries.Keys == db.tables.drafts.Keys
    requires HasValue(content, f) && TypedAs(f.kind, content[f.key])
  {
    exists e :: e != entry && Live(db, e) && HoldsEqual(db, e, f, content[f.key])
  }

  /** Some value of an active field marked unique is taken by another entry. */
  ghost predicate Conflicts(fields: seq<Field>, db: Db, entry: string, content: Content)
    requires PointersValid(db.tables) && db.entries.Keys == db.tables.drafts.Keys && Typed(fields, content)
  {
    exists f :: f in fields && f.active && f.constraints.unique && HasValue(content, f) && TakenByOther(db, entry, f, content)
  }

  ghost predicate Sane(m: Model, db: Db) {
    FieldsValid(m.fields) && Valid(m.fields, db) && AllNormal(m, db.tables)
  }

  lemma {:induction false} CurrentIsTyped(m: Model, db: Db, e: string, content: Content)
    requires Sane(m, db) && e in db.tables.drafts && Current(db, e, content)
    ensures Typed(m.fields, content)
  {
    NormalIsTyped(m, content);
  }

  /** A live entry owns a claim exactly when one of its current revisions makes it. */
  lemma {:induction false} LiveOwns(fields: seq<Field>, db: Db, e: string, claim: Claim)
    requires ClaimsExact(fields, db) && Live(db, e)
    ensures claim in db.claims && db.claims[claim] == e <==> claim in CurrentClaims(fields, db.tables, e)
  {
    assert EntryExact(fields, db, e);
    if db.entries[e] {
      var k :| k in db.claims && db.claims[k] == e;
      assert k in OwnedBy(db.claims, e);
    }
    assert claim in OwnedBy(db.claims, e) <==> claim in db.claims && db.claims[claim] == e;
  }

  /** A claim of this field stands for an equal value in a current revision of the entry. */
  lemma {:induction false} ClaimHolds(m: Model, db: Db, e: string, f: Field, content: Content)
    requires Sane(m, db) && e in db.tables.drafts && f in m.fields && f.active && f.constraints.unique
    requires HasValue(content, f) && TypedAs(f.kind, content[f.key])
    ensures ClaimOf(content, f) in CurrentClaims(m.fields, db.tables, e) <==> HoldsEqual(db, e, f, content[f.key])
  {
    var claim := ClaimOf(content, f);
    if claim in CurrentClaims(m.fields, db.tables, e) {
      var held := HolderOf(m.fields, db, e, claim);
      CurrentIsTyped(m, db, e, held);
      ClaimedIsEqual(m.fields, held, content, f);
    }
    if HoldsEqual(db, e, f, content[f.key]) { HeldIsClaimed(m.fields, db, e, f, content); }
  }

  lemma {:induction false} HeldIsClaimed(fields: seq<Field>, db: Db, e: string, f: Field, content: Content)
    requires FieldsValid(fields) && PointersValid(db.tables) && e in db.tables.drafts
    requires f in fields && f.active && f.constraints.unique && HasValue(content, f) && TypedAs(f.kind, content[f.key])
    requires HoldsEqual(db, e, f, content[f.key])
    ensures ClaimOf(content, f) in CurrentClaims(fields, db.tables, e)
  {
    var held :| Current(db, e, held) && HasValue(held, f) && TypedAs(f.kind, held[f.key]) && SameValue(f.kind, held[f.key], content[f.key]);
    EqualIsClaimed(fields, held, content, f);
  }

  lemma {:induction false} ClaimedIsEqual(fields: seq<Field>, held: Content, content: Content, f: Field)
    requires FieldsValid(fields) && Typed(fields, held) && f in fields && f.active && f.constraints.unique
    requires HasValue(content, f) && TypedAs(f.kind, content[f.key])
    requires ClaimOf(content, f) in UniqueValues(held, fields)
    ensures HasValue(held, f) && TypedAs(f.kind, held[f.key]) && SameValue(f.kind, held[f.key], content[f.key])
  {
    var g :| g in fields && Claims(held, g) && ClaimOf(held, g) == ClaimOf(content, f);
    assert g == f;
    SameCanonical(f.kind, held[f.key], content[f.key]);
  }

  lemma {:induction false} EqualIsClaimed(fields: seq<Field>, held: Content, content: Content, f: Field)
    requires FieldsValid(fields) && f in fields && f.active && f.constraints.unique && HasValue(content, f)
    requires HasValue(held, f)
    requires TypedAs(f.kind, content[f.key]) && TypedAs(f.kind, held[f.key])
    requires SameValue(f.kind, held[f.key], content[f.key])
    ensures ClaimOf(content, f) in UniqueValues(held, fields)
  {
    SameCanonical(f.kind, held[f.key], content[f.key]);
    assert Claims(held, f) && ClaimOf(held, f) == ClaimOf(content, f);
  }

  lemma {:induction false} HolderOf(fields: seq<Field>, db: Db, e: string, claim: Claim) returns (held: Content)
    requires PointersValid(db.tables) && e in db.tables.drafts && claim in CurrentClaims(fields, db.tables, e)
    ensures Current(db, e, held) && claim in UniqueValues(held, fields)
  {
    held := db.tables.revisions[db.tables.drafts[e]].content;
    if claim !in UniqueValues(held, fields) { held := db.tables.revisions[db.tables.published[e]].content; }
  }

  /** Another entry has a row for the value of this field exactly when it holds an equal value. */
  lemma {:induction false} TakenIff(m: Model, db: Db, entry: string, f: Field, content: Content)
    requires Sane(m, db) && f in m.fields && f.active && f.constraints.unique
    requires HasValue(content, f) && TypedAs(f.kind, content[f.key])
    ensures ClaimOf(content, f) in db.claims && db.claims[ClaimOf(content, f)] != entry <==> TakenByOther(db, entry, f, content)
  {
    var claim := ClaimOf(content, f);
    if claim in db.claims && db.claims[claim] != entry {
      var e := db.claims[claim];
      assert Live(db, e);
      LiveOwns(m.fields, db, e, claim);
      ClaimHolds(m, db, e, f, content);
    }
    if TakenByOther(db, entry, f, content) {
      var e :| e != entry && Live(db, e) && HoldsEqual(db, e, f, content[f.key]);
      ClaimHolds(m, db, e, f, content);
      LiveOwns(m.fields, db, e, claim);
    }
  }

  lemma {:induction false} ConflictsIff(m: Model, db: Db, entry: string, content: Content)
    requires Sane(m, db) && Typed(m.fields, content)
    ensures (exists v :: v in UniqueValues(content, m.fields) && v in db.claims && db.claims[v] != entry)
       <==> Conflicts(m.fields, db, entry, content)
  {
    forall f | f in m.fields && f.active && f.constraints.unique && HasValue(content, f)
      ensures ClaimOf(content, f) in db.claims && db.claims[ClaimOf(content, f)] != entry <==> TakenByOther(db, entry, f, content)
    {
      TakenIff(m, db, entry, f, content);
    }
    if exists v :: v in UniqueValues(content, m.fields) && v in db.claims && db.claims[v] != entry {
      var v :| v in UniqueValues(content, m.fields) && v in db.claims && db.claims[v] != entry;
      var f :| f in m.fields && Claims(content, f) && ClaimOf(content, f) == v;
      assert HasValue(content, f) && TakenByOther(db, entry, f, content);
    }
    if Conflicts(m.fields, db, entry, content) {
      var f :| f in m.fields && f.active && f.constraints.unique && HasValue(content, f) && TakenByOther(db, entry, f, content);
      assert Claims(content, f) && ClaimOf(content, f) in UniqueValues(content, m.fields);
    }
  }

  // ---- the answers ----

  lemma {:induction false} ReachableSane(m: Model, states: seq<Db>, requests: seq<Request>, n: nat)
    requires FieldsValid(m.fields) && IsRun(m, states, requests) && n < |states|
    ensures Sane(m, states[n])
  {
    RunsStayValid(m, states, requests, n);
    RevisionsStayNormal(m, states, requests, n);
  }

  lemma {:induction false} ValidatedIsTyped(m: Model, raw: Option<Json>)
    requires FieldsValid(m.fields) && ValidateContent(m.codec, raw, m.fields).Ok?
    ensures Typed(m.fields, ValidateContent(m.codec, raw, m.fields).value.members)
  {
    var content := ValidateContent(m.codec, raw, m.fields).value.members;
    assert ValidateContent(m.codec, raw, m.fields) == Ok(JObj(content));
    NormalIsTyped(m, content);
  }

  /** Creating an entry, in every reachable state: refused for an invalid body, a missing permission, an id in use,
      or a unique value another entry holds, in this order, and for nothing else. */
  lemma {:induction false} CreateAnswer(m: Model, states: seq<Db>, requests: seq<Request>, n: nat, entry: string,
      revision: string, raw: Option<Json>, admitted: bool)
    requires FieldsValid(m.fields) && IsRun(m, states, requests) && n < |states|
    ensures PointersValid(states[n].tables) && states[n].entries.Keys == states[n].tables.drafts.Keys
    ensures ValidateContent(m.codec, raw, m.fields).Ok? ==> Typed(m.fields, ValidateContent(m.codec, raw, m.fields).value.members)
    ensures var (db, body) := (states[n], ValidateContent(m.codec, raw, m.fields));
      var answer := CreateEntry(m, db, entry, revision, raw, admitted);
      if body.Err? then answer == Err(Invalid)
      else if !admitted then answer == Err(External)
      else if entry in db.entries || revision in db.tables.revisions then answer == Err(DuplicateKey)
      else if Conflicts(m.fields, db, entry, body.value.members) then answer == Err(NotUnique)
      else answer.Ok?
  {
    ReachableSane(m, states, requests, n);
    if ValidateContent(m.codec, raw, m.fields).Ok? {
      var content := ValidateContent(m.codec, raw, m.fields).value.members;
      ValidatedIsTyped(m, raw);
      CreateStages(m, states[n], entry, revision, content, admitted);
    }
  }

  lemma {:induction false} CreateStages(m: Model, db: Db, entry: string, revision: string, content: Content,
      admitted: bool)
    requires Sane(m, db) && Typed(m.fields, content)
    ensures var answer := CreateValidated(m.fields, db, entry, revision, content, admitted);
      if !admitted then answer == Err(External)
      else if entry in db.entries || revision in db.tables.revisions then answer == Err(DuplicateKey)
      else if Conflicts(m.fields, db, entry, content) then answer == Err(NotUnique)
      else answer.Ok?
  {
    ConflictsIff(m, db, entry, content);
    ConflictIff(db.claims, entry, UniqueValues(content, m.fields));
    CreateBranches(m.fields, db, entry, revision, content, admitted, Conflicts(m.fields, db, entry, content));
  }

  /** The branches of createDraftInTx, the claims being taken or not. */
  lemma CreateBranches(fields: seq<Field>, db: Db, entry: string, revision: string, content: Content, admitted: bool,
      taken: bool)
    requires PointersValid(db.tables) && db.entries.Keys == db.tables.drafts.Keys
    requires ReplaceClaims(db.claims, entry, UniqueValues(content, fields)) == Err(NotUnique) <==> taken
    ensures var answer := CreateValidated(fields, db, entry, revision, content, admitted);
      if !admitted then answer == Err(External)
      else if entry in db.entries || revision in db.tables.revisions then answer == Err(DuplicateKey)
      else if taken then answer == Err(NotUnique)
      else answer.Ok?
  {
  }

  /** What a save checks: the new content, and the published revision if there is one. */
  ghost predicate SaveConflicts(m: Model, db: Db, entry: string, content: Content)
    requires Sane(m, db) && Typed(m.fields, content) && entry in db.entries
  {
    || Conflicts(m.fields, db, entry, content)
    || (entry in db.tables.published
        && (CurrentIsTyped(m, db, entry, db.tables.revisions[db.tables.published[entry]].content);
            Conflicts(m.fields, db, entry, db.tables.revisions[db.tables.published[entry]].content)))
  }

  /** Saving a draft, in every reachable state. */
  lemma {:induction false} SaveAnswer(m: Model, states: seq<Db>, requests: seq<Request>, n: nat, entry: string,
      revision: string, base: string, raw: Option<Json>, admitted: bool)
    requires FieldsValid(m.fields) && IsRun(m, states, requests) && n < |states| && revision != ""
    ensures Sane(m, states[n])
    ensures ValidateContent(m.codec, raw, m.fields).Ok? ==> Typed(m.fields, ValidateContent(m.codec, raw, m.fields).value.members)
    ensures var (db, body) := (states[n], ValidateContent(m.codec, raw, m.fields));
      var answer := UpdateEntry(m, db, entry, revision, base, raw, admitted);
      if base == "" then answer == Err(Required)
      else if body.Err? then answer == Err(Invalid)
      else if !admitted then answer == Err(External)
      else if entry !in db.entries then answer == Err(NotFound)
      else if db.entries[entry] then answer == Err(Archived)
      else if db.tables.drafts[entry] != base then answer == Err(DraftConflict)
      else if db.tables.revisions[base].status.PendingReview? then answer == Err(InvalidTransition)
      else if revision in db.tables.revisions then answer == Err(DuplicateKey)
      else if SaveConflicts(m, db, entry, body.value.members) then answer == Err(NotUnique)
      else answer.Ok?
  {
    ReachableSane(m, states, requests, n);
    if ValidateContent(m.codec, raw, m.fields).Ok? {
      ValidatedIsTyped(m, raw);
      var content := ValidateContent(m.codec, raw, m.fields).value.members;
      if base != "" { SaveStages(m, states[n], entry, revision, base, content, admitted); }
    }
  }

  lemma {:induction false} SaveStages(m: Model, db: Db, entry: string, revision: string, base: string,
      content: Content, admitted: bool)
    requires Sane(m, db) && Typed(m.fields, content) && revision != "" && base != ""
    ensures var answer := UpdateValidated(m.fields, db, entry, revision, base, content, admitted);
      if !admitted then answer == Err(External)
      else if entry !in db.entries then answer == Err(NotFound)
      else if db.entries[entry] then answer == Err(Archived)
      else if db.tables.drafts[entry] != base then answer == Err(DraftConflict)
      else if db.tables.revisions[base].status.PendingReview? then answer == Err(InvalidTransition)
      else if revision in db.tables.revisions then answer == Err(DuplicateKey)
      else if SaveConflicts(m, db, entry, content) then answer == Err(NotUnique)
      else answer.Ok?
  {
    if entry in db.entries {
      if SaveDraft(db.tables, entry, revision, Some(base), content).Ok? {
        SaveConflictsIff(m, db, entry, revision, base, content);
      }
      SaveBranches(m.fields, db, entry, revision, base, content, admitted, SaveConflicts(m, db, entry, content));
    }
  }

  /** The branches of UpdateEntry, the claims being taken or not. */
  lemma SaveBranches(fields: seq<Field>, db: Db, entry: string, revision: string, base: string, content: Content,
      admitted: bool, taken: bool)
    requires PointersValid(db.tables) && entry in db.entries && entry in db.tables.drafts && revision != ""
    requires base != ""
    requires var saved := SaveDraft(db.tables, entry, revision, Some(base), content);
      saved.Ok? ==>
        && PointersValid(saved.value) && entry in saved.value.drafts
        && (ReplaceClaims(db.claims, entry, CurrentClaims(fields, saved.value, entry)).Err? <==> taken)
    ensures var answer := UpdateValidated(fields, db, entry, revision, base, content, admitted);
      if !admitted then answer == Err(External)
      else if db.entries[entry] then answer == Err(Archived)
      else if db.tables.drafts[entry] != base then answer == Err(DraftConflict)
      else if db.tables.revisions[base].status.PendingReview? then answer == Err(InvalidTransition)
      else if revision in db.tables.revisions then answer == Err(DuplicateKey)
      else if taken then answer == Err(NotUnique)
      else answer.Ok?
  {
  }

  lemma {:induction false} SaveConflictsIff(m: Model, db: Db, entry: string, revision: string, base: string,
      content: Content)
    requires Sane(m, db) && Typed(m.fields, content) && entry in db.entries && revision != ""
    requires SaveDraft(db.tables, entry, revision, Some(base), content).Ok?
    ensures var u := SaveDraft(db.tables, entry, revision, Some(base), content).value;
      && PointersValid(u) && entry in u.drafts
      && (ReplaceClaims(db.claims, entry, CurrentClaims(m.fields, u, entry)).Err? <==> SaveConflicts(m, db, entry, content))
  {
    var u := SaveDraft(db.tables, entry, revision, Some(base), content).value;
    SavedClaims(m.fields, db.tables, entry, revision, base, content);
    ConflictsIff(m, db, entry, content);
    ConflictIff(db.claims, entry, CurrentClaims(m.fields, u, entry));
    if entry in db.tables.published {
      var live := db.tables.revisions[db.tables.published[entry]].content;
      CurrentIsTyped(m, db, entry, live);
      ConflictsIff(m, db, entry, live);
    }
  }

  lemma {:induction false} SavedClaims(fields: seq<Field>, t: Tables<Content>, entry: string, revision: string,
      base: string, content: Content)
    requires PointersValid(t) && revision != "" && SaveDraft(t, entry, revision, Some(base), content).Ok?
    ensures var u := SaveDraft(t, entry, revision, Some(base), content).value;
      && PointersValid(u) && entry in u.drafts
      && CurrentClaims(fields, u, entry) == UniqueValues(content, fields)
           + (if entry in t.published then UniqueValues(t.revisions[t.published[entry]].content, fields) else {})
  {
    SavePointers(t, entry, revision, Some(base), content);
  }
}
