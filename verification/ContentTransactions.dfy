/** The content transactions as they run: row by row, with rollback. Each is proved to do exactly
    what its function in ContentService says. */
module ContentTransactions {
  import opened Wrappers
  import opened FieldTree
  import opened ContentValidation
  import opened RevisionWorkflow
  import opened ContentService
  import ContentValidator

  predicate DistinctFieldIds(fields: seq<Field>) {
    forall i, j :: 0 <= i < j < |fields| ==> fields[i].id != fields[j].id
  }

  function Rows(values: seq<Claim>): set<Claim> { set v | v in values }

  lemma {:induction false} OneMoreField(content: Content, fields: seq<Field>, i: nat)
    requires i < |fields|
    ensures UniqueValues(content, fields[..i + 1])
      == UniqueValues(content, fields[..i]) + (if Claims(content, fields[i]) then {ClaimOf(content, fields[i])} else {})
  {
    assert fields[..i + 1] == fields[..i] + [fields[i]];
    forall k | k in UniqueValues(content, fields[..i + 1])
      ensures k in UniqueValues(content, fields[..i]) || (Claims(content, fields[i]) && k == ClaimOf(content, fields[i]))
    {
      var f :| f in fields[..i + 1] && Claims(content, f) && k == ClaimOf(content, f);
      if f != fields[i] { assert f in fields[..i]; }
    }
    assert fields[i] in fields[..i + 1];
  }

  /** uniqueValues: one claim a field, in field order. */
  method CollectUniqueValues(content: Content, fields: seq<Field>) returns (values: seq<Claim>)
    ensures Rows(values) == UniqueValues(content, fields)
    ensures DistinctFieldIds(fields) ==> forall i, j :: 0 <= i < j < |values| ==> values[i] != values[j]
  {
    values := [];
    for i := 0 to |fields|
      invariant Rows(values) == UniqueValues(content, fields[..i])
      invariant forall v :: v in values ==> exists f :: f in fields[..i] && f.id == v.fieldId
      invariant DistinctFieldIds(fields) ==> forall k, l :: 0 <= k < l < |values| ==> values[k] != values[l]
    {
      OneMoreField(content, fields, i);
      assert fields[..i + 1] == fields[..i] + [fields[i]];
      if Claims(content, fields[i]) {
        var next := values + [ClaimOf(content, fields[i])];
        assert Rows(next) == Rows(values) + {ClaimOf(content, fields[i])};
        values := next;
      }
    }
    assert fields[..|fields|] == fields;
  }

  function Inserted(claims: map<Claim, string>, values: seq<Claim>, entry: string): map<Claim, string> {
    claims + map v | v in Rows(values) :: entry
  }

  lemma {:induction false} InsertedOneMore(claims: map<Claim, string>, values: seq<Claim>, i: nat, entry: string)
    requires i < |values|
    ensures Inserted(claims, values[..i + 1], entry) == Inserted(claims, values[..i], entry)[values[i] := entry]
    ensures values[..i + 1] == values[..i] + [values[i]]
    ensures values[i] in Inserted(claims, values[..i], entry) <==> values[i] in claims || values[i] in values[..i]
  {
    assert values[..i + 1] == values[..i] + [values[i]];
    assert Rows(values[..i + 1]) == Rows(values[..i]) + {values[i]};
  }

  class Service {
    const model: Model
    const repository: Repository<Content>
    var entries: map<string, bool>
    var claims: map<Claim, string>

    ghost function State(): Db
      reads this, repository
    {
      Db(entries, repository.State(), claims)
    }

    /** Revision pointers are foreign keys; the schema keeps keys and ids unique. */
    ghost predicate Ready()
      reads this, repository
    {
      PointersValid(repository.State()) && WellFormed(model.fields) && DistinctFieldIds(model.fields)
    }

    constructor (model: Model)
      ensures State() == EMPTY && this.model == model && fresh(repository)
    {
      this.model := model;
      repository := new Repository<Content>();
      entries, claims := map[], map[];
    }

    method Rollback(entries: map<string, bool>, claims: map<Claim, string>, tables: Tables<Content>)
      modifies this, repository
      ensures State() == Db(entries, tables, claims)
    {
      this.entries, this.claims := entries, claims;
      repository.revisions, repository.drafts := tables.revisions, tables.drafts;
      repository.published, repository.events := tables.published, tables.events;
    }

    method DeleteUniqueValues(entry: string)
      modifies this`claims
      ensures claims == Released(old(claims), entry)
    {
      claims := map k | k in claims && claims[k] != entry :: claims[k];
    }

    /** Deletes the entry's rows and inserts the new ones, stopping at the first duplicate key; what a
        refusal leaves is rolled back by the caller. */
    method ReplaceUniqueValues(entry: string, values: seq<Claim>) returns (ok: bool)
      requires forall i, j :: 0 <= i < j < |values| ==> values[i] != values[j]
      modifies this`claims
      ensures if ok then ReplaceClaims(old(claims), entry, Rows(values)) == Ok(claims)
              else ReplaceClaims(old(claims), entry, Rows(values)) == Err(NotUnique)
    {
      DeleteUniqueValues(entry);
      ghost var freed := claims;
      for i := 0 to |values|
        invariant forall v :: v in values[..i] ==> v !in freed
        invariant claims == Inserted(freed, values[..i], entry)
      {
        InsertedOneMore(freed, values, i, entry);
        if values[i] in claims {
          assert values[i] in freed && values[i] in Rows(values);
          return false;
        }
        claims := claims[values[i] := entry];
      }
      assert values[..|values|] == values;
      return true;
    }

    /** rebuildUniqueValues: the claims of the draft, then those of the published revision not seen yet. */
    method RebuildUniqueValues(entry: string) returns (ok: bool)
      requires Ready() && entry in repository.drafts
      modifies this`claims
      ensures if ok then Rebuild(model.fields, old(State()), entry) == Ok(State())
              else Rebuild(model.fields, old(State()), entry) == Err(NotUnique)
    {
      var all := CollectUniqueValues(repository.revisions[repository.drafts[entry]].content, model.fields);
      ghost var drafted := Rows(all);
      if entry in repository.published {
        var values := CollectUniqueValues(repository.revisions[repository.published[entry]].content, model.fields);
        for i := 0 to |values|
          invariant Rows(all) == drafted + Rows(values[..i])
          invariant forall k, l :: 0 <= k < l < |all| ==> all[k] != all[l]
        {
          assert values[..i + 1] == values[..i] + [values[i]];
          assert Rows(values[..i + 1]) == Rows(values[..i]) + {values[i]};
          if values[i] !in all {
            assert Rows(all + [values[i]]) == Rows(all) + {values[i]};
            all := all + [values[i]];
          } else {
            assert values[i] in Rows(all);
          }
        }
        assert values[..|values|] == values;
      }
      assert Rows(all) == CurrentClaims(model.fields, repository.State(), entry);
      ok := ReplaceUniqueValues(entry, all);
    }

    /** createDraftInTx. */
    method CreateEntry(entry: string, revision: string, raw: Option<Json>, admitted: bool)
      returns (refusal: Option<Refusal>)
      requires Ready() && revision != ""
      modifies this, repository
      ensures Ready()
      ensures refusal.None? ==> ContentService.CreateEntry(model, old(State()), entry, revision, raw, admitted) == Ok(State())
      ensures refusal.Some? ==> State() == old(State())
      ensures refusal.Some? ==> ContentService.CreateEntry(model, old(State()), entry, revision, raw, admitted) == Err(refusal.value)
    {
      var content, failures := ContentValidator.Validate(model.codec, raw, model.fields);
      if content.Err? { return Some(Invalid); }
      if !admitted { return Some(External); }
      if entry in entries { return Some(DuplicateKey); }
      var entries0, claims0 := entries, claims;
      var tables0 := Tables(repository.revisions, repository.drafts, repository.published, repository.events);
      SavePointersIfSaved(tables0, entry, revision, None, content.value.members);
      entries := entries[entry := false];
      refusal := repository.Save(entry, revision, None, content.value.members);
      if refusal.Some? {
        Rollback(entries0, claims0, tables0);
        return;
      }
      var values := CollectUniqueValues(content.value.members, model.fields);
      var ok := ReplaceUniqueValues(entry, values);
      if !ok {
        Rollback(entries0, claims0, tables0);
        return Some(NotUnique);
      }
    }

    method UpdateEntry(entry: string, revision: string, base: string, raw: Option<Json>, admitted: bool)
      returns (refusal: Option<Refusal>)
      requires Ready() && revision != ""
      modifies this, repository
      ensures Ready()
      ensures refusal.None? ==> ContentService.UpdateEntry(model, old(State()), entry, revision, base, raw, admitted) == Ok(State())
      ensures refusal.Some? ==> State() == old(State())
      ensures refusal.Some? ==> ContentService.UpdateEntry(model, old(State()), entry, revision, base, raw, admitted) == Err(refusal.value)
    {
      if base == "" { return Some(Required); }
      var content, failures := ContentValidator.Validate(model.codec, raw, model.fields);
      if content.Err? { return Some(Invalid); }
      if !admitted { return Some(External); }
      if entry !in entries { return Some(NotFound); }
      if entries[entry] { return Some(Archived); }
      var entries0, claims0 := entries, claims;
      var tables0 := Tables(repository.revisions, repository.drafts, repository.published, repository.events);
      SavePointersIfSaved(tables0, entry, revision, Some(base), content.value.members);
      refusal := repository.Save(entry, revision, Some(base), content.value.members);
      if refusal.Some? { return; }
      var ok := RebuildUniqueValues(entry);
      if !ok {
        Rollback(entries0, claims0, tables0);
        return Some(NotUnique);
      }
    }

    method Workflow(entry: string, revision: string, kind: EventKind, admitted: bool) returns (refusal: Option<Refusal>)
      requires Ready()
      modifies this, repository
      ensures Ready()
      ensures refusal.None? ==> ContentService.RunWorkflow(model.fields, old(State()), entry, revision, kind, admitted) == Ok(State())
      ensures refusal.Some? ==> State() == old(State())
      ensures refusal.Some? ==>
        ContentService.RunWorkflow(model.fields, old(State()), entry, revision, kind, admitted) == Err(refusal.value)
    {
      if revision == "" { return Some(Required); }
      if !admitted { return Some(External); }
      if entry !in entries { return Some(NotFound); }
      var entries0, claims0 := entries, claims;
      var tables0 := Tables(repository.revisions, repository.drafts, repository.published, repository.events);
      refusal := repository.RunWorkflow(entry, revision, kind);
      if refusal.Some? { return; }
      WorkflowPointers(tables0, entry, revision, kind);
      if kind.Approved? || kind.TakenDown? {
        var ok := RebuildUniqueValues(entry);
        if !ok {
          Rollback(entries0, claims0, tables0);
          return Some(NotUnique);
        }
      }
    }

    method ArchiveEntry(entry: string, admitted: bool) returns (refusal: Option<Refusal>)
      modifies this
      ensures refusal.None? ==> ContentService.ArchiveEntry(old(State()), entry, admitted) == Ok(State())
      ensures refusal.Some? ==> State() == old(State()) && ContentService.ArchiveEntry(old(State()), entry, admitted) == Err(refusal.value)
    {
      if !admitted { return Some(External); }
      if entry !in entries { return Some(NotFound); }
      if entries[entry] { return Some(Archived); }
      if entry in repository.published { return Some(PublishedForbidden); }
      entries := entries[entry := true];
      DeleteUniqueValues(entry);
      return None;
    }

    /** ImportDrafts: the rows in order; the first refusal takes back the rows before it. */
    method ImportDrafts(drafts: seq<ContentService.Draft>, admitted: bool) returns (refusal: Option<Refusal>)
      requires Ready() && forall d :: d in drafts ==> d.revision != ""
      modifies this, repository
      ensures Ready()
      ensures refusal.None? ==> Import(model, old(State()), drafts, admitted) == Ok(State())
      ensures refusal.Some? ==> State() == old(State()) && Import(model, old(State()), drafts, admitted) == Err(refusal.value)
    {
      var entries0, claims0 := entries, claims;
      var tables0 := Tables(repository.revisions, repository.drafts, repository.published, repository.events);
      for i := 0 to |drafts|
        invariant Ready()
        invariant Import(model, old(State()), drafts, admitted) == Import(model, State(), drafts[i..], admitted)
      {
        assert drafts[i..][0] == drafts[i] && drafts[i..][1..] == drafts[i + 1..];
        refusal := CreateEntry(drafts[i].entry, drafts[i].revision, drafts[i].raw, admitted);
        if refusal.Some? {
          Rollback(entries0, claims0, tables0);
          return;
        }
      }
      return None;
    }
  }

  lemma {:induction false} SavePointersIfSaved(t: Tables<Content>, entry: string, revision: string,
      base: Option<string>, content: Content)
    requires PointersValid(t) && revision != ""
    ensures SaveDraft(t, entry, revision, base, content).Ok?
      ==> PointersValid(SaveDraft(t, entry, revision, base, content).value)
          && entry in SaveDraft(t, entry, revision, base, content).value.drafts
  {
    if SaveDraft(t, entry, revision, base, content).Ok? { SavePointers(t, entry, revision, base, content); }
  }
}
