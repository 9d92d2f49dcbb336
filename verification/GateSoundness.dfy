/** The gate is sound: an update it lets through while content exists only loosens the field. */
module GateSoundness {
  import opened Wrappers
  import opened Decimals
  import opened FieldTree
  import opened ContentValidation
  import opened Normalization
  import opened SchemaValidation
  import opened SchemaGate

  /** Bounds not judged tighter, with every enum value kept, admit at least what they admitted. */
  lemma UntightenedIsLoosened(f: Field, required: bool, c: Constraints)
    requires BoundsAreDecimals(f.constraints) && BoundsAreDecimals(c)
    requires !OwnConstraintsTightened(f, required, c) && EnumStable(f.constraints, c)
    ensures (required ==> f.required) && ConstraintsLoosened(f.constraints, c)
  {
  }

  lemma AppendWellFormed(a: seq<Field>, b: seq<Field>)
    requires WellFormed(a) && WellFormed(b)
    requires forall i, j :: 0 <= i < |a| && 0 <= j < |b| ==> a[i].key != b[j].key
    ensures WellFormed(a + b)
  {
    assert forall f :: f in a + b ==> f in a || f in b;
  }

  lemma {:induction false} LeftoverWellFormed(existing: seq<Field>, inputs: seq<FieldInput>)
    requires WellFormed(existing)
    ensures WellFormed(Leftover(existing, inputs))
  {
    if existing != [] {
      var head, tail := existing[0], existing[1..];
      assert forall f :: f in tail ==> f in existing;
      LeftoverWellFormed(tail, inputs);
      ArchiveKeepsWellFormed(head);
      LeftoverHead(existing, inputs);
    }
  }

  /** The first child, archived if it was active, may be put in front of the rest. */
  lemma LeftoverHead(existing: seq<Field>, inputs: seq<FieldInput>)
    requires existing != [] && UniqueKeys(existing)
    requires BoundsAreDecimals(existing[0].constraints) && WellFormed(existing[0].children)
    requires WellFormed(ArchiveTree(existing[0]).children)
    requires WellFormed(Leftover(existing[1..], inputs))
    ensures WellFormed(Leftover(existing, inputs))
  {
    var rest := Leftover(existing[1..], inputs);
    forall j | 0 <= j < |rest| ensures rest[j].key != existing[0].key {
      assert rest[j] in rest;
      var f :| f in existing[1..] && f.key == rest[j].key;
    }
    var first := if existing[0].active then ArchiveTree(existing[0]) else existing[0];
    AppendWellFormed([first], rest);
  }

  lemma {:induction false} ArchiveKeepsWellFormed(f: Field)
    requires BoundsAreDecimals(f.constraints) && WellFormed(f.children)
    ensures WellFormed(ArchiveTree(f).children)
    decreases f
  {
    forall i | 0 <= i < |f.children| ensures WellFormed(ArchiveTree(f.children[i]).children) {
      ArchiveKeepsWellFormed(f.children[i]);
    }
  }

  lemma {:induction false} BuiltIsWellFormed(inputs: seq<FieldInput>, ids: string -> string)
    requires Sane(inputs)
    ensures WellFormed(BuildFields(inputs, ids))
    decreases inputs
  {
    forall i | 0 <= i < |inputs| ensures WellFormed(BuildField(inputs[i], ids).children) {
      BuiltIsWellFormed(inputs[i].children, ids);
    }
  }

  /** Reconciliation leaves distinct sibling keys and decimal bounds at every depth. */
  lemma {:induction false} ReconcileWellFormed(existing: seq<Field>, inputs: seq<FieldInput>, ids: string -> string)
    requires WellFormed(existing) && Sane(inputs) && Reconcile(existing, inputs, ids).Ok?
    ensures WellFormed(Reconcile(existing, inputs, ids).value)
    decreases inputs
  {
    var kept := ReconcileInputs(existing, inputs, ids).value;
    forall i | 0 <= i < |kept| ensures BoundsAreDecimals(kept[i].constraints) && WellFormed(kept[i].children) {
      if Lookup(existing, inputs[i].key).Some? {
        ReconcileWellFormed(Lookup(existing, inputs[i].key).value.children, inputs[i].children, ids);
      } else {
        BuiltIsWellFormed(inputs[i].children, ids);
      }
    }
    assert WellFormed(kept);
    LeftoverWellFormed(existing, inputs);
    var rest := Leftover(existing, inputs);
    forall i, j | 0 <= i < |kept| && 0 <= j < |rest| ensures kept[i].key != rest[j].key {
      assert rest[j] in rest && inputs[i] in inputs;
    }
    AppendWellFormed(kept, rest);
  }

  /** What the gate has established about the children of a field it lets through. */
  predicate ChildrenGated(existing: seq<Field>, inputs: seq<FieldInput>) {
    && !ChildTypeChanged(existing, inputs)
    && (forall child :: child in existing && child.active ==> !ChildTightened(child, LookupInput(inputs, child.key)))
    && (forall u :: u in inputs && u.required ==> HasActive(existing, u.key))
  }

  /** New active children are optional, at every level that was there before. */
  predicate AddsOptional(fields: seq<Field>, updated: seq<Field>)
    decreases updated
  {
    forall g :: g in updated && g.active ==>
      var f := ActiveField(fields, g.key);
      (f.None? ==> !g.required) && (f.Some? ==> AddsOptional(f.value.children, g.children))
  }

  lemma {:induction false} AddsNothing(fields: seq<Field>)
    requires WellFormed(fields)
    ensures AddsOptional(fields, fields)
    decreases fields
  {
    forall f | f in fields && f.active ensures ActiveField(fields, f.key) == Some(f) && AddsOptional(f.children, f.children) {
      LookupFinds(fields, f);
      AddsNothing(f.children);
    }
  }

  /** Reconciling gated children loosens them, archives none that is active and adds none that is required. */
  lemma {:induction false} ReconcileLoosens(existing: seq<Field>, inputs: seq<FieldInput>, ids: string -> string)
    requires WellFormed(existing) && Sane(inputs) && Reconcile(existing, inputs, ids).Ok?
    requires ChildrenGated(existing, inputs)
    ensures LoosensAll(existing, Reconcile(existing, inputs, ids).value)
    ensures KeepsAll(existing, Reconcile(existing, inputs, ids).value)
    ensures AddsOptional(existing, Reconcile(existing, inputs, ids).value)
    decreases inputs, 0
  {
    var result := Reconcile(existing, inputs, ids).value;
    ReconcileWellFormed(existing, inputs, ids);
    forall f | f in existing
      ensures Lookup(result, f.key).Some? && LoosensOrArchives(f, Lookup(result, f.key).value)
      ensures f.active ==> Lookup(result, f.key).value.active && KeepsAll(f.children, Lookup(result, f.key).value.children)
      ensures f.active ==> AddsOptional(f.children, Lookup(result, f.key).value.children)
    {
      if f.active {
        var u := LookupInput(inputs, f.key).value;
        LookupFinds(existing, f);
        ReconciledChildLoosens(existing, f, inputs, u, ids);
        ReconciledChildFound(existing, inputs, u, ids);
      } else {
        ArchivedChildStays(existing, f, inputs, ids);
      }
    }
    forall g | g in result && g.active
      ensures ActiveField(existing, g.key).None? ==> !g.required
      ensures Lookup(result, g.key) == Some(g)
    {
      LookupFinds(result, g);
      if ActiveField(existing, g.key).None? { NewChildIsOptional(existing, inputs, ids, g); }
    }
  }

  lemma ReconciledChildFound(existing: seq<Field>, inputs: seq<FieldInput>, u: FieldInput, ids: string -> string)
    requires Reconcile(existing, inputs, ids).Ok? && UniqueKeys(Reconcile(existing, inputs, ids).value) && u in inputs
    ensures ReconcileOne(existing, u, ids).Ok?
    ensures Lookup(Reconcile(existing, inputs, ids).value, u.key) == Some(ReconcileOne(existing, u, ids).value)
  {
    var result := Reconcile(existing, inputs, ids).value;
    var kept := ReconcileInputs(existing, inputs, ids).value;
    var i :| 0 <= i < |inputs| && inputs[i] == u;
    assert result[i] == kept[i];
    LookupFinds(result, result[i]);
  }

  lemma NewChildIsOptional(existing: seq<Field>, inputs: seq<FieldInput>, ids: string -> string, g: Field)
    requires UniqueKeys(existing) && Reconcile(existing, inputs, ids).Ok? && ChildrenGated(existing, inputs)
    requires g in Reconcile(existing, inputs, ids).value && g.active && ActiveField(existing, g.key).None?
    ensures !g.required
  {
    var kept := ReconcileInputs(existing, inputs, ids).value;
    var i :| 0 <= i < |kept| && kept[i] == g;
    if inputs[i].required {
      var f :| f in existing && f.active && f.key == inputs[i].key;
      LookupFinds(existing, f);
    }
  }

  /** No input may name an archived child, so it is carried over as it is. */
  lemma ArchivedChildStays(existing: seq<Field>, f: Field, inputs: seq<FieldInput>, ids: string -> string)
    requires UniqueKeys(existing) && Reconcile(existing, inputs, ids).Ok?
    requires UniqueKeys(Reconcile(existing, inputs, ids).value)
    requires f in existing && !f.active
    ensures Lookup(Reconcile(existing, inputs, ids).value, f.key) == Some(f)
  {
    LookupFinds(existing, f);
    assert forall i :: 0 <= i < |inputs| && inputs[i].key == f.key ==> ReconcileOne(existing, inputs[i], ids).Err?;
    LeftoverKeeps(existing, f, inputs);
    LookupFinds(Reconcile(existing, inputs, ids).value, f);
  }

  lemma {:induction false} LeftoverKeeps(existing: seq<Field>, f: Field, inputs: seq<FieldInput>)
    requires f in existing && !f.active && LookupInput(inputs, f.key).None?
    ensures f in Leftover(existing, inputs)
  {
    if existing[0] != f { LeftoverKeeps(existing[1..], f, inputs); }
  }

  lemma {:induction false} ReconciledChildLoosens(existing: seq<Field>, f: Field, inputs: seq<FieldInput>,
      u: FieldInput, ids: string -> string)
    requires WellFormed(existing) && Sane(inputs) && f in existing && f.active && u in inputs
    requires Lookup(existing, u.key) == Some(f) && LookupInput(inputs, f.key) == Some(u)
    requires ChildrenGated(existing, inputs) && ReconcileOne(existing, u, ids).Ok?
    ensures var g := ReconcileOne(existing, u, ids).value;
      Loosens(f, g) && KeepsAll(f.children, g.children) && AddsOptional(f.children, g.children)
    decreases inputs, 0, u
  {
    assert !ChildTightened(f, Some(u)) && !FieldSchemaTightened(f, u);
    UntightenedIsLoosened(f, u.required, u.constraints);
    ReconcileLoosens(f.children, u.children, ids);
  }

  /** An update leaves a well-formed subtree, gated or not. */
  lemma UpdateWellFormed(c: Codec, f: Field, depth: nat, patch: Patch, contentExists: bool, ids: string -> string)
    requires WellFormed(f.children) && UpdateField(c, f, depth, patch, contentExists, ids).Ok?
    ensures var g := UpdateField(c, f, depth, patch, contentExists, ids).value;
      g.key == f.key && g.active && BoundsAreDecimals(g.constraints) && WellFormed(g.children)
  {
    var input := ValidateField(c, PatchedInput(f, patch), depth).value;
    ValidatedInputIsSane(c, PatchedInput(f, patch), depth);
    if patch.children.Some? { ReconcileWellFormed(f.children, input.children, ids); }
  }

  /** The patched field loosens the stored one, archives no active child and adds no required one. */
  lemma UpdateLoosens(c: Codec, f: Field, depth: nat, patch: Patch, ids: string -> string)
    requires BoundsAreDecimals(f.constraints) && WellFormed(f.children)
    requires UpdateField(c, f, depth, patch, true, ids).Ok?
    ensures var g := UpdateField(c, f, depth, patch, true, ids).value;
      Loosens(f, g) && KeepsAll(f.children, g.children) && AddsOptional(f.children, g.children)
  {
    var input := ValidateField(c, PatchedInput(f, patch), depth).value;
    ValidatedInputIsSane(c, PatchedInput(f, patch), depth);
    UntightenedIsLoosened(f, input.required, input.constraints);
    if patch.children.Some? {
      ReconcileLoosens(f.children, input.children, ids);
    } else {
      LoosensReflexive(c, f.children);
      AddsNothing(f.children);
    }
  }
}
