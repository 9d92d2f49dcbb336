/** The configuration service: namespaces, items, and the revision machine with archiving. Each
    transaction is one step; a refused one changes nothing.
    `permitted` says whether the permission checks pass, `available` whether the looked-up assets and
    relation targets do. */
module ConfigurationService {
  import opened Wrappers
  import opened ConfigurationValue
  import opened RevisionWorkflow

  const MAX_ACTIVE_ITEMS: nat := 100

  /** What a revision holds: the value, and the constraints of the item when it was saved. */
  datatype Payload = Payload(value: Json, constraints: Constraints)

  datatype Namespace = Namespace(key: string, archived: bool)

  datatype Item = Item(namespaceId: string, key: string, kind: ValueType, constraints: Constraints, archived: bool)

  datatype Db = Db(namespaces: map<string, Namespace>, items: map<string, Item>, tables: Tables<Payload>)

  function ActiveItems(db: Db, ns: string): set<string> {
    set i | i in db.items && db.items[i].namespaceId == ns && !db.items[i].archived
  }

  predicate HasPublishedItems(db: Db, ns: string) {
    exists i :: i in db.tables.published && i in db.items && db.items[i].namespaceId == ns
  }

  predicate KeyTaken(db: Db, ns: string, key: string) {
    exists i :: i in db.items && db.items[i].namespaceId == ns && db.items[i].key == key
  }

  /** Locking an item looks it up by id and namespace. */
  predicate Found(db: Db, ns: string, item: string) {
    ns in db.namespaces && item in db.items && db.items[item].namespaceId == ns
  }

  predicate IsArchived(db: Db, ns: string, item: string)
    requires Found(db, ns, item)
  {
    db.namespaces[ns].archived || db.items[item].archived
  }

  function CreateNamespace(db: Db, ns: string, key: string, permitted: bool): Result<Db, Refusal> {
    if !permitted then Err(External)
    else if ns in db.namespaces || exists n :: n in db.namespaces && db.namespaces[n].key == key then Err(DuplicateKey)
    else Ok(db.(namespaces := db.namespaces[ns := Namespace(key, false)]))
  }

  function ArchiveNamespace(db: Db, ns: string, permitted: bool): Result<Db, Refusal> {
    if !permitted then Err(External)
    else if ns !in db.namespaces then Err(NotFound)
    else if db.namespaces[ns].archived then Err(Archived)
    else if ActiveItems(db, ns) != {} then Err(NotEmpty)
    else if HasPublishedItems(db, ns) then Err(NamespacePublished)
    else Ok(db.(namespaces := db.namespaces[ns := db.namespaces[ns].(archived := true)]))
  }

  function CreateItem(l: Library, db: Db, ns: string, id: string, key: string, kind: ValueType, c: Constraints,
      permitted: bool): Result<Db, Refusal> {
    if !ConstraintsValid(l, kind, c) then Err(Invalid)
    else if !permitted then Err(External)
    else if ns !in db.namespaces then Err(NotFound)
    else if db.namespaces[ns].archived then Err(Archived)
    else if |ActiveItems(db, ns)| >= MAX_ACTIVE_ITEMS then Err(Limit)
    else if id in db.items || KeyTaken(db, ns, key) then Err(DuplicateKey)
    else Ok(db.(items := db.items[id := Item(ns, key, kind, c, false)]))
  }

  /** currentRevisions: the draft, and the published revision when it is another one. */
  function CurrentRevisions(t: Tables<Payload>, item: string): seq<string> {
    if item !in t.drafts then []
    else if item in t.published && t.published[item] != t.drafts[item] then [t.drafts[item], t.published[item]]
    else [t.drafts[item]]
  }

  predicate Compatible(l: Library, db: Db, item: string, c: Constraints)
    requires PointersValid(db.tables) && item in db.items
  {
    forall r :: r in CurrentRevisions(db.tables, item) ==>
      ValidateValue(l, Stored(l, db.tables.revisions[r].content.value), db.items[item].kind, c).Ok?
  }

  function UpdateItem(l: Library, db: Db, ns: string, item: string, patch: Option<Constraints>, permitted: bool,
      available: bool): Result<Db, Refusal>
    requires PointersValid(db.tables)
  {
    if !permitted then Err(External)
    else if !Found(db, ns, item) then Err(NotFound)
    else if IsArchived(db, ns, item) then Err(Archived)
    else
      var was := db.items[item].constraints;
      var c := if patch.Some? then patch.value else was;
      if !ConstraintsValid(l, db.items[item].kind, c) then Err(Invalid)
      else if c.targetModelId.Some? && was.targetModelId.Some? && c.targetModelId != was.targetModelId && item in db.tables.drafts
      then Err(RelationLocked)
      else if c != was && !(Compatible(l, db, item, c) && available) then Err(Incompatible)
      else Ok(db.(items := db.items[item := db.items[item].(constraints := c)]))
  }

  function ArchiveItem(db: Db, ns: string, item: string, permitted: bool): Result<Db, Refusal> {
    if !permitted then Err(External)
    else if !Found(db, ns, item) then Err(NotFound)
    else if db.items[item].archived then Err(Archived)
    else if item in db.tables.published then Err(PublishedForbidden)
    else Ok(db.(items := db.items[item := db.items[item].(archived := true)]))
  }

  /** saveDraft: `base` is None for CreateDraft. */
  function SaveItemDraft(l: Library, db: Db, ns: string, item: string, revision: string, base: Option<string>, raw: Raw,
      permitted: bool, available: bool): Result<Db, Refusal>
    requires PointersValid(db.tables)
  {
    if base == Some("") then Err(Required)
    else if !permitted then Err(External)
    else if !Found(db, ns, item) then Err(NotFound)
    else if IsArchived(db, ns, item) then Err(Archived)
    else
      match ValidateValue(l, raw, db.items[item].kind, db.items[item].constraints)
      case Err(_) => Err(Invalid)
      case Ok(value) =>
        match SaveDraft(db.tables, item, revision, base, Payload(value, db.items[item].constraints))
        case Err(e) => Err(e)
        case Ok(tables) => if available then Ok(db.(tables := tables)) else Err(External)
  }

  function ItemWorkflow(db: Db, ns: string, item: string, revision: string, kind: EventKind, permitted: bool,
      available: bool): Result<Db, Refusal> {
    if revision == "" then Err(Required)
    else if !permitted then Err(External)
    else if !Found(db, ns, item) then Err(NotFound)
    else if IsArchived(db, ns, item) then Err(Archived)
    else
      match Workflow(db.tables, item, revision, kind)
      case Err(e) => Err(e)
      case Ok(tables) => if kind.Approved? && !available then Err(External) else Ok(db.(tables := tables))
  }

  // ---- what every reachable state satisfies ----

  ghost predicate ItemsValid(db: Db) {
    && (forall i :: i in db.tables.drafts ==> i in db.items)
    && (forall i :: i in db.items ==> db.items[i].namespaceId in db.namespaces)
    && (forall i, j :: i in db.items && j in db.items && i != j && db.items[i].namespaceId == db.items[j].namespaceId
          ==> db.items[i].key != db.items[j].key)
  }

  /** Archived items are unpublished, and archived namespaces hold no active items. */
  ghost predicate ArchivesValid(db: Db)
    requires ItemsValid(db)
  {
    && (forall i :: i in db.items && db.items[i].archived ==> i !in db.tables.published)
    && (forall i :: i in db.items && db.namespaces[db.items[i].namespaceId].archived ==> db.items[i].archived)
  }

  ghost predicate LimitsKept(db: Db) { forall ns :: ns in db.namespaces ==> |ActiveItems(db, ns)| <= MAX_ACTIVE_ITEMS }

  ghost predicate CurrentFits(l: Library, db: Db, r: string, item: string)
    requires r in db.tables.revisions && item in db.items
  {
    Fits(l, db.tables.revisions[r].content.value, db.items[item].kind, db.items[item].constraints)
  }

  /** The current draft and the current published value satisfy the item's current constraints. */
  ghost predicate ValuesFit(l: Library, db: Db)
    requires PointersValid(db.tables) && ItemsValid(db)
  {
    && (forall i :: i in db.tables.drafts ==> CurrentFits(l, db, db.tables.drafts[i], i))
    && (forall i :: i in db.tables.published ==> CurrentFits(l, db, db.tables.published[i], i))
  }

  ghost predicate SnapshotFits(l: Library, db: Db, r: string)
    requires r in db.tables.revisions && db.tables.revisions[r].owner in db.items
  {
    var item := db.items[db.tables.revisions[r].owner];
    var held := db.tables.revisions[r].content;
    Fits(l, held.value, item.kind, held.constraints) && held.constraints.targetModelId == item.constraints.targetModelId
  }

  /** Every revision, old or current, satisfies the constraints it was saved under, and points into
      the target model the item still has. */
  ghost predicate SnapshotsFit(l: Library, db: Db)
    requires PointersValid(db.tables) && ItemsValid(db)
  {
    forall r :: r in db.tables.revisions ==> SnapshotFits(l, db, r)
  }

  ghost predicate DefinitionsValid(l: Library, db: Db) {
    forall i :: i in db.items ==> ConstraintsValid(l, db.items[i].kind, db.items[i].constraints)
  }

  ghost predicate Structured(db: Db) {
    PointersValid(db.tables) && ItemsValid(db) && ArchivesValid(db) && LimitsKept(db)
  }

  ghost predicate Typed(l: Library, db: Db) {
    PointersValid(db.tables) && ItemsValid(db) && ValuesFit(l, db) && SnapshotsFit(l, db) && DefinitionsValid(l, db)
  }

  ghost predicate Valid(l: Library, db: Db) { Consistent(db.tables) && Structured(db) && Typed(l, db) }

  const EMPTY := Db(map[], map[], Empty())

  // ---- one lemma a step ----

  /** The refusal "published configuration must be taken down first" is unreachable for a namespace:
      without active items there is nothing published. */
  lemma {:induction false} NamespaceNeverPublished(db: Db, ns: string, permitted: bool)
    requires Structured(db)
    ensures ArchiveNamespace(db, ns, permitted) != Err(NamespacePublished)
  {
    forall i | i in db.tables.published && i in db.items && db.items[i].namespaceId == ns ensures i in ActiveItems(db, ns) {
    }
  }

  lemma {:induction false} SameLimits(db: Db, next: Db)
    requires LimitsKept(db) && next.items == db.items && next.namespaces.Keys <= db.namespaces.Keys
    ensures LimitsKept(next)
  {
    forall n | n in next.namespaces ensures |ActiveItems(next, n)| <= MAX_ACTIVE_ITEMS {
      assert ActiveItems(next, n) == ActiveItems(db, n);
    }
  }

  lemma {:induction false} FewerItems(a: set<string>, b: set<string>)
    requires a <= b
    ensures |a| <= |b|
  {
    assert b == a + (b - a);
  }

  lemma {:induction false} ReplacedLimits(db: Db, next: Db, item: string)
    requires LimitsKept(db) && next.namespaces == db.namespaces && item in db.items
    requires next.items.Keys == db.items.Keys && forall i :: i in db.items && i != item ==> next.items[i] == db.items[i]
    requires next.items[item].namespaceId == db.items[item].namespaceId
    requires (db.items[item].archived ==> next.items[item].archived)
    ensures LimitsKept(next)
  {
    forall n | n in next.namespaces ensures |ActiveItems(next, n)| <= MAX_ACTIVE_ITEMS {
      assert ActiveItems(next, n) <= ActiveItems(db, n);
      FewerItems(ActiveItems(next, n), ActiveItems(db, n));
    }
  }

  lemma {:induction false} AddedLimits(db: Db, next: Db, id: string)
    requires LimitsKept(db) && next.namespaces == db.namespaces && id !in db.items && id in next.items
    requires next.items == db.items[id := next.items[id]]
    requires |ActiveItems(db, next.items[id].namespaceId)| < MAX_ACTIVE_ITEMS
    ensures LimitsKept(next)
  {
    forall n | n in next.namespaces ensures |ActiveItems(next, n)| <= MAX_ACTIVE_ITEMS {
      assert ActiveItems(next, n) <= ActiveItems(db, n) + {id};
      FewerItems(ActiveItems(next, n), ActiveItems(db, n) + {id});
      if n != next.items[id].namespaceId { assert ActiveItems(next, n) == ActiveItems(db, n); }
    }
  }

  lemma {:induction false} NamespaceKeeps(l: Library, db: Db, ns: string, key: string, permitted: bool, next: Db)
    requires Structured(db) && Typed(l, db) && CreateNamespace(db, ns, key, permitted) == Ok(next)
    ensures Structured(next) && Typed(l, next)
  {
    assert next == db.(namespaces := next.namespaces) && ns !in db.namespaces;
    NamespaceAdded(db, ns, next.namespaces[ns]);
    SameTablesTyped(l, db, next);
  }

  lemma {:induction false} NamespaceAdded(db: Db, ns: string, n: Namespace)
    requires Structured(db) && ns !in db.namespaces
    ensures Structured(db.(namespaces := db.namespaces[ns := n]))
  {
    var next := db.(namespaces := db.namespaces[ns := n]);
    forall m | m in next.namespaces ensures |ActiveItems(next, m)| <= MAX_ACTIVE_ITEMS {
      assert ActiveItems(next, m) == ActiveItems(db, m);
      if m == ns { assert ActiveItems(db, m) == {}; }
    }
  }

  lemma {:induction false} SameTablesTyped(l: Library, db: Db, next: Db)
    requires Typed(l, db) && ItemsValid(next) && next.items == db.items && next.tables == db.tables
    ensures Typed(l, next)
  {
    assert forall r, i :: r in db.tables.revisions && i in db.items ==> CurrentFits(l, next, r, i) == CurrentFits(l, db, r, i);
    forall r | r in next.tables.revisions ensures SnapshotFits(l, next, r) { assert SnapshotFits(l, db, r); }
  }

  lemma {:induction false} ArchiveNamespaceKeeps(l: Library, db: Db, ns: string, permitted: bool, next: Db)
    requires Structured(db) && Typed(l, db) && ArchiveNamespace(db, ns, permitted) == Ok(next)
    ensures Structured(next) && Typed(l, next)
  {
    SameLimits(db, next);
    SameTablesTyped(l, db, next);
    forall i | i in next.items && next.namespaces[next.items[i].namespaceId].archived ensures next.items[i].archived {
      if next.items[i].namespaceId == ns { assert i !in ActiveItems(db, ns); }
    }
  }

  lemma {:induction false} CreateItemShape(l: Library, db: Db, ns: string, id: string, key: string, kind: ValueType,
      c: Constraints, next: Db)
    requires CreateItem(l, db, ns, id, key, kind, c, true) == Ok(next)
    ensures ConstraintsValid(l, kind, c) && ns in db.namespaces && !db.namespaces[ns].archived
    ensures id !in db.items && !KeyTaken(db, ns, key) && |ActiveItems(db, ns)| < MAX_ACTIVE_ITEMS
    ensures next == db.(items := db.items[id := Item(ns, key, kind, c, false)])
  {
  }

  lemma {:induction false} CreateItemStructured(db: Db, ns: string, id: string, key: string, kind: ValueType,
      c: Constraints)
    requires Structured(db) && ns in db.namespaces && !db.namespaces[ns].archived
    requires id !in db.items && !KeyTaken(db, ns, key) && |ActiveItems(db, ns)| < MAX_ACTIVE_ITEMS
    ensures Structured(db.(items := db.items[id := Item(ns, key, kind, c, false)]))
  {
    var next := db.(items := db.items[id := Item(ns, key, kind, c, false)]);
    AddedLimits(db, next, id);
    AddedItemsValid(db, ns, id, key, kind, c);
  }

  lemma {:induction false} AddedItemsValid(db: Db, ns: string, id: string, key: string, kind: ValueType, c: Constraints)
    requires ItemsValid(db) && ns in db.namespaces && id !in db.items && !KeyTaken(db, ns, key)
    ensures ItemsValid(db.(items := db.items[id := Item(ns, key, kind, c, false)]))
  {
    forall i | i in db.items && db.items[i].namespaceId == ns ensures db.items[i].key != key {}
  }

  /** A new item leaves every other item as it was. */
  ghost predicate OneAdded(db: Db, next: Db, id: string) {
    && PointersValid(db.tables) && ItemsValid(db) && ItemsValid(next) && id !in db.items && id in next.items && next.tables == db.tables
    && next.items == db.items[id := next.items[id]]
  }

  lemma {:induction false} AddedValues(l: Library, db: Db, next: Db, id: string)
    requires OneAdded(db, next, id) && ValuesFit(l, db)
    ensures ValuesFit(l, next)
  {
    forall i | i in next.tables.drafts ensures CurrentFits(l, next, next.tables.drafts[i], i) {
      assert CurrentFits(l, db, db.tables.drafts[i], i);
    }
    forall i | i in next.tables.published ensures CurrentFits(l, next, next.tables.published[i], i) {
      assert CurrentFits(l, db, db.tables.published[i], i);
    }
  }

  lemma {:induction false} AddedSnapshots(l: Library, db: Db, next: Db, id: string)
    requires OneAdded(db, next, id) && SnapshotsFit(l, db)
    ensures SnapshotsFit(l, next)
  {
    forall r | r in next.tables.revisions ensures SnapshotFits(l, next, r) { assert SnapshotFits(l, db, r); }
  }

  lemma {:induction false} CreateItemTyped(l: Library, db: Db, next: Db, id: string)
    requires Typed(l, db) && OneAdded(db, next, id)
    requires ConstraintsValid(l, next.items[id].kind, next.items[id].constraints)
    ensures Typed(l, next)
  {
    AddedValues(l, db, next, id);
    AddedSnapshots(l, db, next, id);
  }

  lemma {:induction false} CreateItemKeeps(l: Library, db: Db, ns: string, id: string, key: string, kind: ValueType,
      c: Constraints, next: Db)
    requires Structured(db) && Typed(l, db) && CreateItem(l, db, ns, id, key, kind, c, true) == Ok(next)
    ensures Structured(next) && Typed(l, next)
  {
    CreateItemShape(l, db, ns, id, key, kind, c, next);
    CreateItemStructured(db, ns, id, key, kind, c);
    CreateItemTyped(l, db, next, id);
  }

  /** Changing one item's constraints or archiving it leaves the structure. */
  lemma {:induction false} ReplaceItemStructured(db: Db, next: Db, item: string)
    requires Structured(db) && item in db.items && next.tables == db.tables && next.namespaces == db.namespaces
    requires next.items.Keys == db.items.Keys && forall i :: i in db.items && i != item ==> next.items[i] == db.items[i]
    requires next.items[item].namespaceId == db.items[item].namespaceId && next.items[item].key == db.items[item].key
    requires next.items[item].archived == db.items[item].archived || (next.items[item].archived && item !in db.tables.published)
    ensures Structured(next)
  {
    ReplacedLimits(db, next, item);
    forall i | i in db.items ensures next.items[i].namespaceId == db.items[i].namespaceId && next.items[i].key == db.items[i].key {
    }
    assert ItemsValid(next);
  }

  lemma {:induction false} CompatibleFits(l: Library, db: Db, item: string, c: Constraints)
    requires Typed(l, db) && item in db.items && Compatible(l, db, item, c)
    ensures item in db.tables.drafts ==> Fits(l, db.tables.revisions[db.tables.drafts[item]].content.value, db.items[item].kind, c)
    ensures item in db.tables.published ==> Fits(l, db.tables.revisions[db.tables.published[item]].content.value, db.items[item].kind, c)
  {
    if item in db.tables.drafts {
      var draft := db.tables.drafts[item];
      assert draft in CurrentRevisions(db.tables, item) && CurrentFits(l, db, draft, item);
      RecheckedFits(l, db.tables.revisions[draft].content.value, db.items[item].kind, db.items[item].constraints, c);
    }
    if item in db.tables.published {
      var live := db.tables.published[item];
      assert live in CurrentRevisions(db.tables, item) && CurrentFits(l, db, live, item);
      RecheckedFits(l, db.tables.revisions[live].content.value, db.items[item].kind, db.items[item].constraints, c);
    }
  }

  /** The item `item` alone may differ, in its constraints. */
  ghost predicate OneReplaced(l: Library, db: Db, next: Db, item: string) {
    && item in db.items && next.tables == db.tables && next.items.Keys == db.items.Keys
    && (forall i :: i in db.items && i != item ==> next.items[i] == db.items[i])
    && next.items[item].kind == db.items[item].kind
    && ConstraintsValid(l, next.items[item].kind, next.items[item].constraints)
    && (item in db.tables.drafts ==> next.items[item].constraints.targetModelId == db.items[item].constraints.targetModelId)
  }

  lemma {:induction false} ReplacedSnapshots(l: Library, db: Db, next: Db, item: string)
    requires PointersValid(db.tables) && ItemsValid(db) && ItemsValid(next) && OneReplaced(l, db, next, item)
    requires SnapshotsFit(l, db)
    ensures SnapshotsFit(l, next)
  {
    forall r | r in next.tables.revisions ensures SnapshotFits(l, next, r) {
      assert db.tables.revisions[r].owner in db.tables.drafts && SnapshotFits(l, db, r);
    }
  }

  lemma {:induction false} ReplacedValues(l: Library, db: Db, next: Db, item: string)
    requires PointersValid(db.tables) && ItemsValid(db) && ItemsValid(next) && OneReplaced(l, db, next, item)
    requires ValuesFit(l, db)
    requires item in db.tables.drafts ==> CurrentFits(l, next, db.tables.drafts[item], item)
    requires item in db.tables.published ==> CurrentFits(l, next, db.tables.published[item], item)
    ensures ValuesFit(l, next)
  {
    forall i | i in next.tables.drafts ensures CurrentFits(l, next, next.tables.drafts[i], i) {
      assert CurrentFits(l, db, db.tables.drafts[i], i);
    }
    forall i | i in next.tables.published ensures CurrentFits(l, next, next.tables.published[i], i) {
      assert CurrentFits(l, db, db.tables.published[i], i);
    }
  }

  /** An item whose constraints are replaced by ones its current values fit keeps everything typed. */
  lemma {:induction false} ReplaceItemTyped(l: Library, db: Db, next: Db, item: string)
    requires Typed(l, db) && ItemsValid(next) && OneReplaced(l, db, next, item)
    requires item in db.tables.drafts ==> CurrentFits(l, next, db.tables.drafts[item], item)
    requires item in db.tables.published ==> CurrentFits(l, next, db.tables.published[item], item)
    ensures Typed(l, next)
  {
    ReplacedSnapshots(l, db, next, item);
    ReplacedValues(l, db, next, item);
  }

  lemma {:induction false} UpdateItemShape(l: Library, db: Db, ns: string, item: string, patch: Option<Constraints>,
      available: bool, next: Db)
    requires PointersValid(db.tables) && UpdateItem(l, db, ns, item, patch, true, available) == Ok(next)
    ensures item in db.items && item in next.items
    ensures var c := next.items[item].constraints;
      && next == db.(items := db.items[item := db.items[item].(constraints := c)]) && ConstraintsValid(l, db.items[item].kind, c)
      && (c != db.items[item].constraints ==> Compatible(l, db, item, c))
      && ((c.targetModelId.Some? && db.items[item].constraints.targetModelId.Some? && item in db.tables.drafts)
          ==> c.targetModelId == db.items[item].constraints.targetModelId)
  {
  }

  lemma {:induction false} UpdateItemFits(l: Library, db: Db, item: string, next: Db)
    requires Typed(l, db) && item in db.items && item in next.items && next.tables == db.tables
    requires next.items[item].kind == db.items[item].kind
    requires next.items[item].constraints != db.items[item].constraints ==> Compatible(l, db, item, next.items[item].constraints)
    ensures item in db.tables.drafts ==> CurrentFits(l, next, db.tables.drafts[item], item)
    ensures item in db.tables.published ==> CurrentFits(l, next, db.tables.published[item], item)
  {
    if next.items[item].constraints != db.items[item].constraints {
      CompatibleFits(l, db, item, next.items[item].constraints);
    } else {
      if item in db.tables.drafts { assert CurrentFits(l, db, db.tables.drafts[item], item); }
      if item in db.tables.published { assert CurrentFits(l, db, db.tables.published[item], item); }
    }
  }

  lemma {:induction false} UpdateItemKeeps(l: Library, db: Db, ns: string, item: string, patch: Option<Constraints>,
      available: bool, next: Db)
    requires Structured(db) && Typed(l, db) && UpdateItem(l, db, ns, item, patch, true, available) == Ok(next)
    ensures Structured(next) && Typed(l, next)
  {
    UpdateItemShape(l, db, ns, item, patch, available, next);
    UpdateItemFits(l, db, item, next);
    assert ConstraintsValid(l, db.items[item].kind, db.items[item].constraints);
    ReplaceItemStructured(db, next, item);
    ReplaceItemTyped(l, db, next, item);
  }

  lemma {:induction false} ArchiveItemKeeps(l: Library, db: Db, ns: string, item: string, next: Db)
    requires Structured(db) && Typed(l, db) && ArchiveItem(db, ns, item, true) == Ok(next)
    ensures Structured(next) && Typed(l, next)
  {
    UpdateItemFits(l, db, item, next);
    ReplaceItemStructured(db, next, item);
    ReplaceItemTyped(l, db, next, item);
  }

  /** A step of the revision tables alone, by an item that is not archived. */
  lemma {:induction false} TablesStructured(db: Db, next: Db, item: string)
    requires Structured(db) && PointersValid(next.tables) && next.items == db.items && next.namespaces == db.namespaces
    requires next.tables.drafts.Keys <= db.tables.drafts.Keys + {item} && item in db.items && !db.items[item].archived
    requires next.tables.published.Keys <= db.tables.published.Keys + {item}
    ensures Structured(next)
  {
    assert ItemsValid(next);
    SameLimits(db, next);
  }

  /** A save adds one revision that fits and moves the draft pointer to it. */
  ghost predicate SavedFitting(l: Library, db: Db, next: Db, item: string, revision: string, value: Json) {
    && PointersValid(db.tables) && PointersValid(next.tables) && ItemsValid(db) && ItemsValid(next)
    && item in db.items && next.items == db.items && revision in next.tables.revisions
    && SavedAs(db.tables, next.tables, item, revision, next.tables.revisions[revision])
    && next.tables.revisions[revision].content == Payload(value, db.items[item].constraints)
    && Fits(l, value, db.items[item].kind, db.items[item].constraints)
  }

  lemma {:induction false} SaveSnapshots(l: Library, db: Db, next: Db, item: string, revision: string, value: Json)
    requires SavedFitting(l, db, next, item, revision, value) && SnapshotsFit(l, db)
    ensures SnapshotsFit(l, next)
  {
    forall r | r in next.tables.revisions ensures SnapshotFits(l, next, r) {
      if r != revision { assert SnapshotFits(l, db, r) && next.tables.revisions[r] == db.tables.revisions[r]; }
    }
  }

  lemma {:induction false} SaveValues(l: Library, db: Db, next: Db, item: string, revision: string, value: Json)
    requires SavedFitting(l, db, next, item, revision, value) && ValuesFit(l, db)
    ensures ValuesFit(l, next)
  {
    forall i | i in next.tables.drafts ensures CurrentFits(l, next, next.tables.drafts[i], i) {
      if i != item { assert CurrentFits(l, db, db.tables.drafts[i], i); }
    }
    forall i | i in next.tables.published ensures CurrentFits(l, next, next.tables.published[i], i) {
      assert CurrentFits(l, db, db.tables.published[i], i);
    }
  }

  lemma {:induction false} SaveShape(l: Library, db: Db, ns: string, item: string, revision: string,
      base: Option<string>, raw: Raw, available: bool, next: Db)
    requires PointersValid(db.tables)
    requires SaveItemDraft(l, db, ns, item, revision, base, raw, true, available) == Ok(next)
    ensures Found(db, ns, item) && !IsArchived(db, ns, item) && next.items == db.items
    ensures next.namespaces == db.namespaces
    ensures var value := ValidateValue(l, raw, db.items[item].kind, db.items[item].constraints);
      value.Ok? && SaveDraft(db.tables, item, revision, base, Payload(value.value, db.items[item].constraints)) == Ok(next.tables)
  {
  }

  lemma {:induction false} SaveKeeps(l: Library, db: Db, ns: string, item: string, revision: string,
      base: Option<string>, raw: Raw, available: bool, next: Db)
    requires Structured(db) && Typed(l, db) && revision != ""
    requires SaveItemDraft(l, db, ns, item, revision, base, raw, true, available) == Ok(next)
    ensures Structured(next) && Typed(l, next)
  {
    SaveShape(l, db, ns, item, revision, base, raw, available, next);
    var c := db.items[item].constraints;
    var value := ValidateValue(l, raw, db.items[item].kind, c).value;
    SavePointers(db.tables, item, revision, base, Payload(value, c));
    TablesStructured(db, next, item);
    AcceptedFits(l, raw, db.items[item].kind, c);
    SaveFits(l, db, next, item, revision, base, value);
  }

  lemma {:induction false} SaveFits(l: Library, db: Db, next: Db, item: string, revision: string, base: Option<string>,
      value: Json)
    requires Typed(l, db) && ItemsValid(next) && next.items == db.items && item in db.items && revision != ""
    requires SaveDraft(db.tables, item, revision, base, Payload(value, db.items[item].constraints)) == Ok(next.tables)
    requires Fits(l, value, db.items[item].kind, db.items[item].constraints)
    ensures PointersValid(next.tables) && Typed(l, next)
  {
    SavePointers(db.tables, item, revision, base, Payload(value, db.items[item].constraints));
    SaveIsSaved(db.tables, item, revision, base, Payload(value, db.items[item].constraints));
    SaveSnapshots(l, db, next, item, revision, value);
    SaveValues(l, db, next, item, revision, value);
  }

  lemma {:induction false} EffectTyped(l: Library, db: Db, next: Db, item: string, revision: string, kind: EventKind)
    requires Typed(l, db) && ItemsValid(next) && next.items == db.items && PointersValid(next.tables)
    requires Effect(db.tables, next.tables, item, revision, kind)
    ensures Typed(l, next)
  {
    assert forall r :: r in db.tables.revisions ==>
      next.tables.revisions[r].content == db.tables.revisions[r].content && next.tables.revisions[r].owner == db.tables.revisions[r].owner;
    forall i | i in next.tables.drafts ensures CurrentFits(l, next, next.tables.drafts[i], i) {
      assert CurrentFits(l, db, db.tables.drafts[i], i);
    }
    forall i | i in next.tables.published ensures CurrentFits(l, next, next.tables.published[i], i) {
      if i == item && kind.Approved? {
        assert CurrentFits(l, db, db.tables.drafts[i], i);
      } else {
        assert CurrentFits(l, db, db.tables.published[i], i);
      }
    }
    forall r | r in next.tables.revisions ensures SnapshotFits(l, next, r) { assert SnapshotFits(l, db, r); }
  }

  lemma {:induction false} ItemWorkflowShape(db: Db, ns: string, item: string, revision: string, kind: EventKind,
      available: bool, next: Db)
    requires ItemWorkflow(db, ns, item, revision, kind, true, available) == Ok(next)
    ensures Found(db, ns, item) && !IsArchived(db, ns, item) && next.items == db.items
    ensures next.namespaces == db.namespaces
    ensures Workflow(db.tables, item, revision, kind) == Ok(next.tables)
  {
  }

  lemma {:induction false} WorkflowKeeps(l: Library, db: Db, ns: string, item: string, revision: string,
      kind: EventKind, available: bool, next: Db)
    requires Structured(db) && Typed(l, db) && ItemWorkflow(db, ns, item, revision, kind, true, available) == Ok(next)
    ensures Structured(next) && Typed(l, next)
  {
    ItemWorkflowShape(db, ns, item, revision, kind, available, next);
    WorkflowPointers(db.tables, item, revision, kind);
    WorkflowEffect(db.tables, item, revision, kind);
    EffectStructured(db, next, item, revision, kind);
    EffectTyped(l, db, next, item, revision, kind);
  }

  lemma {:induction false} EffectStructured(db: Db, next: Db, item: string, revision: string, kind: EventKind)
    requires Structured(db) && PointersValid(next.tables) && next.items == db.items && next.namespaces == db.namespaces
    requires item in db.items && !db.items[item].archived && Effect(db.tables, next.tables, item, revision, kind)
    ensures Structured(next)
  {
    TablesStructured(db, next, item);
  }
}
