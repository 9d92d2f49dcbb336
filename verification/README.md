# A verified model of the CMS back end

The back end keeps its state in SQL tables and decides in Go what may be written to them. These Dafny
modules model the decisions and the protocols around the tables and prove what they keep: that a schema
update never invalidates stored content, that following cursors delivers every row once, that revisions,
pointers, events and unique-value claims stay consistent over any run, that the request protection
never lets more calls through than its buckets allow, that a crash never makes a migration start twice, that an
operator can neither give nor take a permission it does not have, that reordering never makes two
fields collide, and that the CSV reader cuts off exactly the records that are too large.

A database transaction is one step that changes nothing when it is refused. Rows are maps, JSON is a
recursive datatype with members as a map, SHA-256 digests are taken as injective. Code that computes a value
is a function; code that changes things step by step is a method or a class whose contract ties the
new state to a specification function, and the properties are lemmas about those functions and about
runs: sequences of states in which each follows from the one before by any request.

| Part | Modules |
|---|---|
| Values and fields | `Wrappers`, `Decimals`, `FieldTree` |
| Content validation and schema evolution | `ContentValidation`, `ContentValidator`, `ContentProjection`, `ContentMeaning`, `Normalization`, `SchemaValidation`, `SchemaGate`, `GateSoundness`, `GateAnswers`, `SchemaService`, `SchemaAnswers`, `SchemaRuns`, `SchemaGaps`, `SchemaDefaults`, `SchemaTransactions` |
| References and the import pre-check | `ContentReferences`, `ImportPrecheck`, `DefaultReferences` |
| Paging | `KeysetPredicate`, `Paging`, `Listing` |
| Revisions, workflow and claims | `RevisionWorkflow`, `ContentService`, `ContentRuns`, `ContentTransactions`, `UniqueConflicts`, `ContentAnswers`, `WorkflowLaws` |
| Configuration | `ConfigurationValue`, `ConfigurationService`, `ConfigurationRuns`, `ConfigurationHistory`, `ConfigurationMeaning`, `ConfigurationAnswers` |
| Protection of the content API | `Protection`, `ProtectionRuns`, `ProtectionLimiter`, `ProtectionAnswers` |
| CSV record limit | `RecordLimiter` |
| Migrations | `Migrations` |
| Roles and delegation | `Delegation`, `RoleService`, `RoleTransactions`, `RoleAnswers` |
| Field order | `FieldOrder`, `FieldReconciliation`, `FieldRuns`, `FieldForest`, `ModelDesigner` |

Library code stands behind functions whose properties are named where they are used:
`ContentValidation.Sound` (the HTML sanitiser and the formatting of instants are idempotent),
`ImportPrecheck.SanitizerKeepsAssets` (sanitising adds no media element), `ConfigurationValue.Sound` (no
JSON text is empty).

Where the code and what one would expect of it differ, the code is modelled, and the difference is
stated with its exact condition:

- A rich text is measured before it is sanitised, so a stored text can be over the limit; content is
  refused on re-validation exactly then (`Normalization.RevalidationIsIdempotent`,
  `Normalization.GrowingRichTextIsRefusedLater`).
- Creating a field is not gated by existing content. It breaks exactly the content with an object that gets the
  new field, when the field is required without a default or its default is not strict
  (`SchemaGaps.CreationKeepsContentIff`).
- Dropping the default of a required field is not judged a tightening. It breaks exactly the content in which some
  object lacks the field (`SchemaGaps.DroppingDefaultKeepsContentIff`).
- The schema's check of a default is weaker than the content check: it lets through null for a required child, a
  nested time finer than a microsecond, and a member that names an archived child, since archived children are
  among those it reads. A saved default passes the content check exactly when it has none of these
  (`SchemaDefaults.UpdatedDefaultPassesIff`, `SchemaDefaults.CreatedDefaultPassesIff`), and a gated update that
  gives such a default breaks content stored before (`SchemaGaps.GivingSuchDefaultBreaksContent`).
- A patch that leaves the children of a field alone is judged with its archived children among the new ones. With
  content present a field that has an archived required child therefore refuses every such patch
  (`GateAnswers.ArchivedRequiredChildBlocks`).
- The default of an object is not validated again when one of its children is given another type, so a default can
  come to name an asset; an import is refused exactly when a default filled into a draft names an asset the draft
  does not (`DefaultReferences.PrecheckCoversWriteIff`, `DefaultReferences.RetypedChildMeetsConflict`).
- The cursor predicate has more arguments than placeholders exactly when a descending column other
  than the first is NULL at the cursor (`KeysetPredicate.AlignedIff`, `Paging.NullEndsPaging`).
- The content workflow ignores the archive flag, so an entry archived while under review can still be
  published (`ContentRuns.ArchivedUnpublishedKeptIff`, `ContentRuns.ArchivedEntryCanBePublished`).
- An empty list of a multi-valued configuration item is stored as null, even when a value is required
  (`ConfigurationValue.RequiredNullIff`, `ConfigurationRuns.CurrentValueRevalidatesIff`).

## Model

| member | source | states |
|---|---|---|
| `ContentValidator.Validate` | internal/content/validation.go:24-54 | the loops over members and fields return the normal form of the body or the error class of the refusal, and record a failure exactly when they refuse |
| `ContentValidator.ValidateObject` | internal/content/validation.go:184-227 | the failures stay as they were exactly when the members are acceptable, and the result map is the normal form: accepted members and filled defaults |
| `ContentValidator.ValidateValue` | internal/content/validation.go:229-384 | for every field type, a failure is added exactly when the value is not acceptable, and the returned value is the normal form either way |
| `ContentValidator.ValidateIds` | internal/content/validation.go:238-281 | a media or relation list passes exactly when it has at most fifty entries, all non-empty texts, none twice |
| `ContentMeaning.AcceptedIff` | internal/content/validation.go:24-54 | content is accepted exactly when every member belongs to an active field, every required field is there and not null, and each value, a filled default included, is one its field takes: texts and numbers between the bounds, listed options, distinct ids, objects likewise at every depth |
| `ContentMeaning.StoredForAccepted` | internal/content/validation.go:184-384 | what is stored has a member for each active field that was given or has a default, and no other: rich texts sanitised, zeros as 0, times formatted, anything else as it came |
| `ContentMeaning.StoredContentHolds` | internal/content/service.go:361-566 | over any run of schema operations and writes, everything ever stored was written under some tree of the run, and has its root values inside the constraints of that tree |
| `Normalization.NormalizeObjectIdempotent` | internal/content/validation.go:184-227 | normalising content that is already normal changes nothing, at any depth |
| `Normalization.RevalidationIsIdempotent` | internal/content/validation.go:24-54 | validating stored content again returns it unchanged, and is refused exactly when a stored rich text is over the length limit |
| `Normalization.GrowingRichTextIsRefusedLater` | internal/content/richtext_html.go:45-54 | every text that grows beyond the limit when sanitised is accepted once and refused from then on |
| `Normalization.PreserveObject` | internal/content/validation.go:184-384 | content stored under one field tree and projected to a loosened tree is accepted there exactly when its rich texts fit and every object in it may lack the fields it lacks |
| `Normalization.LoosensAllTransitive` | internal/schema/service.go:722-749 | loosenings compose: constraints that only widen, twice, only widen |
| `ContentProjection.ProjectionIsIdempotent` | internal/content/published_reader.go:658-728 | projecting content to its active fields a second time neither fails nor changes it |
| `ContentReferences.ProjectionShowsActive` | internal/content/published_reader.go:658-728 | published content has a value at a place exactly when the stored content has one there and every member on the way is an active field's, and texts, numbers and truth values are unchanged |
| `ContentReferences.Walk` | internal/content/validation.go:386-427 | the walk appends the references of an object in field order, with their pointers and positions, at any depth |
| `ContentReferences.ObjectRefIff` | internal/content/validation.go:386-427 | which references an object has: a media id, an entry of a media list at its position, a mention in a rich text, below active fields that are not null, and no other |
| `ContentReferences.ProjectionKeepsReferences` | internal/content/published_reader.go:658-728 | reading media references off the projected content gives exactly the references of the stored content |
| `GateSoundness.UpdateLoosens` | internal/schema/service.go:431-462 | an update that passes the gate while content exists turns the field into one that accepts whatever it accepted, archives no active child and adds no required one, at any depth |
| `GateSoundness.ReconcileLoosens` | internal/schema/service.go:524-581 | reconciling children that are not tightened, keep their types and their enum options loosens the child list |
| `GateAnswers.UpdateAnswer` | internal/schema/service.go:352-496 | a complete patch with a valid input is refused, in this order, for a removed option; with content present for a changed kind, for asking more of a value (`required` raised, a bound tighter, another target, an active child missing or asking more, a new required child) and for an added projection; for a key in use; and otherwise commits |
| `GateAnswers.GateCommitsIff` | internal/schema/service.go:431-462 | with content present such a patch commits exactly when none of these reasons holds: the gate lets every loosening pass |
| `GateAnswers.ArchivedRequiredChildBlocks` | internal/schema/service.go:722-749 | while content exists, a field with an archived required child refuses every patch that leaves the children alone |
| `SchemaRuns.GateIsSound` | internal/schema/service.go:352-496 | every output of validation under the old tree is accepted, unprojected, under the tree a gated update leaves, exactly when its rich texts fit and every object in it may lack the fields it lacks |
| `SchemaRuns.StrictPatchesBreakNothing` | internal/schema/service.go:352-496 | when the defaults that a gated patch gives to fields without one are strict, every output of validation under the old tree stays valid, rich texts aside |
| `SchemaRuns.LackingContentNeedsStrictDefault` | internal/schema/service.go:352-496 | content that lacks a root field is accepted after a gated patch of the field exactly when the default it has then is strict, rich texts aside |
| `SchemaRuns.StoredContentSurvivesRuns` | internal/schema/service.go:199-522 | over any run of any schema operations and writes, from the creation of the model, everything ever stored stays readable, and valid exactly when its rich texts fit and each field some object lacks is optional without a default or has a default that passes |
| `SchemaGaps.CreationKeepsContentIff` | internal/schema/service.go:199-350 | creating a root or child field keeps stored content valid, rich texts aside, exactly when the content has no object that gets the field, or the field is optional without a default, or its default is strict |
| `SchemaGaps.DroppingDefaultKeepsContentIff` | internal/schema/service.go:722-749 | after dropping the default of a field at any depth content is still accepted exactly when the field is optional or every object that can have it does, those filled from defaults included |
| `SchemaGaps.GivingSuchDefaultBreaksContent` | internal/schema/service.go:701-707 | a run that creates an object, archives its child, stores content and then gives the object a default naming that child commits, and the stored content is refused |
| `SchemaDefaults.UpdatedDefaultPassesIff` | internal/schema/validation.go:139-283 | the default an update leaves, archived children included, passes content validation exactly when it and what is filled into it name no archived child, hold no null for a required child and no nested time finer than a microsecond |
| `SchemaDefaults.CreatedDefaultPassesIff` | internal/schema/validation.go:139-283 | so does the default of a created field |
| `SchemaDefaults.RewriteStaysValid` | internal/schema/validation.go:43-283 | a validated input, its defaults rewritten to the stored form at every depth, is valid in turn |
| `SchemaValidation.ValidatedInputIsSane` | internal/schema/validation.go:43-137 | a validated field input has distinct sibling keys and decimal bounds at every depth |
| `SchemaAnswers.ValidatedIff` | internal/schema/validation.go:43-283 | an input is valid exactly when at every depth its key is well formed and used once, it has only the constraints of its type, with bounds in order and distinct options, and its default is null or a value inside them, with no member that is not a child |
| `SchemaAnswers.CreateAnswer` | internal/schema/service.go:199-240 | a root field is built behind the others exactly when the input is valid and no key of its tree is in use anywhere in the model |
| `SchemaAnswers.CreateChildAnswer` | internal/schema/service.go:293-350 | the answers of creating a child field, in order, and that a committed one changes nothing but the children of its parent |
| `SchemaAnswers.ArchiveAnswer` | internal/schema/service.go:498-522 | an active field is replaced by a copy archived at every depth, and every other field of the tree is as it was |
| `SchemaAnswers.ReconcileResult` | internal/schema/service.go:524-581 | reconciled children: one active field for each input, in order, with the attributes of the input and the id and type of the field it names; behind them the children that no input names, archived with all below them |
| `SchemaAnswers.UpdateResult` | internal/schema/service.go:352-496 | a committed update leaves the field with what the patch says and keeps what it leaves out, and changes no other field of the tree |
| `SchemaService.StepLoosens` | internal/schema/service.go:199-522 | with content present every committed operation loosens the whole tree |
| `SchemaService.StepKeepsWellFormed` | internal/schema/service.go:199-522 | with content or without, every committed operation leaves distinct sibling keys and decimal bounds at every depth |
| `SchemaTransactions.UpdateOne` | internal/schema/service.go:352-496 | the checks run in the order of the source and leave exactly the specified refusal or field |
| `SchemaTransactions.ReconcileTree` | internal/schema/service.go:524-581 | the loop over the inputs with its recursion builds the specified children, or stops at the first refusal |
| `SchemaTransactions.Model.Update` | internal/schema/service.go:352-496 | the tree changes at the path of the field only, and not at all when the update is refused |
| `SchemaTransactions.Model.Create` | internal/schema/service.go:199-240 | the built field is appended, or nothing changes |
| `SchemaTransactions.Model.CreateChild` | internal/schema/service.go:293-350 | the built field is appended to its active parent, or nothing changes |
| `SchemaTransactions.Model.Archive` | internal/schema/service.go:498-522 | the field is archived with its subtree, or nothing changes |
| `DefaultReferences.PrecheckCoversWriteIff` | internal/content/service.go:425-434 | for any reachable schema that then stays unchanged the relation conflict of an import never fires, and the asset conflict exactly when a default filled into the draft names an asset the draft does not |
| `ImportPrecheck.NoNamesNoConflict` | internal/content/service.go:425-434 | while no default of the tree, read through its current children, names an asset, no draft meets the asset conflict |
| `ImportPrecheck.EmptyDraftConflictIff` | internal/content/service.go:425-434 | an empty draft meets the asset conflict exactly when a root default, filled in, names an asset |
| `ImportPrecheck.ObjectAssetsBetween` | internal/content/service.go:753-818 | the assets of the validated content are those of the filled defaults and otherwise only assets collected from the raw draft, at any depth |
| `ImportPrecheck.StoredTargetIff` | internal/content/service.go:753-818 | the entries stored content refers to are exactly those its active root relations name, each in the model its field points to |
| `DefaultReferences.StepNamesNothingIff` | internal/schema/service.go:199-522 | if no default named an asset before an operation, none does after it exactly when the defaults above the changed field, read through the changed children, name none |
| `DefaultReferences.RetypedChildMeetsConflict` | internal/schema/service.go:352-496 | a run that gives an object a default for a text child and then turns the child into a media field makes the import of an empty draft fail |
| `KeysetPredicate.CursorPredicate` | internal/content/published_reader.go:890-924 | the loop builds the specified OR of ANDs and its argument list |
| `KeysetPredicate.AlignedIff` | internal/content/published_reader.go:898-906 | placeholders and arguments are equal in number exactly when no descending column after the first is NULL at the cursor |
| `KeysetPredicate.ClauseMeansAfter` | internal/content/published_reader.go:890-924 | when aligned, the condition is true of a row, in three-valued logic, exactly when the row comes strictly after the cursor in the mixed ascending and descending order with NULL lowest |
| `KeysetPredicate.AfterTotal` | internal/content/published_reader.go:890-924 | of two rows with different order columns one comes after the other |
| `KeysetPredicate.AfterTransitive` | internal/content/published_reader.go:890-924 | coming after is transitive for any mix of directions and NULLs |
| `Listing.ListingIsUnique` | internal/content/published_reader.go:196-220 | the id being among the order columns, the matching entries have exactly one strictly sorted listing, in whatever order the table holds them |
| `Listing.ListEntries` | internal/content/published_reader.go:189-290 | one request answers with the page of the unique sorted listing behind the cursor, or refuses the cursor |
| `Listing.ListedInOrder` | internal/content/published_reader.go:196-220 | one row for every matching entry; without a requested sort an earlier row has a later time, or the same and a greater id; in a sorted one the first requested item on which two rows differ decides, in its direction and with NULL lowest, and then the id in the direction of the last item |
| `Listing.PagesListEveryEntry` | internal/content/published_reader.go:241-286 | following the cursors from the start delivers every matching entry exactly once in that order, exactly when every page ends on a safe cursor |
| `Listing.DefaultListingNeverFails` | internal/content/repository.go:172-190 | the default orders, by a timestamp and the id, are paged through completely for any page limit |
| `Paging.PageAfterRow` | internal/content/published_reader.go:241-286 | a page after a row holds the next rows of the sorted list, and a cursor exactly when more follow |
| `Paging.PagesPartition` | internal/content/published_reader.go:241-286 | following the cursors succeeds exactly when every page ends on a safe cursor, and then the pages together are the sorted list, for any page limit |
| `Paging.NullEndsPaging` | internal/content/published_reader.go:898-906 | a page that ends on a row with NULL in a descending column other than the first cannot be continued |
| `Paging.Export` | internal/transfer/service.go:141-192 | the loop ends having written exactly the rows before the first that something stops: an unsafe cursor before its page, the row limit, or the error of writing it; and reports that |
| `RevisionWorkflow.SaveKeepsConsistent` | internal/content/service.go:512-549 | a save keeps pointers, statuses, revision numbers 1 to n and the event log in agreement |
| `RevisionWorkflow.WorkflowKeepsConsistent` | internal/content/service.go:878-1007 | so does every workflow step: a revision is published exactly when it is the pointer's target, under review only as the current draft, and replaying the events reconstructs every status and pointer |
| `RevisionWorkflow.SupersessionNeverConflicts` | internal/content/service.go:949-977 | in consistent states the refusals for a changed published revision or pointer are unreachable |
| `RevisionWorkflow.BaseIsSpent` | internal/content/service.go:512-520 | after a save based on a revision every later save naming that base is refused as a draft conflict, whatever happened in between |
| `WorkflowLaws.Transitions` | internal/content/service.go:878-985 | the statuses each request goes from and to: submitting takes a draft under review, approving publishes it and takes down what was published, refusing rejects it, taking down unpublishes it; no other revision changes |
| `WorkflowLaws.WorkflowAnswer` | internal/content/service.go:878-985 | every refusal of the workflow in order, and that everything else commits |
| `WorkflowLaws.SaveAnswer` | internal/content/service.go:512-549 | when a save is refused, and that a committed one adds a draft numbered one above the current one and leaves the rest alone |
| `WorkflowLaws.ContentSubmittedOnce` | internal/content/service.go:878-985 | over any run no revision of an entry is submitted twice |
| `WorkflowLaws.ContentRefusedIsFinal` | internal/content/service.go:878-985 | a refused revision of an entry is rejected in every later state, so the entry needs a new draft |
| `WorkflowLaws.ItemSubmittedOnce` | internal/configuration/service.go:549-676 | over any run no revision of a configuration item is submitted twice |
| `WorkflowLaws.ItemRefusedIsFinal` | internal/configuration/service.go:549-676 | a refused revision of a configuration item is rejected in every later state |
| `RevisionWorkflow.Repository.Save` | internal/content/service.go:512-549 | the statements that write a draft have the specified effect, and none when a check refuses |
| `RevisionWorkflow.Repository.RunWorkflow` | internal/content/service.go:900-985 | the statements on revisions, pointers and log, with rollback, have the specified effect |
| `RevisionWorkflow.Repository.TransitionRevision` | internal/content/repository.go:385-392 | one row changes exactly when it exists in the expected status |
| `RevisionWorkflow.Repository.DeletePublishedPointer` | internal/content/repository.go:397-404 | the pointer goes exactly when it names this revision |
| `ContentService.RebuiltIsExact` | internal/content/service.go:820-854 | replacing an entry's claims by those of its current revisions keeps the claims of all entries exact |
| `ContentService.CreateKeepsValid` | internal/content/service.go:361-463 | creating an entry keeps claims and workflow state exact |
| `ContentService.UpdateKeepsValid` | internal/content/service.go:465-566 | so does saving a new draft |
| `ContentService.WorkflowKeepsValid` | internal/content/service.go:878-1007 | so does every workflow step |
| `ContentService.ImportKeepsValid` | internal/content/service.go:324-352 | so does an import, which commits all of its drafts or none |
| `ContentRuns.RunsStayValid` | internal/content/service.go:300-1007 | in every reachable state each active entry owns exactly the unique values of its draft and published revision, and the workflow state is consistent |
| `ContentRuns.NoSharedUniqueValue` | internal/content/service.go:820-854 | in every reachable state no two active entries hold the same canonical value of a unique field, in a draft or in a published revision |
| `UniqueConflicts.CreateAnswer` | internal/content/service.go:361-463 | in every reachable state a creation is refused for an invalid body, a missing permission, an id in use, or a value other than null of an active unique field that an active entry has in its draft or published revision, and for nothing else; values are the same when their texts, numbers or truth values are |
| `UniqueConflicts.SaveAnswer` | internal/content/service.go:465-566 | likewise the refusals of a save, in order; a taken value counts in the new content and in the published revision |
| `ContentRuns.WorkflowNeverLosesUniqueness` | internal/content/service.go:986-994 | publishing or taking down an active entry is never refused for a duplicate value |
| `ContentRuns.OneSavePerBase` | internal/content/service.go:465-566 | of all saves in a run that name the same base revision of an entry at most one succeeds |
| `ContentRuns.RunExtends` | internal/content/service.go:300-1007 | along a run revisions keep their owner, number and content, draft pointers only move up, and the log is only appended to |
| `ContentRuns.RevisionsStayNormal` | internal/content/service.go:361-566 | every revision ever stored holds the normal form of a body the schema accepts |
| `ContentRuns.ArchivedUnpublishedKeptIff` | internal/content/service.go:878-919 | archived entries stay unpublished through a step exactly when it is not the approval of an archived entry still under review whose values are free |
| `ContentRuns.ArchivedEntryCanBePublished` | internal/content/service.go:610-641 | submit, archive, approve is a run that ends with an archived entry published |
| `ContentAnswers.ArchiveAnswer` | internal/content/service.go:610-641 | when archiving an entry is refused, and that a committed one changes nothing but its flag and its claims |
| `ContentAnswers.FlowAnswer` | internal/content/service.go:878-1007 | in every reachable state the workflow of an entry answers as its tables do, except that an archived entry whose draft holds a value another entry has is refused as not unique when it is approved or taken down |
| `ContentAnswers.ImportStoresAll` | internal/content/service.go:324-352 | a committed import has stored the validated content of every draft as the first revision of an entry of its own, and left everything else alone |
| `ContentTransactions.CollectUniqueValues` | internal/content/validation.go:134-154 | one claim for every active unique field with a value, none twice |
| `ContentTransactions.Service.ReplaceUniqueValues` | internal/content/repository.go:446-461 | deleting and inserting row by row succeeds exactly when no other entry owns one of the values |
| `ContentTransactions.Service.RebuildUniqueValues` | internal/content/service.go:820-854 | the two loops with their set of seen keys claim the union of the draft's and the published revision's values |
| `ContentTransactions.Service.CreateEntry` | internal/content/service.go:361-463 | the statements, with rollback, have the specified effect |
| `ContentTransactions.Service.UpdateEntry` | internal/content/service.go:465-566 | the statements, with rollback, have the specified effect |
| `ContentTransactions.Service.Workflow` | internal/content/service.go:878-1007 | the statements, with rollback, have the specified effect |
| `ContentTransactions.Service.ArchiveEntry` | internal/content/service.go:610-641 | the entry is archived and its claims are released, or nothing changes |
| `ContentTransactions.Service.ImportDrafts` | internal/content/service.go:324-352 | all drafts are created in order, or the first refusal takes back those before it |
| `ConfigurationValue.ValidateAndNormalize` | internal/configuration/validation.go:185-318 | for every value type the checks give the specified value or error, and record a failure exactly when they refuse |
| `ConfigurationValue.CollectIds` | internal/configuration/validation.go:273-294 | the ids are kept once each, in order of first occurrence, and every item has to be one |
| `ConfigurationValue.AcceptedFits` | internal/configuration/validation.go:185-318 | whatever is accepted is stored in a normal form that satisfies the constraints |
| `ConfigurationMeaning.ConstraintsIff` | internal/configuration/validation.go:80-183 | the constraints an item of each type may have: only those of its type, bounds with something between them, options that are different values the item takes |
| `ConfigurationMeaning.ValueAnswer` | internal/configuration/validation.go:185-318 | every refusal of a value in order, which values each type takes, and what is stored: zeros as 0, ids once each in order of first occurrence, anything else as it came |
| `ConfigurationValue.RevalidationIff` | internal/configuration/validation.go:185-318 | a stored value is returned unchanged when validated again, exactly when its text is within 64 KiB and it is not null for a required value |
| `ConfigurationValue.RequiredNullIff` | internal/configuration/validation.go:273-294 | a required item holds null exactly when an empty list was saved for a multi-valued type |
| `ConfigurationValue.EveryTextOptionIsAccepted` | internal/configuration/validation.go:107-119 | every option of a valid string enum is a value the item accepts |
| `ConfigurationValue.EveryIntegerOptionIsAccepted` | internal/configuration/validation.go:141-143 | every option of a valid integer enum is a value the item accepts |
| `ConfigurationValue.EveryDecimalOptionIsAccepted` | internal/configuration/validation.go:150-152 | every option of a valid decimal enum is a value the item accepts |
| `ConfigurationService.UpdateItemKeeps` | internal/configuration/service.go:317-375 | changing constraints keeps the current values valid under them and every revision pointing into the item's target model |
| `ConfigurationMeaning.ReachableUpdateAnswer` | internal/configuration/service.go:317-375 | in every reachable state a patch is refused for the stated reasons in order, among them a current value that the changed constraints do not take, and a committed one is what the item has afterwards, with nothing else changed |
| `ConfigurationService.ArchiveNamespaceKeeps` | internal/configuration/service.go:148-184 | archiving a namespace keeps archived namespaces free of active items |
| `ConfigurationService.NamespaceNeverPublished` | internal/configuration/service.go:170-177 | the refusal because something in the namespace is published never fires |
| `ConfigurationService.CreateItemKeeps` | internal/configuration/service.go:274-315 | creating an item keeps at most 100 active items a namespace and unique keys |
| `ConfigurationService.ArchiveItemKeeps` | internal/configuration/service.go:387-423 | archiving keeps archived items unpublished |
| `ConfigurationService.SaveKeeps` | internal/configuration/service.go:438-519 | a saved draft satisfies the current constraints and the snapshot it carries |
| `ConfigurationService.WorkflowKeeps` | internal/configuration/service.go:549-676 | no workflow step publishes an archived item, and the published value satisfies the current constraints |
| `ConfigurationRuns.RunsStayValid` | internal/configuration/service.go:148-676 | all of these hold in every reachable state |
| `ConfigurationRuns.CurrentValueRevalidatesIff` | internal/configuration/service.go:346-362 | in every reachable state a current value read back satisfies the item's current constraints, except an oversized text or the null of an empty list |
| `ConfigurationRuns.NamespacePublishedUnreachable` | internal/configuration/service.go:170-177 | in no reachable state is archiving a namespace refused because something in it is published |
| `ConfigurationAnswers.EveryRequestAnswered` | internal/configuration/service.go:78-676 | in every reachable state each of the seven kinds of request commits exactly under a condition on the state, and then makes exactly the stated change |
| `ConfigurationHistory.OneSavePerBase` | internal/configuration/service.go:471-508 | of all saves in a run that name the same base revision of an item, and of all its initial drafts, at most one succeeds |
| `ConfigurationHistory.RunExtends` | internal/configuration/service.go:438-676 | along a run revisions keep their owner, number and content, draft pointers only move up, and the log is only appended to |
| `ConfigurationRuns.Service.CountActiveItems` | internal/configuration/repository.go:144-148 | the count is the number of active items of the namespace |
| `ConfigurationRuns.Service.CreateItem` | internal/configuration/service.go:274-315 | the statements have the specified effect, or none |
| `ConfigurationRuns.Service.CheckCurrentRevisions` | internal/configuration/service.go:346-360 | the loop passes exactly when the draft and the published value are accepted under the new constraints |
| `ConfigurationRuns.Service.UpdateItem` | internal/configuration/service.go:317-375 | the statements have the specified effect, or none |
| `ConfigurationRuns.Service.ArchiveItem` | internal/configuration/service.go:387-423 | the statements have the specified effect, or none |
| `ConfigurationRuns.Service.ArchiveNamespace` | internal/configuration/service.go:148-184 | the statements have the specified effect, or none |
| `ConfigurationRuns.Service.SaveDraft` | internal/configuration/service.go:438-519 | the statements, with rollback, have the specified effect |
| `ConfigurationRuns.Service.Workflow` | internal/configuration/service.go:549-676 | the statements, with rollback, have the specified effect |
| `Protection.AcquireLevels` | internal/client/protection.go:72-133 | a refused call leaves the level of every bucket at every later time as it was; a granted one takes exactly one token from its two buckets |
| `ProtectionAnswers.AcquireAnswer` | internal/client/protection.go:72-133 | the verdict on every call in every valid state: refused for a pair that does not fit, for buckets that do not fit, for less than a token, for 8 or 4 open calls, in this order, and otherwise granted |
| `ProtectionAnswers.UnusedIsFull` | internal/client/protection.go:125-133 | a bucket nobody has used holds 60 tokens for a key and 30 for a pair |
| `ProtectionAnswers.LevelAfterWait` | internal/client/protection.go:125-133 | left alone a bucket gains 30 tokens a second for a key and 15 for a pair, up to 60 and 30 |
| `Protection.CleanupInvisible` | internal/client/protection.go:164-176 | evicting buckets unseen for ten minutes changes no level, now or later |
| `Protection.RetryIsExact` | internal/client/protection.go:93-99 | after the retry delay of a token refusal both buckets hold a token, one nanosecond earlier one of them does not |
| `Protection.DelayIsExact` | internal/client/protection.go:178-183 | a bucket holds a token after a wait exactly when the wait is at least its own retry delay |
| `ProtectionRuns.TokenBound` | internal/client/protection.go:72-133 | in any interval of T seconds of any run at most 60 + 30 T calls of a key and 30 + 15 T of a key and address are granted, across evictions |
| `ProtectionRuns.RunsStayValid` | internal/client/protection.go:72-176 | in every reachable state the counters equal the live permits with bounds 8 and 4, a key's counter equals its pair buckets with bound 256, and at most 8192 buckets exist |
| `ProtectionRuns.RoomForPair` | internal/client/protection.go:78-90 | when the capacity check evicts the caller's own pair, the key's counter has room for it again |
| `ProtectionRuns.KeyIsSumOfPairs` | internal/client/protection.go:101-122 | a key's counter of running calls is the sum of the counters of its addresses |
| `ProtectionRuns.ReleaseCounted` | internal/client/protection.go:111-122 | releasing a permit keeps the counters equal to the permits still open |
| `ProtectionLimiter.Limiter.Acquire` | internal/client/protection.go:72-123 | the statements, in place, have the specified effect and answer |
| `ProtectionLimiter.Limiter.CleanupStale` | internal/client/protection.go:164-176 | the loop over the map, in any order, has the specified effect on buckets and counters |
| `ProtectionLimiter.Limiter.EnsureCapacity` | internal/client/protection.go:144-162 | stale buckets are evicted exactly when there is no room, and the answer says whether there is now |
| `ProtectionLimiter.Limiter.Release` | internal/client/protection.go:111-122 | a permit is released once; releasing it again changes nothing |
| `RecordLimiter.Reader.Read` | internal/transfer/csv.go:139-172 | one read of any size delivers the next bytes up to the limit and an error only when the buffer could not be filled |
| `RecordLimiter.Reader.ConsumeByte` | internal/transfer/csv.go:174-201 | the flags after a byte are those of the specified automaton |
| `RecordLimiter.AnySizesDeliverThePrefix` | internal/transfer/csv.go:139-172 | however the reads are sized they deliver the same prefix of the stream |
| `RecordLimiter.LimitIsExact` | internal/transfer/csv.go:139-201 | for every file well formed under section 2 of RFC 4180 the reader fails exactly when some record exceeds 20 MiB before its line ending, after delivering all before that record and 20 MiB of it |
| `RecordLimiter.CountsEachRecord` | internal/transfer/csv.go:163-169 | the count restarts at every record end and nowhere else, quoted line breaks included |
| `Migrations.LoadIff` | internal/platform/migrate/migrate.go:67-74 | loading succeeds exactly when n files carry the versions 1 to n, and returns them in order |
| `Migrations.ValidateApplied` | internal/platform/migrate/migrate.go:170-199 | the scans accept exactly a clean, matching prefix 1 to k |
| `Migrations.NothingStartsTwice` | internal/platform/migrate/migrate.go:77-127 | over any runs of any binaries, each cut short anywhere, no migration's SQL starts twice, and at most one row is dirty, the one with the highest version |
| `Migrations.DirtyIsFinal` | internal/platform/migrate/migrate.go:106-115 | once a row is dirty nothing changes any more |
| `Migrations.SuccessAppliesAll` | internal/platform/migrate/migrate.go:77-127 | a run that reports success leaves every migration clean, and the SQL ever started is the binary's, each migration once and in order |
| `Migrations.UpSucceedsIff` | internal/platform/migrate/migrate.go:77-127 | a run reports success exactly when the rows are a clean, matching prefix and nothing cuts short one of the migrations behind it |
| `Migrations.Database.Up` | internal/platform/migrate/migrate.go:77-127 | the loop applies exactly the migrations after the validated prefix, up to the fault |
| `Migrations.Database.Check` | internal/platform/migrate/migrate.go:129-158 | the current version is the number of applied migrations, and the rest is pending |
| `Delegation.CanDelegateIsInclusion` | internal/identity/principal.go:63-98 | a normalised principal below the tier may delegate exactly the permissions it holds |
| `Delegation.MayDelegate` | internal/identity/principal.go:63-98 | the loops and maps answer as specified |
| `Delegation.NormalizeScoped` | internal/identity/principal.go:141-200 | one entry a scope, holding every valid code any of its entries held, and no empty entries |
| `Delegation.NewPrincipal` | internal/identity/principal.go:127-139 | the lists become normalised and keep exactly the valid permissions |
| `RoleService.OnlyHeldPermissionsMove` | internal/permission/service.go:97-461 | an operator below the tier can neither give nor take a permission it does not have: who has it stays as it was |
| `RoleService.ReplacedGrantsAre` | internal/permission/service.go:292-394 | after a table of a role is replaced a permission of that table that is left out is the role's no more, so a user has it only through another role |
| `RoleService.AssignedRolesAre` | internal/permission/service.go:248-290 | after an assignment the user has exactly the permissions of the roles in the request, and everyone else what they had |
| `RoleService.DeletedRoleIsGone` | internal/permission/service.go:214-246 | after a deletion nobody has the role, and a user has exactly the permissions of the other roles |
| `RoleAnswers.CreateRoleAnswer` | internal/permission/service.go:97-139 | every answer of creating a role, said of what the operator has |
| `RoleAnswers.ReplaceGrantsAnswer` | internal/permission/service.go:292-394 | every answer of replacing a table of a role: below the tier only for a role the operator does not have, with all it grants before and after |
| `RoleAnswers.DeleteRoleAnswer` | internal/permission/service.go:214-246 | every answer of deleting a role |
| `RoleAnswers.AssignRolesAnswer` | internal/permission/service.go:248-290 | every answer of replacing the roles of a user |
| `RoleService.OwnPermissionsFixed` | internal/permission/service.go:429-462 | an operator below the tier cannot change its own permissions |
| `RoleService.TierIsFixed` | internal/permission/service.go:429-443 | an operator below the tier moves nobody into the tier or out of it |
| `RoleService.HighRiskRoleIsFixed` | internal/permission/service.go:168-170 | no request of anyone changes, creates or deletes a high-risk role |
| `RoleService.RunsAreClosed` | internal/permission/service.go:97-461 | over any run by operators below the tier the permissions of the users below it never grow together, the tier keeps its members and the high-risk roles their definition |
| `RoleService.LoneOperatorGainsNothing` | internal/permission/service.go:97-461 | whatever one operator below the tier does, its permissions at the end are those at the start |
| `RoleTransactions.Service.CollectGrants` | internal/permission/repository.go:74-118 | the lists appended role by role hold exactly the grants of the existing roles, and a high-risk role among them is noticed |
| `RoleTransactions.Service.Permissions` | internal/permission/permission.go:78-225 | an enabled user is given the union of its roles' lists, a user of the tier every code on every active model and namespace |
| `RoleTransactions.Service.CurrentPrincipal` | internal/permission/permission.go:265-274 | the operator is refreshed to a normalised principal with exactly the valid permissions and the tier it has |
| `RoleService.PrincipalDelegates` | internal/identity/principal.go:59-98 | on the refreshed principal CanDelegate, list by list, allows exactly the sets the operator may delegate |
| `RoleTransactions.Service.AuthorizeRoleReplacement` | internal/permission/service.go:429-443 | the checks on principal, target and role lists answer as specified |
| `RoleTransactions.Service.CanReplaceRoleGrants` | internal/permission/service.go:445-462 | an operator below the tier may replace the grants of a role exactly when it does not have the role and may delegate both the old and the new grants |
| `RoleTransactions.Service.CreateRole` | internal/permission/service.go:97-139 | the checks run in order and the role is added, or nothing changes |
| `RoleTransactions.Service.ReplaceGrants` | internal/permission/service.go:292-394 | one of a role's three grant tables is replaced, or nothing changes |
| `RoleTransactions.Service.Delete` | internal/permission/service.go:214-246 | the role goes with its assignments, or nothing changes |
| `RoleTransactions.Service.AssignRoles` | internal/permission/service.go:248-290 | a user's roles are replaced, or nothing changes |
| `FieldOrder.FieldTable.PrepareFieldOrder` | internal/schema/repository.go:294-297 | the update meets no collision at any row, in whatever order the rows are visited |
| `FieldOrder.FieldTable.WriteFieldOrder` | internal/schema/repository.go:299-316 | no write collides, and afterwards the fields are in the requested order at the positions 0, 1, 2, and so on |
| `FieldOrder.FieldTable.UpdateFieldOrder` | internal/schema/service.go:242-291 | a request succeeds exactly when its parent is the root or an active container, its baseline is the current order and its list a permutation of it; otherwise nothing changes |
| `FieldOrder.FieldTable.CurrentOrder` | internal/schema/service.go:274-279 | the active siblings in the order of their positions |
| `FieldOrder.FieldTable.NextPosition` | internal/schema/service.go:220-225 | a new field comes after every active sibling |
| `FieldOrder.AcceptsExactlyPermutations` | internal/schema/service.go:617-631 | the baseline and set checks accept exactly the permutations of the current order |
| `FieldOrder.OrderIsUnique` | internal/schema/repository.go:232-266 | the positions determine the order the active siblings are read in |
| `FieldReconciliation.ReconcileChildren` | internal/schema/service.go:524-581 | at any nesting no write makes two active siblings collide, the only refusal is a taken key, the active children end up in the order of the inputs, and the positions of a committed table stay distinct and non-negative |
| `FieldReconciliation.CreateFieldTree` | internal/schema/repository.go:269-281 | a subtree is inserted without a collision, and fails exactly when one of its keys is taken or occurs twice |
| `FieldReconciliation.ArchiveFieldTree` | internal/schema/repository.go:318-321 | the field and all its descendants, at any depth, are archived, and nothing beside or above them |
| `FieldRuns.CreateField` | internal/schema/service.go:199-240 | a root or child field is created behind its last active sibling, exactly when no key of its tree is taken, or nothing changes |
| `FieldRuns.CreateChildField` | internal/schema/service.go:293-350 | a child is created exactly when the parent exists, is active and a container above the deepest level, and no key is taken |
| `FieldRuns.UpdateFieldChildren` | internal/schema/service.go:474-481 | the reconciliation of an active field commits in the order of the inputs, or is taken back |
| `FieldRuns.ArchiveField` | internal/schema/service.go:498-522 | an active field is archived with its subtree, or nothing changes |
| `FieldRuns.Run` | internal/schema/service.go:199-631 | over any run of creations, reconciliations, archivings and reorders from the empty table every committed state has unique keys and active siblings at distinct non-negative positions, and each follows from the one before by its request |
| `FieldForest.ForestHoldsEveryItem` | internal/schema/repository.go:214-230 | when parents come first the forest holds every field exactly once |
| `FieldForest.SiblingsInListOrder` | internal/schema/repository.go:219-228 | siblings keep the order of the list |
| `FieldForest.ListFields` | internal/schema/repository.go:214-230 | the backward loop with its map of lists builds the specified forest |
| `ModelDesigner.ShowsTheGivenOrder` | web/src/modelDesigner.ts:76-80 | for any permutation of the active ids the designer shows exactly that order and leaves archived fields in their slots |
| `ModelDesigner.MovedIsPermutation` | web/src/modelDesigner.ts:82-90 | a drag keeps the fields, lands the moved one where it was dropped and the others in their order |
| `ModelDesigner.ServerAndDesignerAgree` | web/src/modelDesigner.ts:76-90 | a request built from current siblings is accepted, and afterwards server and designer show the same order |
| `ModelDesigner.ReorderSiblings` | web/src/modelDesigner.ts:76-80 | the loop with its advancing index shows the specified siblings |

## Left out

- HTTP handlers, JSON decoding and encoding, sessions, captcha, SMS, password hashing, the S3 client: input and output or library code.
- The HTML sanitiser and tokenizer, regular expressions, time parsing and formatting, the CSV decoder: functions with stated assumptions; `float64` token counts are exact reals.
- Display texts, descriptions, error messages and audit rows. Failures are recorded with a pointer and a code, and the order in which the keys of an object are visited is not modelled.
- Permissions of the content and configuration operations and the look-ups of assets and relation targets in other tables: parameters of the requests that say whether they pass.
- Locking, isolation and retries: a transaction is one step. Times are read inside the lock; a time read before the lock is taken could run backwards.
- The lock and the status of the model of an entry, and the locking of related models: the schema of a model is fixed in the runs of the content service.
- `mediaReferences` on content that was never validated: the source's type assertions would stop the program.
- The sort order of normalised permission lists and of allowed MIME types; `assetMatchesConstraints` is one of the look-ups above.
- Archived fields: the order in which they are listed after the active ones.
- FieldReconciliation.ReconcileChildren: reads the children of a field when it reaches the field, where the source has read the whole tree before; nothing in between touches them.
- ProtectionRuns.RunsStayValid: says nothing about the pair counter of an empty key id, which evictions do not lower; the global limit of twenty calls is not modelled.
- FieldReconciliation.ReconcileChildren: works on keys, parents, positions and statuses; the written attributes and the refusal of a removed enum option are in `SchemaTransactions.ReconcileTree`.
- FieldOrder.FieldTable.UpdateFieldOrder: whether the parent is of a container type is a parameter, as types are not in the table of positions; the lock and the status of the model are left out.
- RevisionWorkflow.Repository.Save: the archive check, the validation of the value and the look-ups around it are in `ContentTransactions.Service.UpdateEntry` and `ConfigurationRuns.Service.SaveDraft`.
- RevisionWorkflow.Repository.RunWorkflow: the claims rebuild behind it is in `ContentTransactions.Service.Workflow`.
- Paging: filters, relation filters and expansion; a page is a function of the matching rows in order. Cursor encoding and query binding are taken as injective.
- Migrations: the contents of the SQL files; two files with the same checksum are the same file.
- The creation of users with roles outside the role operations, and enabling or disabling users.
- CSV cells, the column projection tables, the published hydration of media, and the two fixed-window rate limiters.
