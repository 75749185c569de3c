# Revisioned CAD graphs: a verified model

FreeCAD documents are extracted into a graph of entities, links and semantic facts. Every reference in the
graph may carry the revision it belongs to (`…@g3.m0.f1.v0.epoch`). This project models what the program
does with such graphs and proves what it is meant to guarantee:

* the revision store (`Ccir`, `Rekeying`, `ChangeSets`, `ChangeSetLaws`, `Diffs`, `PreviewDiffs`, `Store`,
  `StoreRuns`, `ContentReplay`): previews and commits of changesets, undo and redo, the rewriting of all
  references when a revision is published, diffs, and retained history;
* the query engine (`Traversal`, `Dependencies`, `DependencyDuality`, `QueryOrder`, `Filters`, `Query`):
  relational traversal, enumeration of dependency paths, ordering of mixed JSON values, predicates, and paging
  by token;
* the live bridge (`Coalescer`, `EventRuns`, `Bridge`, `BridgeRuns`): event coalescing, and the
  preview-and-commit protocol with its rollback check, as a state machine over requests, callbacks and edits of the document;
* the extraction and reference algorithms (`References`, `Adjacency`, `Inspect`).

Code that changes state is modelled by methods and classes that change state. Each is proved equal to a
function on values (`RevisionStore.Commit` to `CommitOf`, and so on); the properties are lemmas about those
functions, and about whole runs of them. `Text`, `Lists`, `Ordered` and `Json` hold what these share: string
order, splitting, decimal numbers, lists without duplicates, sorted key lists, and JSON values with dotted paths.

Modelling choices:

* A graph is well-formed when every key is its entity's reference and every reference ends in `@` and the
  graph's own revision id or has no `@`. It is a hypothesis on the first graph; commit, undo and redo keep it.
* SHA-256 over serialised values is a free injective constructor in the store (`Digest`). The bridge and the
  query engine take the hash function as a parameter and assume nothing about it, except that the two theorems
  about what a commit executes (`CommitsWhatWasPreviewed`, `ReviewedCommitSucceeds`) assume that no two of the
  finitely many changesets and snapshots digested in the run collide (`NoCollision`).
* Counters are 64-bit and wrap. Theorems that order revisions assume room for the steps of the run (`Room`).
* Between requests the user may replace the document by any other, with an observer's callback or without one.
  What FreeCAD does in a transaction (document, callbacks, failure) is an arbitrary `Effect`; snapshot
  extraction is an arbitrary function of document, revision, name and clock.
* An aborting operation (a slice out of range, an index assignment into a JSON value that is no object, a
  slice through a character) is an explicit result: `OutOfRange`, `Panicked` or `None`.

Where the code differs from what one might expect, the model follows the code:

* a commit of only set_visibility operations publishes under the same revision id and overwrites that record,
  which then names itself as its parent (`StepAdvancesRevision`, `PublishedRecord`);
* history is trimmed in string order, which may drop the newest record (`NewestIsRetained`, `NewestIsEvicted`);
* the freshness check for created names sees only the unqualified reference (`CreatedIsReported`,
  `ShadowedCreation`);
* rekeying back to the first revision id skips entities that never carried it (`RekeyComposes`), and a stored
  selection is not rekeyed at all (`ReplayRespectsContent`);
* a self-link next to another link breaks the symmetry of upstream and downstream (`DualExactly`);
* a kind named under a relation in a query is not checked (`RelationKindIsIgnored`), and a continuation token
  aborts the query when it is used with a shorter selection (`IssuedTokenCanAbort`);
* the members beside "all", "any" or "not" in a predicate are not looked at (`NormalizedMeans`);
* a preview whose transaction fails keeps the counter bumps of its callbacks (`FailedPreviewMovesOn`);
* a session or document called "object" is mistaken for a path component (`ResolveRecovers`).

Check everything with `dafny verify dfyconfig.toml`.

## Model

| member | source | states |
|---|---|---|
| `Ccir.RevisionIdInjective` | sidecar/crates/ccir-core/src/lib.rs:70-75 | two revisions print the same id only if their four counters and epoch are equal |
| `Ccir.RevisionIdHasNoAt` | sidecar/crates/ccir-core/src/lib.rs:70-75 | a printed revision id has no `@` when its epoch has none, so a reference has at most one revision suffix |
| `Ccir.ValidateInvariants` | sidecar/crates/ccir-core/src/lib.rs:368-387 | the nested loops compute the missing-link diagnostics of every entity in key order and every link in list order |
| `Rekeying.RekeyRefs` | sidecar/crates/revision-store/src/lib.rs:953-986 | the in-place rewriting of keys, links and facts, one entity after another, equals the specification `Rekeyed` |
| `Rekeying.RekeyIsomorphism` | sidecar/crates/revision-store/src/lib.rs:953-986 | on a well-formed graph rekeying a to b keeps every entity (a bijection of keys that keeps key = reference and everything but reference, revision and link targets) and leaves all references of revision b |
| `Rekeying.RekeyKeepsResolution` | sidecar/crates/revision-store/src/lib.rs:953-986 | a link target or fact reference resolves after rekeying if and only if it did before |
| `Rekeying.RekeyComposes` | sidecar/crates/revision-store/src/lib.rs:953-986 | rekeying a to b and then b to c equals rekeying a to c if and only if a and c differ, a and b are equal, or every entity carries the revision stamp a (for equal ids the early exit skips restamping) |
| `Rekeying.RekeyKeepsDiagnosticCount` | sidecar/crates/ccir-core/src/lib.rs:368-387 | rekeying leaves the number of missing_link_target diagnostics unchanged |
| `Rekeying.MissingLinksCount` | sidecar/crates/ccir-core/src/lib.rs:368-387 | there are as many missing-link diagnostics as pairs of an entity and the index of a link of it that does not resolve |
| `ChangeSets.VerifyPreconditions` | sidecar/crates/revision-store/src/lib.rs:636-697 | the loop returns the error of the first failing precondition, or none |
| `ChangeSets.ValidateOperations` | sidecar/crates/revision-store/src/lib.rs:308-454 | the loop returns the error of the first operation that the base graph rules out, or none |
| `ChangeSets.ApplyChangeset` | sidecar/crates/revision-store/src/lib.rs:269-306 | checks, replay, counter bumps, rekeying and revalidation in this order, with the first error winning, equal the specification `Applied` |
| `Json.SetPropertyLens` | sidecar/crates/revision-store/src/lib.rs:889-906 | a property write succeeds on objects and null only, is read back at its own dotted path, and leaves values at paths apart from it |
| `ChangeSetLaws.WriteIsLocal` | sidecar/crates/revision-store/src/lib.rs:870-901 | a write succeeds exactly on existing, write-eligible entities with object or null properties; it reads back, and everything else in the graph stays |
| `ChangeSetLaws.OperationWrites` | sidecar/crates/revision-store/src/lib.rs:699-805 | which target, path and value set_property, set_expression, sketch_set_datum and set_visibility write, and that the value is there afterwards |
| `ChangeSetLaws.BooleanDependsOnOperands` | sidecar/crates/revision-store/src/lib.rs:761-801 | a boolean result depends on exactly its two operands, which exist, and no other entity changes |
| `ChangeSetLaws.AppliedIsWellFormed` | sidecar/crates/revision-store/src/lib.rs:269-306 | an accepted changeset turns a well-formed graph into one that is well-formed for its new revision |
| `ChangeSetLaws.OperationsKeys` | sidecar/crates/revision-store/src/lib.rs:699-868 | replay adds the created references and no others, removes the deleted ones and no others (a reference that is both may stay or go), and every other entity keeps its kind and source |
| `ChangeSetLaws.AppliedKeepsDependencies` | sidecar/crates/revision-store/src/lib.rs:761-860 | if every delete requires that there are no dependents, an accepted changeset leaves no dangling depends_on link, also when it creates a boolean and deletes objects |
| `ChangeSetLaws.RevisionAfterAdvances` | sidecar/crates/revision-store/src/lib.rs:276-300 | the revision after a changeset is at least the one before, and strictly ahead if and only if some operation is not set_visibility |
| `Diffs.LogicalPaths` | sidecar/crates/revision-store/src/lib.rs:908-920 | the loop over the sorted keys computes the map from logical paths to references |
| `Diffs.GreatestWins` | sidecar/crates/revision-store/src/lib.rs:908-920 | a reference is the one listed for its logical path if and only if it is the string-greatest of all references with that path |
| `Diffs.DiffGraphs` | sidecar/crates/revision-store/src/lib.rs:527-634 | the loops over paths and facts compute the specified added, removed, changed, mapped and fact lists |
| `Diffs.DiffIsPatch` | sidecar/crates/revision-store/src/lib.rs:527-634 | with injective logical paths keys(to) = (keys(from) minus mapping sources) plus added plus mapping candidates, and added of one direction is removed of the other |
| `PreviewDiffs.CreatedIsReported` | sidecar/crates/revision-store/src/lib.rs:482-493 | a created object is in the preview's added list if and only if no base entity has its logical path (the freshness check looks at the unqualified key only) |
| `PreviewDiffs.ShadowedCreation` | sidecar/crates/revision-store/src/lib.rs:482-493 | a concrete accepted creation that the diff does not report: an object named like one that was extracted under a qualified reference |
| `PreviewDiffs.PreviewDiffIsExact` | sidecar/crates/revision-store/src/lib.rs:527-634 | with injective paths and fresh names, added and removed are exactly the created and the deleted references |
| `PreviewDiffs.SurvivorsMapExactly` | sidecar/crates/revision-store/src/lib.rs:551-600 | every surviving qualified entity of a revision-advancing changeset is mapped, as its only candidate, to its rewritten reference, mapped_exact and write-eligible |
| `Store.RevisionStore.constructor` | sidecar/crates/revision-store/src/lib.rs:69-87 | a new store holds the graph under its revision id, 50 revisions of retention and empty stacks |
| `Store.RevisionStore.WithRetention` | sidecar/crates/revision-store/src/lib.rs:89-92 | a positive limit is taken over as it is and zero becomes one, so at least one record is always kept; graphs, history and stacks stay as they were |
| `Store.RevisionStore.Preview` | sidecar/crates/revision-store/src/lib.rs:110-130 | a preview reports what `PreviewOf` specifies and changes nothing |
| `Store.RevisionStore.Commit` | sidecar/crates/revision-store/src/lib.rs:132-164 | state and result are those of `CommitOf`: a rejected commit leaves the store as it was |
| `Store.RevisionStore.Undo` | sidecar/crates/revision-store/src/lib.rs:166-170 | state and result are those of `UndoOf` |
| `Store.RevisionStore.Redo` | sidecar/crates/revision-store/src/lib.rs:172-176 | state and result are those of `RedoOf` |
| `Store.RevisionStore.PublishNavigation` | sidecar/crates/revision-store/src/lib.rs:209-233 | the popped graph is published under the next geometry revision of the current one, rekeyed, revalidated and recorded |
| `Store.RevisionStore.TrimHistory` | sidecar/crates/revision-store/src/lib.rs:248-255 | records are dropped by smallest id in string order down to the limit |
| `StoreRuns.RejectedStepChangesNothing` | sidecar/crates/revision-store/src/lib.rs:132-176 | a rejected commit, undo or redo leaves current graph, history and both stacks unchanged |
| `StoreRuns.RunKeepsWellFormed` | sidecar/crates/revision-store/src/lib.rs:132-176 | every run of commits, undos and redos keeps the current graph and both stacks well-formed |
| `StoreRuns.PublishingKeepsContent` | sidecar/crates/revision-store/src/lib.rs:953-986 | publishing a graph under any other revision keeps its content (references without the revision suffix) |
| `StoreRuns.RunMovesZipper` | sidecar/crates/revision-store/src/lib.rs:132-176 | every run of the store is, in contents, the run of a zipper: undo one step left, redo one step right, commit drops the right side and appends |
| `StoreRuns.UndosReachBack` | sidecar/crates/revision-store/src/lib.rs:166-170 | n undos make the n-th newest content of the undo stack current |
| `StoreRuns.UndosThenRedosRestore` | sidecar/crates/revision-store/src/lib.rs:166-176 | n undos and then n redos restore the content of the current graph and of both stacks, although each step publishes a new revision |
| `StoreRuns.TrimKeepsGreatest` | sidecar/crates/revision-store/src/lib.rs:248-255 | a record survives trimming if and only if fewer ids than the limit are string-greater than its own |
| `StoreRuns.StepAdvancesRevision` | sidecar/crates/revision-store/src/lib.rs:276-300 | no step takes the revision back; an accepted undo or redo strictly advances it, and an accepted commit does if and only if some operation is not set_visibility |
| `StoreRuns.AdvancePublishesNewId` | sidecar/crates/revision-store/src/lib.rs:209-233 | on a strict advance the printed id is new to the history, the retained record names the strictly earlier revision as parent, and no surviving record changed |
| `StoreRuns.PublishedRecord` | sidecar/crates/revision-store/src/lib.rs:132-164 | after every accepted step the retained record under the published id holds the new graph, and names that very id as its parent if and only if the step commits set_visibility operations only; exactly then the id is the one before, so its record is overwritten; every other retained record is unchanged |
| `StoreRuns.RunAdvances` | sidecar/crates/revision-store/src/lib.rs:132-176 | over every run the revision never goes back and the history keeps between 1 and the limit of consistent records |
| `StoreRuns.RunAdvancesStrictly` | sidecar/crates/revision-store/src/lib.rs:132-176 | a run with one accepted advancing step ends strictly ahead, under an id that was not in the history |
| `StoreRuns.InitialHistory` | sidecar/crates/revision-store/src/lib.rs:69-92 | a new store with any retention starts with a consistent, bounded history |
| `StoreRuns.NewestIsRetained` | sidecar/crates/revision-store/src/lib.rs:248-255 | after every accepted step, also one that keeps the revision, the record just published is kept if and only if fewer ids than the limit are string-greater than its id |
| `StoreRuns.NewestCanBeEvicted` | sidecar/crates/revision-store/src/lib.rs:248-255 | going from g9 to g10 with one retained record drops the newest record |
| `StoreRuns.NewestIsEvicted` | sidecar/crates/revision-store/src/lib.rs:248-255 | from a new store at g9 that keeps one record, committing an empty changeset and undoing it ends at g10 with the newest record missing |
| `StoreRuns.CommitMatchesPreview` | sidecar/crates/revision-store/src/lib.rs:110-164 | a commit accepts the hash of a preview taken at any other time if and only if the changeset is the previewed one up to its approval token and the current graph is the previewed base; it then installs the previewed graph |
| `StoreRuns.RunKeepsDependencies` | sidecar/crates/revision-store/src/lib.rs:845-860 | if every delete is strict, no run leaves a dangling depends_on link in the current graph or on a stack |
| `ContentReplay.TwinValidation` | sidecar/crates/revision-store/src/lib.rs:308-454 | on two revisions of one content, validation accepts an operation if and only if it accepts the operation with its references rewritten to the other revision |
| `ContentReplay.TwinOperation` | sidecar/crates/revision-store/src/lib.rs:699-868 | replaying an operation on one revision of a content and the rewritten operation on another succeeds or fails together and gives two revisions of one content |
| `ContentReplay.ReplayRespectsContent` | sidecar/crates/revision-store/src/lib.rs:269-306 | on two well-formed graphs of equal content a changeset and its rewriting are accepted or refused together, and the results have equal content but for the stored selection, and altogether if and only if the last selection names no reference that the rewriting changes |
| `Traversal.BallIsNear` | sidecar/crates/query-engine/src/lib.rs:300-330 | what the levels up to max_depth collect, without the start, is what has a shortest distance from 1 to max_depth |
| `Traversal.ReachedIsChosen` | sidecar/crates/query-engine/src/lib.rs:300-330 | the sets reached step by step are the ends of step-by-step choices of a reference at shortest distance 1 to max_depth along the step's relation |
| `Traversal.Explore` | sidecar/crates/query-engine/src/lib.rs:305-326 | the frontier and seen loops from one start append exactly the references at distance 1 to max_depth, and end on cycles |
| `Traversal.Traverse` | sidecar/crates/query-engine/src/lib.rs:300-330 | the loops with the final sort and dedup give the strictly sorted list of exactly the chosen references, whatever the order of the starts |
| `Ordered.SortThenDedup` | sidecar/crates/query-engine/src/lib.rs:327-328 | sorting a list and dropping adjacent duplicates gives the one strictly sorted list of its elements |
| `Dependencies.Expand` | sidecar/crates/query-engine/src/lib.rs:219-270 | one iteration finds every continuation of a path that was not seen before, each once, and exactly the cycle entries of the path |
| `Dependencies.BacksCount` | sidecar/crates/query-engine/src/lib.rs:241-249 | a path has one cycle entry, the list of its hop sources, per neighbour with multiplicity that is already one of its nodes |
| `Dependencies.Search` | sidecar/crates/query-engine/src/lib.rs:209-270 | the queue loop ends and lists exactly the hop chains of length 1 to depth, each once, in non-decreasing length, and the cycle entries of all shorter ones in that order |
| `Dependencies.ExplainDependencies` | sidecar/crates/query-engine/src/lib.rs:200-284 | refused if and only if the depth exceeds 8 or the reference is unknown; otherwise exactly the hop chains, their cycle entries (none if and only if no shorter chain can turn back), the controlling properties and the diagnostics |
| `DependencyDuality.PathDuality` | sidecar/crates/query-engine/src/lib.rs:219-256 | a path of at most one hop or without self-hops is a downstream path from a to b if and only if its reversal is an upstream path from b to a |
| `DependencyDuality.NoSelfLinksIsDual` | sidecar/crates/query-engine/src/lib.rs:219-256 | in a graph without self-links upstream and downstream are dual at every depth |
| `DependencyDuality.DualExactly` | sidecar/crates/query-engine/src/lib.rs:219-256 | a graph is dual up to a depth if and only if the depth is at most 1 or no entity has both a self-link and a link to or from another entity |
| `QueryOrder.RankDecides` | sidecar/crates/query-engine/src/lib.rs:465-477 | the first rendered character separates strings, numbers and all other values, so values of different rank compare by rank |
| `QueryOrder.ValuesChain` | sidecar/crates/query-engine/src/lib.rs:465-477 | the comparison of JSON values of any mixture of types is transitive, for equality as well |
| `QueryOrder.CompareEntitiesIsTotalOrder` | sidecar/crates/query-engine/src/lib.rs:448-463 | for any mixture of ascending and descending fields the comparison is a total order that ties only entities with equal kind, name and reference |
| `QueryOrder.FirstDifferenceDecides` | sidecar/crates/query-engine/src/lib.rs:448-463 | the first field on which two entities differ decides, in its direction; without one, kind, name and reference decide |
| `Query.DedupedStrict` | sidecar/crates/query-engine/src/lib.rs:156-159 | on the sorted list, dropping adjacent duplicates leaves a strictly ascending list |
| `Query.ListingIsExact` | sidecar/crates/query-engine/src/lib.rs:140-159 | the result list is strictly ascending and holds exactly the references in reach that pass the kind and predicate filters |
| `Query.AscendingUnique` | sidecar/crates/query-engine/src/lib.rs:156-159 | there is only one strictly ascending list of a set of entities, so the result does not depend on the sort algorithm or the order of the scope |
| `Query.TokenRoundTrip` | sidecar/crates/query-engine/src/lib.rs:488-500 | a printed continuation token parses back to its offset, whatever text the hash is |
| `Query.Execute` | sidecar/crates/query-engine/src/lib.rs:112-198 | checks, listing, one page with projections and evidence paths, tolerances and cost, with the errors in the order of the code, equal the specification `Executed` |
| `Query.PagesAreExecuted` | sidecar/crates/query-engine/src/lib.rs:161-189 | the pages of `Pages` are what `Execute` answers when each request carries the token of the page before |
| `Query.PagingIsLossless` | sidecar/crates/query-engine/src/lib.rs:161-189 | from any start the pages concatenate to the rest of the list, and on every page start, matches and omitted add up to the total and only the last is complete |
| `Query.QueryIsLossless` | sidecar/crates/query-engine/src/lib.rs:112-198 | without a token: max(1, ceil(n / limit)) pages whose matches concatenate to the report of the whole sorted filtered result, each matching reference once |
| `Query.AnsweredExactlyInRange` | sidecar/crates/query-engine/src/lib.rs:161-189 | a request with a well-formed token is answered if and only if its offset lies within the list of this graph and selection; otherwise the slice aborts |
| `Query.IssuedTokenCanAbort` | sidecar/crates/query-engine/src/lib.rs:161-165 | a token that the engine issued for a selection of more than one page aborts the query when it is used with an empty selection |
| `Filters.NormalizedMeans` | sidecar/crates/query-engine/src/lib.rs:332-352 | moving every negation inwards, and dropping the members beside a connective, keeps the set of matching entities; the normal form of the negation matches exactly the others |
| `Filters.NormalizedIsNormal` | sidecar/crates/query-engine/src/lib.rs:332-352 | every predicate, however nested, thereby becomes one of nested all and any over plain predicates and their negations |
| `Filters.RelationKindIsIgnored` | sidecar/crates/query-engine/src/lib.rs:354-367 | a kind named under a relation is not checked: any value but false asks only for a link of the relation, and false asks for a target that exists and has the empty kind |
| `Coalescer.EventCoalescer.Emit` | freecad-extension/src/runtime.rs:89-99 | an emission replaces the pending event of its class under the next sequence number |
| `Coalescer.EventCoalescer.Flush` | freecad-extension/src/runtime.rs:101-127 | a flush removes exactly the ready classes and returns each once by ascending sequence number, in whatever order the table is read |
| `EventRuns.BumpOrderIrrelevant` | freecad-extension/src/runtime.rs:789-804 | the revision after a flush does not depend on the order of the flushed classes |
| `EventRuns.ChangeIsConserved` | freecad-extension/src/runtime.rs:89-127 | in every interleaving of emissions and flushes, bumps plus pending classes never exceed the emissions of a counter, and some emission is always left among them |
| `EventRuns.ForcedFlushSettles` | freecad-extension/src/runtime.rs:800-804 | from nothing pending to a forced flush a counter advances by 0 if none of its classes was emitted and otherwise by 1 to the number of emissions, and nothing stays pending |
| `EventRuns.ForcedFlushIsByLatestEmission` | freecad-extension/src/runtime.rs:101-127 | a forced flush returns every pending class once, ordered by latest emission (for fewer than 2^64 emissions), and empties the table |
| `Bridge.BridgeState.FlushEvents` | freecad-extension/src/runtime.rs:800-804 | the loop over flushed classes bumps each counter as `FlushedState` specifies |
| `Bridge.BridgeState.Preview` | freecad-extension/src/runtime.rs:416-468 | state and reply are those of `PreviewOf`, with FreeCAD's transaction and callbacks as an arbitrary effect |
| `Bridge.BridgeState.Commit` | freecad-extension/src/runtime.rs:470-526 | state and reply are those of `CommitOf` |
| `Bridge.BridgeState.Navigate` | freecad-extension/src/runtime.rs:528-548 | state and reply of undo and redo are those of `NavigateOf` |
| `Bridge.BridgeState.BumpClasses` | freecad-extension/src/runtime.rs:767-787 | each class among the operations bumps its counter once |
| `Bridge.BridgeState.Handle` | freecad-extension/src/runtime.rs:275-376 | protocol, pairing, authentication and epoch are checked in this order, then the event table is flushed and the message dispatched, as `Admitted` and `HandleOf` specify |
| `Bridge.OnlyAdmittedRequestsAct` | freecad-extension/src/runtime.rs:275-335 | a request changes the bridge only if the connection is authenticated and protocol and epoch are the right ones, and only a valid proof authenticates a connection |
| `BridgeRuns.PreviewLeavesAsFound` | freecad-extension/src/runtime.rs:416-468 | a successful preview leaves the counters and the snapshot fingerprint as found and changes no other preview record |
| `BridgeRuns.FaultedPreviewKeepsRecords` | freecad-extension/src/runtime.rs:416-450 | a preview that does not succeed changes no preview record, and the counters only if its transaction failed |
| `BridgeRuns.FailedPreviewMovesOn` | freecad-extension/src/runtime.rs:433-438 | a validated preview whose transaction fails after one forced callback strictly advances the revision although the document is as it was |
| `BridgeRuns.CommitNeedsReview` | freecad-extension/src/runtime.rs:470-526 | a commit that succeeds or changes anything needs an unblocked bridge, a stored preview of the changeset with the given hash, a snapshot with the recorded fingerprint and a passing validation |
| `BridgeRuns.RollbackFailureBlocks` | freecad-extension/src/runtime.rs:442-450 | a step leaves writes blocked if and only if they were blocked or its rollback check failed |
| `BridgeRuns.BlockIsPermanent` | freecad-extension/src/runtime.rs:564-571 | after one failed rollback check no preview or commit of any later run succeeds |
| `BridgeRuns.RecordIsLatestPreview` | freecad-extension/src/runtime.rs:451-459 | in every run the stored record of a changeset is that of its latest successful preview not committed since |
| `BridgeRuns.CommitsNeedPreviews` | freecad-extension/src/runtime.rs:470-526 | in every run the successful commits of a changeset never outnumber its successful previews |
| `BridgeRuns.CommitMatchesLatestPreview` | freecad-extension/src/runtime.rs:470-526 | in every run, with any edits of the document in between, a successful commit acts on a snapshot with the fingerprint, and carries the preview hash, that the latest successful preview under the same changeset hash recorded |
| `BridgeRuns.CommitsWhatWasPreviewed` | freecad-extension/src/runtime.rs:470-526 | unless two values digested in the run collide, a successful commit executes the changeset that was previewed, up to its approval token, on a snapshot of the content it was previewed on, so an edit in between that changes the content stops it |
| `BridgeRuns.ReviewedCommitSucceeds` | freecad-extension/src/runtime.rs:470-526 | the converse: while the counters are those of the review, a commit succeeds if and only if it agrees with the review, writes are not blocked and the transaction does not fail |
| `BridgeRuns.RunNeverGoesBack` | freecad-extension/src/runtime.rs:767-798 | at request boundaries the revision never decreases, as long as no counter can wrap |
| `BridgeRuns.CommitRaisesRevision` | freecad-extension/src/runtime.rs:502-548 | every accepted commit, undo or redo strictly raises the revision |
| `References.PercentDecode` | freecad-extension/src/pyutil.rs:182-198 | the index loop and the conversion with replacement compute the specified text for any bytes, including where a slice would cut a character |
| `References.EncodedIsPlain` | freecad-extension/src/pyutil.rs:169-180 | encoded text consists of unreserved characters and percent signs, so it has no `/` and no `@` |
| `References.DecodeUndoesEncode` | freecad-extension/src/pyutil.rs:169-198 | decoding undoes encoding for every byte string (sections 2.1 and 2.3 of RFC 3986) |
| `References.DecodeTextUndoesEncode` | freecad-extension/src/pyutil.rs:169-198 | decoding to text undoes encoding if and only if the bytes are UTF-8, as those of every string are |
| `References.ReferenceComponents` | freecad-extension/src/extractor.rs:638-649 | cutting a printed reference at its first `@` and at slashes gives back its header and encoded path components |
| `References.ParsePath` | freecad-extension/src/executor.rs:639-671 | which object name and parts parsing finds, also when session or document is literally "object" |
| `References.ResolveRecovers` | freecad-extension/src/executor.rs:639-671 | resolving a printed object reference recovers the name and the parts (themselves without slashes) if and only if the name has no slash and neither session nor document is "object" |
| `References.SubelementRoundTrip` | freecad-extension/src/executor.rs:748-762 | subelement_name gives back a selection name if and only if subelement_kind takes it apart into that kind and number |
| `References.SelectionRoundTrip` | freecad-extension/src/extractor.rs:710-719 | a selected sub-element survives printing, parsing and renaming |
| `Adjacency.GroupByEdge` | freecad-extension/src/extractor.rs:657-680 | the first loop groups face references by bounding edge, with multiplicity and in order |
| `Adjacency.CollectAdjacent` | freecad-extension/src/extractor.rs:681-693 | the nested loops over every edge, in any order, collect for each ordered pair of different faces the sum over edges of the product of their multiplicities |
| `Adjacency.AddAdjacency` | freecad-extension/src/extractor.rs:657-708 | every entity of the array keeps its links and gains only adjacent_to links, as many per target as collected |
| `Adjacency.AdjacencyIsSharedEdge` | freecad-extension/src/extractor.rs:657-708 | with unique references the links added from A to B are as many as from B to A, the sum over edges of the product of the multiplicities, and there are some if and only if A and B are different faces bounded by a common edge |
| `Adjacency.OthersUnchanged` | freecad-extension/src/extractor.rs:694-708 | an entity that is not a face is left as it was |
| `Inspect.Expand` | sidecar/crates/context-compiler/src/lib.rs:278-287 | the inner loop reports the resolvable links of one entity in order and finds its unseen targets, each once |
| `Inspect.Search` | sidecar/crates/context-compiler/src/lib.rs:268-288 | the queue loop ends, expands exactly the references at shortest distance below the depth, each once and nearer ones first, and reports the concatenation of their resolvable links |
| `Inspect.InspectEntity` | sidecar/crates/context-compiler/src/lib.rs:259-341 | the same for the requested depth, at most 8, with the view of the profile and the facts about the entity; unknown references are refused, and a topology request without topological links is incomplete |
| `Inspect.InspectionIsExact` | sidecar/crates/context-compiler/src/lib.rs:268-288 | a link is reported if and only if it is a resolvable out-link of an entity at distance below the depth |
| `Inspect.InspectionIsUnique` | sidecar/crates/context-compiler/src/lib.rs:268-288 | all inspections of the same neighbourhood report the same links the same number of times, so nothing is listed twice by expanding an entity again |

## Left out

- Query.Execute: the constant parts of the cost (indexed, exact_callbacks) are not modelled.
- QueryOrder.CompareValues: numbers compare as real numbers, without the rounding of large integers to floats, and floats have an abstract printed text (no NaN, which JSON cannot hold).
- Filters.MatchesPredicate: numbers compare as real numbers here too.
- References.Capitalize: only ASCII letters are raised, which covers the four kinds it is called on.
- ChangeSets.ValidateOperations: error messages are reduced to their kind and a short reason.
- Diffs.DiffGraphs: signals and recommended actions are enumerations rather than texts.
- Store.RevisionStore.Commit: JSON serialisation never fails, and time stamps of records are not modelled.
- Bridge.BridgeState.Handle: request ids, error texts and the contents of the hello are not modelled.
- Bridge.BridgeState.Navigate: the fixed texts of the validation check in the reply are not modelled.
- EventRuns.ForcedFlushIsByLatestEmission: assumes fewer than 2^64 emissions, since the sequence number wraps.
- StoreRuns.RunAdvances: assumes that no counter of the run wraps.
- Adjacency.AddAdjacency: entities and links are reduced to the members the pass reads and writes.
- Inspect.InspectEntity: a detailed view holds the entity as a value, not as JSON text, and each neighbour holds its entity rather than that entity's summary.
- `RevisionStore::observe` is not a step of the runs: it takes over a foreign graph without rewriting it.
- The extractor's sketch reference is qualified differently, so a graph that holds it is not well-formed and the run theorems do not speak about it.
- Budget trimming and ranking of context, sub-element indices, PyO3 and FreeCAD calls, sockets, threads and files are not part of this model.
- Session manager, policy and MCP adapter would add only membership tests and delegation; geometry analysis is floating-point formulas; the artifact store is about files.
