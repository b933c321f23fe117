# Verification of the product catalogue's core logic

A Dafny model of the parts of the repository whose correctness is hardest to see by reading, with proofs of what
they promise. Each module follows one source component:

- `TimeZones`, `ArchiveClock`, `ArchiveWindow`, `ArchiveChanges`, `BindingIndex`: archive change detection, from
  offset-free wall times and SQL predicates to endpoint states and product membership;
- `CoverageNormalizer`, `CoveragePlan`, `CurveExpansion`, `Sections`, `SurfaceCleanup`, `SurfaceDocuments`: removal of redundant metadata
  regions, the curve expander underneath it, and cutting the suppressed surfaces out of the serialized text;
- `EventStore`, `EventStoreRuns`, `CatalogueEvents`, `Pipelines`, `Assignments`, `AssignmentRuns`: the in-memory event
  store, its polling subscription, and the pipeline and assignment protocols built on it;
- `JsonEquality`, `JsonDiff`, `ObservedPaths`, `ChangeSummary`, `SummaryRoundTrips`: the structural difference, and the change summary
  with its readers;
- `CoalescingGate`, `Finalization`, `FinalizationRuns`: the enqueue gate and the two-store finalisation protocol;
- `PackageIdentity`, `RingOrientation`: the identifier allocator and ring orientation;
- `Wrappers`, `Text`, `Sets`, `Points`: options, results, strings, sets and points.

Code that updates objects or loops is modelled by classes and methods, each proved against a function of the old
state; protocols are step functions over all interleavings, and the theorems quantify over every run.

Where a promise does not hold of the code, the code is kept, the failing family is shown, and the exact condition is proved:

- zero-length archive versions hide the version alive (`EndpointsExactUnlessSpanned`, `ZeroLengthVersionHidesState`);
- backward reads of a truncated stream are wrong (`BackwardReadIsExactIffUntruncated`);
- an empty object facing another value is not reported (`DiffIsExactIffNoEmptyObject`);
- line breaks in an attribute path forge summary lines (`FeatureIdsRoundTripIff` and `LineBreakForgesAnId`,
  `LatestEditRoundTripIff` and `LineBreakForgesAnEdit`), and the empty manual summary cannot be read
  (`ManualSummaryReadsIffChanged`);
- an attachment is not checked for its version, so SQL can complete a version that was never attached
  (`AttachedVersionIff`, `OtherVersionCompletes`, `EditionTwoCompletes`);
- a surface called Surfaces can never be removed, because the section header counts as a reference to it
  (`SurfacesIsNeverRemoved`; `SerializedIsCleaned` says what can);
- a creation settled too late lets two jobs in (`TwoJobsWhenLate`, and `OneJobIffWithin` for the exact bound);
- only editions are compared on publication, so an update number can fall (`VersionFallsIff`).

The assignment index converges in every run because identifiers are generated without colons. Validation on its own
would not suffice: `RunsConvergeIffApart` says for which identifiers it does.

`dafny verify dfyconfig.toml` checks the whole project.

## Model

| member | source | states |
|---|---|---|
| TimeZones.LocalOrderIsFaithful | src/ProductManagerCore/ArchiveClock.cs:26-35 | an instant whose wall time is not ambiguous is ordered against every other instant exactly as their wall times are |
| TimeZones.FloorKeepsUnambiguous | src/ProductManagerCore/ArchiveClock.cs:26-35 | flooring an unambiguous instant to whole seconds leaves it unambiguous |
| TimeZones.PreimagesAreExact | src/ProductManagerCore/ArchiveClock.cs:79-83 | the computed set of instants of a wall time is exactly the set of instants that show it |
| TimeZones.WallTimeRoundTrip | src/ProductManagerCore/ArchiveClock.cs:79-83 | a wall time that was shown is never invalid, and converting it back gives the instant unless it is ambiguous |
| TimeZones.LocalAddsOffsetInForce | src/ProductManagerCore/ArchiveClock.cs:26-31 | a clock shows UTC plus the offset of the last transition that has happened |
| ArchiveClock.LiteralLosesNothingIffNotRepeated | src/ProductManagerCore/ArchiveClock.cs:26-35 | the floored literal lets every later instant through exactly when no later instant shows the bound's wall time again |
| ArchiveClock.EventPredicateLosesNothing | src/ProductManagerCore/ArchiveClock.cs:26-39 | every version created or closed in the window satisfies the SQL event predicate at the floored literal |
| ArchiveClock.SelectedRowsAreNotStale | src/ProductManagerCore/ArchiveClock.cs:46-50 | no row that predicate selects is rejected on re-reading, when its instants are the true ones |
| ArchiveClock.BoundIsAcceptedIff | src/ProductManagerCore/ArchiveClock.cs:26-35 | a bound is accepted exactly when no other instant shows the wall time of either end; the literal is its last whole second |
| ArchiveClock.StaleMeansOverASecondEarly | src/ProductManagerCore/ArchiveClock.cs:46-50 | a row is refused exactly when both its creation and its closure lie more than a second before the window |
| ArchiveClock.EventPredicateIsTight | src/ProductManagerCore/ArchiveClock.cs:38-39 | the event predicate is exact for a bound on a whole second and otherwise over-selects by less than a second |
| ArchiveClock.EndpointPredicateIsTight | src/ProductManagerCore/ArchiveClock.cs:42-43 | the endpoint predicate over-selects by at most a second on either side of each bound |
| ArchiveClock.EndpointPredicateLosesNothing | src/ProductManagerCore/ArchiveClock.cs:42-43 | every version alive at either bound satisfies the endpoint predicate |
| ArchiveClock.QueryReachesHistoryStates | src/ProductManagerCore/ArchiveClock.cs:26-50 | the query's rows all pass verification and compose to the states of the full history at both bounds |
| ArchiveClock.IntervalRoundTrip | src/ProductManagerCore/ArchiveClock.cs:53-83 | two columns that stand for a lifetime, in whatever kinds of value, are read as exactly it, and refused exactly if it runs backwards or lies more than five minutes ahead |
| ArchiveClock.UndenotedColumnsAreRefused | src/ProductManagerCore/ArchiveClock.cs:53-83 | a missing, unsupported, skipped or repeated value is refused for its own reason, the opening column first |
| ArchiveClock.ExplicitIntervalRoundTrip | src/ProductManagerCore/ArchiveClock.cs:53-77 | UTC, offset and local values carrying the two instants read back as the interval, whatever the reading zone; a closing value in year 9999 gives no end |
| ArchiveClock.StoredIntervalRoundTrip | src/ProductManagerCore/ArchiveClock.cs:53-83 | stored columns read back as the written interval, or are refused because a wall time is repeated |
| ArchiveWindow.MeetingIsSharingAnInstant | src/ProductManagerCore/ArchiveClock.cs:87-91 | two lifetimes meet exactly when some instant lies in both |
| ArchiveWindow.FirstGreatest | src/ProductManagerCore/ArchiveClock.cs:122-133 | the newest event is a returned element that no other exceeds |
| ArchiveWindow.WindowIsOrdered | src/ProductManagerCore/ArchiveClock.cs:102-113 | a window is created exactly if it does not end before it starts |
| ArchiveWindow.LatestEventIsGreatest | src/ProductManagerCore/ArchiveClock.cs:94-99 | the newest event is the greatest of creation and closure among those after the lower bound and not after the upper one |
| ArchiveWindow.ComposeIsDefined | src/ProductManagerCore/ArchiveClock.cs:122-133 | composing the scanned rows succeeds exactly when the history has an event in the window |
| ArchiveWindow.EndpointsExactUnlessSpanned | src/ProductManagerCore/ArchiveClock.cs:122-133 | for disjoint versions the composed endpoints are the history's states exactly when no version lies across the window without an event in it |
| ArchiveWindow.EndpointsAreHistoryStates | src/ProductManagerCore/ArchiveClock.cs:90-133 | with positive lengths Before and After are the versions alive at Since and Through in the full history |
| ArchiveWindow.ZeroLengthVersionHidesState | src/ProductManagerCore/ArchiveClock.cs:63-77 | a zero-length version, which the reader accepts, hides the version that is alive |
| ArchiveWindow.QuietWindowKeepsState | src/ProductManagerCore/ArchiveClock.cs:119-133 | a window without events leaves the state as it was |
| ArchiveWindow.AdjacentWindowsTelescope | src/ProductManagerCore/ArchiveClock.cs:122-133 | After of (a, b] is Before of (b, c], and the outer pair is what (a, c] composes to |
| ArchiveWindow.ReplayTracksHistory | src/ProductManagerCore/ArchiveClock.cs:102-133 | over any run of adjacent windows the reported changes chain without gap and end at the history's state |
| ArchiveWindow.LatestIsUniqueAfterDeletion | src/ProductManagerCore/ArchiveClock.cs:122-133 | when nothing is alive at Through the newest version is unique |
| ArchiveChanges.ChangeIgnoresCursorOrder | src/ProductManagerCore/ProductManagerGDB.cs:927-933 | the composed archive row is the same for every cursor order |
| ArchiveChanges.ChangeShowsBothStates | src/ProductManagerCore/ArchiveChangeComposer.cs:13-27 | column by column the change record shows the history's states at Since and Through; it is marked deleted exactly when nothing is alive at Through, takes its code from the state then or the unique newest version, dates the newest event, and reports geometry exactly when both states have shapes that differ |
| ArchiveChanges.ChangeIsComposedIff | src/ProductManagerCore/ArchiveClock.cs:122-126 | a change is composed exactly when some version begins or ends in the window |
| ArchiveChanges.NewestVersionCanTie | src/ProductManagerCore/ArchiveChangeComposer.cs:13-27 | two versions can share the newest event, so the order could have mattered |
| BindingIndex.ReadTargets | src/ProductManagerCore/ArchiveBindingIndex.cs:77-106 | a target is read exactly when some item binds it, by informationId or by featureId outside associations; reading fails exactly on text that is no array of objects or a field in question that is no GUID or the empty one |
| BindingIndex.ArchiveBindingIndex.constructor | src/ProductManagerCore/ArchiveBindingIndex.cs:24-29 | starts with the changed targets and empty dictionaries |
| BindingIndex.ArchiveBindingIndex.FindTargets | src/ProductManagerCore/ArchiveBindingIndex.cs:48-56 | finds a row's changed targets if it is alive at an endpoint and reads nothing otherwise |
| BindingIndex.ArchiveBindingIndex.AddOwner | src/ProductManagerCore/ArchiveBindingIndex.cs:59-75 | attaches an owner's targets to its matched products, as affected and, if alive at Through, as current; an idle owner changes nothing |
| BindingIndex.CollectOwners | src/ProductManagerCore/ProductManagerGDB.cs:977-1012 | collects exactly the selected rows that bind a changed target, failing exactly when such a row is unreadable |
| BindingIndex.AddBatch | src/ProductManagerCore/ProductManagerGDB.cs:1013-1034 | indexes one re-read batch in whatever order its rows come, and fails when an owner is missing |
| BindingIndex.AddBatches | src/ProductManagerCore/ProductManagerGDB.cs:1013-1034 | indexes all owners in batches of 256 |
| BindingIndex.UnselectedRowsAreIdle | src/ProductManagerCore/ProductManagerGDB.cs:977-1000 | a row the endpoint predicate leaves out is alive at neither bound |
| BindingIndex.IrrelevantRowsAddNothing | src/ProductManagerCore/ProductManagerGDB.cs:977-1034 | rows without changed targets or away from both bounds would add nothing |
| BindingIndex.IndexedMeans | src/ProductManagerCore/ArchiveBindingIndex.cs:32-37 | a target is indexed for a product exactly when an owner version matched to it binds the target in the column of its kind, alive at Through for current and at either bound for affected |
| BindingIndex.BuildArchiveBindingIndex | src/ProductManagerCore/ProductManagerGDB.cs:977-1039 | the two-pass scan fails exactly on a rejected bound or a faulty row, and otherwise builds, product by product, the index that testing every archive version would build |
| CoverageNormalizer.CheckRegions | src/ProductManagerCore/EncMetadataCoverageNormalizer.cs:144-149 | accepts exactly valid regions with distinct FOIDs, and otherwise reports the first that is not, a repeated FOID before anything else |
| CoverageNormalizer.AcceptableMeans | src/ProductManagerCore/EncMetadataCoverageNormalizer.cs:144-149 | acceptable are distinct FOIDs, the three metadata classes and nonempty valid footprints |
| CoverageNormalizer.AgreementMeansNoConflict | src/ProductManagerCore/EncMetadataCoverageNormalizer.cs:158-172 | the semantic check fails exactly on two regions of one class that share a cell but differ in attributes or masks or have blank attributes; blank masks are masks like any other |
| CoverageNormalizer.CheckSemantics | src/ProductManagerCore/EncMetadataCoverageNormalizer.cs:158-172 | the loop over pairs checks every pair of a class once |
| CoverageNormalizer.OrderIsSorted | src/ProductManagerCore/EncMetadataCoverageNormalizer.cs:153-157 | the greedy order is by area descending, then FOID |
| CoverageNormalizer.CoveredIffRedundant | src/ProductManagerCore/EncMetadataCoverageNormalizer.cs:174-192 | the next region is covered by a retained one exactly when it is not maximal |
| CoverageNormalizer.SuppressCovered | src/ProductManagerCore/EncMetadataCoverageNormalizer.cs:174-192 | within a class, suppresses the non-maximal regions, or throws partial overlap exactly when two maximal ones overlap |
| CoverageNormalizer.FindRedundantRegions | src/ProductManagerCore/EncMetadataCoverageNormalizer.cs:138-195 | whatever the input order: fails on a conflict, else on two crossing regions that nothing supersedes, else suppresses exactly the regions that another one of their class covers, of equal ones all but the smallest FOID |
| CoverageNormalizer.PartialOverlapMeansCrossing | src/ProductManagerCore/EncMetadataCoverageNormalizer.cs:174-192 | a partial overlap is two regions of one class that share a cell, neither inside the other and neither superseded |
| CoverageNormalizer.MaximalAbove | src/ProductManagerCore/EncMetadataCoverageNormalizer.cs:174-192 | every region lies inside a maximal one of its class |
| CoverageNormalizer.CoverageIsKept | src/ProductManagerCore/EncMetadataCoverageNormalizer.cs:138-195 | each class covers the same cells after suppression |
| CoverageNormalizer.CellKeepsItsSemantics | src/ProductManagerCore/EncMetadataCoverageNormalizer.cs:138-195 | each covered cell lies in exactly one retained region of the class, with the same attributes and masks |
| CoverageNormalizer.SuppressionSplitsRegions | src/ProductManagerCore/EncMetadataCoverageNormalizer.cs:138-195 | the suppressed FOIDs are exactly those of the regions that are not retained |
| CoverageNormalizer.EqualFootprintsKeepSmallestFoid | src/ProductManagerCore/EncMetadataCoverageNormalizer.cs:153-192 | of equal footprints only the one with the smallest FOID can be retained |
| CoveragePlan.Apply | src/ProductManagerCore/EncMetadataCoverageNormalizer.cs:70-136 | all or nothing: the dataset is untouched, or gets every pending feature on a partial overlap, or exactly the retained ones |
| CoveragePlan.NothingIsLost | src/ProductManagerCore/EncMetadataCoverageNormalizer.cs:70-136 | kept and removed features together are the pending ones |
| CoveragePlan.PartsKeepOrder | src/ProductManagerCore/EncMetadataCoverageNormalizer.cs:101-128 | kept and removed features keep the order they were pending in |
| CoveragePlan.SummaryFields | src/ProductManagerCore/EncMetadataCoverageNormalizer.cs:125-136 | counts and surface names are those of the removed features |
| CoveragePlan.CountsAddUp | src/ProductManagerCore/EncMetadataCoverageNormalizer.cs:118-136 | the per-class counts of the summary add up to the removed features |
| CoveragePlan.CommittedAreTheRetained | src/ProductManagerCore/EncMetadataCoverageNormalizer.cs:70-136 | the committed identities are those of the retained regions |
| CurveExpansion.ParseVertices | src/ProductManagerCore/EncMetadataCoverageNormalizer.cs:320-334 | parses exactly the even lists of at least two coordinate pairs |
| CurveExpansion.ColumnsRoundTrip | src/ProductManagerCore/EncMetadataCoverageNormalizer.cs:320-334 | a list of points written as columns, x before y, parses to the same list |
| CurveExpansion.Expand | src/ProductManagerCore/EncMetadataCoverageNormalizer.cs:286-318 | the loop that grows and reverses a list computes the expansion, and terminates on every table |
| CurveExpansion.Expansion | src/ProductManagerCore/EncMetadataCoverageNormalizer.cs:286-318 | an expansion that succeeds is never empty and stays within the depth bound |
| CurveExpansion.ChainLength | src/ProductManagerCore/EncMetadataCoverageNormalizer.cs:301-312 | a composite has the sum of its parts' lengths less one per joint |
| CurveExpansion.ChainRunsThrough | src/ProductManagerCore/EncMetadataCoverageNormalizer.cs:301-312 | every component lies in the composite as it is, the first at the start and the last at the end |
| CurveExpansion.FlipReverses | src/ProductManagerCore/EncMetadataCoverageNormalizer.cs:286-318 | a reversed reference gives the exact reverse |
| CurveExpansion.ReversedChain | src/ProductManagerCore/EncMetadataCoverageNormalizer.cs:286-318 | reversing a composite is joining its flipped components in the opposite order |
| CurveExpansion.PathsAreBounded | src/ProductManagerCore/EncMetadataCoverageNormalizer.cs:286-290 | a reference path longer than the depth bound cannot be expanded |
| CurveExpansion.CyclesAreRejected | src/ProductManagerCore/EncMetadataCoverageNormalizer.cs:286-290 | a cyclic reference fails at every depth |
| CurveExpansion.DepthDoesNotMatter | src/ProductManagerCore/EncMetadataCoverageNormalizer.cs:286-318 | a success does not depend on the depth at which it happens |
| CurveExpansion.Ring | src/ProductManagerCore/EncMetadataCoverageNormalizer.cs:278-284 | a ring is a closed expansion |
| CurveExpansion.RingEitherWay | src/ProductManagerCore/EncMetadataCoverageNormalizer.cs:278-284 | a ring reference and its reversed form succeed together, and expand to reversed lists |
| SurfaceCleanup.FindRemoved | src/ProductManagerCore/EncMetadataSurfaceYamlCleanup.cs:53-74 | finds the positions of the listed records, exactly when every name is valid and distinct and every listed record shows its geometry |
| SurfaceCleanup.CopyAround | src/ProductManagerCore/EncMetadataSurfaceYamlCleanup.cs:89-96 | copying the stretches between the removed records keeps every other record |
| SurfaceCleanup.CutRecords | src/ProductManagerCore/EncMetadataSurfaceYamlCleanup.cs:53-96 | cuts exactly the listed records, exactly when all are found and none is referenced elsewhere |
| SurfaceCleanup.RemoveSuppressedSurfaces | src/ProductManagerCore/EncMetadataSurfaceYamlCleanup.cs:25-97 | succeeds exactly on cleanable documents, and then returns the text with the listed records cut |
| SurfaceCleanup.OutputStructure | src/ProductManagerCore/EncMetadataSurfaceYamlCleanup.cs:36-96 | reading the cut text gives the input's records less the listed ones, in order, with every other line unchanged |
| SurfaceCleanup.CuttingCreatesNoWord | src/ProductManagerCore/EncMetadataSurfaceYamlCleanup.cs:79-96 | cutting several records cannot create a word the input did not have |
| SurfaceCleanup.NoSuppressedNameRemains | src/ProductManagerCore/EncMetadataSurfaceYamlCleanup.cs:79-87 | no suppressed name remains as a word, although each was checked with the other records in place |
| SurfaceDocuments.SerializedIsCleaned | src/ProductManagerCore/EncMetadataSurfaceYamlCleanup.cs:25-97 | from a serialized dataset any surfaces can be removed that show their geometry and are mentioned nowhere else, as long as one is left; the output is the dataset serialized without them |
| SurfaceDocuments.SurfacesIsNeverRemoved | src/ProductManagerCore/EncMetadataSurfaceYamlCleanup.cs:79-87 | a surface called Surfaces is never removed, because the section header mentions it |
| SurfaceDocuments.EntryLineIs | src/ProductManagerCore/EncMetadataSurfaceYamlCleanup.cs:15 | an entry line is the marker, a nonempty name without carriage returns and an optional one |
| SurfaceDocuments.SurfaceNameIs | src/ProductManagerCore/EncMetadataSurfaceYamlCleanup.cs:16 | a surface name is an S, a nonempty word and at most a final line break |
| SurfaceDocuments.TopLevelHeaderIs | src/ProductManagerCore/EncMetadataSurfaceYamlCleanup.cs:18 | a top-level header is an identifier, a colon and an optional carriage return |
| SurfaceDocuments.UnexpectedItemIs | src/ProductManagerCore/EncMetadataSurfaceYamlCleanup.cs:17 | an unexpected item starts with the item marker but not with the entry marker |
| SurfaceDocuments.ExteriorIs | src/ProductManagerCore/EncMetadataSurfaceYamlCleanup.cs:71-73 | a record shows its geometry exactly if a later line of it starts with the indented key |
| EventStore.InMemoryStream.AppendEvents | src/DataCatalogueAPI/Repositories/InMemoryEventStore.cs:234-256 | numbers the events on from the version, or refuses and changes nothing |
| EventStore.InMemoryStream.Truncate | src/DataCatalogueAPI/Repositories/InMemoryEventStore.cs:290-295 | drops the events up to a position and keeps the version |
| EventStore.InMemoryStream.GetEventsBackwards | src/DataCatalogueAPI/Repositories/InMemoryEventStore.cs:271-288 | reads backwards by list index |
| EventStore.InMemoryEventStore.AppendEvents | src/DataCatalogueAPI/Repositories/InMemoryEventStore.cs:34-61 | appends to one stream and to the global log; a refusal may leave an empty stream |
| EventStore.InMemoryEventStore.AppendBatchEvents | src/DataCatalogueAPI/Repositories/InMemoryEventStore.cs:64-105 | applies appends in order until the first refusal, which keeps what came before |
| EventStore.InMemoryEventStore.TruncateStream | src/DataCatalogueAPI/Repositories/InMemoryEventStore.cs:146-159 | truncates one stream and leaves the log alone |
| EventStore.InMemoryEventStore.DeleteStream | src/DataCatalogueAPI/Repositories/InMemoryEventStore.cs:162-175 | forgets one stream and leaves the log alone |
| EventStore.InMemoryEventStore.ReadEvents | src/DataCatalogueAPI/Repositories/InMemoryEventStore.cs:109-124 | reports a missing stream, and on a live one returns the events from the position on, or as many of them as were asked for |
| EventStore.InMemoryEventStore.ReadAll | src/DataCatalogueAPI/Repositories/InMemoryEventStore.cs:177-194 | refuses counts below one, and otherwise returns the log from the position on, cut off at the count or at its end |
| EventStore.InMemoryEventStore.Poll | src/DataCatalogueAPI/Repositories/InMemoryEventStore.cs:464-488 | undisturbed polling delivers the log from the starting point to its end, for any batch size |
| EventStoreRuns.ReachableStatesAreConsistent | src/DataCatalogueAPI/Repositories/InMemoryEventStore.cs:34-175 | in every reachable state each live stream is a suffix of its part of the global log with consecutive positions ending at its version, and the log only grows |
| EventStoreRuns.RefusedAppend | src/DataCatalogueAPI/Repositories/InMemoryEventStore.cs:34-61 | a refused append never reaches the log, and leaves the store unchanged exactly when there was nothing to append or the stream existed |
| EventStoreRuns.BatchStopsAtFirstRefusal | src/DataCatalogueAPI/Repositories/InMemoryEventStore.cs:64-105 | after the first refused append of a batch nothing more is logged |
| EventStore.ForwardReadIsExact | src/DataCatalogueAPI/Repositories/InMemoryEventStore.cs:258-269 | on a live stream, truncated or not, a forward read is the events from the position on, or the first of them up to the count |
| EventStore.TruncationKeepsLater | src/DataCatalogueAPI/Repositories/InMemoryEventStore.cs:290-295 | truncation keeps exactly the events behind the position, in order |
| EventStoreRuns.BackwardReadIsExactIffUntruncated | src/DataCatalogueAPI/Repositories/InMemoryEventStore.cs:271-288 | backward reads are right for every request exactly on streams that are empty or start at position 0 |
| EventStoreRuns.PollingDeliversTheLog | src/DataCatalogueAPI/Repositories/InMemoryEventStore.cs:427-488 | with any interleaved store operations, any start and any batch sizes, what was delivered is the log from the starting point, each event once and in order, and an empty fetch means nothing is missing |
| EventStoreRuns.StartsBehindCheckpoint | src/DataCatalogueAPI/Repositories/InMemoryEventStore.cs:427-444 | a subscription goes on behind its checkpoint, and without one starts at the first entry or behind the latest |
| EventStoreRuns.AppendExtendsHistory | src/DataCatalogueAPI/Repositories/InMemoryEventStore.cs:34-61 | an append adds its events to its own stream's history and to no other's |
| CatalogueEvents.GetIdOfStreamName | src/DataCatalogueAPI/Repositories/InMemoryPipelineRepository.cs:22-31 | the identifier is recovered from a stream name even when it contains dashes |
| Pipelines.Pipeline.Load | src/DataCatalogueAPI/Domain/Pipeline.cs:32-58 | loading is folding the stream |
| Pipelines.FoldShowsWorkspaces | src/DataCatalogueAPI/Domain/Pipeline.cs:32-58 | a history folds to the workspaces it added, in order, each as described and held as the newest claim after its addition says |
| Pipelines.FoldShowsPipeline | src/DataCatalogueAPI/Domain/Pipeline.cs:32-58 | the identifier, name and description shown are those of the creation, the time that of the newest event |
| Pipelines.Pipeline.Handle | src/DataCatalogueAPI/Domain/Pipeline.cs:60-105 | a command applies what its guards decide, or fails and changes nothing |
| Pipelines.CreatedFirstAndOnce | src/DataCatalogueAPI/Domain/Pipeline.cs:60-69 | in a legal history the creation event is first and occurs once |
| Pipelines.NamesStayUnique | src/DataCatalogueAPI/Domain/Pipeline.cs:71-81 | in a legal history workspace names are unique without regard to case |
| Pipelines.NamesDiffer | src/DataCatalogueAPI/Domain/Pipeline.cs:71-81 | no two workspaces of a legal history have names of one length that agree in upper case |
| Pipelines.SameNameMeans | src/DataCatalogueAPI/Domain/Pipeline.cs:71-81 | names are the same if they are equally long and agree in upper case, character by character |
| Pipelines.DecidedMayFollow | src/DataCatalogueAPI/Domain/Pipeline.cs:60-105 | whatever a command decides is at most one event, and one that may follow the history it was decided from |
| Pipelines.CommitKeepsStreamOk | src/DataCatalogueAPI/Repositories/InMemoryEventStore.cs:227-256 | the expected version makes an append land only on the history it was decided from, so every stream stays legal |
| Pipelines.PipelinesStayWellFormed | src/DataCatalogueAPI/Services/Commands/PipelineCommandServices.cs:8-32 | under every interleaving of load, append and delivery: creation first and once, unique names, and a listing entry equal to the fold of the consumed part of its stream |
| Pipelines.NoDeliveryFails | src/DataCatalogueAPI/Repositories/InMemoryPipelineRepository.cs:33-47 | no delivery meets an update before its pipeline's creation |
| Pipelines.OneOfTwoRacersWins | src/DataCatalogueAPI/Repositories/InMemoryEventStore.cs:227-232 | of two commands that saw the same history at most one appends |
| Pipelines.UndisturbedCommandLands | src/DataCatalogueAPI/Services/Commands/PipelineCommandServices.cs:8-32 | in every reachable state a command that nothing disturbs appends what it decides, creation from nothing and every other from the whole history |
| Pipelines.CreationIsListed | src/DataCatalogueAPI/Repositories/InMemoryPipelineRepository.cs:22-47 | a creation that nothing disturbs ends up in the listing as it was asked for |
| Pipelines.ClaimsChangeOneWorkspace | src/DataCatalogueAPI/Domain/Pipeline.cs:84-105 | locking or unlocking sets the owner of the named workspace and leaves every other as it was |
| Pipelines.InMemoryPipelineRepository.HandleEvent | src/DataCatalogueAPI/Repositories/InMemoryPipelineRepository.cs:22-36 | one delivery updates the listing as specified, by event kind |
| Pipelines.InMemoryPipelineRepository.HandleUpdated | src/DataCatalogueAPI/Repositories/InMemoryPipelineRepository.cs:38-47 | an update folds into the existing entry or fails when there is none |
| Assignments.Binding.Handle | src/DataCatalogueAPI/Domain/Dispatch.cs:72-98 | creating, restoring and removing apply what their guards decide |
| Assignments.PipelineAssignmentIndex.Update | src/DataCatalogueAPI/Repositories/PipelineAssignmentIndex.cs:11-15 | the update with the greater position stays |
| Assignments.PipelineAssignmentIndex.HasAssignments | src/DataCatalogueAPI/Repositories/PipelineAssignmentIndex.cs:18 | tells whether some pipeline is active |
| Assignments.PipelineAssignmentIndex.GetPipelines | src/DataCatalogueAPI/Repositories/PipelineAssignmentIndex.cs:19-20 | lists exactly the active pipelines, once each, in ordinal order |
| Assignments.ArrivalsHoldGreatest | src/DataCatalogueAPI/Repositories/PipelineAssignmentIndex.cs:11-15 | after any arrivals each pair's entry is the arrived update with the greatest position |
| Assignments.ContainsMeansNewestBinds | src/DataCatalogueAPI/Repositories/PipelineAssignmentIndex.cs:11-17 | the index contains a pair exactly when the newest of its entries that arrived binds it |
| Assignments.ArrivalOrderDoesNotMatter | src/DataCatalogueAPI/Repositories/PipelineAssignmentIndex.cs:11-15 | order, delay and duplication of arrivals do not matter |
| Assignments.LegalMeans | src/DataCatalogueAPI/Domain/Dispatch.cs:100-123 | a binding stream is about one pair, alternates between bound and unbound, and is active exactly after a bound event |
| Assignments.ArrivedAgreesWithReplay | src/DataCatalogueAPI/Repositories/PackageRepository.cs:484-505 | once everything about a pair has arrived the index says what replaying its binding stream says |
| AssignmentRuns.BindingIdsCollide | src/DataCatalogueAPI/Services/PipelineAssignmentService.cs:23 | two pairs share a binding identifier exactly when they are equal or a colon moves across the separator |
| Assignments.DoubleColonMeans | src/DataCatalogueAPI/Services/PipelineAssignmentService.cs:15-17 | an identifier is rejected for a double colon exactly if it contains one |
| AssignmentRuns.GeneratedAreApart | src/DataCatalogueAPI/Services/PackageIdentityService.cs:12-32 | no two pairs of generated identifiers share a binding identifier, because none holds a colon |
| AssignmentRuns.GeneratedIs | src/DataCatalogueAPI/Services/PackageIdentityService.cs:9-31 | generated identifiers are the words of eighteen characters over digits and small letters |
| AssignmentRuns.IndexConverges | src/DataCatalogueAPI/Services/PipelineAssignmentService.cs:15-54 | in every run of the service beside the subscription, with any requests, the index agrees with replay once each entry was published or consumed |
| AssignmentRuns.CompletedChangeSticks | src/DataCatalogueAPI/Services/PipelineAssignmentService.cs:31-51 | a completed assign or remove is never undone by a stale delivery |
| AssignmentRuns.GateHolderAlwaysSucceeds | src/DataCatalogueAPI/Services/PipelineAssignmentService.cs:20-35 | under the gate a decision always yields one event and its append is never refused, whatever identifiers exist |
| AssignmentRuns.RunsConvergeIffApart | src/DataCatalogueAPI/Services/PipelineAssignmentService.cs:15-37 | validation alone does not keep bindings apart: for any set of issued identifiers, every run converges exactly when no assignable pair is another with a colon moved across the separator |
| AssignmentRuns.CollidingRunDiverges | src/DataCatalogueAPI/Services/PipelineAssignmentService.cs:15-37 | assigning and removing one of two such pairs and then assigning the other ends with an index that replay contradicts |
| JsonEquality.EqualMeansAgree | src/ProductCatalogueAPI/Jobs/EncChangeSummary.cs:73-90 | two documents are equal exactly when at every path both are absent or look the same: one kind, equal texts, equal decimals or equal raw numbers, as many items, members of the same names |
| JsonEquality.AtMeansReaches | src/ProductCatalogueAPI/Jobs/EncChangeSummary.cs:67-71 | what is found at a path is what going from member to member and item to item reaches |
| JsonEquality.JsonEqualsIsEquivalence | src/ProductCatalogueAPI/Jobs/EncChangeSummary.cs:73-90 | on documents with unique member names the equality is reflexive, symmetric and transitive |
| JsonEquality.RepeatedNamesAreNotReflexive | src/ProductCatalogueAPI/Jobs/EncChangeSummary.cs:77-81 | a repeated member name breaks even reflexivity |
| JsonDiff.PropertyIsSmaller | src/ProductCatalogueAPI/Jobs/EncChangeSummary.cs:67-68 | stepping into a member shrinks the tree, so the recursion terminates |
| JsonDiff.ElementIsSmaller | src/ProductCatalogueAPI/Jobs/EncChangeSummary.cs:70-71 | stepping into an item shrinks the tree |
| JsonDiff.ChangedPaths.AddChanged | src/ProductCatalogueAPI/Jobs/EncChangeSummary.cs:44-64 | the recursive procedure adds exactly the paths of the difference |
| JsonDiff.ReportedPathsDiffer | src/ProductCatalogueAPI/Jobs/EncChangeSummary.cs:44-64 | every reported path is a position where the two documents differ |
| JsonDiff.ReportedPathsDisagree | src/ProductCatalogueAPI/Jobs/EncChangeSummary.cs:44-64 | at every reported path the two documents disagree on something |
| JsonDiff.DiffReportsExactly | src/ProductCatalogueAPI/Jobs/EncChangeSummary.cs:44-64 | a path is reported exactly when the two sides disagree at its end with nothing below on either, following names while either side is an object and indices only while neither is |
| JsonDiff.DiffIsExact | src/ProductCatalogueAPI/Jobs/EncChangeSummary.cs:44-64 | on documents without empty objects, absent ones included, nothing is reported exactly when they agree at every path |
| JsonDiff.DiffIsExactIffNoEmptyObject | src/ProductCatalogueAPI/Jobs/EncChangeSummary.cs:48-53 | a document has no empty object exactly when that holds for it against every other such document |
| ObservedPaths.AddChangedJsonPaths | src/ProductCatalogueAPI/Jobs/EncChangeSummary.cs:32-43 | reads both documents and adds the rendered paths, failing exactly when one is invalid |
| ObservedPaths.GetObservedAttributePaths | src/ProductCatalogueAPI/Jobs/EncChangeSummary.cs:14-30 | returns the observed paths once each in ordinal order |
| ObservedPaths.NothingObservedIff | src/ProductCatalogueAPI/Jobs/EncChangeSummary.cs:14-30 | a live row reports nothing exactly when it existed before and nothing about it changed; a deleted one exactly when it did not exist before |
| ObservedPaths.NestedChangesMean | src/ProductCatalogueAPI/Jobs/EncChangeSummary.cs:32-64 | a nested pair of texts reports exactly the written paths of the difference |
| ObservedPaths.WholeChangesMean | src/ProductCatalogueAPI/Jobs/EncChangeSummary.cs:32-64 | a pair compared as a whole reports its prefix exactly when the two disagree |
| ObservedPaths.RenderStep | src/ProductCatalogueAPI/Jobs/EncChangeSummary.cs:53-59 | a path is written step by step, a name behind a dot and an index in brackets |
| ObservedPaths.DocumentMeans | src/ProductCatalogueAPI/Jobs/EncChangeSummary.cs:33-42 | blank or absent text is no document; other text is what the reader makes of it |
| ChangeSummary.DistinctKeepsEachChangeOnce | src/ProductCatalogueAPI/Jobs/EncChangeSummary.cs:113-114 | removing duplicates keeps each change once |
| ChangeSummary.DistinctKeepsFirst | src/ProductCatalogueAPI/Jobs/EncChangeSummary.cs:113 | of several equal changes the first is kept, in its place |
| ChangeSummary.ObservedAscends | src/ProductCatalogueAPI/Jobs/EncChangeSummary.cs:113-114 | the printed changes ascend by feature and, within one feature, by attribute path |
| ChangeSummary.SortPermutes | src/ProductCatalogueAPI/Jobs/EncChangeSummary.cs:113-114 | sorting orders the changes and loses none |
| ChangeSummary.SortIsStable | src/ProductCatalogueAPI/Jobs/EncChangeSummary.cs:113-114 | changes with the same feature and path keep their order |
| ChangeSummary.Serialize | src/ProductCatalogueAPI/Jobs/EncChangeSummary.cs:112-139 | prints the header and the sorted distinct changes line by line, or fails on an empty list or a time that is not UTC |
| ChangeSummary.SummaryText | src/ProductCatalogueAPI/Jobs/EncChangeSummary.cs:112-139 | refused exactly without changes or for a time that is not UTC; the text is the header with the latest edit and then each observed change, line by line |
| ChangeSummary.ManualSummaryText | src/ProductCatalogueAPI/Jobs/EncChangeSummary.cs:147-158 | a manual summary is an ordinary one of S-101 if there are changes, and otherwise a header with null and an empty list |
| ChangeSummary.LabelsAre | src/ProductCatalogueAPI/Jobs/EncChangeSummary.cs:121-137 | what stands in front of each value |
| ChangeSummary.QuotedIsRead | src/ProductCatalogueAPI/Jobs/EncChangeSummary.cs:184 | a quoted text reads back as the text up to its closing quote |
| SummaryRoundTrips.QuotedLines | src/ProductCatalogueAPI/Jobs/EncChangeSummary.cs:184 | quoting works line by line: each line of the quoted text is the escaped line, between quotes at the two ends |
| SummaryRoundTrips.FeatureIdsRoundTripIff | src/ProductCatalogueAPI/Jobs/EncSnapshotMembership.cs:40-42 | reading a printed summary gives the sorted distinct changes' identifiers in order, exactly when each is one trimmed line and no line break in a text that was handed in is followed by the identifier marker |
| SummaryRoundTrips.FeatureIdsRoundTrip | src/ProductCatalogueAPI/Jobs/EncSnapshotMembership.cs:40-42 | without line breaks in the texts, every summary of trimmed identifiers gives them back |
| SummaryRoundTrips.LineBreakForgesAnId | src/ProductCatalogueAPI/Jobs/EncSnapshotMembership.cs:40-42 | an attribute path with a line break before the marker makes the reader return other identifiers |
| ChangeSummary.GetLatestArchiveEditUtc | src/ProductCatalogueAPI/Jobs/EncChangeSummary.cs:161-182 | returns the greatest timestamp read, or the failure of an unreadable or absent one |
| ChangeSummary.LatestMeans | src/ProductCatalogueAPI/Jobs/EncChangeSummary.cs:170-181 | fails on an unreadable timestamp before it misses one, and otherwise gives the greatest |
| ChangeSummary.InstantIsRead | src/ProductCatalogueAPI/Jobs/EncChangeSummary.cs:172-176 | local instants are converted, UTC and unspecified ones taken as they are |
| SummaryRoundTrips.ObservedKeepsTimes | src/ProductCatalogueAPI/Jobs/EncChangeSummary.cs:125 | the printed latest edit is the maximum detection time of all changes |
| SummaryRoundTrips.LatestEditRoundTripIff | src/ProductCatalogueAPI/Jobs/EncChangeSummary.cs:161-182 | reading a printed summary gives the maximum detection time, exactly when every timestamp line behind a line break in a text is readable, no later and, in a quoted text, not the last line |
| SummaryRoundTrips.LatestEditRoundTrip | src/ProductCatalogueAPI/Jobs/EncChangeSummary.cs:161-182 | without line breaks in the texts, every summary gives back its maximum detection time |
| SummaryRoundTrips.LineBreakForgesAnEdit | src/ProductCatalogueAPI/Jobs/EncChangeSummary.cs:161-182 | an attribute path with a line break, the marker and a later time makes the reader return another result |
| SummaryRoundTrips.LineBreakSpoilsTheEdit | src/ProductCatalogueAPI/Jobs/EncChangeSummary.cs:161-182 | a marker on the last line of an attribute path makes the reader return another result, whatever follows it |
| SummaryRoundTrips.EmptyManualSummaryIsRejected | src/ProductCatalogueAPI/Jobs/EncChangeSummary.cs:147-158 | the empty manual summary is rejected by the timestamp reader |
| SummaryRoundTrips.ManualSummaryReadsIffChanged | src/ProductCatalogueAPI/Jobs/EncChangeSummary.cs:142-158 | without line breaks in the texts, a manual summary reads back exactly when it holds a change, and then gives the maximum detection time |
| CoalescingGate.CoalescingDpcFilter.OnCreating | src/ProductCatalogueAPI/Jobs/CoalescingDpcFilter.cs:18-50 | reserves the gate exactly when it admits, and cancels otherwise |
| CoalescingGate.CoalescingDpcFilter.OnCreated | src/ProductCatalogueAPI/Jobs/CoalescingDpcFilter.cs:53-61 | replaces its own reservation only |
| CoalescingGate.CoalescingDpcFilter.OnPerformed | src/ProductCatalogueAPI/Jobs/CoalescingDpcFilter.cs:67-75 | releases its own job only |
| CoalescingGate.AdmittedMeansIdle | src/ProductCatalogueAPI/Jobs/CoalescingDpcFilter.cs:18-50 | the gate admits an enqueue only when no job is queued or running |
| CoalescingGate.AtMostOneJob | src/ProductCatalogueAPI/Jobs/CoalescingDpcFilter.cs:18-75 | if every creation that goes through settles within two minutes, at most one job is queued or running in every reachable state |
| CoalescingGate.ExpiredReservationsOverlap | src/ProductCatalogueAPI/Jobs/CoalescingDpcFilter.cs:28-33 | once a reservation expired unsettled its creator and the next one can both queue a job |
| CoalescingGate.TwoJobsWhenLate | src/ProductCatalogueAPI/Jobs/CoalescingDpcFilter.cs:28-33 | a run with a late creation that ends with two queued jobs |
| CoalescingGate.OneJobIffWithin | src/ProductCatalogueAPI/Jobs/CoalescingDpcFilter.cs:8-33 | bounding the age of unsettled creations keeps every run at one queued or running job exactly when the bound is at most the two minutes after which a reservation expires |
| CoalescingGate.GateReopens | src/ProductCatalogueAPI/Jobs/CoalescingDpcFilter.cs:18-75 | from every reachable state and however things go on without a new reservation, the gate is open once the recorded job is final or gone, or two minutes after a reservation with no unfinished job of its creation |
| CoalescingGate.SomeScheduleReopens | src/ProductCatalogueAPI/Jobs/CoalescingDpcFilter.cs:18-75 | from every reachable state some schedule of at most three steps reopens the gate |
| Finalization.EncPackageFinalizationService.FindOwnAttachment | src/ProductManagerCore/ProductManagerGDB.cs:2312-2328 | finds the package's attachment, or a conflict exactly when there are several or an inconsistent one |
| Finalization.EncPackageFinalizationService.PublishAcceptedEncPackage | src/ProductManagerCore/ProductManagerGDB.cs:2299-2409 | publishes both products and the attachment together, or fails and changes nothing |
| Finalization.EncPackageFinalizationService.FinalizeAsync | src/ProductCatalogueAPI/Jobs/FinalizeEncPackageJob.cs:30-43 | publishes first and completes second, and keeps a publication whose completion failed |
| Finalization.EncPackageFinalizationService.FinalizePendingAsync | src/ProductCatalogueAPI/Jobs/FinalizeEncPackageJob.cs:21-28 | finalises every pending package once, in whatever order the query gives; a failure does not stop the others |
| Finalization.PendingHasPublication | src/ProductCatalogueAPI/Data/Repositories/EncPackageAcknowledgementRepository.cs:154-217 | the pending packages are exactly those a finalisation would publish |
| Finalization.PublishesBothTogether | src/ProductManagerCore/ProductManagerGDB.cs:2346-2400 | a successful publication leaves both products at the package's versions and exactly one attachment; no edition goes down and no other product changes |
| Finalization.PublishSucceedsIff | src/ProductManagerCore/ProductManagerGDB.cs:2299-2354 | publication succeeds exactly for valid arguments, one mapped name, one product each and either no attachment, with both products at other versions of no greater edition, or one matching attachment with both at the package's versions |
| Finalization.FirstPublicationMeans | src/ProductManagerCore/ProductManagerGDB.cs:2356-2409 | a first publication gives the two products the package's versions and day, and adds its attachment with version and export type |
| Finalization.PublicationMeans | src/ProductCatalogueAPI/Data/Repositories/EncPackageAcknowledgementRepository.cs:154-217 | a pending package is published with the identities, texts and accepted candidates SQL holds for it |
| Finalization.CompletionMeans | src/ProductCatalogueAPI/Data/Repositories/EncPackageAcknowledgementRepository.cs:219-278 | completion is refused exactly for a discarded or rebound package and a candidate no longer accepted; it touches only the package, its two tracks and the replay point, which takes the earlier instant |
| Finalization.RetryIsHarmless | src/ProductManagerCore/ProductManagerGDB.cs:2346-2352 | a retry after the edit went through succeeds and changes nothing |
| Finalization.VersionFallsIff | src/ProductManagerCore/ProductManagerGDB.cs:2346-2354 | a published version goes down exactly when the edition stays and the update number falls |
| Finalization.UpdateNumberCanFall | src/ProductManagerCore/ProductManagerGDB.cs:2346-2354 | a publication that lowers an update number is accepted |
| Finalization.AttachedVersionIff | src/ProductManagerCore/ProductManagerGDB.cs:2312-2328 | after a publication the attachment carries the published version exactly when there was none before or one of that version |
| FinalizationRuns.CompletionMeansPublication | src/ProductCatalogueAPI/Jobs/FinalizeEncPackageJob.cs:30-43 | over all runs with crashes and retries a package gets at most one attachment; for a completed one an earlier step moved both products together with adding it, and the completing step moved both tracks |
| FinalizationRuns.OnlyFirstPublicationWrites | src/ProductManagerCore/ProductManagerGDB.cs:2346-2409 | a finalisation step changes the geodatabase only as a package's first publication, both products and the attachment at once |
| FinalizationRuns.CompletedVersionIsAttached | src/ProductCatalogueAPI/Jobs/FinalizeEncPackageJob.cs:30-43 | while attached packages are taken up again with their attached version only, the completed version is the attached one |
| FinalizationRuns.OtherVersionCompletes | src/ProductManagerCore/ProductManagerGDB.cs:2312-2352 | after a crash, another offered version of the same snapshot can complete although it was never attached |
| FinalizationRuns.EditionTwoCompletes | src/ProductManagerCore/ProductManagerGDB.cs:2312-2352 | a concrete run that attaches edition 1 and completes edition 2 |
| PackageIdentity.FormatIsInjective | src/DataCatalogueAPI/Services/PackageIdentityService.cs:27 | a formatted identifier determines prefix, number and year, whatever the prefix contains |
| PackageIdentity.ScopeIsInjective | src/DataCatalogueAPI/Services/PackageIdentityService.cs:24 | a scope determines prefix and year |
| PackageIdentity.D3Reads | src/DataCatalogueAPI/Services/PackageIdentityService.cs:27 | the number is padded to three digits, and no further, and reads back |
| PackageIdentity.NumbersStartAtZero | src/DataCatalogueAPI/Services/PackageIdentityService.cs:25-30 | an unused scope starts with number 000, and the counter moves to one past the number granted |
| PackageIdentity.AttemptsAreBounded | src/DataCatalogueAPI/Services/PackageIdentityService.cs:26-29 | numbers tried in vain have different identifiers, all reserved |
| PackageIdentity.PackageIdentityService.Reserve | src/DataCatalogueAPI/Services/PackageIdentityService.cs:19-36 | grants as specified, trying at most one number more than there are reservations |
| PackageIdentity.PackageIdentityService.Release | src/DataCatalogueAPI/Services/PackageIdentityService.cs:40-42 | removes one reservation and leaves the counters alone |
| PackageIdentity.NeverGeneratedTwice | src/DataCatalogueAPI/Services/PackageIdentityService.cs:19-42 | over any calls no generated short identifier is returned twice, not even after release |
| PackageIdentity.CallIsRecorded | src/DataCatalogueAPI/Services/PackageIdentityService.cs:19-42 | after any calls one more behaves as the allocator does, and what it generates joins what was returned |
| PackageIdentity.GrantsAreFresh | src/DataCatalogueAPI/Services/PackageIdentityService.cs:19-36 | a grant is never a live reservation, a supplied identifier is refused exactly when live, a generated one never is and has the smallest free number from the counter on |
| RingOrientation.TranslationKeepsArea | src/DataCatalogueAPI/PackageTypes/MarineAggregateExtraction.cs:101-105 | on every closed ring the translated and the plain sum agree, from whatever origin |
| RingOrientation.TriangleArea | src/DataCatalogueAPI/PackageTypes/NoticeToMariners.cs:141-144 | the area of a triangle is positive exactly when its corners run counterclockwise |
| RingOrientation.PositionIsLongitudeLatitude | src/DataCatalogueAPI/PackageTypes/NoticeToMariners.cs:116-127 | a position is a longitude followed by a latitude within bounds |
| RingOrientation.PointsAreReadInOrder | src/DataCatalogueAPI/PackageTypes/NoticeToMariners.cs:134-140 | a ring is read exactly when every position can be, in order |
| RingOrientation.ReversalNegatesArea | src/DataCatalogueAPI/PackageTypes/NoticeToMariners.cs:141-147 | reversing a ring negates its area |
| RingOrientation.ReverseInPlace | src/DataCatalogueAPI/PackageTypes/MarineAggregateExtraction.cs:108 | the in-place reversal reverses |
| RingOrientation.SumArea | src/DataCatalogueAPI/PackageTypes/NoticeToMariners.cs:141-144 | both loops compute the ring's area |
| RingOrientation.AddPolygon | src/DataCatalogueAPI/PackageTypes/MarineAggregateExtraction.cs:81-112 | appends the oriented rings; the two importers differ on an empty polygon only |
| RingOrientation.OrientIsRight | src/DataCatalogueAPI/PackageTypes/NoticeToMariners.cs:146-148 | orienting gives a closed ring of the right sense with the same points, and leaves a right one alone |
| RingOrientation.PolygonIsOriented | src/DataCatalogueAPI/PackageTypes/NoticeToMariners.cs:134-151 | the first ring of each polygon is clockwise and all later ones counterclockwise, still closed and with the same points |

## Left out

- Geodatabase access, projection, topology building and polygon computation: footprints are sets of cells, and matching an
  owner row to products is an outcome attached to the row.
- SQL, Hangfire and Eventuous internals: only atomic edits, locks, expected-version checks and append positions are kept.
  Re-running a job after a crash between its OnPerformed and its final state is Hangfire's at-least-once delivery and is not modelled.
- Real time zone data and date printing: a zone is any step function with whole-second transitions no closer together than
  their jumps, and timestamps have a printer that reads back, and a reader that takes no quotes or backslashes.
- ArchiveClock.EventPredicateLosesNothing: assumes stored wall times lie before the open-end sentinel of 9999-12-31, as the sentinel itself does.
- BindingIndex.BuildArchiveBindingIndex: models one archive table and connection; row lifetimes are taken as read and checked, and
  product names as case-folded.
- CurveExpansion.ParseVertices: the vertex text is already split into numbers, with None where a value does not parse.
- SurfaceCleanup.RemoveSuppressedSurfaces: the regular expressions are modelled as line predicates, and white space as that of Latin-1.
- EventStore: event identifiers, payload serialization, metadata and creation times are one opaque event value; negative read positions
  are not modelled, and neither is cancellation.
- The subscription's checkpoint persistence and its base class: a run starts from any checkpoint, and a handler that throws is not modelled.
- Pipelines.InMemoryPipelineRepository.HandleUpdated: the compare-and-swap retry loop runs once, because one subscription is the only writer.
- Pipelines.Pipeline.Handle: user names arrive normalised, a geometry reference comes with its parsed GUID, and names compare under any
  character-wise upper-case mapping.
- AssignmentRuns.IndexConverges: package and pipeline streams are opened under generated identifiers only, as the two controllers do;
  that a generated identifier can repeat by chance is not modelled.
- The package listing projection (PackageRepository.cs:497-517) has the shape of the pipeline listing and is not repeated; the category
  aggregate would add only easy members.
- ObservedPaths.GetObservedAttributePaths: JSON text is read by any given parser; paths are kept structured until they are rendered.
- The Copenhagen work date and the product specification are given as printed text.
- Finalization.PendingHasPublication: a track is accepted or not as one flag, which stands for the joined delivery and newest revision rows.
- CoalescingGate.AtMostOneJob: servers share one clock, and job identifiers never look like reservations.
- Finalization.EncPackageFinalizationService.PublishAcceptedEncPackage: the dispatcher runs the body on one thread, so checks and edit are one
  step; the archive bytes are represented by the digest of the YAML, and the edit's own duplicate checks are covered by the earlier ones.
- A missing compiler index or catalogue signature fails in the repository before publication; here a missing index fails in publication, and
  the signature is not modelled.
- PackageIdentity.PackageIdentityService.Reserve: the random identifier is not modelled, and years are two digits.
- RingOrientation.SumArea: coordinates are real numbers, so rounding and non-finite values are not modelled.
- Controllers, authentication, configuration, logging, frontend code, sample data and mail.
