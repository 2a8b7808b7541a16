# Graphoxide: verified core

A Dafny model of the parts of Graphoxide that must not lose or corrupt anything, with proofs of what they
guarantee. `dafny verify dfyconfig.toml` checks the project.

**Comparing graphs.** `Json`, `Matching`, `PreservedRecords`, `CanonicalGraph`, `Diagnostics`, `CrossRuntime`,
`Partition` and `GraphComparison` model the differential between a reference and a candidate graph; `JsonMeaning`,
`RawMeaning`, `RawRuntimes`, `RawDifferences`, `CleanGraphs`, `ViolationCounts`, `Pairings`, `RawComparison` and
`RawVerdicts` say what its numbers and verdicts mean for the raw records. The count of preserved records is a maximum
bipartite matching found by augmenting paths; the proof carries a set of exhausted references whose compatible
candidates are all matched back into it, which later searches never touch and which bounds every other assignment at
the end. `Encoding` shows that the injective encoding which order independence asks for exists.

**Rebuilding a project.** `RebuildProtocol` is a state machine of processes that queue paths, take the rebuild
lock, drain the journal and run passes, interleaved in every way; `PendingJournal` is the text format of the
journal, and `RebuildHistory` says what a run did and that it ends. `Reconcile` merges a fresh extraction with the
committed graph; `ReconcileBatches` composes two merges; `ReconcileRuns` compares any number of passes, each a merge
followed by the rebuild that drops unresolved links, with one joint pass, by the theory of `Linkages`; `ShrinkGuard`
and `Representation` are the guards around a commit.

**Keeping a knowledgebase.** `Knowledgebase` says what consistent files are and what each operation is meant to
do; `Isolation` says how far a failing operation may reach; `Faults` is a schedule saying which attempted write fails,
before or after it took effect, and a log of all attempts; `Lifecycle` performs the operations as ordered file writes
under any such schedule, with rollback; `LifecycleRuns` is the invariant over runs.

**Smaller loops.** `ProgressThrottle` and `ProgressReporter` (progress events), `ManagedSections`, `UserText`,
`SectionRemoval` and `SectionUndo` (managed sections in text files), `Delimiters`, `InlineCode`, `ModelText`,
`DomainNames`, `ModelMarkdown`, `ModelSchemes`, `ActiveMarkdown`, `ModelHeadings`, `Addresses`, `StretchedCode`,
`EditedCode`, `HeadingCheck`, `ModelAddresses` and `AddressCheck` (model output), and `Ids` and `IdComposition`
(identifiers). `Text`, `Splitting`, `Sequences`, `Ordering`, `GraphRecords` and `Wrappers` are shared.

## Choices

- Text is a sequence of Unicode scalar values; byte lengths are computed from UTF-8 widths, and positions count
  characters. JSON objects are maps. A number is the text the encoder writes for it, and `Host.number` reads its value;
  `Encoding.EncodingExists` shows that such values have an injective encoding. Counters are multisets.
- Path identity, portable paths, JSON text and string conversion, digests, the taxonomy's own validation and the
  Unicode tables are parameters (`Host`, `SourcePaths`, `Tables`), with the laws a result needs in its `requires`.
- A file write replaces all bytes or none; when it reports failure the file may already be replaced. Which attempt
  fails, and how, is a schedule fixed for the store, and everything is proved for every schedule. What others do while
  a model is asked is a parameter of the operation.
- Of the rebuild after each reconciliation, the part that drops links is modelled: edges with an unresolved endpoint,
  unresolved or repeated members of a hyperedge, and hyperedges without members.
- The shrink guard compares stored sources with backslashes read as slashes. `ShrinkGuard.ReadsConsistently`, the
  assumption that sources equal up to that resolve alike, may fail where a backslash is not a separator.
- References are matched in order of degree; the count found is a maximum, so how ties are ordered does not matter.

## Findings

- A review whose status was published before the index write was reported as failed takes back its receipt and
  leaves the status (`crates/graphoxide-cli/src/wiki_direct.rs:887-893`). The lifecycle invariant then fails,
  unless an earlier receipt still approves the source. `Lifecycle.RecordingConsistent` gives the exact condition on
  the schedule of faults and the files before, `LifecycleRuns.Run` over runs, and in `LifecycleRuns.FirstReviewLeaks`
  a first review runs into it.
- Draining the journal in several passes is not always one joint pass: each pass rebuilds the graph before the next
  reads it, so an edge to a node that only a later pass brings is dropped, and a hyperedge loses such members.
  `ReconcileRuns.RunEdgesAreJoint` and `ReconcileRuns.RunHyperedgesAreJoint` give the exact conditions on the batches,
  `ReconcileRuns.ForwardLinkLost` an instance with two passes.
- Installing a managed section twice changes the file when the section was first appended behind other text and
  ends in more white space than one newline. `ManagedSections.Idempotent` is the exact condition,
  `ManagedSections.NotAlwaysIdempotent` an instance. Both shipped sections
  (`crates/graphoxide-cli/src/install.rs:18-35`) end in one newline, so installing them never does
  (`ManagedSections.ShippedSectionsSettle`).
- Inline code is not that of CommonMark behind an unmatched run. `InlineCode.AgreesWithCommonMark` is the exact
  condition.
- Normalised model output passes the four link checks but not always the heading check
  (`crates/graphoxide-cli/src/ollama_transport.rs:593-608`): only one heading marker is taken off a line, and an
  underline behind a marker is left. `HeadingCheck.NormalizedHeadings` is the exact condition on the lines of the
  body, `HeadingCheck.NotAlwaysPassing` the instance `# # T`.
- Normalised model output can still hold an address (`crates/graphoxide-cli/src/ollama_transport.rs:672-696`):
  replacing one can complete a name in front of it, as in `www.a.ftp://b`, which becomes `www.a.external reference`.
  `AddressCheck.NormalizedAddresses` is the exact condition, `AddressCheck.AddressStays` the instance.
- Normalising an identifier twice can change it, for instance for U+0130. `Ids.Idempotent` is the exact condition on
  the input where identifiers stay composed, `IdComposition.IdempotentComposed` where composition changes them,
  `Ids.NotAlwaysIdempotent` the instance.

## Model

| member | source | states |
|---|---|---|
| Json.EqualReflexive | parity/differential/graph_diff.py:254-284 | JSON equality, which keeps booleans apart from numbers, is reflexive |
| Json.EqualSymmetric | parity/differential/graph_diff.py:254-284 | and symmetric |
| Json.EqualTransitive | parity/differential/graph_diff.py:254-284 | and transitive |
| Json.EqualIsPreserved | parity/differential/graph_diff.py:1081-1108 | JSON-equal values preserve each other |
| Json.PreservedReflexive | parity/differential/graph_diff.py:1081-1108 | every value preserves itself |
| Json.PreservedTransitive | parity/differential/graph_diff.py:1081-1108 | preservation is transitive, with and without the one-way call refinement |
| Json.MutualPreservation | parity/differential/graph_diff.py:1081-1108 | two values preserve each other exactly when they are JSON-equal, also with the one-way refinement allowed |
| JsonMeaning.EqualIsSameMeaning | parity/differential/graph_diff.py:254-284 | values are equal exactly when they mean the same: kinds never mix, numbers agree as numbers, lists item by item, objects field by field |
| JsonMeaning.PreservedIsFoundAgain | parity/differential/graph_diff.py:1081-1108 | without the refinement a candidate preserves a reference exactly when along every path of fields an object is an object again and anything else its equal |
| JsonMeaning.SharpenedMeans | parity/differential/graph_diff.py:1097-1104 | the refinement adds exactly one case: the outermost reference has the context "call", the candidate "import_guided_call", and all else is preserved |
| JsonMeaning.ContextDirection | parity/differential/graph_diff.py:1097-1104 | so "call" may become "import_guided_call" and never the reverse, and inside nested objects a context stays |
| Matching.Search.Augment | parity/differential/graph_diff.py:1132-1141 | one search: when it succeeds exactly one more reference is matched and every matched one stays matched; when it fails nothing changed and everything it reached is exhausted; exhausted sets found earlier are never disturbed |
| Matching.Search.MatchOne | parity/differential/graph_diff.py:1143-1147 | one fresh search matches its reference or adds it to an exhausted set |
| Matching.Certificate | parity/differential/graph_diff.py:1111-1148 | once every reference is matched or exhausted, no assignment of references to compatible candidates is larger |
| Matching.MaximumMatching | parity/differential/graph_diff.py:1143-1148 | the number found is the size of a maximum assignment |
| Matching.MaximumIsUnique | parity/differential/graph_diff.py:1111-1148 | so it does not depend on the search order |
| PreservedRecords.PreservedRecordCount | parity/differential/graph_diff.py:1111-1148 | the count is the largest number of reference records that can be paired, injectively, with candidates preserving them |
| PreservedRecords.CountIgnoresOrder | parity/differential/graph_diff.py:1111-1148 | reordering either collection does not change it |
| PreservedRecords.FullCount | parity/differential/graph_diff.py:1165-1167 | all records count as preserved exactly when a full pairing exists |
| PreservedRecords.MutualFullPreservation | parity/differential/graph_diff.py:1151-1183 | two collections that fully preserve each other have the same size, and the pairing found one way already pairs JSON-equal records |
| CanonicalGraph.HyperedgeIgnoresMemberOrder | parity/differential/graph_diff.py:852-869 | the canonical hyperedge does not depend on the order of its members, whichever of the three names their list has |
| CanonicalGraph.CanonicalIgnoresOrder | parity/differential/graph_diff.py:872-908 | reordering nodes, edges, hyperedges or members leaves the canonical graph unchanged |
| RawMeaning.SameEdgeForm | parity/differential/graph_diff.py:831-849 | two raw edges have one canonical form exactly when they say the same under every compared name, source, target and relation being read under all their names |
| RawMeaning.SameNodeForm | parity/differential/graph_diff.py:810-828 | and two raw nodes |
| RawMeaning.SameHyperedgeForm | parity/differential/graph_diff.py:852-869 | and two raw hyperedges, whose members in effect may be in any order |
| RawMeaning.NodeFieldMatters | parity/differential/graph_diff.py:823-828 | giving a field of a node another value matters exactly when it is compared: in the strict profile all but communities and layout, in the other the structural ones |
| RawMeaning.EdgeFieldMatters | parity/differential/graph_diff.py:845-849 | so for edges: in the strict profile all, in the other the structural ones |
| RawMeaning.MetadataMatters | parity/differential/graph_diff.py:890-896 | so for what a graph says of itself: in the strict profile all but the time, commit and cost of its build, in the other whether it is directed and a multigraph |
| RawMeaning.LinksFirst | parity/differential/graph_diff.py:224-229 | edges are those of links, if there is one, and else those of edges |
| CleanGraphs.NoViolations | parity/differential/graph_diff.py:339-630 | a graph has no violation exactly when its collections are lists that agree, its records are objects with proper identities, each used once, and relative paths, names used twice agree, and every end and member is the identity of a node |
| ViolationCounts.ViolationsAreDefects | parity/differential/graph_diff.py:437-560 | the violations counted for a record are its defects, one by one: aliases that disagree, absolute paths, an identity derived from one, a missing identity, end or member list, ends and members that name no node |
| ViolationCounts.DuplicatesAreRepeats | parity/differential/graph_diff.py:562-584 | the duplicates counted in a collection are the records whose identity an earlier one has |
| CrossRuntime.CollectOwn | parity/differential/graph_diff.py:655-675 | every valid node contributes its own runtime family to its identity, and nothing else does |
| CrossRuntime.JoinEdges | parity/differential/graph_diff.py:677-711 | each endpoint ends with its own families joined with those its incident binding edges contribute directly |
| CrossRuntime.CrossRuntimeEndpoints | parity/differential/graph_diff.py:713-736 | an endpoint is reported exactly when those families number at least two, and with exactly those families |
| RawRuntimes.FamiliesMean | parity/differential/graph_diff.py:658-711 | a family is counted at an identity exactly when a node of the identity comes from a file of the family, or a binding edge that ends there does, or one that names no file and whose source node does |
| RawRuntimes.ReportedMeans | parity/differential/graph_diff.py:713-719 | an identity is reported exactly when a node has it and two families are counted there |
| CrossRuntime.NoTransitiveSpread | parity/differential/graph_diff.py:677-711 | an edge that does not touch an endpoint never changes its report |
| CrossRuntime.ReportIgnoresOrder | parity/differential/graph_diff.py:640-736 | the report depends on which records there are, not on their order |
| Diagnostics.ViolationsIgnoreOrder | parity/differential/graph_diff.py:339-630 | the number of pre-normalization violations is independent of record and member order |
| Partition.PartitionDifference | parity/differential/graph_diff.py:1009-1052 | the three counts are the sizes of the shared, side-only and remaining parts, and add up to the difference |
| Partition.DifferenceAccounting | parity/differential/graph_diff.py:1232-1318 | matching + missing is the reference side and matching + extra the candidate side, for any selection of records |
| Partition.SharedAgreement | parity/differential/graph_diff.py:1262-1318 | nothing shared is missing or extra exactly when the two selections are equal as multisets |
| RawDifferences.DifferencesMean | parity/differential/graph_diff.py:1009-1057 | missing and extra edges and hyperedges are counted by whether both ends or all members are shared identities, some end or member is only on that side, or neither |
| RawDifferences.SharedMean | parity/differential/graph_diff.py:1232-1268 | and the shared counts are how many edges and hyperedges of each side stay within the shared identities and how many of these both have |
| GraphComparison.CompareGraphs | parity/differential/graph_diff.py:1321-1485 | the counts of the report, the verdicts and the gate are those the canonical graphs and the findings in the raw graphs determine |
| GraphComparison.EqualByCounts | parity/differential/graph_diff.py:1380-1485 | the graphs are reported equal exactly when neither raw graph has a violation, the metadata is unchanged and every count of a missing, extra or mismatched record is zero |
| GraphComparison.SharedEqualMeans | parity/differential/graph_diff.py:1262-1286 | the shared parts are reported equal exactly when metadata, records under shared identities, and edges and hyperedges among shared identities are the same |
| RawVerdicts.EqualMeans | parity/differential/graph_diff.py:1321-1485 | two raw graphs are reported equal exactly when both are clean, they say the same of themselves, and their nodes, edges and hyperedges correspond one to one, partners saying the same under every compared name |
| RawVerdicts.EqualEnds | parity/differential/graph_diff.py:837-841 | graphs reported equal have the same triples of source, target and relation, each as often |
| RawVerdicts.PreservedMeans | parity/differential/graph_diff.py:1151-1183 | the reference is reported preserved exactly when both graphs are clean and every record of it has one of its own in the candidate that says all it says, an edge context at most sharpened |
| GraphComparison.VerdictIgnoresOrder | parity/differential/graph_diff.py:1321-1485 | reordering records or members on either side changes no number and not the gate |
| GraphComparison.ExactImpliesPreserving | parity/differential/graph_diff.py:1477-1484 | graphs found equal are found preserved, so passing the exact contract implies passing the reference-preserving one |
| GraphComparison.MutualPreservationIsEquality | parity/differential/graph_diff.py:1151-1183 | graphs that preserve each other hold the same records up to JSON equality in every collection |
| GraphComparison.SharedAccounting | parity/differential/graph_diff.py:1232-1318 | matching and missing shared edges add up to the reference side, matching and extra ones to the candidate side, and so for hyperedges |
| Reconcile.ReconcileCloses | crates/graphoxide-cli/src/watch.rs:877-970 | fresh facts are kept in place; every carried edge and hyperedge connects nodes of the result; nothing carried belongs to a deleted or reset source, and no carried structural fact to a rebuilt one |
| Reconcile.NodesSurvive | crates/graphoxide-cli/src/watch.rs:890-911 | a committed node is in the result unless a fresh node has its identity, its source was deleted or reset, it is structural and its source rebuilt, or structural without a source while everything is rebuilt |
| Reconcile.EdgesSurvive | crates/graphoxide-cli/src/watch.rs:917-926 | a committed edge is in the result unless an end is missing from it, its source was deleted or reset, or it is structural and its source rebuilt |
| Reconcile.HyperedgesSurvive | crates/graphoxide-cli/src/watch.rs:932-955 | a committed hyperedge is in the result unless a member is missing, a fresh one has its identity, or its source was deleted or reset |
| Reconcile.TiersAre | crates/graphoxide-cli/src/watch.rs:780-801 | what a model added is never structural, what an extractor wrote always is, anything else when its location is a line number |
| Reconcile.SemanticNodesSurvive | crates/graphoxide-cli/src/watch.rs:891-911 | a non-structural node is lost only when its source was deleted or reset or a fresh node took its identity |
| Reconcile.ReconcileIdempotent | crates/graphoxide-cli/src/watch.rs:877-970 | reconciling the result again changes nothing exactly when each fresh edge and hyperedge would be replaced rather than carried |
| Reconcile.StructuralUpdateReplaced | crates/graphoxide-cli/src/watch.rs:917-956 | which holds when fresh edges are structural facts of rebuilt sources and fresh hyperedges carry identities |
| ReconcileBatches.TwoPassesAreOne | crates/graphoxide-cli/src/watch.rs:877-970 | two batches in turn give the nodes, linked edges and linked hyperedges of both at once |
| ReconcileRuns.RunNodes | crates/graphoxide-cli/src/watch.rs:1557-1566 | any number of passes of the modelled rebuild, each after a reconciliation, ends with the nodes of one joint pass |
| ReconcileRuns.RunEdges | crates/graphoxide-graph/src/build.rs:751-764 | after each pass of the modelled rebuild the edges are the fresh ones that were linked at their own pass and every later one, and the committed ones no batch so far removes |
| ReconcileRuns.RunHyperedges | crates/graphoxide-graph/src/build.rs:862-947 | and the hyperedges of the modelled rebuild are the fresh ones, with the members their own pass could resolve, as long as all of those stayed, and the committed ones no batch so far removes |
| Linkages.RunIsJoint | crates/graphoxide-cli/src/watch.rs:1557-1566 | for any kind of linked fact: a run keeps what one joint pass keeps exactly when everything linked in the end was linked, in the same form, at its own pass |
| ReconcileRuns.RunEdgesAreJoint | crates/graphoxide-cli/src/watch.rs:1557-1566 | a run of the modelled rebuild ends with the edges of the joint pass exactly when each fresh edge that the joint pass links has both nodes after its own pass |
| ReconcileRuns.RunHyperedgesAreJoint | crates/graphoxide-cli/src/watch.rs:1557-1566 | and a run of the modelled rebuild ends with its hyperedges exactly when each fresh hyperedge that the joint pass keeps has the same members after its own pass |
| ReconcileRuns.ForwardLinkLost | crates/graphoxide-graph/src/build.rs:751-764 | two independent passes, the first with an edge to a node the second brings: the edge is gone, while the joint pass keeps it |
| ShrinkGuard.RefusedExactly | crates/graphoxide-cli/src/watch.rs:995-1056 | a graph is refused exactly when it is smaller, not forced, and either no sources are listed and no deletions reported, or a lost node is explained by no listed source |
| ShrinkGuard.MatchIsMutual | crates/graphoxide-cli/src/watch.rs:976-987 | matching of sources is mutual, every source but the empty one matches itself, and the empty one none |
| ShrinkGuard.ReadsAs | crates/graphoxide-cli/src/watch.rs:971-986 | a source is read as a plain one exactly when it is written as it is up to backslashes and ./ in front |
| ShrinkGuard.LossesExplained | crates/graphoxide-cli/src/watch.rs:877-911 | reconciliation loses nodes only from rebuilt or deleted sources, or without a source |
| ShrinkGuard.GuardAcceptsReconciliation | crates/graphoxide-cli/src/watch.rs:995-1056 | the guard never refuses a candidate with the nodes reconciliation produced |
| ShrinkGuard.AllowedShrinkIsExplained | crates/graphoxide-cli/src/watch.rs:995-1056 | an unforced shrink it allows loses only nodes without a source or with a rebuilt or deleted one |
| ShrinkGuard.RebuiltSources | crates/graphoxide-cli/src/watch.rs:2612-2625 | skipped files are not among the rebuilt sources, and every other identified target is |
| ShrinkGuard.SkippedFilesKeepNodes | crates/graphoxide-cli/src/watch.rs:2612-2625 | a skipped file keeps its nodes through every allowed, unforced shrink |
| Representation.Representations | crates/graphoxide-cli/src/watch.rs:1798-1830 | the scan finds for each ambiguous source which representations the graph holds |
| Representation.NodeRepresents | crates/graphoxide-cli/src/watch.rs:1792-1822 | the inventory of a transport stream makes its source a stream, whoever wrote it, any other structural node makes it code, and no other node either |
| Representation.RepresentationEvidence | crates/graphoxide-cli/src/watch.rs:1798-1852 | the two sets are those where graph and detector disagree; conflicts are always rebuild candidates |
| Representation.RepresentationsHeal | crates/graphoxide-cli/src/watch.rs:1798-1852 | after reconciling with the conflicts reset and the whole structural set rebuilt, the recomputed evidence is empty |
| Representation.ResetsAreVerified | crates/graphoxide-cli/src/watch.rs:2601-2661 | a pass resets exactly the conflicts or stops; it stops exactly when a required source was not extracted, admitted and classified as detected |
| PendingJournal.AppendKeeps | crates/graphoxide-cli/src/watch.rs:287-301 | appending a path keeps all that can be read back, and adds the path if it is clean |
| PendingJournal.QueueThenDrain | crates/graphoxide-cli/src/watch.rs:287-325 | draining gives back the clean paths queued, first occurrences in order, without repetition |
| PendingJournal.MergeChangedPaths | crates/graphoxide-cli/src/watch.rs:327-339 | the merged list is the distinct paths of all present lists in order of first occurrence |
| RebuildProtocol.NothingIsLost | crates/graphoxide-cli/src/watch.rs:287-325 | in every state of every interleaving, each queued clean path is in the journal, or was taken from it after it was queued by a process that still has it in hand or has since begun a pass covering it |
| RebuildHistory.ChangesAreQueued | crates/graphoxide-cli/src/watch.rs:1528-1532 | an invocation that does not wait for the lock has written its changed paths to the journal, each once and in order, before it tries the lock; any other writes nothing |
| RebuildHistory.DeclinedIsSafe | crates/graphoxide-cli/src/watch.rs:1528-1547 | each clean path of an invocation that was turned away is in the journal or was taken over since; one that waits is never turned away |
| RebuildHistory.DeclinedByHolder | crates/graphoxide-cli/src/watch.rs:213-236 | it is turned away only while another process holds the lock |
| RebuildHistory.PassesList | crates/graphoxide-cli/src/watch.rs:1549-1567 | the first pass of an incremental holder lists exactly what it was given and what it took from the journal, a later one exactly what it took, a full one everything |
| RebuildHistory.RunsEnd | crates/graphoxide-cli/src/watch.rs:1528-1571 | no process takes more than 131 steps and one for each path it was given |
| RebuildHistory.NeverStuck | crates/graphoxide-cli/src/watch.rs:193-258 | as long as some invocation has not ended, some process can go on |
| RebuildHistory.ChangesEndUp | crates/graphoxide-cli/src/watch.rs:1528-1571 | when all have ended, every clean path any of them was given was covered by a pass or is in the journal |
| RebuildProtocol.PassesExclude | crates/graphoxide-cli/src/watch.rs:193-258 | passes of different processes never overlap |
| RebuildProtocol.PassesBounded | crates/graphoxide-cli/src/watch.rs:1528-1567 | an incremental holder begins 1 to 21 passes, fewer than 21 only if what it last took from the journal was nothing, and its own list is in its first pass; a full holder begins one |
| Knowledgebase.ApprovedMeans | crates/graphoxide-cli/src/wiki_direct.rs:769-786 | a source is approved exactly when its receipt is the one a review of it as it stands, by a reviewer of that kind, would write |
| Knowledgebase.RetiredBindings | crates/graphoxide-cli/src/wiki_source.rs:1009-1082 | retiring leaves the bindings the remaining pointers need |
| Knowledgebase.PublicationConsistent | crates/graphoxide-cli/src/wiki_direct.rs:952-1013 | publishing a source keeps the lifecycle invariant |
| Knowledgebase.RetirementConsistent | crates/graphoxide-cli/src/wiki_direct.rs:359-403 | so does retiring one |
| Knowledgebase.ReviewConsistent | crates/graphoxide-cli/src/wiki_direct.rs:833-893 | so does a recorded review, by a model or, over a current model approval, by a person |
| Knowledgebase.RepointConsistent | crates/graphoxide-cli/src/wiki_direct.rs:309-325 | so does a pointer rewritten with the same content and its status kept or made stale |
| Knowledgebase.ReceiptOnlyConsistent | crates/graphoxide-cli/src/wiki_direct.rs:887-887 | a receipt written without its status keeps it |
| Knowledgebase.StatusOnlyConsistent | crates/graphoxide-cli/src/wiki_direct.rs:888-893 | a status published without its receipt keeps it exactly when an earlier receipt approves the source as it stands |
| Knowledgebase.FirstReviewCanLeak | crates/graphoxide-cli/src/wiki_direct.rs:887-893 | a consistent state where it does not: one whose first review leaves only its status |
| Isolation.DamageIsLocal | crates/graphoxide-cli/src/wiki_direct.rs:1014-1036 | whatever became of an operation and its rollback, every other source keeps exactly its row, pointer and reviews |
| Isolation.ErasureConsistent | crates/graphoxide-cli/src/wiki_direct.rs:481-514 | erasing whole sources, by whatever steps, keeps the lifecycle invariant |
| Lifecycle.Store.RestoreAll | crates/graphoxide-cli/src/wiki_direct.rs:517-529 | every item is attempted in order whatever failed before, the failures are the faults met, and each file holds what its own attempt left |
| Lifecycle.Store.RollBack | crates/graphoxide-cli/src/wiki_direct.rs:1021-1036 | all artifacts and then the index are attempted; success is reported exactly when no attempt met a fault, and then the files are those of before |
| Lifecycle.Store.AuthorTransition | crates/graphoxide-cli/src/wiki_direct.rs:925-1038 | published as specified exactly when no write meets a fault; otherwise the writes up to the fault and then the whole undo are attempted, and it is rolled back to the files of before exactly when the undo meets no fault; a failed rollback damages this source only |
| Lifecycle.Store.RetirePointer | crates/graphoxide-cli/src/wiki_source.rs:1009-1082 | the writes attempted under every schedule of faults; on success the pointer and its bindings are removed, after a failure every file is the old or the new one |
| Lifecycle.Store.RetireSource | crates/graphoxide-cli/src/wiki_direct.rs:359-413 | the writes attempted under every schedule of faults: retired when all of them work, else undone in full, and rolled back to the files of before exactly when the undo meets no fault |
| Lifecycle.RetirementErases | crates/graphoxide-cli/src/wiki_direct.rs:359-403 | a retired source leaves no page, receipt, row or pointer |
| Lifecycle.ClearRetirement | crates/graphoxide-cli/src/wiki_direct.rs:359-413 | without a fault a source is retired exactly when its bindings, if there are any, can be read |
| Lifecycle.Store.RecordReview | crates/graphoxide-cli/src/wiki_direct.rs:824-895 | a failed receipt ends it, a failed status is followed by putting the receipt back, and without a fault the review is recorded; the files left are the one state that the schedule determines |
| Lifecycle.RecordingConsistent | crates/graphoxide-cli/src/wiki_direct.rs:824-895 | recording a review over consistent files keeps the invariant, except exactly when the receipt is written, the status takes effect but is reported as failed, taking back the receipt takes effect, and no earlier receipt approves the source: a condition on the schedule and the files before |
| Lifecycle.DerivedIs | crates/graphoxide-cli/src/wiki_direct.rs:723-767 | what is compared before and after a model is asked is the page, the policy and the rows |
| Lifecycle.Store.ReviewSource | crates/graphoxide-cli/src/wiki_direct.rs:638-699 | the receipt attests the page, policy, row and content the model was shown, whatever others did while it was asked |
| Lifecycle.Store.HumanConfirm | crates/graphoxide-cli/src/wiki_direct.rs:769-793 | confirmation only over a current model approval of this source |
| Lifecycle.Store.AuthorSource | crates/graphoxide-cli/src/wiki_direct.rs:224-246 | the page is published only if page, policy and rows are those the author was shown; then page, row and provisional pointer are those of the draft and no receipt is left |
| Lifecycle.Store.RefreshSource | crates/graphoxide-cli/src/wiki_direct.rs:301-351 | the pointer advances to new content only together with its new page and row, otherwise only the pointer is rewritten; when done, the pointer is stale if the source could not be had, keeps its status if it was reviewed and its content is the same, and is provisional at the fetched content otherwise |
| Lifecycle.Store.CleanSource | crates/graphoxide-cli/src/wiki_direct.rs:531-585 | all four artifacts are attempted in order whatever failed before; the failures are the faults met and rows that must not be rewritten; other sources are untouched |
| Lifecycle.Store.CleanAll | crates/graphoxide-cli/src/wiki_direct.rs:481-529 | every source is cleaned in turn whatever failed before, and the failures are the sources of which something failed |
| Lifecycle.Store.RollBackAdmission | crates/graphoxide-cli/src/wiki_source.rs:768-786 | the removal of every admitted pointer is attempted in turn whatever failed before, and the failures are the removals that failed; other sources untouched |
| Lifecycle.Store.AuthorBatch | crates/graphoxide-cli/src/wiki_direct.rs:481-514 | all sources are authored exactly when each can be published after the ones before and no write meets a fault; after a clean rollback every one of them is erased; other sources keep their rows in every case, and unless the rollback failed the invariant holds |
| LifecycleRuns.Perform | crates/graphoxide-cli/src/wiki_direct.rs:301-514 | one operation with any faults: a review, or an operation whose own rollback did not fail, keeps the invariant exactly when its schedule and the files before do not make a review status leak |
| LifecycleRuns.Run | crates/graphoxide-cli/src/wiki_direct.rs:301-1038 | over any run of operations in which no rollback outside a review failed, every state is consistent exactly when at no operation the schedule and the files before make a status leak |
| LifecycleRuns.FirstReviewLeaks | crates/graphoxide-cli/src/wiki_direct.rs:887-893 | a first model review run under such a schedule: afterwards the invariant fails |
| ProgressThrottle.CounterEmitter.Observe | crates/graphoxide-cli/src/build_progress.rs:409-449 | what an emitter has shown is the specified function of everything it was called with, counts clamped to the total |
| ProgressThrottle.ClampedFits | crates/graphoxide-cli/src/build_progress.rs:409-449 | an observation is at most its total, and both at most the greatest integer a client reads exactly; what fits is kept |
| ProgressThrottle.AcceptsRecords | crates/graphoxide-cli/src/build_progress.rs:34-38 | an observation is accepted exactly when it has the total of the first and exceeds all earlier ones of that total |
| ProgressThrottle.ShownExactly | crates/graphoxide-cli/src/build_progress.rs:30-50 | what is shown: the records that are first, final or at least 100 ms after the one shown last |
| ProgressThrottle.ShownOrder | crates/graphoxide-cli/src/build_progress.rs:20-50 | shown counts strictly increase, with one total, and start with the first observation |
| ProgressThrottle.FinalIsShown | crates/graphoxide-cli/src/build_progress.rs:41-41 | an accepted final count is always shown |
| ProgressThrottle.RateBound | crates/graphoxide-cli/src/build_progress.rs:409-449 | with a non-decreasing clock at most 2 + span / 100 ms observations are shown |
| ProgressThrottle.RateBoundIsTight | crates/graphoxide-cli/src/build_progress.rs:20-50 | a run that meets the bound |
| ProgressReporter.Reporter.EnterPhase | crates/graphoxide-cli/src/build_progress.rs:500-552 | exactly which phase observations are shown, the final count of the shown total always |
| ProgressReporter.Reporter.Complete | crates/graphoxide-cli/src/build_progress.rs:554-611 | appends exactly the terminal event of the status, and keeps the event stream well formed if the build had started and was not complete |
| ProgressReporter.Reporter.Drop | crates/graphoxide-cli/src/build_progress.rs:630-642 | appends a failure exactly when the build had started and was not complete; the stream is then started, phases, one terminal event (or nothing) exactly when completion was reported at most once and after the start; within a phase counts never fall |
| ManagedSections.Idempotent | crates/graphoxide-cli/src/install.rs:1033-1068 | managing a section twice equals once exactly when the marker was there, the text was blank, or only one newline follows the trimmed section |
| ManagedSections.ShippedSectionsSettle | crates/graphoxide-cli/src/install.rs:18-35 | which a section that ends in one newline, as both shipped ones do, always meets |
| ManagedSections.SettlesLater | crates/graphoxide-cli/src/install.rs:1033-1043 | a section with a further blank line put behind other text never meets it |
| UserText.UserLinesStay | crates/graphoxide-cli/src/install.rs:1033-1068 | the text kept before the section and the text after it are unchanged, character by character, except that the file then ends in a newline |
| UserText.UserTextIsTheRest | crates/graphoxide-cli/src/install.rs:1033-1068 | those two texts are all of the content but the section itself and white space before it |
| SectionRemoval.Collapse | crates/graphoxide-cli/src/install.rs:1024-1026 | the loop ends, with every run of newlines shortened to two |
| SectionRemoval.CollapsedHasNoTriple | crates/graphoxide-cli/src/install.rs:1024-1026 | so no three newlines in a row remain |
| SectionRemoval.RemoveMarkerSection | crates/graphoxide-cli/src/install.rs:1003-1028 | the scan removes from the first line that is exactly the marker to the next heading |
| SectionUndo.RemoveUndoesAppend | crates/graphoxide-cli/src/install.rs:1003-1068 | removing an appended section gives back a marker-free text up to white space at its end with runs of newlines shortened; the text itself exactly when it has no three newlines in a row |
| Delimiters.ClosingDelimiter | crates/graphoxide-cli/src/ollama_transport.rs:486-508 | the first position at which the depth of unescaped delimiters returns to zero, or none if it never does |
| Delimiters.InlineLinkDestinations | crates/graphoxide-cli/src/ollama_transport.rs:510-549 | the destinations of the links from left to right, each the first unescaped closed label followed by closed parentheses behind the link before; some exactly when there is such a label |
| Delimiters.LinksAreUnique | crates/graphoxide-cli/src/ollama_transport.rs:510-549 | a text has exactly one such sequence of links |
| Delimiters.HasReferenceLink | crates/graphoxide-cli/src/ollama_transport.rs:551-579 | holds exactly when an unescaped closed label is followed by another |
| Delimiters.HasReferenceDefinition | crates/graphoxide-cli/src/ollama_transport.rs:581-591 | holds exactly when some line is a label at most three spaces in, followed by a colon |
| InlineCode.WithoutInlineCode | crates/graphoxide-cli/src/ollama_transport.rs:822-862 | deletes exactly the spans between maximal backtick runs of equal length, left to right, and keeps the rest from the first unmatched run on |
| InlineCode.OneReading | crates/graphoxide-cli/src/ollama_transport.rs:822-862 | those spans are unique |
| InlineCode.AgreesWithCommonMark | crates/graphoxide-cli/src/ollama_transport.rs:822-862 | the result is that of section 6.1 of CommonMark 0.31.2 exactly when no two runs from the first unmatched one on have equal length |
| InlineCode.KeepsMoreThanCommonMark | crates/graphoxide-cli/src/ollama_transport.rs:855-858 | a line on which they differ |
| ModelText.ProjectModelSourceText | crates/graphoxide-cli/src/ollama_transport.rs:400-439 | the first pass as specified, truncated |
| ModelText.TruncatedIsLongest | crates/graphoxide-cli/src/ollama_transport.rs:431-437 | truncation keeps the longest prefix within the byte limit |
| ModelText.UrlLengthAtLeast | crates/graphoxide-cli/src/ollama_transport.rs:755-820 | a recognised address has at least five characters |
| ModelMarkdown.ProjectModelLine | crates/graphoxide-cli/src/ollama_transport.rs:672-696 | the second pass over a line as specified |
| ModelMarkdown.NormalizedHasNoMarkup | crates/graphoxide-cli/src/ollama_transport.rs:379-382 | no square or angle bracket is left, for every input |
| ModelMarkdown.NormalizedSize | crates/graphoxide-cli/src/ollama_transport.rs:379-382 | at most 18/5 of 65536 bytes, so at most four times that |
| ModelSchemes.NormalizedIsSchemeFree | crates/graphoxide-cli/src/ollama_transport.rs:379-382 | no https, http, ftp, smb or file scheme starts anywhere, in any mix of cases |
| DomainNames.BareUrlIs | crates/graphoxide-cli/src/ollama_transport.rs:788-820 | a token is an address without a scheme exactly when it is a domain name followed by a slash, question mark or hash, or one that starts with www.; a domain name described character by character |
| AddressCheck.NormalizedAddresses | crates/graphoxide-cli/src/ollama_transport.rs:672-696 | normalised output holds an address exactly when, in a stripped line of the projected body, an address follows a name that starts with www. and that the text put in its place completes; every address left is such a name |
| AddressCheck.NoTargets | crates/graphoxide-cli/src/ollama_transport.rs:755-786 | so no token is left with something behind https, http, ftp, smb, file, mailto or javascript |
| AddressCheck.NoPaths | crates/graphoxide-cli/src/ollama_transport.rs:788-820 | and none that is a domain with a path, query or fragment |
| AddressCheck.AddressStays | crates/graphoxide-cli/src/ollama_transport.rs:672-696 | the body www.a.ftp://b leaves the address www.a.external |
| ActiveMarkdown.ActiveText | crates/graphoxide-cli/src/ollama_transport.rs:461-484 | the active text is the lines outside fences without their inline code, every line break kept |
| ActiveMarkdown.ActiveIsUnique | crates/graphoxide-cli/src/ollama_transport.rs:461-484 | a body has exactly one active text |
| ActiveMarkdown.CheckLinks | crates/graphoxide-cli/src/ollama_transport.rs:441-459 | accepts exactly the active texts without inline link, reference link, reference definition or raw HTML |
| ActiveMarkdown.NormalizedPassesLinkChecks | crates/graphoxide-cli/src/ollama_transport.rs:379-459 | normalised output passes those checks, for every input |
| ActiveMarkdown.OneMarkerOff | crates/graphoxide-cli/src/ollama_transport.rs:698-735 | one heading marker is taken off and the title kept, so a title that is itself a heading stays one |
| ModelHeadings.HasUnsafeModelHeading | crates/graphoxide-cli/src/ollama_transport.rs:593-608 | holds exactly when some line is a heading of level one or a sources heading, by its own hashes or by the underline below it |
| HeadingCheck.ReservedAmongShown | crates/graphoxide-cli/src/ollama_transport.rs:441-459 | for every body, checking the active text is checking the lines that show |
| HeadingCheck.NormalizedHeadings | crates/graphoxide-cli/src/ollama_transport.rs:379-459 | for every body, normalised output fails the heading check exactly when, among the lines of the projected body outside fences, with one marker stripped and their inline code taken out, one is a reserved heading by itself or by an underline that is left |
| EditedCode.CodeFreeEdit | crates/graphoxide-cli/src/ollama_transport.rs:822-862 | replacing addresses in a line changes nothing about its inline code: what is left of the edited line is what is left of the line, with the addresses outside code replaced |
| HeadingCheck.NotAlwaysPassing | crates/graphoxide-cli/src/ollama_transport.rs:698-735 | the body # # T fails it |
| Ids.NormalizeId | crates/graphoxide-core/src/ids.rs:10-29 | the streaming loop equals: split the composed text into alphanumeric runs, lower and fold each, join with one underscore |
| Ids.NormalizedIsTidy | crates/graphoxide-core/src/ids.rs:10-29 | no leading, trailing or doubled underscore |
| Ids.SameIdSameWords | crates/graphoxide-core/src/ids.rs:10-29 | two names get one identifier exactly when they have the same words |
| Ids.Idempotent | crates/graphoxide-core/src/ids.rs:62-62 | normalising an identifier that is still composed changes nothing exactly when every alphanumeric character of the composed input lower-cases and folds to alphanumeric characters only |
| IdComposition.IdempotentComposed | crates/graphoxide-core/src/ids.rs:62-62 | for identifiers that composition does change again, as that of U+0390: where composing works character by character and lower-casing and folding undo it, normalising an identifier changes nothing exactly when every alphanumeric character of the composed input becomes, composed again, alphanumeric characters only |
| Ids.AlwaysIdempotent | crates/graphoxide-core/src/ids.rs:62-62 | so it never changes anything with tables that keep identifiers composed and alphanumeric characters alphanumeric |
| Ids.NotAlwaysIdempotent | crates/graphoxide-core/src/ids.rs:10-29 | tables agreeing with Unicode on U+0130 for which it is not idempotent |
| Ids.MadeWords | crates/graphoxide-core/src/ids.rs:31-39 | an identifier of several parts has the words of its parts, in order |
| Ids.NodeIdJoins | crates/graphoxide-core/src/ids.rs:41-44 | a node identifier is the identifiers of its two parts, joined |

## Left out

- File-system work (links, reparse points, canonicalisation, atomic replacement), git, subprocesses, HTTP, prompts,
  clocks and nonces: parameters, or an atomic write as above.
- Extraction, clustering and publishing, and of the rebuild after a reconciliation the merging of nodes and edges, the
  repair of identifiers, the backfilling of hyperedge identities and the edges dropped for their kind.
- Recovery of the journal after a crash, and errors inside a pass. Rebuilding without the lock (`acquire_lock` off) runs
  a single pass and is not in the state machine.
- Rendering of examples, groups, field changes and the breakdown of violations in comparison reports, and the
  relations and source files listed with a cross-runtime endpoint.
- The normalisation of record fields beyond aliases, portable paths, dropped fields and sorted members.
- The admission of new sources and the taxonomy's validation of one row; a row is admissible or not.
- Cancellation before the first source of a batch, the bounds on titles and pages, and the check against retaining
  the source body: one flag of the author's reply.
- The checks on the destinations of links in pages that may have them.
- Ids.Idempotent: identifiers that composition changes again, such as that of U+0390, which folding takes apart;
  IdComposition.IdempotentComposed covers those that are composed character by character of the input.
- The loop that walks back to a character boundary when truncating bytes: truncation is the longest prefix that
  fits.
- Writing and removing the instruction files around a managed section, and the legacy marker.
- The phase emitter without counters, and the human-readable progress lines.
- Telemetry, hooks, verification scripts, the site and the other commands.
- ProgressReporter.Reporter.Complete: the fields of the completed event besides its status are not part of it.
- LifecycleRuns.Run: says nothing about runs in which a rollback outside a review failed; Isolation.DamageIsLocal
  bounds the damage to the sources of that operation.
