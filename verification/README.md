# Packet28 reducers, modelled and proved

Packet28's reducers are deterministic functions from recorded events, plans, trees, logs and packets to
what an agent is shown. This project states what they compute and proves, over all inputs, the laws
that the rest of the system leans on. `dafny verify dfyconfig.toml` checks everything.

## What is here

**Task snapshots** (`AgentEvents`, `RecoveryLineage`, `AgentSnapshot`, `HistoryMeaning`, `SnapshotLists`,
`SnapshotTheorems`). A task's snapshot is rebuilt from the events stored in many cache entries: the
recovery links give a chain of predecessor tasks, the events of the chain are sorted by generation, time,
rank and id, and folded into some twenty accumulators. The methods are the source's loops; the lemmas say
that the fold means what the history says, that storage order cannot be told from the result, and that a
successor's snapshot is its own events replayed on what its predecessor published.

**Shared scan** (`RepoPaths`, `RepoPathLaws`, `RepoWalk`, `DigestFraming`, `SharedScan`,
`ScanEquivalence`, `ScanMeaning`). Two consumers read a repository, once in two passes and once in a
fused one. The proofs recurse over the directory tree, relate the pruned walk to the full one, decode the
digest's byte stream, and account for every read.

**Replanning** (`ReactivePlanner`, `PlanApplication`, `PlanSettles`, `PlanAcceptance`, `PlannerMeaning`).
From a snapshot the planner cancels, replaces and appends steps. Applying its mutations through an id map
and an order list is shown equal to applying them to the list, one round is put in closed form, and
whether planning again changes anything, and whether the scheduler accepts what is left, are decided
exactly.

**Policy cache keys** (`PolicyNormalForm`). The recursive normaliser of policy configurations is a
canonical form for a congruence.

**Dependency search** (`DependencyPaths`, `DependencySearch`, `DependencyGraph`). Loading Cargo metadata
into a graph, and the breadth-first search for forbidden packages, whose reported paths are real,
shortest, and fixed by the graph alone.

**Source masking** (`SourceMask`, `SourceMaskLaws`, `SourceSpans`). The scanner that blanks comments and
literals in place, its shape-keeping, idempotence on every text, and where each
kind of comment and literal starts and ends.

**Correlation** (`CorrelationRules`, `CorrelationLaws`, `CorrelationRun`, `CorrelationMaps`,
`CorrelationMeaning`, `CorrelationReports`), **build diagnostics** (`BuildDiagnostics`, `BuildReduce`,
`BuildReduceLaws`, `BuildMeaning`) and **context budgets** (`ContextBudget`, `ContextAugment`,
`AugmentMeaning`). Findings whose keys do not depend on packet order, a streaming parser against a
lookahead reading, grouping that does not depend on hash-map order, and greedy packing with saturating
arithmetic.

`Order`, `Sequences`, `Sorting`, `Text` and `Wrappers` hold what the others share. Methods have the
source's loops and local state; each is proved against a function, and the laws are proved about that
function. The laws called `Exactly`, most of them in modules called `Meaning`, say without those functions
what each of them computes, field by field or character by character. Hash maps and sets are iterated in
an arbitrary order; sorts are stable; hashes are functions of what they are given.

## Where the code does less than it seems to

The model follows the code. These are the places where a promise one would read into it, or into its
comments, does not hold as such; each has its exact condition, or what does hold instead, proved beside an example.

- *Replanning settles* within two rounds, and always within one outside task-aware mode and without changes since
  the checkpoint. In task-aware mode it never does exactly if the follow-up is wanted although the changes do not
  affect it, no map step is live, and a step that already bears the follow-up's id, if there is one, is not
  affected either (`crates/context-kernel-builtins/src/reactive_runtime.rs:84-147`): the follow-up is cancelled in
  one round, appended again in the next, and so on forever (`SettlesExactly`, `SettlesEventuallyExactly`,
  `NeverSettles`, `ReportChangeNeverSettles`).
- *A replanned sequence can be scheduled* unless a replacement, built from the step as it was before the
  round's cancellations, brings back a dependency on a cancelled step, or the follow-up waits for a step
  that does not stay pending. That can be a step the same round cancels, or the anchor: the step just
  completed (`crates/context-kernel-mechanism/src/kernel_runtime.rs:837`), which is no longer in the plan
  (`RoundAcceptedExactly`; `CompletedDependencyRevived`, `CancelledDependencyAwaited`,
  `AnchoredFollowUpExample`).
- *The fused scan feeds both consumers the same.* The map consumer gets the same documents, but one
  scan sorts strings (`benchmarks/per-06-shared-scan/src/lib.rs:373`) and the other path components
  (line 432), so its digest can differ (`MapSummariesAgreeExactly`, `MapOrderCanDiffer`); and a read
  error the separate map pass skips is fatal to the fused pass (`ReadErrorsExact`, `FusedScanCanFail`).
- *Eviction candidates are outside the working set* exactly if none of the eight hits offered fits with
  what was packed before the first of them: the list skips as many hits as were accepted, not the hits that were
  (`crates/context-kernel-builtins/src/contextq_runtime.rs:400-402`; `EvictionClearExactly`,
  `EvictionCanOverlap`).
- *The working set is within the budget* in each dimension unless that budget is the largest integer, where the
  saturating count refuses nothing and what the other dimension selects is larger
  (`crates/context-kernel-builtins/src/contextq_runtime.rs:393-398`; `WorkingSetFits`,
  `UnlimitedBudgetOverflows`).
- *Every pair of packets a map connects is reported* only while there is one such pair: all findings about map edges have one
  deduplication key, so only the first connected pair is told of, and the order of the packets decides
  which (`crates/context-kernel-builtins/src/correlation_runtime.rs:769-794`; `OneMapEdgeSurvives`,
  `MapEdgeSurvivorExactly`, `PacketOrderPicksTheSummary`).
- *The memory reserve is a quarter of the budget* only for budgets of at least 1024 tokens and 16384
  bytes; below 256 tokens or 4096 bytes it exceeds the whole budget (`ReserveIsQuarter`,
  `ReserveWithinBudget`, `ReserveCanExceedBudget`).
- *Recalled memory is added while it fits*, except that a packet is marked as seen before it is tried, so one refused
  at the size of one hit is not tried again at the smaller size of another
  (`crates/context-kernel-builtins/src/contextq_runtime.rs:229-238`; `NothingRecalledFits`, `RefusedIsNotTriedAgain`).
- *A superseded decision stays inactive* exactly if some retirement of it has no later addition, in
  generation, time, rank and id, when ids identify the events of the history. Only a supersession with an event of
  its own ranks after the additions of its second; one implied by the decision that replaces it can be undone by
  the order of ids (`DecisionActiveExactly`,
  `OneSupersessionExactly`, `ImplicitSupersessionCanBeUndone`).
- *A literal of a one-character escape is masked whole* unless the escaped character is a backslash
  (`scripts/check_direct_dependencies.py:147-153`; `EscapedCharIsMaskedUnlessBackslash`,
  `EscapedBackslashStays`).

## Model

| member | source | states |
|---|---|---|
| `AgentEvents.RearrangedKeepsEvents` | crates/context-kernel-builtins/src/agenty_runtime.rs:1121-1138 | Reordering cache entries, or packets within them, rearranges the extracted events and neither loses nor invents one |
| `AgentEvents.EventsExactly` | crates/context-kernel-builtins/src/agenty_runtime.rs:1121-1138 | The events of a store are exactly the payloads of its packets of tool agenty and kind agent_state |
| `RecoveryLineage.CollectPredecessors` | crates/context-kernel-builtins/src/agenty_runtime.rs:1084-1096 | The loop builds, for every task, exactly the set of predecessors its recovery events name, and no entry for a task with none |
| `RecoveryLineage.ComputeLineage` | crates/context-kernel-builtins/src/agenty_runtime.rs:1097-1112 | The backward walk, with its give-up on ambiguity and on a cycle, computes the declaratively defined lineage |
| `RecoveryLineage.LineageExact` | crates/context-kernel-builtins/src/agenty_runtime.rs:1075-1112 | The lineage ends in the task, repeats nobody, is longer than one exactly when a chain of unique links of more than one task leads to a task without links, and then is that whole chain |
| `RecoveryLineage.LineageExtends` | crates/context-kernel-builtins/src/agenty_runtime.rs:1080-1112 | A successor's lineage is its predecessor's plus itself if and only if its only link names that predecessor and the predecessor's chain is rooted |
| `RecoveryLineage.LineagePermuted` | crates/context-kernel-builtins/src/agenty_runtime.rs:1080-1112 | The lineage depends only on which events exist |
| `AgentSnapshot.EventOrderIsTotal` | crates/context-kernel-builtins/src/agenty_runtime.rs:651-657 | The comparison by generation, time, rank and event id is a total preorder, so the sort is meaningful |
| `AgentSnapshot.GenerationsIdentify` | crates/context-kernel-builtins/src/agenty_runtime.rs:639-649 | A task of the lineage has its position in the lineage as its generation |
| `SnapshotLists.HistoryExactly` | crates/context-kernel-builtins/src/agenty_runtime.rs:633-657 | The history holds every event of the lineage other than recovery links as often as it is stored, ascending by generation, time, explicit supersession last, and id, field by field |
| `Order.StrLeExactly` | crates/context-kernel-builtins/src/agenty_runtime.rs:651-657 | One string comes no later than another if and only if it begins it, or has the smaller character where they first part |
| `Sorting.StableSortIsSort` | crates/context-kernel-builtins/src/agenty_runtime.rs:651-657 | Any result that is sorted and keeps tied elements in their order is the one the model sorts to, so it stands for the stable sort of the source |
| `AgentSnapshot.ApplyCompletion` | crates/context-kernel-builtins/src/agenty_runtime.rs:798-906 | A completed invocation updates lists, per-tool paths, queries, last success and evidence as the replay function says |
| `AgentSnapshot.ApplyEvent` | crates/context-kernel-builtins/src/agenty_runtime.rs:715-987 | The body of the replay loop changes the accumulators by exactly one replay step, for every kind of event |
| `AgentSnapshot.CollectOwners` | crates/context-kernel-builtins/src/agenty_runtime.rs:693-713 | The owner loop computes the artifact owners of the sorted history |
| `AgentSnapshot.ReplayEvents` | crates/context-kernel-builtins/src/agenty_runtime.rs:715-987 | The loop over the sorted events computes the replay of the whole history |
| `AgentSnapshot.DeriveSnapshotWithLineage` | crates/context-kernel-builtins/src/agenty_runtime.rs:628-1073 | Filtering, sorting, replaying, sorting and cutting the invocation lists to 12 and 8 yields the specified snapshot |
| `AgentSnapshot.DeriveSnapshot` | crates/context-kernel-builtins/src/agenty_runtime.rs:616-626 | The snapshot of a task is the one over its recovery lineage |
| `SnapshotLists.PublishedExactly` | crates/context-kernel-builtins/src/agenty_runtime.rs:988-1020 | The published completed invocations are the twelve newest of the history and the failures the eight newest, with multiplicity, ascending by generation, sequence, time and id field by field, none left out being later than one kept; every other accumulator is that of the replay |
| `HistoryMeaning.FocusMeaning` | crates/context-kernel-builtins/src/agenty_runtime.rs:718-738 | A path or symbol is in focus if and only if some event focused on it and no later clear covers it |
| `HistoryMeaning.FilesMeaning` | crates/context-kernel-builtins/src/agenty_runtime.rs:739-764 | Read and edited paths are those of some event; paths and symbols changed since the checkpoint are exactly those edited after the last checkpoint |
| `HistoryMeaning.ChangedWithinEdited` | crates/context-kernel-builtins/src/agenty_runtime.rs:739-764 | What changed since the checkpoint is among the edited files, in every history |
| `HistoryMeaning.LatestMeaning` | crates/context-kernel-builtins/src/agenty_runtime.rs:753-764 | Checkpoint fields are those of the last checkpoint, the intention that of the last intention, the last time that of the last event |
| `HistoryMeaning.DecisionMeaning` | crates/context-kernel-builtins/src/agenty_runtime.rs:765-787 | A decision is active if and only if it was added and not retired since, and reads as it was last added |
| `HistoryMeaning.QuestionMeaning` | crates/context-kernel-builtins/src/agenty_runtime.rs:788-796 | A question is open if and only if opened and not resolved since, with its last text; a step is completed if and only if some event completed it |
| `HistoryMeaning.InvocationsMeaning` | crates/context-kernel-builtins/src/agenty_runtime.rs:798-950 | The invocation and failure lists grow by exactly the completions and failures, in the order of the history |
| `HistoryMeaning.ToolPathsMeaning` | crates/context-kernel-builtins/src/agenty_runtime.rs:798-906 | The paths read or edited by a tool are those its completed invocations named |
| `HistoryMeaning.QueriesMeaning` | crates/context-kernel-builtins/src/agenty_runtime.rs:798-906 | The recorded queries are exactly those of completed search invocations |
| `HistoryMeaning.LastSuccessMeaning` | crates/context-kernel-builtins/src/agenty_runtime.rs:798-906 | The last success of an operation kind is that of the last completed invocation of that kind |
| `HistoryMeaning.EvidenceMeaning` | crates/context-kernel-builtins/src/agenty_runtime.rs:798-961 | Evidence is what was captured, or attached under a non-blank id to a completed invocation |
| `HistoryMeaning.SupersessionSticks` | crates/context-kernel-builtins/src/agenty_runtime.rs:785-787 | An explicitly superseded decision stays inactive, even against additions of the same task and second, unless added in a later second or generation |
| `HistoryMeaning.DecisionActiveExactly` | crates/context-kernel-builtins/src/agenty_runtime.rs:651-787 | When ids identify the events of the history, a decision is active if and only if some event adds it and every retirement of it, explicit or implied, is followed by another addition in generation, time, rank and id |
| `HistoryMeaning.OneSupersessionExactly` | crates/context-kernel-builtins/src/agenty_runtime.rs:651-787 | A decision added once and retired once is active if and only if the retirement has the lower key: within one second and one rank, the lower id |
| `HistoryMeaning.ImplicitSupersessionCanBeUndone` | crates/context-kernel-builtins/src/agenty_runtime.rs:1114-1119 | Two additions in one second: the decision the second names as superseded comes back, because only explicit supersession has a rank of its own |
| `SnapshotTheorems.StorageOrderIrrelevant` | crates/context-kernel-builtins/src/agenty_runtime.rs:633-657 | If events of the lineage agreeing on task, time, rank and id are equal, any rearrangement of entries and packets gives the same snapshot, field for field |
| `SnapshotTheorems.StorageOrderIrrelevantExactly` | crates/context-kernel-builtins/src/agenty_runtime.rs:640-657 | The history is the same for every order of the store if and only if ids identify the events it is made of |
| `SnapshotTheorems.SharedIdsShowStorageOrder` | crates/context-kernel-builtins/src/agenty_runtime.rs:651-657 | Two events that share an id and give different snapshots in the two storage orders |
| `SnapshotTheorems.HistoryExtends` | crates/context-kernel-builtins/src/agenty_runtime.rs:640-657 | The history over an extended lineage is the predecessors' history followed by the successor's own, whatever the clocks say |
| `SnapshotTheorems.RecoveryComposes` | crates/context-kernel-builtins/src/agenty_runtime.rs:616-1073 | A successor's snapshot is its own sorted events replayed on the snapshot its predecessor publishes, truncated lists and artifact owners included |
| `SnapshotTheorems.RecoveryComposesWhenLinked` | crates/context-kernel-builtins/src/agenty_runtime.rs:616-1112 | The same, from a condition on the links: one link to the predecessor, whose own links lead to a root |
| `SnapshotTheorems.OwnersMeaning` | crates/context-kernel-builtins/src/agenty_runtime.rs:693-713 | An artifact's owners are exactly the tasks with an event that carries it, each once, oldest generation first |
| `RepoPaths.GeneratedIsClosed` | benchmarks/per-06-shared-scan/src/lib.rs:458-481 | The generated-or-vendor test, once true of a path, stays true of everything below it |
| `RepoPaths.ExcludedByBothIsClosed` | benchmarks/per-06-shared-scan/src/lib.rs:401-415 | So does the conjunction of the two exclusion tests that prunes the union walk |
| `RepoPaths.SourceOfFullPath` | benchmarks/per-06-shared-scan/src/lib.rs:449-456 | The source-suffix test gives the same answer on the full path as on the relative one |
| `RepoPaths.SegmentsOfRelative` | benchmarks/per-06-shared-scan/src/lib.rs:436-440 | A relative path splits back into the names it was joined from |
| `RepoPathLaws.GeneratedByComponents` | benchmarks/per-06-shared-scan/src/lib.rs:458-481 | A path of names is generated or vendored if and only if, in lower case, it lies in one of seven directories, has a temporary component, or lies in a jacoco-resources directory that is not at the top |
| `RepoPathLaws.RegexExcludedByComponents` | benchmarks/per-06-shared-scan/src/lib.rs:442-447 | The regex scan leaves a path out if and only if it lies in one of four directories at the top |
| `RepoPathLaws.SourceByName` | benchmarks/per-06-shared-scan/src/lib.rs:449-456 | A path is source if and only if its last component ends in one of fifteen extensions |
| `RepoPathLaws.ContainsExactly` | benchmarks/per-06-shared-scan/src/lib.rs:458-481 | Containment is the existence of what stands before and after |
| `RepoWalk.PrunedWalkIsFilteredWalk` | benchmarks/per-06-shared-scan/src/lib.rs:342-434 | For any test closed under extension, not descending where it holds yields exactly the files of the full walk that fail it themselves |
| `RepoWalk.WalkNamesFilesOnce` | benchmarks/per-06-shared-scan/src/lib.rs:342-434 | A walk of a well-formed tree gives every file once, under a path made of names |
| `ScanMeaning.AllFilesExactly` | benchmarks/per-06-shared-scan/src/lib.rs:393-434 | The full walk finds exactly the files to which the names of a path lead down the tree |
| `DigestFraming.ConsumerDigest.Consume` | benchmarks/per-06-shared-scan/src/lib.rs:219-227 | Consuming a document appends its frame (length-prefixed path and bytes) to the stream and counts it |
| `DigestFraming.ConsumerDigest.Finish` | benchmarks/per-06-shared-scan/src/lib.rs:229-236 | The summary is that of the documents consumed so far |
| `DigestFraming.LeRoundTrip` | benchmarks/per-06-shared-scan/src/lib.rs:220-224 | Little-endian length bytes read back as the length |
| `DigestFraming.FramesReadBack` | benchmarks/per-06-shared-scan/src/lib.rs:218-227 | The framed stream decodes to the documents it was made from |
| `DigestFraming.FramesIdentify` | benchmarks/per-06-shared-scan/src/lib.rs:218-227 | Equal streams come from equal sequences of documents |
| `SharedScan.Telemetry.ReadCounted` | benchmarks/per-06-shared-scan/src/lib.rs:330-340 | A read counts one call and its bytes, and keeps the peak of one retained file |
| `SharedScan.FeedMap` | benchmarks/per-06-shared-scan/src/lib.rs:248-262 | The separate map pass consumes exactly the readable UTF-8 map files, in order, and skips the others |
| `SharedScan.FeedRegex` | benchmarks/per-06-shared-scan/src/lib.rs:265-278 | The separate regex pass consumes the readable non-empty files within the size limit and without a zero byte, and stops at a read error |
| `SharedScan.RunSeparate` | benchmarks/per-06-shared-scan/src/lib.rs:244-287 | The two-pass scan returns the summaries and telemetry of two independent passes, or its error |
| `SharedScan.FeedFile` | benchmarks/per-06-shared-scan/src/lib.rs:299-319 | One read feeds both consumers as their tests on the file say |
| `SharedScan.FeedBoth` | benchmarks/per-06-shared-scan/src/lib.rs:299-319 | The loop over the union walk feeds both consumers their documents in order, or stops at a read error |
| `SharedScan.RunShared` | benchmarks/per-06-shared-scan/src/lib.rs:294-328 | The fused scan returns the summaries and telemetry of the one pass, or its error |
| `ScanMeaning.CandidatesExactly` | benchmarks/per-06-shared-scan/src/lib.rs:294-328 | What each consumer wants, told by the components of a path and the size of the content |
| `ScanMeaning.MapDocumentsExactly` | benchmarks/per-06-shared-scan/src/lib.rs:244-328 | Both scans feed the map consumer exactly the readable UTF-8 source files of the tree that are not generated, each once: the shared scan by path components, the separate one by path strings |
| `ScanMeaning.RegexDocumentsExactly` | benchmarks/per-06-shared-scan/src/lib.rs:244-328 | The regex consumer gets exactly the readable files of at most two mebibytes, not empty and without zero characters, outside four directories at the top, each once, by path components |
| `ScanMeaning.PeakExactly` | benchmarks/per-06-shared-scan/src/lib.rs:330-340 | The reported peak of bytes is the size of the largest file read, and zero if none was |
| `Order.PathLeExactly` | benchmarks/per-06-shared-scan/src/lib.rs:393-434 | One path comes no later than another if and only if it begins it, or has the earlier component where they first part |
| `ScanEquivalence.RegexFedTheSame` | benchmarks/per-06-shared-scan/src/lib.rs:244-328 | Both scans feed the regex consumer the same documents in the same order, on any tree |
| `ScanEquivalence.MapFedTheSame` | benchmarks/per-06-shared-scan/src/lib.rs:244-328 | Both scans feed the map consumer the same multiset of documents; the same sequence if and only if the two sort orders agree on the files consumed |
| `ScanEquivalence.SortsAgree` | benchmarks/per-06-shared-scan/src/lib.rs:372-432 | Sorting by string and sorting by path component give one result exactly when the two orders agree on the files |
| `ScanEquivalence.OrdersDifferByClash` | benchmarks/per-06-shared-scan/src/lib.rs:372-432 | The two orders disagree on two paths exactly when one has a directory whose name the other's name extends by a character before the slash |
| `ScanEquivalence.OrdersAgreeWithoutClashes` | benchmarks/per-06-shared-scan/src/lib.rs:372-432 | The two orders agree on a set of files if and only if it has no such pair |
| `ScanEquivalence.FusionPreservesMeaning` | benchmarks/per-06-shared-scan/src/lib.rs:244-328 | Whenever the fused scan succeeds so do the separate ones; the regex summary is the same; the map consumer gets the same multiset, and the same sequence if and only if the files are free of clashes |
| `ScanEquivalence.MapSummariesAgreeExactly` | benchmarks/per-06-shared-scan/src/lib.rs:218-328 | For documents whose lengths fit the prefix the map summaries of the two scans are equal if and only if the files consumed are free of clashes |
| `ScanEquivalence.MapOrderCanDiffer` | benchmarks/per-06-shared-scan/src/lib.rs:372-432 | A tree with a.rs beside a/b.rs on which the two scans feed the map consumer in different orders |
| `ScanEquivalence.ReadErrorsExact` | benchmarks/per-06-shared-scan/src/lib.rs:251-311 | The separate scan fails exactly on a searched path whose metadata fails or that is small enough and unreadable; the fused scan exactly on a path not excluded by both tests whose metadata fails, or that a consumer wants and is unreadable |
| `ScanEquivalence.SharedSuccessIsEnough` | benchmarks/per-06-shared-scan/src/lib.rs:244-328 | When the fused scan succeeds so do the separate scans, and every file either consumer wants is readable |
| `ScanEquivalence.FusedScanCanFail` | benchmarks/per-06-shared-scan/src/lib.rs:251-311 | An unreadable source file under .packet28: the separate scans pass it over, the fused scan fails |
| `ScanEquivalence.SavingIsOverlap` | benchmarks/per-06-shared-scan/src/lib.rs:244-340 | Separate reads number the map plus the regex candidates, shared reads their union; reads and bytes saved are exactly those of the files in both |
| `ReactivePlanner.MergeFocusIntoMapStep` | crates/context-kernel-builtins/src/reactive_runtime.rs:23-59 | The loop version of merging the focus into a map step, with its answer when nothing changes |
| `ReactivePlanner.MergeKeeps` | crates/context-kernel-builtins/src/reactive_runtime.rs:23-59 | Merging touches only the input of a map step and never needs doing twice |
| `PlannerMeaning.MergeExactly` | crates/context-kernel-builtins/src/reactive_runtime.rs:24-57 | A step is left alone if and only if it is no map step, its input does not parse, or its request has the whole focus; otherwise paths are extended by the missing focus paths and symbols by the missing focus symbols, each once and in order, and nothing else changes |
| `PlannerMeaning.AffectedExactly` | crates/context-kernel-builtins/src/reactive_runtime.rs:153-219 | Which steps the changes affect, by target, by focus, by file names and by a step's own globs and flags |
| `ReactivePlanner.BuildMutations` | crates/context-kernel-builtins/src/reactive_runtime.rs:61-111 | The planning loop emits exactly the specified cancels and replacements, then the follow-up |
| `ReactivePlanner.BuildFollowUp` | crates/context-kernel-builtins/src/reactive_runtime.rs:113-151 | The follow-up is appended exactly under the specified conditions, with its dependencies pruned and anchored |
| `ReactivePlanner.CancelsAreCancelled` | crates/context-kernel-builtins/src/reactive_runtime.rs:76-111 | A step has a cancel among the emitted mutations if and only if it is completed or unaffected |
| `PlannerMeaning.WantedExactly` | crates/context-kernel-builtins/src/reactive_runtime.rs:117-147 | The follow-up is the first map step of the original request under its new id, waiting for its unmet dependencies and then the anchor, with the missing focus added |
| `PlannerMeaning.MutationsExactly` | crates/context-kernel-builtins/src/reactive_runtime.rs:61-151 | A mutation is proposed if and only if a pending step is completed, skipped or lacks focus, with the reason that applies, or the plan as a whole calls for the follow-up |
| `PlanApplication.CancelStep` | crates/context-kernel-mechanism/src/reactive_runtime.rs:104-111 | Cancelling on the id map and order list does to the represented plan what the specification says, dependents included |
| `PlanApplication.ReplaceStep` | crates/context-kernel-mechanism/src/reactive_runtime.rs:112-116 | Replacing on the id map replaces the step in place in the represented plan |
| `PlanApplication.AppendStep` | crates/context-kernel-mechanism/src/reactive_runtime.rs:117-122 | Appending adds the step at the end unless its id is taken |
| `PlanApplication.ApplyKernelMutations` | crates/context-kernel-mechanism/src/reactive_runtime.rs:91-130 | Applying mutations through a hash map and an order list equals applying them to the list of steps one by one |
| `PlanApplication.StepMutationsApplied` | crates/context-kernel-mechanism/src/reactive_runtime.rs:91-130 | Applying all mutations of a planning loop together, in order, gives the step-by-step outcome |
| `PlanApplication.RoundIs` | crates/context-kernel-builtins/src/reactive_runtime.rs:61-151 | Planning and applying the result is one closed form: the surviving steps merged and stripped, then the follow-up |
| `PlanApplication.OutcomeOrigin` | crates/context-kernel-builtins/src/reactive_runtime.rs:73-111 | Every step of the outcome comes from a planned step that was not cancelled |
| `PlanApplication.SurvivorsStay` | crates/context-kernel-builtins/src/reactive_runtime.rs:73-111 | Every planned step that was not cancelled is in the outcome |
| `PlannerMeaning.RoundExactly` | crates/context-kernel-mechanism/src/reactive_runtime.rs:91-130 | A step is in the plan after a round if and only if it is what an undropped step becomes, with the dependencies it still waits for in order, or the follow-up that was called for |
| `PlanSettles.SettlesExactly` | crates/context-kernel-builtins/src/reactive_runtime.rs:61-151 | After one round planning again emits nothing if and only if the plan does not relapse; it never relapses outside task-aware mode or without changes since the checkpoint |
| `PlanSettles.NeverSettles` | crates/context-kernel-builtins/src/reactive_runtime.rs:84-147 | If a follow-up the changes do not affect is appended, no number of rounds settles: the plans alternate with period two |
| `PlanSettles.SettlesEventuallyExactly` | crates/context-kernel-builtins/src/reactive_runtime.rs:61-151 | Some number of rounds leaves nothing to plan if and only if the plan does not persist: the follow-up is wanted and unaffected, no map step is live, and what bears its id in the plan, if anything, is unaffected too; a plan that does not persist is settled after two rounds |
| `PlanSettles.ReportChangeNeverSettles` | crates/context-kernel-builtins/src/reactive_runtime.rs:84-147 | A concrete context in which no number of rounds settles in task-aware mode, and in basic mode planning again emits nothing after one |
| `PlanAcceptance.OutcomeClosedExactly` | crates/context-scheduler-core/src/runtime.rs:152-162 | Among the planned steps a dependency is left unknown to the scheduler if and only if a merged step revives a cancelled one |
| `PlanAcceptance.RoundClosedExactly` | crates/context-scheduler-core/src/runtime.rs:152-162 | A round leaves no unknown dependency if and only if no merged step revives a cancelled dependency and the follow-up, if any, waits only for planned steps that are not cancelled, or for itself |
| `PlanAcceptance.RoundAcceptedExactly` | crates/context-scheduler-core/src/runtime.rs:67-222 | From an accepted plan a round leaves one with no blank, repeated or unknown id and no cycle if and only if no merged step revives a cancelled dependency and the follow-up, if any, waits only for planned steps that are not cancelled |
| `PlanAcceptance.CancelledDependencyAwaited` | crates/context-kernel-builtins/src/reactive_runtime.rs:76-147 | A concrete plan, without anchor or revival, whose follow-up waits for a step the same round cancels as unaffected |
| `PlanAcceptance.AnchoredFollowUpIsRejected` | crates/context-kernel-mechanism/src/kernel_runtime.rs:815-859 | A follow-up anchored at a step that has left the plan is never accepted: the anchor is unknown, or the follow-up waits for itself |
| `PlanAcceptance.AnchoredFollowUpExample` | crates/context-kernel-mechanism/src/kernel_runtime.rs:815-859 | A concrete context as the kernel builds it after a map step has succeeded: a follow-up anchored at that step, which has left the plan, is appended and the plan rejected |
| `PlanAcceptance.CompletedDependencyRevived` | crates/context-kernel-builtins/src/reactive_runtime.rs:76-111 | A concrete accepted plan, replanned against itself, in which the merged map step waits for a step the same round cancelled |
| `PolicyNormalForm.NormalizeSemanticSetArrays` | crates/context-kernel-builtins/src/governance_runtime.rs:127-153 | The recursive rewriting computes the normal form |
| `PolicyNormalForm.CanonicalDecides` | crates/context-kernel-builtins/src/governance_runtime.rs:127-153 | Two arrays of strings get one canonical list if and only if they are the same set of trimmed non-blank strings |
| `PolicyNormalForm.CanonicalMembers` | crates/context-kernel-builtins/src/governance_runtime.rs:127-153 | A canonical list holds exactly the trimmed non-blank texts, strictly ascending |
| `Text.TrimExactly` | crates/context-kernel-builtins/src/governance_runtime.rs:127-153 | Trimming removes white space at both ends, all of it, and nothing else |
| `Text.BlankExactly` | crates/context-kernel-builtins/src/governance_runtime.rs:127-153 | A text is blank if and only if it is all white space |
| `PolicyNormalForm.NormalDecidesCongruence` | crates/context-kernel-builtins/src/governance_runtime.rs:121-153 | Two configurations normalise to the same value if and only if they are congruent: string arrays as sets, everything else pointwise |
| `PolicyNormalForm.NormalIdempotent` | crates/context-kernel-builtins/src/governance_runtime.rs:127-153 | A normal form is its own normal form |
| `PolicyNormalForm.NormalIsCongruent` | crates/context-kernel-builtins/src/governance_runtime.rs:127-153 | A value is congruent to its normal form |
| `PolicyNormalForm.CacheKeyMeansCongruentPolicy` | crates/context-kernel-builtins/src/governance_runtime.rs:368-419 | With a collision-free hash, two governed requests have one cache input if and only if they agree on everything but the policy path and their policies are congruent |
| `PolicyNormalForm.SummariserCacheKey` | crates/context-kernel-builtins/src/governance_runtime.rs:373-379 | The instruction summariser shares a cache input if and only if its own reduction of the input agrees, and with no other target |
| `DependencyGraph.ReadPackages` | scripts/check_architecture.py:333-347 | Package ids are read into names; a repeated id is the only fault |
| `DependencyGraph.ReadNode` | scripts/check_architecture.py:360-391 | One resolve node adds exactly its normal dependencies; an unknown node or dependency is reported |
| `DependencyGraph.ReadNodes` | scripts/check_architecture.py:357-391 | The edges are exactly the normal dependencies of the resolved graph, or a real fault is reported |
| `DependencyGraph.CargoMetadataGraph.Load` | scripts/check_architecture.py:320-397 | Loading succeeds exactly on consistent metadata, with the names, members and edges it states; otherwise the error names a fault that is there |
| `DependencyGraph.CargoMetadataGraph.WorkspacePackageId` | scripts/check_architecture.py:408-414 | The one workspace package of a name, or the error for none or for several |
| `DependencyGraph.SortedIds` | scripts/check_architecture.py:447-450 | The dependencies of a package in the order of name and id, whatever order the set yields them |
| `DependencyPaths.KeysExactly` | scripts/check_architecture.py:447-450 | Packages sort by name and, for one name, by id |
| `DependencyPaths.BeforeExactly` | scripts/check_architecture.py:438-472 | A path comes before another if it is shorter or, of equally long ones, takes the package that sorts first where they part |
| `DependencyGraph.CargoMetadataGraph.Discover` | scripts/check_architecture.py:441-455 | The breadth-first search ends with every reachable package in a predecessor tree, listed in the order of their foremost paths |
| `DependencyGraph.CargoMetadataGraph.PathTo` | scripts/check_architecture.py:462-467 | Following predecessors back and reversing gives the path of the tree |
| `DependencyGraph.CargoMetadataGraph.Report` | scripts/check_architecture.py:457-471 | Of all discovered packages of a forbidden name, the first in discovery order is the one kept |
| `DependencyGraph.CargoMetadataGraph.ShortestForbiddenPaths` | scripts/check_architecture.py:438-471 | A forbidden name is reported if and only if a package of that name other than the source is reachable over normal edges, with the names along a foremost path to it |
| `DependencyGraph.ForemostIsShortestAndUnique` | scripts/check_architecture.py:438-471 | The reported path is no longer than any path to any package of that name, and the graph alone decides which one it is |
| `DependencySearch.AddKeeps` | scripts/check_architecture.py:451-455 | Discovering a package from the current one keeps the tree, the order of discovery and what was settled |
| `DependencySearch.Settles` | scripts/check_architecture.py:445-455 | When all dependencies of the current package are discovered, each was reached no later than through it |
| `DependencySearch.PathsLead` | scripts/check_architecture.py:441-455 | Every path kept in the tree is a real edge path from the source |
| `DependencyPaths.CompleteIsFirst` | scripts/check_architecture.py:438-471 | A complete tree holds, for every path from the source, a path to the same package that comes before it |
| `SourceMask.Blank` | scripts/check_direct_dependencies.py:75-78 | Blanking a range in place turns its characters to spaces, newlines excepted, and touches nothing else |
| `SourceMask.SkipBlockComment` | scripts/check_direct_dependencies.py:88-101 | The depth-counting loop finds the end of the block comment |
| `SourceMask.SkipRawString` | scripts/check_direct_dependencies.py:103-121 | The raw-string scan finds the closing delimiter with as many hashes as it opened with, or the end of the text |
| `SourceMask.SkipString` | scripts/check_direct_dependencies.py:123-141 | The escape-tracking loop finds the end of the string |
| `SourceMask.SkipChar` | scripts/check_direct_dependencies.py:143-158 | The character-literal scan, with its window of fourteen characters, finds the literal's end or none |
| `SourceMask.ScanSpan` | scripts/check_direct_dependencies.py:80-160 | The branches in order find the end of the non-code text that starts here, if any does |
| `SourceMask.RustCodeWithoutCommentsAndLiterals` | scripts/check_direct_dependencies.py:69-161 | Blanking in place, span by span, computes the masked text |
| `SourceMaskLaws.MaskedAt` | scripts/check_direct_dependencies.py:80-161 | A character is kept exactly when the scan meets it as code, and is blanked otherwise |
| `SourceMaskLaws.MaskKeepsShape` | scripts/check_direct_dependencies.py:69-161 | Length and newline positions are kept; every character is the source's or a space |
| `SourceMaskLaws.SpanFinish` | scripts/check_direct_dependencies.py:80-160 | A span is at least two characters long unless it ends the text, and never stops right after a backslash on the same line |
| `SourceMaskLaws.NothingLeftToMask` | scripts/check_direct_dependencies.py:69-161 | At no position of masked text does anything start that would be masked |
| `SourceMaskLaws.MaskIdempotent` | scripts/check_direct_dependencies.py:69-161 | Masking the masked text changes nothing, for every text |
| `SourceMaskLaws.BlockCommentIsShortestNesting` | scripts/check_direct_dependencies.py:88-101 | A block comment is masked up to the end of the shortest complete nesting, or to the end of the text exactly when none completes |
| `SourceMaskLaws.EscapedCharIsMaskedUnlessBackslash` | scripts/check_direct_dependencies.py:143-153 | A quoted one-character escape is recognised as a whole literal if and only if the escaped character is not a backslash |
| `SourceMaskLaws.EscapedBackslashStays` | scripts/check_direct_dependencies.py:143-153 | The literal of an escaped backslash is recognised as no literal at all |
| `SourceSpans.LineCommentExactly` | scripts/check_direct_dependencies.py:81-86 | A line comment is masked up to the next line break, which is kept, or to the end of the text |
| `SourceSpans.StringExactly` | scripts/check_direct_dependencies.py:123-141 | A string, with or without a one-letter prefix, is masked up to and with the first quotation mark that an even run of backslashes precedes, or to the end of the text |
| `SourceSpans.RawStringExactly` | scripts/check_direct_dependencies.py:104-121 | A raw string is masked up to and with the first quotation mark followed by as many hashes as it opened with, or to the end of the text |
| `SourceSpans.CharLiteralExactly` | scripts/check_direct_dependencies.py:143-157 | A quote starts a literal if and only if it is closed after one plain character or, after a backslash, within twelve characters by a quote that no backslash precedes; the literal ends at the first such quote |
| `SourceSpans.SpanStartsExactly` | scripts/check_direct_dependencies.py:80-161 | Masking starts at a character if and only if a comment, a string, a raw string or a closed literal does |
| `CorrelationRules.Listed` | crates/context-kernel-builtins/src/correlation_runtime.rs:522-526 | The elements of a set, each once |
| `CorrelationMeaning.ListedExactly` | crates/context-kernel-builtins/src/correlation_runtime.rs:522-526 | The listing of a set ascends and repeats nothing |
| `CorrelationMeaning.BuildRuleExactly` | crates/context-kernel-builtins/src/correlation_runtime.rs:606-632 | A build is found unrelated to a diff if and only if it has diagnostics in a file the diff does not change; the finding names the changed files and exactly those untouched ones |
| `CorrelationMeaning.ImpactRuleExactly` | crates/context-kernel-builtins/src/correlation_runtime.rs:579-604 | A test impact supports a diff if and only if it selected tests; the finding names the changed files and exactly those tests |
| `CorrelationMeaning.StackRuleExactly` | crates/context-kernel-builtins/src/correlation_runtime.rs:534-577 | A stack with files is related, unrelated or possibly related to a diff, by shared files and by the edges of the maps; the finding names the files of both |
| `CorrelationMeaning.SharedNamesExactly` | crates/context-kernel-builtins/src/correlation_runtime.rs:704-767 | Two packets share the symbols and tests both have; each finding names exactly those, for one packet and then the other |
| `CorrelationMeaning.SharedFilesExactly` | crates/context-kernel-builtins/src/correlation_runtime.rs:649-702 | Two packets share the files both have or, without any, the basenames no third packet has; the finding names exactly those, twice |
| `CorrelationMeaning.OverlapNamesExactly` | crates/context-kernel-builtins/src/correlation_runtime.rs:798-884 | An overlap with the checkpoint names exactly the changed paths, the changed symbols and the unmistakable basenames of the packet |
| `CorrelationRules.DecimalReadsBack` | crates/context-kernel-builtins/src/correlation_runtime.rs:591-600 | The number of tests in a summary reads back |
| `CorrelationLaws.StackRelationExactly` | crates/context-kernel-builtins/src/correlation_runtime.rs:522-574 | A stack failure is related to a diff if and only if they share a file, and unrelated if and only if they do not, there are maps, and none has an edge between their files |
| `CorrelationLaws.SharedFileExactly` | crates/context-kernel-builtins/src/correlation_runtime.rs:649-702 | Two packets are found to share a file if and only if they do, or have a basename in common that no third packet has |
| `CorrelationLaws.FocusOverlapExactly` | crates/context-kernel-builtins/src/correlation_runtime.rs:798-884 | A packet is found to overlap the checkpoint if and only if it has a changed path or symbol, or alone has the basename of a changed path |
| `CorrelationLaws.KeyIgnoresSides` | crates/context-kernel-builtins/src/correlation_runtime.rs:435-448 | The deduplication key sorts the evidence, so it does not tell which packet comes first |
| `CorrelationLaws.PairKeysAreSymmetric` | crates/context-kernel-builtins/src/correlation_runtime.rs:649-795 | Every rule about two packets gives the same keys whichever comes first |
| `CorrelationLaws.PairsPermuted` | crates/context-kernel-builtins/src/correlation_runtime.rs:647-796 | Over all pairs, the keys found do not depend on the order of the packets |
| `CorrelationLaws.AllDiffFindingsPermuted` | crates/context-kernel-builtins/src/correlation_runtime.rs:515-633 | The findings about diffs are only rearranged when the packets are |
| `CorrelationLaws.FocusFindingsPermuted` | crates/context-kernel-builtins/src/correlation_runtime.rs:798-885 | So are the findings about the checkpoint |
| `CorrelationLaws.FindingsIgnorePacketOrder` | crates/context-kernel-builtins/src/correlation_runtime.rs:455-887 | For any rearrangement of the input packets, the findings have the same set of deduplication keys |
| `CorrelationRun.DedupeFindings` | crates/context-kernel-builtins/src/correlation_runtime.rs:431-453 | Deduplication keeps of every key the first finding, once, and sorts by rule and summary, whatever order the hash map yields |
| `CorrelationRun.CorrelateDiff` | crates/context-kernel-builtins/src/correlation_runtime.rs:517-633 | The nested loops over stacks, impacts and builds find what the rules about a diff say |
| `CorrelationRun.CountBasenames` | crates/context-kernel-builtins/src/correlation_runtime.rs:639-645 | The fold counts, for every basename, the packets that have it |
| `CorrelationRun.CorrelatePair` | crates/context-kernel-builtins/src/correlation_runtime.rs:649-795 | The rules about a pair, basename counts looked up in the map |
| `CorrelationRun.CorrelatePairs` | crates/context-kernel-builtins/src/correlation_runtime.rs:647-796 | The nested loop visits each pair once, earlier packet first |
| `CorrelationRun.CorrelateFocus` | crates/context-kernel-builtins/src/correlation_runtime.rs:798-885 | The loop over the packets finds each overlap with the checkpoint |
| `CorrelationRun.CorrelatePackets` | crates/context-kernel-builtins/src/correlation_runtime.rs:455-887 | The surviving findings are exactly those that are, for each key the rules produce, the first finding with it, sorted |
| `CorrelationReports.KeyTellsRule` | crates/context-kernel-builtins/src/correlation_runtime.rs:435-448 | Findings with one deduplication key are by one rule |
| `CorrelationReports.BuildReportedExactly` | crates/context-kernel-builtins/src/correlation_runtime.rs:606-632 | A build finding survives if and only if some diff that changes a file meets a build with diagnostics in a file outside that diff |
| `CorrelationReports.ImpactReportedExactly` | crates/context-kernel-builtins/src/correlation_runtime.rs:579-604 | A test-impact finding survives if and only if some diff changes a file and some impact selected tests |
| `CorrelationReports.StackReportedExactly` | crates/context-kernel-builtins/src/correlation_runtime.rs:534-577 | A stack finding survives if and only if some diff changes a file and some stack has files |
| `CorrelationReports.SharingReportedExactly` | crates/context-kernel-builtins/src/correlation_runtime.rs:647-767 | Findings of shared symbols, tests or files survive if and only if two packets share one |
| `CorrelationReports.OverlapReportedExactly` | crates/context-kernel-builtins/src/correlation_runtime.rs:798-886 | A checkpoint finding survives if and only if there is a checkpoint and some packet has something it changed |
| `CorrelationMaps.MapEdgeSurvivorExactly` | crates/context-kernel-builtins/src/correlation_runtime.rs:769-794 | A surviving finding is about a map edge if and only if it is the finding about the first pair of packets, in packet order, that a map connects, through the first such map |
| `CorrelationMaps.OneMapEdgeSurvives` | crates/context-kernel-builtins/src/correlation_runtime.rs:431-453 | At most one finding about map edges survives, whatever pairs and maps there are, and one does if and only if some map connects some pair |
| `CorrelationMaps.PacketOrderPicksTheSummary` | crates/context-kernel-builtins/src/correlation_runtime.rs:777-793 | A concrete map and diff whose surviving finding reads differently when the two packets change places |
| `BuildDiagnostics.ParseDiagnostics` | crates/buildy-core/src/parse.rs:7-126 | The parser with a pending header yields what the lookahead reading of the log says, in order |
| `BuildDiagnostics.StepMeans` | crates/buildy-core/src/parse.rs:11-111 | One step of the parser: what it emits and keeps pending is what the line and the rest of the log mean |
| `BuildDiagnostics.DiagnosticsFollowTheirLines` | crates/buildy-core/src/parse.rs:7-126 | Each diagnostic comes from one line of its own, in the order of the lines; exactly the colon and MSVC lines and the headers whose next recognised line is a location, or that have none, produce one |
| `BuildDiagnostics.HeaderTakesItsLocation` | crates/buildy-core/src/parse.rs:76-126 | Over any unrecognised lines a header takes file, line and column from the next location, keeps its own severity, code and message, and leaves the rest of the log as read afresh |
| `BuildDiagnostics.DiagnosedSeverities` | crates/buildy-core/src/parse.rs:161-169 | Every diagnostic has one of the four severities |
| `BuildMeaning.SeverityExactly` | crates/buildy-core/src/parse.rs:161-169 | Which words, trimmed and in any case, are errors, notes and informations; every other word is a warning |
| `BuildMeaning.PlacedLineExactly` | crates/buildy-core/src/parse.rs:7-126 | A line with a place and a report is one diagnostic with that file, slashes for backslashes, that line and column if they fit 32 bits, and the severity, code, message and fingerprint of the report, whatever follows |
| `BuildMeaning.HeaderWithPlaceExactly` | crates/buildy-core/src/parse.rs:7-126 | A header and the next location, over unrecognised lines, are one such diagnostic |
| `BuildMeaning.HeaderAtTheEndExactly` | crates/buildy-core/src/parse.rs:7-126 | A header that nothing recognised follows is a diagnostic without a place |
| `BuildMeaning.DroppedLinesExactly` | crates/buildy-core/src/parse.rs:7-126 | A header that another report follows yields nothing, nor do a location without a header and unrecognised lines |
| `BuildReduce.DedupedKeepsEachOnce` | crates/buildy-core/src/lib.rs:27-34 | Every fingerprint of the log is kept exactly once, by a diagnostic of the log |
| `BuildMeaning.KeptAreFirst` | crates/buildy-core/src/lib.rs:27-34 | What is kept is the first diagnostic of every fingerprint |
| `BuildMeaning.LimitKeepsTheFirst` | crates/buildy-core/src/lib.rs:21-24 | A limit keeps the first diagnostics of the log |
| `BuildMeaning.RootCauseExactly` | crates/buildy-core/src/lib.rs:50-60 | Diagnostics have one root cause if and only if they agree in severity and in code or, without a code, normalised message |
| `BuildReduce.GroupByRootCause` | crates/buildy-core/src/lib.rs:47-75 | Updating the hash map entry by entry builds the group of every root cause |
| `BuildReduce.IntoValues` | crates/buildy-core/src/lib.rs:76 | The map's values are the groups, each once, in some order |
| `BuildReduce.ListingIrrelevant` | crates/buildy-core/src/lib.rs:76-92 | The report is the same for every order in which the hash map yields the groups |
| `BuildReduce.Reduce` | crates/buildy-core/src/lib.rs:20-117 | Parsing, truncating, deduplicating, sorting, grouping and ordering yield the specified report; duplicates are total minus unique |
| `BuildReduceLaws.GroupsPartition` | crates/buildy-core/src/lib.rs:26-92 | Together the groups hold each deduplicated diagnostic exactly as often; no two share a root cause; each holds only its root cause, one severity, and the right count |
| `BuildReduceLaws.ReportIsOrdered` | crates/buildy-core/src/lib.rs:77-92 | Groups come by severity, count and root cause, diagnostics within them by place |
| `BuildMeaning.ReportOrderExactly` | crates/buildy-core/src/lib.rs:76-92 | In a log's report errors come before warnings, notes and informations, then larger groups first, then root causes ascending; within a group by file, line, column and message, field by field |
| `BuildReduceLaws.MembersAreInPlace` | crates/buildy-core/src/lib.rs:84-92 | Sorting the members of a group by place changes nothing, because the list was sorted before grouping |
| `BuildReduceLaws.RegroupingChangesNothing` | crates/buildy-core/src/lib.rs:26-92 | Reducing the flattened groups again returns the same groups |
| `BuildReduceLaws.LogReportLaws` | crates/buildy-core/src/lib.rs:20-92 | Partition, one severity, right counts, order and stability under regrouping hold for the report of every build log, truncated or not |
| `ContextBudget.Manage` | crates/context-kernel-builtins/src/contextq_runtime.rs:370-453 | The budget loop, the first five recommendations, the eviction window and the headroom: used plus headroom is the budget |
| `ContextBudget.UsedIsCappedTotal` | crates/context-kernel-builtins/src/contextq_runtime.rs:393-398 | The counted size is the true size of the working set, cut off at the largest integer |
| `ContextBudget.WorkingSetFits` | crates/context-kernel-builtins/src/contextq_runtime.rs:393-398 | The true size is within the budget in each dimension if and only if that budget is below the largest integer or what the other dimension alone selects is no larger; below that the count is exact |
| `ContextBudget.UnlimitedBudgetOverflows` | crates/context-kernel-builtins/src/contextq_runtime.rs:393-398 | With the largest integer as budget the true size can exceed it |
| `ContextBudget.NothingSkippedFits` | crates/context-kernel-builtins/src/contextq_runtime.rs:393-398 | No hit passed over would still fit what is left at the end |
| `ContextBudget.PrefixIsAccepted` | crates/context-kernel-builtins/src/contextq_runtime.rs:374-398 | The accepted hits are exactly the first m if and only if those fit together and none of the others fits with them |
| `ContextBudget.EvictionClearExactly` | crates/context-kernel-builtins/src/contextq_runtime.rs:374-402 | With m hits accepted, no accepted hit is offered for eviction if and only if none of the eight hits from position m on fits with what the first m hits left packed |
| `ContextBudget.EvictionKeepsClear` | crates/context-kernel-builtins/src/contextq_runtime.rs:400-417 | In particular candidates keep clear if packing stops once and for all; when at most eight hits were passed over, only if it does |
| `ContextBudget.EvictionCanOverlap` | crates/context-kernel-builtins/src/contextq_runtime.rs:400-417 | A hit can be in the working set and offered for eviction at once |
| `ContextAugment.FillFromEntry` | crates/context-kernel-builtins/src/contextq_runtime.rs:229-250 | The inner loop: seen packets are passed over, the first that does not fit ends the entry |
| `ContextAugment.AugmentAssembleWithTaskMemory` | crates/context-kernel-builtins/src/contextq_runtime.rs:168-253 | The two nested loops add to the assembly exactly the packets the specification selects |
| `ContextAugment.AugmentingIsSafe` | crates/context-kernel-builtins/src/contextq_runtime.rs:210-253 | The packets added are new and pairwise distinct, and their exact charges stay within the reserve, for every recall |
| `AugmentMeaning.EntryExactly` | crates/context-kernel-builtins/src/contextq_runtime.rs:229-249 | From one entry the first new packets are added, in order, as many as fit at the size of the hit, and the next one is marked as seen |
| `AugmentMeaning.FreshExactly` | crates/context-kernel-builtins/src/contextq_runtime.rs:229-233 | A packet is new if and only if its key is not seen and no earlier packet of the entry has it |
| `AugmentMeaning.AddedInTurn` | crates/context-kernel-builtins/src/contextq_runtime.rs:222-250 | Added packets come from the entries of the hits in turn, charged at the estimate of their hit, and no hit adds anything once the reserve is full in a dimension |
| `AugmentMeaning.NothingRecalledFits` | crates/context-kernel-builtins/src/contextq_runtime.rs:222-250 | A new recalled packet is added, unless the reserve is full in the end or lacks the room asked by some hit that offered it |
| `AugmentMeaning.AugmentingExactly` | crates/context-kernel-builtins/src/contextq_runtime.rs:168-253 | Both of the whole run, with the reserve of the budget and the entries as they are stored |
| `AugmentMeaning.LastEntryExactly` | crates/context-kernel-builtins/src/contextq_runtime.rs:215-218 | The entry found under a cache key is the last one stored under it |
| `AugmentMeaning.RefusedIsNotTriedAgain` | crates/context-kernel-builtins/src/contextq_runtime.rs:229-238 | A packet refused at the size of one hit is left out although it would fit at that of a later one |
| `AugmentMeaning.ReserveExactly` | crates/context-kernel-builtins/src/contextq_runtime.rs:194-195 | The reserve is a quarter of the budget from 1024 tokens and 16384 bytes on, and 256 tokens and 4096 bytes below |
| `ContextAugment.ReserveWithinBudget` | crates/context-kernel-builtins/src/contextq_runtime.rs:194-195 | The reserve is within the budget if and only if the budget is at least the minimal reserve |
| `ContextAugment.ReserveIsQuarter` | crates/context-kernel-builtins/src/contextq_runtime.rs:194-195 | The reserve is a quarter of the budget if and only if the budget has at least 1024 tokens, and 16384 bytes |
| `ContextAugment.ReserveCanExceedBudget` | crates/context-kernel-builtins/src/contextq_runtime.rs:194-195 | A budget that its reserve exceeds |

## Left out

- Kernel, daemon, write-ahead log and search index: the reducers' callers are not modelled; cache entries, recall hits and packets are parameters.
- Envelopes, summaries, timestamps, canonical hashes and audit records built around the results: record copying.
- Validation and summarising of single agent events, and the checks a CI script selects: each fact is settled by reading one branch.
- JSON decoding: events, envelopes and map requests are given decoded. A map request is taken to survive decoding and encoding unchanged; fields unknown to the decoder, which the replacement drops, are not modelled.
- Event record fields that are only copied into a snapshot are carried as one opaque value; `BTreeMap` and `BTreeSet` accumulators are maps and sets, their iteration order being that of their keys.
- Floating-point relevance and confidence values, allocator counters and elapsed time.
- Overflow of the 64-bit scan counters, which nothing in the source guards against; and of the eviction totals, which are plain sums.
- Ignore files, symbolic links, lossy path conversion and backslashes in file names: a tree is one of plain files whose names hold no separator.
- Errors of the directory walk, and files whose metadata or permissions change during a scan. A file without metadata is not listed by the map walk, so that pass's second look at the metadata never fails here.
- Encoding: paths and contents are sequences of characters. Where the source counts UTF-8 bytes, as in the length prefixes of the digest and in file sizes, the model counts characters; ordering by code point agrees with the order of UTF-8 bytes.
- The scheduler's topological sort: a request without a cycle is one whose steps can be ranked above those they wait for.
- Regular expressions: a build-log line comes classified by the first expression that matches it, with its captures; message normalisation and the short hash are parameters. The formatted list of ordered fixes is not modelled.
- Canonicalising file paths and collecting references from packet bodies: a packet comes with its typed and its normalised reading.
- The order of findings that agree in rule and summary, which is the hash map's; results are stated on keys, on which finding is kept, and on the sort.
- Malformed shapes in Cargo metadata (missing arrays, non-object entries): the metadata comes with the fields the loader reads. The index of workspace packages by name is not kept as a field.
- The second masking function of the architecture check (`scripts/check_architecture.py:711`), a simpler relative of the one modelled.
- Extracted tokens of Rust text in general: `RustCodeWithoutCommentsAndLiterals` is stated against the scanner's own reading of the text, not against the Rust lexer, from which it departs.
- PolicyNormalForm.NormalizeSemanticSetArrays: works on JSON values and returns the rewritten tree, so the rewriting in place is not captured.
