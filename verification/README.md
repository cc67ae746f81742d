# Verification of the EKA knowledge store and its protocols

EKA keeps knowledge units in a content-addressed archive with one mutable reference per form, moves them through
lifecycles, and exchanges them as packages. This project models that core in Dafny 4.11 and proves what it keeps over
every input and every run:

- **The archive** (`PayloadStore`, `Lineage`, `IssueNumbers`, `JsonText`): payload rows written once with their lineage
  edge, the forward-only reference, the ancestry walk, batches, repoints, issue numbers, and the bytes the content
  address is taken over.
- **The lifecycle protocol** (`Units`, `Taxonomy`, `Queries`, `PlanClosure`, `Gates`, `Lifecycle`, `AbsentLines`,
  `Relate`) and what it keeps over whole runs (`LifecycleRuns`, `ContainerInvariants`, `ChangeLogRules`, `WorkItemRuns`).
- **Graph algorithms** (`Graphs`, `BatchOrder`, `CommitOrder`, and the breadth-first search of `PlanClosure`).
- **Codecs** (`Text`, `References`, `KeyedSort`, `RsfModel`, `RsfAssemble`, `RsfLoad`, `RsfRoundTrip`, `RsfIntegrity`,
  `Snapshot`, `SnapshotSource`, `SnapshotOrder`), **undo** (`RepoWriter`) and **title similarity** (`Titles`,
  `Capture`).
- **Readings** (`ReferenceReading`, `Tickets`, `PlanReading`, `Decisions`, `RefusalReading`, `RelateReading`,
  `RuleReading`, `RsfReading`, `SnapshotReading`, `JsonReading`, `CommitReading`, `SimilarityReading`): each says what an
  operation does in terms of raw fields, relationships, entry names and bytes, without the helpers that the operation and
  its specification are written with, and proves the two the same.

Code that updates state is a class or a method with loops, proved against a specification function or predicate
(`Decide` and `PutAll` for a transition, `Rounds` for the commit order, `LoadsAs` for the package loader); the theorems
are lemmas about those specifications. A run is a sequence of steps; an invariant lemma quantifies over all of them.

How the code's world is represented:

- A content address is an ideal digest: the constructor `Sha256` of the unit, or, for packages, any function of the
  bytes (the round trip needs nothing of it but a non-empty result; where two packages are compared it is injective).
  `JsonText.ConcatenationSeparates` proves that the concatenation of `unit.json` and content tells payloads apart.
- A form is the identity tuple; `References.CanonicalFormInjective` says that printing loses nothing.
- The JSON library is a record of printers and strict readers, `RsfModel.Codec`. `Lossless` is assumed of it for the
  round trips, and `RsfReading.VersionsAgree` for `RsfReading.TamperedIsRefused`: an integrity block that reads under the
  current and the legacy keys reads the same.
- Go's map iteration is a choice of any remaining key.
- Store reads succeed and `PutUnits` is one atomic step. The day, the notes among the drafts, the role of a note and
  the verdict of unit validation are parameters.
- Callers put a payload under the reference it names (`Lineage.Named`), as all callers in `runtime` do.

Where documentation and code disagree the model follows the code. Each property below is false of the code; the lemmas
named give an input at which it fails and exactly when it holds:

- `store/payloads.go:288-290` says every payload ever referenced by a form is linked through `prev_hash`. That holds
  without `RepointUnit` (`Lineage.RunIsLinear`). It fails when a unit is published, revised and repointed to its first
  version (`Lineage.RepointBreaksLinear`): a repoint breaks it at a payload that was left (`Lineage.RepointForks`) and
  nowhere else (`Lineage.RepointKeepsLinearIff`).
- `store/numbers.go:9-11` calls numbers stable for the life of the line. They are stable per form
  (`IssueNumbers.RunKeepsNumbers`); the second instance of a line is number two
  (`IssueNumbers.SecondInstanceIsNumberTwo`), and a new instance gets the number of an earlier one only in another
  project whose next number it happens to be (`IssueNumbers.NewInstanceNumber`).
- `runtime/transition.go:936-938` says unresolved lines never block another container. They block one in
  `AbsentLines.AbsentStoryBlocks`, and exactly when both closures lead to them (`AbsentLines.AbsentLineBlocksIff`).
- `runtime/relate.go:517-519` says the added edges come in canonical order. They come in the order of the request
  (`Relate.AddedOutOfOrder`), which is canonical exactly when the request names its new edges in that order
  (`Relate.AddedInOrderIff`).
- `exchange/deserialize.go:361` says the digests of the integrity block are one to one with the units. Records that name
  no unit are accepted (`RsfIntegrity.OtherRecordsAccepted`); `RsfIntegrity.RecordsAcceptedIff` and
  `RsfIntegrity.AllRecordedIff` say exactly which are, and when they are one to one.
- `exchange/snapshot.go:60-61` says the loaded units are sorted by canonical identity form. They are sorted by
  directory. Two stories `a` and `a0` load in the other order (`SnapshotOrder.DirectoryOrderIsNotFormOrder`); the two
  orders agree exactly when no ID of the snapshot continues another one in the way of `SnapshotOrder.Overtakes`
  (`SnapshotOrder.LoadedInFormOrderIff`).
- `exchange/snapshot.go:110-114` says unknown entries are rejected. Under `units/` they are
  (`SnapshotSource.UnknownUnitEntryRefused`); elsewhere an entry is ignored unless its name ends like a part of a unit
  (`SnapshotSource.UnknownEntryIff`). An attachment with such a name is one the emitter writes and the loader refuses
  (`SnapshotSource.DocumentNamedContent`, `SnapshotSource.SourceRoundTripIff`).

## Model

| member | source | states |
|---|---|---|
| `PayloadStore.Store.IsAncestor` | store/payloads.go:294-309 | The walk terminates on any table, dangling edges and cycles included, and answers true exactly when target lies on the lineage of current |
| `PayloadStore.Store.AllocateNumber` | store/payloads.go:252-260 | The number is one above the highest of the project's group, or one for the first |
| `PayloadStore.Store.PutTx` | store/payloads.go:192-285 | One put takes the store to the state `PutUnit` gives, with the guard's verdict: row inserted once, ancestors refused, older versions refused on a repoint, number kept or allocated |
| `PayloadStore.Store.PutUnits` | store/payloads.go:128-154 | A batch takes the store to the state after all its puts, and returns the address of each payload |
| `JsonText.ConcatenationSeparates` | store/payloads.go:316-322 | The compact JSON of one object followed by any content determines both: the hashed concatenation confuses no two payloads |
| `JsonText.ValueTells` | exchange/serialize.go:246-252 | A value printed in front of other bytes is read back uniquely, strings with their escapes, arrays and objects at any depth included |
| `JsonReading.StringReadsBack` | exchange/serialize.go:246-252 | A printed string, whatever follows it, is read back by the escapes of section 7 of RFC 8259 as that string and what follows |
| `Lineage.RunRetains` | store/payloads.go:211-226 | Over every run of puts, batches and repoints no row is changed or removed, whatever the caller puts |
| `Lineage.RunIsSound` | store/payloads.go:192-285 | Over every run, every reference targets an archived payload of its own form and every lineage edge stays inside the form, is well-founded and leads to the one root |
| `Lineage.FormIsTree` | store/payloads.go:211-226 | The rows of a form are a tree: one root, an ancestor of all of them |
| `Lineage.WalkNeverRepeats` | store/payloads.go:294-309 | In reachable stores a walk never meets a payload twice, so the visited test never fires |
| `Lineage.GuardIsMembership` | store/payloads.go:228-244 | On linear histories the ancestry guard refuses exactly what is already archived and not current |
| `Lineage.RunIsLinear` | store/payloads.go:192-309 | Over every run of puts and batches the rows of a form are exactly the lineage of its current payload |
| `Lineage.LeftForever` | store/payloads.go:228-244 | A payload that was left never becomes current again |
| `Lineage.RepointKeepsLinearIff` | store/payloads.go:84-107 | A repoint keeps histories linear exactly when its payload was not left |
| `Lineage.RepointForks` | store/payloads.go:84-107 | After a repoint to a left payload the former current payload is off the form's lineage |
| `Lineage.RepointBreaksLinear` | store/payloads.go:84-107 | Two versions published and the first one repointed to: the history of the form is not linear |
| `IssueNumbers.RunIsDense` | store/payloads.go:246-283 | Over every run that moves no form to another project, the numbers of each project and group are exactly 1 to n over its n forms, without repeats |
| `IssueNumbers.RunKeepsNumbers` | store/payloads.go:246-283 | A form's number and group never change on any run, moves between projects included |
| `IssueNumbers.MoveKeepsDenseIff` | store/payloads.go:246-283 | A move to another project leaves all numbers dense exactly when the form held the last number of its old group and that is the next number of its new one |
| `IssueNumbers.NewInstanceNumber` | store/payloads.go:246-260 | In a dense store the first put of another instance of a line gets a larger number inside the project, and the same number exactly in another project whose next number it is |
| `IssueNumbers.InstancesNumberedApart` | store/payloads.go:246-260 | Over every run without moves two instances of a line in one project have different numbers |
| `IssueNumbers.SecondInstanceIsNumberTwo` | store/payloads.go:246-260 | The two first instances of a story, put one after the other, are numbers one and two |
| `IssueNumbers.RunNumbersEachKind` | store/payloads.go:246-260 | Told by type: over every run without moves the tickets of a project carry exactly the numbers 1 to n, and so do its notes, and so do its work items |
| `IssueNumbers.RunKeepsOthersBlank` | conformance/state.go:368-380 | Over every run, forms of any other type carry no number |
| `IssueNumbers.OtherKindLeavesNext` | store/payloads.go:246-260 | A put of one kind changes the next number of neither other kind |
| `IssueNumbers.FirstOfEachKindIsOne` | store/payloads.go:246-260 | The first ticket of a project is number one, however many work items and notes it has, and likewise for the other kinds |
| `PlanClosure.ResolveDependsOnPlan` | runtime/container.go:169-197 | The plan is found exactly when one distinct plan line is depended on; malformed targets are skipped |
| `PlanClosure.Closure` | runtime/transition.go:939-981 | On any graph, cyclic or not, the search ends with exactly the lines reachable along depends-on and derives-from edges of highest instances, unresolved lines included |
| `AbsentLines.InClosureIff` | runtime/transition.go:939-981 | A line, in the store or not, is in the closure exactly when it is the plan or a stored line of the closure names it |
| `AbsentLines.AbsentLineBlocksIff` | runtime/transition.go:640-678 | When no stored line is shared, an activation is refused for a shared closure exactly when an active container of another repository leads to the same absent line |
| `AbsentLines.AbsentStoryBlocks` | runtime/transition.go:640-678 | A store in which two plans depend on one story that was never published, and the activation is refused |
| `AbsentLines.StoreIsPublished` | store/payloads.go:128-154 | That store is the result of publishing its four units |
| `AbsentLines.SharedDecisionBlocks` | runtime/transition.go:966-977 | The same store with derives-from edges to one unpublished decision: the activation is refused too |
| `PlanReading.EdgeIff` | runtime/transition.go:939-981 | The search goes from one line to another exactly when the highest instance of the first has a depends-on or a derives-from relationship whose target parses to the second |
| `PlanReading.PlanOfIff` | runtime/container.go:169-197 | A container has a plan exactly when its depends-on targets parse to one plan line and no other |
| `PlanReading.SharedTargetRefuses` | runtime/transition.go:640-678 | Whatever line the plans of two containers both name, published or not, keeps one from activation while the other is active in another repository |
| `Queries.HighestInstance` | runtime/transition.go:281-290 | The instance found is the one of highest version, or none exists |
| `Gates.OtherActiveContainers` | runtime/transition.go:888-924 | Exactly the lines other than the target's whose current instance in the project is active |
| `Gates.ActiveContainersForPlan` | runtime/transition.go:1031-1060 | Exactly the active containers whose single plan is the given line |
| `Gates.ClosuresDisjoint` | runtime/transition.go:640-678 | True exactly when both plans resolve and no line is reachable from both |
| `Gates.FindSuperseder` | runtime/transition.go:842-871 | Found exactly when another unit of the project names the instance, or its line, in a supersedes relationship |
| `Gates.PendingItems` | runtime/transition.go:1366-1403 | Reports pending work exactly when some work item a ticket registers with the container is neither done nor canceled |
| `Gates.IsRegistered` | runtime/transition.go:1325-1357 | True exactly when a ticket registers the work item with a container of which some instance is active |
| `Gates.NoteGate` | runtime/transition.go:1157-1292 | Allows in-review exactly with a resolved implementation note and done exactly when every current note is resolved |
| `Tickets.RegistersIff` | runtime/transition.go:1300-1318 | A ticket stands for a work item in a container exactly when these are its first stored derives-from targets of their kinds |
| `Tickets.RegisteredIff` | runtime/transition.go:1325-1357 | A work item counts as registered exactly when some ticket stands for it in a container of which an instance in the project is active |
| `Tickets.CompletionIff` | runtime/transition.go:719-736 | Completing an active container is refused for pending work exactly when a ticket of it stands for a work item whose current instance is neither done nor canceled, and otherwise publishes it completed |
| `Tickets.RunCompletesSettled` | runtime/transition.go:719-736 | Over every run, at the step that completes a container every work item its tickets stand for is done or canceled |
| `Decisions.NotesIff` | runtime/transition.go:1157-1292 | The notes let an item into in-review exactly with a resolved implementation note among the current ones or the drafts, and into done exactly when all of them are resolved |
| `Decisions.SupersederIff` | runtime/transition.go:842-871 | A replacement exists exactly when a supersedes target of another unit of the project parses to the instance or its line |
| `Lifecycle.TransitionWorkItem` | runtime/transition.go:328-381 | The decision on a work item: the D1 table, the note gate, the confirmation |
| `Lifecycle.TransitionPlan` | runtime/transition.go:482-537 | The decision on a plan: approval, the lock refusal, retirement gated on active containers |
| `Lifecycle.TransitionContent` | runtime/transition.go:755-818 | The decision on an artifact: the next value of its variant, an ADR superseded only with a replacement |
| `Lifecycle.LockPlanPuts` | runtime/container.go:62-160 | The batch of an activation: the container and its approved plan locked, or the container alone on a locked plan |
| `Lifecycle.ActivateContainer` | runtime/transition.go:607-712 | The decision on an activation: one active container per repository, disjoint closures, the plan's state |
| `Lifecycle.TransitionContainer` | runtime/transition.go:570-736 | The decision on a container: activation gated as above, completion on settled work |
| `Lifecycle.Transition` | runtime/transition.go:183-421 | A refused request leaves the store as it was; otherwise all puts of the decision land in one step |
| `Decisions.AddressedIff` | runtime/transition.go:183-227 | A request addresses a line exactly with an author, one way of saying where to go, and a plain reference of the own namespace to a type that has a lifecycle |
| `RefusalReading.TargetRefusals` | runtime/transition.go:183-227 | Each refusal of a request's author, flags and target has its own exact condition |
| `RefusalReading.WorkItemRefusals` | runtime/transition.go:328-352 | A work item has no step exactly from the states without one in that direction, and is refused by the table exactly on a named state outside it |
| `RefusalReading.ContainerRefusals` | runtime/transition.go:570-606 | A container is refused as terminal exactly forward from completed, as going back exactly to a state at or before its own |
| `RefusalReading.ContentRefusals` | runtime/transition.go:755-800 | An artifact is refused as terminal exactly at the last value of its list, as going back exactly to a value at or before its own |
| `Decisions.DecideIff` | runtime/transition.go:279-327 | What is decided is decided on the highest instance of that line, when it has a state |
| `Decisions.StepsByOne` | runtime/transition.go:430-451 | A step forward goes one up from planned to done, canceled aside, and a step back undoes one forward |
| `Decisions.WorkItemIff` | runtime/transition.go:328-381 | A work item is published with its new state and one more log entry exactly along the table, past the notes, and registered or confirmed |
| `Decisions.PlanIff` | runtime/transition.go:482-537 | A plan is approved exactly from draft, and superseded exactly from immutable with no active container on it as its only plan |
| `Decisions.ContentIff` | runtime/transition.go:755-818 | An artifact takes exactly the value behind its own in the list of its type, an ADR the last one only when another unit supersedes it |
| `Decisions.ActivationIff` | runtime/container.go:62-160 | A container is activated exactly when no other active one shares its repository or a line of its closure and its one plan is locked, or approved and locked with it |
| `Decisions.ContainerIff` | runtime/transition.go:570-736 | A container moves exactly by such an activation, or to completed from active without a ticket for an open work item |
| `WorkItemRuns.RunMovesPass` | runtime/transition.go:328-381 | At every step of every run, what changes the execution state of a work item is a transition along the table, into in-review with a resolved implementation note, into done with every note resolved, of an item registered in an active container or confirmed |
| `Relate.CheckRelateEdges` | runtime/relate.go:475-503 | The first edge that fails the check decides; none is reported exactly when all edges pass |
| `Relate.MergeRelationships` | runtime/relate.go:520-552 | The merged edges are the union in the one canonical order, and the added ones are the requested edges not present, once each |
| `Relate.CanonicalUnique` | runtime/relate.go:541-550 | A set of edges has exactly one canonical listing |
| `Relate.NewEdgesAre` | runtime/relate.go:532-540 | The added edges are exactly the requested ones not present, without repeats |
| `Relate.AddedInOrderIff` | runtime/relate.go:532-540 | The added edges ascend exactly when the request names its new edges, at their first mention, in ascending order |
| `Relate.AddedOutOfOrder` | runtime/relate.go:532-540 | A request of validates and then amends adds them in that order |
| `Relate.RelateIsIdempotent` | runtime/relate.go:308-313 | Relating the same edges again adds nothing |
| `Relate.RelatePublished` | runtime/relate.go:292-375 | The line's current instance is repointed with the merged edges exactly when the edges are clean, new and valid; otherwise nothing changes |
| `RelateReading.ProblemIff` | runtime/relate.go:475-503 | An edge passes exactly with a known field and a target that reads as a reference to something else than the artifact; each refusal has its own exact condition |
| `RelateReading.PublishedIs` | runtime/relate.go:304-372 | The published unit is the current one with the trimmed requested edges among its edges, in ascending order, and a new date; project and repository stay |
| `RelateReading.AddedEdgesAreFine` | runtime/relate.go:304-372 | No edge a relate adds reads as a reference to the unit's own instance |
| `RelateReading.RunGainsAreFine` | runtime/relate.go:292-375 | Over every run, a form gains edges only by relates, and none that reads as a reference to itself |
| `LifecycleRuns.NothingSwallowed` | runtime/transition.go:383-412 | In every reachable store no put of a transition is swallowed by the store's guard, plan lock included: each reference moves to its new payload |
| `LifecycleRuns.RelateExtends` | runtime/relate.go:315-364 | A relate publishes a payload with the same change log and strictly more edges, and is not swallowed |
| `LifecycleRuns.RunGrows` | runtime/transition.go:1100-1143 | Over every run of first publications, transitions and relates each archived change log extends its predecessor's and is a prefix of the form's current one |
| `LifecycleRuns.LogsOnlyGrow` | runtime/transition.go:1111-1114 | Between any two points of a run a form's current change log only grows |
| `ContainerInvariants.ActiveAfter` | runtime/transition.go:680-712 | A container active after a transition was active before and untouched, or is the one activated |
| `ContainerInvariants.ContainerPut` | runtime/transition.go:570-736 | A transition publishes no container but the addressed one, completed or activated |
| `ContainerInvariants.PlanPut` | runtime/container.go:62-160 | A transition publishes a plan only by approving it, by retiring it without active containers, or by locking it for the activated container |
| `ContainerInvariants.StepKeepsExclusive` | runtime/transition.go:607-678 | One transition keeps active containers in different repositories with disjoint closures |
| `ContainerInvariants.StepKeepsLocked` | runtime/transition.go:505-528 | One transition keeps the plan of every active container immutable |
| `ContainerInvariants.StepKeepsEarned` | runtime/container.go:110-158 | One transition keeps it that a plan is immutable or superseded only with an active or completed container on it |
| `ContainerInvariants.RetirementSeesIff` | runtime/transition.go:1046-1056 | The retirement gate sees an active container that depends on the plan exactly when that is its only plan |
| `ContainerInvariants.RunKeepsSafe` | runtime/transition.go:570-736 | The three invariants above hold over every run of transitions in a project and of relates, in any project, that add no depends-on or derives-from edge |
| `ContainerInvariants.FreshProjectStaysSafe` | runtime/transition.go:570-736 | They hold over every such run from a store with no active container and no locked or retired plan |
| `ChangeLogRules.Rule7` | conformance/rules.go:499-595 | The report is the exact list of findings, empty exactly on the units whose log is complete, well-formed and legal |
| `ChangeLogRules.EntriesForDomain` | conformance/rules.go:597-605 | The entries of one domain in their order |
| `ChangeLogRules.AdvanceKeepsLogSound` | runtime/transition.go:1100-1143 | A legal move keeps rule 7 and extends the walk of its domain to the new state |
| `ChangeLogRules.DecisionIsLegal` | conformance/state.go:216-255 | Whatever a transition publishes is a legal move of an owned domain, by a named author |
| `ChangeLogRules.RunKeepsLogs` | conformance/rules.go:499-595 | Over every run, every payload ever archived passes rule 7 and its entries form one legal walk per domain ending at the state |
| `RuleReading.ReportedIff` | conformance/rules.go:499-595 | A finding is in the report exactly when it applies to the log and the states; an illegal move exactly for an entry of a judged domain that leaves the tables |
| `RuleReading.OnlyTheSkipReported` | conformance/rules.go:584-592 | A done story whose log goes from planned to done in one step: that entry is all that is reported |
| `RuleReading.SoundMoves` | conformance/rules.go:584-592 | In a sound log every entry of a judged domain starts at the marker or makes a move of the tables |
| `RuleReading.RunReadsSound` | conformance/rules.go:499-595 | Over every run, nothing applies to any payload ever archived, and each domain reads on from entry to entry |
| `Taxonomy.LegalIff` | conformance/state.go:216-255 | The moves the code allows are those of the tables written out domain by domain |
| `Taxonomy.OwnedIff` | conformance/state.go:92-122 | Which types own which state domain |
| `Taxonomy.ValuesIff` | conformance/state.go:160-205 | Which values each domain has, by type |
| `BatchOrder.BatchTopoOrder` | runtime/batch.go:396-447 | Succeeds exactly on acyclic batches, with the lexicographically least order that puts every draft after its dependencies; otherwise reports exactly the drafts that reach a cycle, and each title as often as they bear it |
| `BatchOrder.GreedyIsLeast` | runtime/batch.go:415-427 | Taking the least ready draft at each step is least among all topological orders |
| `CommitOrder.Order` | exchange/integrate.go:515-580 | Terminates on any relationship graph and writes every new unit exactly once, in the order of the rounds |
| `CommitOrder.RoundsEmitEachOnce` | exchange/integrate.go:545-578 | The rounds emit every form exactly once |
| `CommitOrder.TargetsFirstUnlessCyclic` | exchange/integrate.go:545-578 | A unit comes before one of its targets only if it reaches a cycle |
| `CommitOrder.AcyclicRoundsAreTopological` | exchange/integrate.go:545-578 | Without cycles every unit follows its targets |
| `CommitOrder.EmittingKeepsCounters` | exchange/integrate.go:560-577 | Decrementing the referrers of an emitted round keeps the counters right, entries left after a cycle break included |
| `CommitReading.RoundsIff` | exchange/integrate.go:515-580 | The write order is the one listing of all forms that falls into rounds: exactly the forms with no unwritten target, ascending, or the least of all when every one has an unwritten target |
| `Graphs.StuckReachesCycle` | runtime/batch.go:428-444 | In a set where every node has a successor in the set, every node reaches a cycle |
| `RepoWriter.Writer.EnsureDir` | exchange/integrate.go:639-669 | Stopped at any step, the directories it created are journaled and nothing else changed |
| `RepoWriter.Writer.Write` | exchange/integrate.go:612-635 | Stopped at any step, the journal still undoes to the initial tree; on success exactly the file and its chain are added |
| `RepoWriter.Writer.Rollback` | exchange/integrate.go:679-702 | Reports no failure and restores the exact initial tree |
| `RepoWriter.DirRemovable` | exchange/integrate.go:685-701 | With the longest path first every created directory is empty when it is removed |
| `RepoWriter.Writer.Commit` | exchange/import.go:213-233 | Either the plan is applied, exactly, or the tree is as it was; without a fault, with nothing in the way of a target, it is applied exactly when the result validates |
| `Capture.DistanceIsLeastEdits` | runtime/capture.go:223-257 | The recursive distance is the least number of single-character edits that turn one string into the other |
| `Capture.DistanceBounds` | runtime/capture.go:223-257 | It lies between the difference of the lengths and the longer length |
| `Capture.DistanceSymmetric` | runtime/capture.go:223-257 | It is symmetric |
| `Capture.DistanceZero` | runtime/capture.go:223-257 | It is zero only on equal strings |
| `Capture.Triangle` | runtime/capture.go:223-257 | It satisfies the triangle inequality |
| `Capture.TwoRows` | runtime/capture.go:232-256 | The two-row loop computes the recursive distance |
| `Capture.LevenshteinRatio` | runtime/capture.go:223-257 | The ratio is one minus the distance over the longer length, and one on two empty strings |
| `Capture.RatioLaws` | runtime/capture.go:223-257 | The ratio lies in [0, 1], is symmetric, and is one exactly on equal strings |
| `Titles.NormalizedIsWords` | runtime/capture.go:106-111 | The normalized title is the title's words with one space between them |
| `Titles.SameKeyIff` | runtime/capture.go:106-118 | Two titles normalize alike, and so share their deduplication key, exactly when they have the same words in the same order |
| `Capture.Similarity` | runtime/capture.go:174-214 | The overlap of the word sets of the normalized titles, or the edit ratio where that is larger and one title has at most two words; one on equal titles, zero against an empty one |
| `Capture.SimilarityLaws` | runtime/capture.go:174-214 | The similarity lies in [0, 1] and is symmetric |
| `Capture.FullySimilarIff` | runtime/capture.go:174-214 | It is one exactly on titles with the same set of words |
| `Capture.IsSimilar` | runtime/capture.go:218-220 | True exactly at the threshold and above |
| `SimilarityReading.WordsAreRuns` | runtime/capture.go:106-111 | The words of a title are the longest runs of letters a to z and digits in its lower-case form |
| `SimilarityReading.SimilarityIs` | runtime/capture.go:174-214 | The similarity is one on equal words, zero against none, else the shared words over all of them, or one minus the edits over the longer length where that is more and one title has at most two words |
| `SimilarityReading.ColorIsColour` | runtime/capture.go:174-220 | Titles of the one word color and colour are above the threshold |
| `Taxonomy.TokenTable` | conformance/state.go:92-122 | A spelling names exactly one type token |
| `References.CanonicalRoundTrip` | exchange/deserialize.go:567-585 | The parser returns an identity exactly on the printed form of a printable identity |
| `References.CanonicalFormInjective` | exchange/model.go:298-300 | Distinct printable identities print differently |
| `References.UnitDirSharedIff` | exchange/serialize.go:79-81 | Exactly when two tuples share an entry directory |
| `References.UnitDirHyphenAmbiguous` | exchange/serialize.go:79-81 | Two tuples with a hyphen in a type string that share a directory |
| `References.UnitDirInjective` | exchange/serialize.go:79-81 | For known types the directory determines the identity |
| `References.Load` | exchange/load.go:107-138 | Refuses exactly when an identity component fails the charset guard or a content does not compile; otherwise every line is indexed by ascending version |
| `References.ResolvesVersioned` | exchange/load.go:281-295 | A versioned reference resolves to exactly that instance |
| `References.ResolvesLine` | exchange/load.go:281-295 | A line reference resolves to an instance exactly when it is the lowest of its line |
| `References.RepoTextParses` | conformance/rules.go:213-260 | The repository spelling of a target parses, in the source namespace, to what it means |
| `References.RepoReferenceResolves` | exchange/integrate.go:314-331 | A target has a repository spelling exactly inside its own namespace or at version 1, and then parsing and resolving it gives back exactly that instance |
| `ReferenceReading.ReferenceIff` | conformance/rules.go:213-260 | A text parses to a reference exactly when, trimmed, it spells the namespace or has the referrer's, spells the type or has the referrer's, then the ID, then perhaps a version |
| `ReferenceReading.ComponentIff` | exchange/load.go:146-175 | The charset guard passes exactly non-empty components without separators, white space, two dots in a row or a dot at an end |
| `RsfModel.ByKeyHolds` | exchange/deserialize.go:339-342 | A table of records with distinct keys holds each of them, and no more |
| `RsfAssemble.Assemble` | exchange/serialize.go:85-242 | The files are the entry set of the package in name order, with the digest taken over everything but manifest and integrity block |
| `RsfAssemble.RecordDigests` | exchange/serialize.go:217-224 | The unit digests are recorded once per form, in form order |
| `RsfLoad.MatchManifest` | exchange/deserialize.go:137-166 | Passes exactly when no form repeats and the manifest names every unit directory exactly once and no other |
| `RsfLoad.ReadUnits` | exchange/deserialize.go:167-195 | The unit of each manifest entry, or a refusal as soon as one is missing, malformed or inconsistent |
| `RsfLoad.ComputePackageDigest` | exchange/deserialize.go:308-317 | The digest the loader recomputes is over exactly the entries the assembler digested, in the same order |
| `RsfLoad.Verify` | exchange/deserialize.go:308-435 | Passes exactly when package, unit and attachment digests and all echoes agree |
| `RsfLoad.LoadPackage` | exchange/deserialize.go:59-228 | Accepts exactly the entry sets that meet every check, and returns what they hold |
| `RsfRoundTrip.ManifestInOrder` | exchange/serialize.go:117-121 | The manifest lists the units in canonical order |
| `RsfRoundTrip.DigestCoversContent` | exchange/deserialize.go:308-317 | Both sides digest the same entries |
| `RsfRoundTrip.TableReadBack` | exchange/deserialize.go:339-342 | The recorded unit digests read back as recorded |
| `RsfRoundTrip.RoundTrip` | exchange/deserialize.go:59-228 | Every well-formed package is accepted after assembly, with its own header, units, attachments and declarations |
| `RsfRoundTrip.RoundTripUnique` | exchange/deserialize.go:59-228 | And with nothing else: the loaded package is determined, and units or attachments already in order come back as they were |
| `RsfRoundTrip.AssembleAndLoad` | exchange/serialize.go:85-242 | Assembling, reading the files back and loading returns the package |
| `RsfIntegrity.AllRecordedIff` | exchange/deserialize.go:338-368 | In an accepted package every unit's recorded digest is right exactly when the records name the units |
| `RsfIntegrity.RecordsAcceptedIff` | exchange/deserialize.go:338-368 | An assembled package with other unit records is accepted exactly when they have as many keys as there are units and every record under a unit's form carries that unit's digest |
| `RsfIntegrity.OtherRecordsAccepted` | exchange/deserialize.go:338-368 | In particular records that name no unit, in the right number, are accepted |
| `RsfIntegrity.IntegrityPinsUnit` | exchange/deserialize.go:338-368 | Two accepted packages with the same integrity block hold the same bytes under the same form |
| `RsfIntegrity.IntegrityPinsAttachments` | exchange/deserialize.go:373-393 | Two accepted packages with the same attachment records hold the same attachments |
| `RsfReading.LoadsIff` | exchange/deserialize.go:59-435 | The loader returns a package exactly when the entry names, the bytes and the decoded blocks fit together: one manifest entry per unit directory, units that agree with it, every recorded digest the hash of the bytes it stands for, equal echoes |
| `RsfReading.AcceptedDigest` | exchange/deserialize.go:308-327 | In an accepted package the recorded digest is the hash of all entries other than manifest and integrity block, in name order |
| `RsfReading.TamperedIsRefused` | exchange/deserialize.go:308-327 | Exchanging the bytes of any one of these entries of an accepted package, header and declarations included, makes it refused |
| `RsfReading.ManifestLists` | exchange/serialize.go:95-121 | The manifest has one entry per unit, with the unit's own form, fields, content file and digest, and no other |
| `RsfReading.PackageComesBack` | exchange/serialize.go:85-242 | A well-formed package comes back with its label, scope, namespace, seeds, externals, counts, units and attachments |
| `Snapshot.SnapshotFingerprint` | exchange/snapshot.go:258-279 | The digest is over the source entries in name order, whatever the order of the map |
| `Snapshot.FingerprintDeterminesSource` | exchange/snapshot.go:258-279 | Without zero bytes the hashed bytes determine the source entries, and the reverse |
| `Snapshot.AggregatesDoNotCount` | exchange/snapshot.go:283-289 | Adding or removing aggregates changes nothing |
| `Snapshot.DeterminedIffNulFree` | exchange/snapshot.go:258-279 | For names without zero bytes, the hashed bytes single out the entry set among those of its size exactly when no content holds a zero byte |
| `SnapshotSource.EmitSource` | exchange/snapshot.go:232-251 | The emitted files are the assembled entries without the aggregates, in name order, with their fingerprint |
| `SnapshotSource.LoadSnapshotSource` | exchange/snapshot.go:116-224 | Accepts exactly the entry sets that meet every check, and returns what they hold |
| `SnapshotReading.LoadsSourceIff` | exchange/snapshot.go:116-224 | The loader returns a snapshot exactly when names, bytes and blocks fit: a current header with label and scope, every part of a unit in a directory whose block names that directory, no form twice, attachments by ascending ID, and the digest over the named and closed source entries |
| `SnapshotSource.SourceRoundTripIff` | exchange/snapshot.go:116-251 | What was emitted loads back, with its own units and attachments, exactly when no attachment is named like a part of a unit |
| `SnapshotSource.DocumentNamedContent` | exchange/snapshot.go:140-158 | A package with an attachment `docs/content` emits source entries that are refused |
| `SnapshotSource.UnknownEntryIff` | exchange/snapshot.go:145-158 | An entry outside units, attachments and header changes no verdict, whatever it holds, unless it is named like a part of a unit; then the snapshot is refused |
| `SnapshotSource.UnknownUnitEntryRefused` | exchange/snapshot.go:154-157 | An entry under units that is no part of a unit is refused |
| `SnapshotOrder.SwappedIff` | exchange/serialize.go:79-81 | Directory and form order two well-formed identities differently exactly when one ID continues the other, in the same namespace and type, with a character between hyphen and colon, or with a hyphen behind which the directories still differ |
| `SnapshotOrder.LoadedInFormOrderIff` | exchange/snapshot.go:159-166 | The units of any snapshot that loads are in form order exactly when no identity in it overtakes another |
| `SnapshotOrder.EmittedInFormOrderIff` | exchange/snapshot.go:232-251 | An emitted snapshot loads in one way, and in form order exactly when no identity of the package overtakes another |
| `SnapshotOrder.HoldingBothIsOutOfOrder` | exchange/snapshot.go:159-166 | Every package that holds the stories a and a0 comes back out of form order |
| `SnapshotOrder.DirectoryOrderIsNotFormOrder` | exchange/snapshot.go:159-166 | A package of these two stories is emitted, loads, and comes back out of form order |

## Left out

- SQL text, busy codes, timestamps and index columns that no decision reads; `git config`, the walk-up to `eka.yaml`, the
  ZIP container and its entry-name guard.
- Texts of refusals and errors, and which of several applicable package errors is reported first.
- Publishing new instances of a line, sync pulls and relates that add a dependency in the container and plan
  invariants: an active container that gains a second plan edge becomes ambiguous and is skipped by the retirement gate
  (`ContainerInvariants.RetirementSeesIff`).
- Sync and import puts in the growth of change logs: a pulled payload may be older than the current one, which is what
  the guard is for.
- The draft path of relate, the directory scan for draft notes, the schema of note contents.
- Packages in legacy key spellings beyond what the readers of `RsfModel.Codec` do with them.
- The lookup maps by form and by attachment ID that the loader builds beside its lists.
- `RsfLoad.LoadPackage`: an integer in a block is unbounded, where the JSON reader refuses what exceeds the machine's.
- `Capture.Similarity`: lower-casing is a parameter, and numbers are reals instead of floating point.
- `RepoWriter.Writer.Rollback`: a removal fails on a missing path or a directory that is not empty, not for other reasons of
  the operating system.
- `RepoWriter.Writer.Write`: the temporary name is assumed to differ from the target's own, as its prefix and suffix see to.
- `References.Load`: parsing files and frontmatter, and attachments; whether a content compiles is a parameter.
- `JsonText.ConcatenationSeparates`: which object a unit is written as, field by field; the number format beyond its
  characters; the replacement of invalid UTF-8.
- Strings are sequences of characters: UTF-8 encoding and case folding are not modelled.
- Author kinds given as text, and the resolution of the author from flags.
- The Markdown adapter, rules other than rule 7, note content schemas, templates, view and status services.
