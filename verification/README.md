# Mailmap decision pipeline in Dafny

A model of how Mailmap decides about a mailbox, from the indexed records to a
cleanup plan, with proofs that every stage keeps what the next one relies on.

1. **Inventory** (`Cursor`, `RemoteCalls`, `InventoryModel`, `FullScan`,
   `PartialScan`, `ScanLog`, `GmailInventory`, `FullScanRuns`,
   `PartialScanRuns`). Full and partial scans over linked pages, with retries,
   pauses, cancellations and failures at every interaction, resumed from one
   stored checkpoint.
2. **Classification** (`ClassificationModel`, `ClassificationTheorems`,
   `Classifier`). Records are grouped into sources and sources into flows;
   `ClassificationMeaning` tells from the records which messages come together
   and how sure the classifier is.
3. **Local policies** (`PolicyModel` to `PolicyResult`). Active decisions are
   bound, conflicts are marked, merges and partitions are folded over the
   sources, flows are rebuilt, corrections and protections are applied, and
   whole conversations are closed. `AnchorStatus`, `PartitionMeaning` and
   `BindingMeaning` tell when a decision still applies, `CorrectedValues`,
   `ProtectionMeaning`, `ReportMeaning` and `GroupMeaning` what is reported of
   every message, flow and source. `PolicyPrepare`, `PreparePrediction`,
   `StructuralPrediction` and `PrepareAgain` cover the preparation of new
   decisions, `PrepareAccepts` tells which are accepted, and
   `StructuralEffects` and `StructuralMarks` what a new merge or partition does
   to the decisions around it.
4. **Map** (`Sums`, `MapComposition`, `MapEngine`). Counters of flows, sources,
   months and summary.
5. **Cleanup plans** (`Sorting`, `CleanupScope`, `CleanupLedger`,
   `CleanupSteps`, `CleanupRuns`, `CleanupCreation`, `CleanupReasons`,
   `CleanupEngine`). An append-only ledger of events and removals.

`Pipeline` joins the stages: any normalised records and any valid policies make
a composition on which the map and the plans cannot meet their internal errors.

## How to read it

Each stage has one specification that knows no order: sources, flows, bindings
and protections are maps and sets, and what a policy does is a function of which
policies apply. The program's loops and in-place updates are methods, in the
classes `EffectiveView`, `Book`, `Outside` and `Inventory` and in the `...Engine`
modules; they take the items in an arbitrary order and are proved equal to that
specification, so independence of order is part of every such contract.

What the specification functions decide is also stated without them, told from
records, labels, addresses, dates and decisions: in the `...Meaning` modules,
`AnchorStatus`, `PrepareAccepts`, `CorrectedValues` and `CleanupReasons`.

Modelling choices:

- Identifiers that the program derives with SHA-256 are the values that are
  hashed (`SourceId`, `FlowId`, `SourceSelector`, `FlowSelector`), so they are
  equal exactly when those are. The local identifiers that order plan members
  are an arbitrary injective function, a parameter of the methods that use it.
- Opaque identifiers are integers: only equality and order are used. Canonical
  tuples, sorted and without duplicates, are sets.
- Control flags, clock, jitter, transport answers and writes are a list of
  events, one for each interaction; when it runs out nothing interrupts.
- Tokens are their UTF-8 bytes. Instants are microseconds.

## What turned out to need a condition

Each of these properties fails on some input. The input is a concrete lemma or
run, and the exact condition is proved for all inputs.

- **Clock.** Revalidation and cancellation build the new plan through the same
  checks as the old one, so they fail after all their own checks exactly when
  the clock is before the last event (`CleanupSteps.AppendedValid`;
  `CleanupExamples.ClockWentBack`). With a clock that never goes back they never
  do.
- **Full scan, interrupted while reading the labels.** A pause or a resumable
  failure there is written with the start cursor and without a history point
  (`gmail_inventory.py:657-661`, `gmail_inventory.py:753-766`). A resumed scan
  still counts every page once, but it has lost its history point; when it
  happens before the index was ever emptied, messages that a full scan would not
  list survive. Whether a stop at the labels is written down is told from the
  events alone (`RemoteCalls.WrittenAtLabels`), and
  `FullScanRuns.ResumedScanIsComplete` states both conditions
  (`ScanExamples.PausedAtLabelsKeepsStale`).
- **Partial scan, interrupted while reading the labels.** The checkpoint written
  there has no history point, and every later partial scan, of whatever
  identifier, is refused (`PartialScanRuns.AllOnPartialTrack`;
  `ScanExamples.PausedAtLabelsBlocks`).
- **Partial scan over a message that came and went.** A message added on one
  page and deleted only on a later one cannot be read any more, so the scan
  fails on the first page each time. Left alone, a partial scan completes
  exactly when every page's changed and not deleted messages can be read
  (`PartialScan.HistoryCourse`; `ScanExamples.CameAndWent`).
- **A broken clock while reporting a pause** escapes the scan instead of being
  reported (`gmail_inventory.py:588-593`); the model returns `ScanRaised`,
  exactly when the stop is a pause and the next event a broken clock
  (`Inventory.PausedResult`, `Inventory.ScanFull`, `Inventory.ScanPartial`;
  `ScanExamples.PauseWithBrokenClockRaises`).
- **A new structural decision.** A merge or partition may take away what an
  active correction or protection targets
  (`PolicyExamples.MergeTakesProtected`). Whose binding stays is told from the
  policies before: `StructuralMarks.AcceptedDisturbsExactly`.
- **A stale name.** A correction stays exact only while the very decisions it
  observed stand behind its target. When an accepted repetition of a merge
  replaces it, nothing that is visible of the merged source changes, and its
  name still waits for a review (`StaleExamples.ReplacedMergeLeavesNameBehind`).
  When an old anchor applies is told by `AnchorStatus.SourceAnchorStatus` and
  `AnchorStatus.FlowStatus`.
- **Mixed conversations.** A new protection may take the mixed mark off a
  conversation, exactly when every message of it now has a reason
  (`Protection.MarkVanishesWhenComplete`; `Protection.MarkVanishes`);
  protection, hard exclusion and category never get weaker.

One name is misleading:

- **`keep_latest_per_flow`.** The plan keeps the newest messages of each flow
  selected for cleanup and excludes the older ones with the reason `keep_latest`
  (`cleanup_plan_domain.py:657`, `cleanup_plan_domain.py:803-804`). The name and
  the older service suggest the opposite; the model does what this code does.

## Model

The results come first, then the inputs on which a property fails. The rows
without a mark are the operations and steps the results are built from.

| member | source | states |
|---|---|---|
| PolicyEngine.EffectiveView.ApplyStructural | src/mailmap/policy_domain.py:1674-1688 | **Result:** folding the surviving merges and partitions never meets a missing target, splits the records after every step and reaches the same table in every order |
| StructuralSafety.TableSplitsMessages | src/mailmap/policy_domain.py:871-947 | **Result:** after any part of the surviving policies the sources split the classified messages into disjoint, non-empty parts that cover them |
| EffectiveFlows.FlowsAreIntersections | src/mailmap/policy_domain.py:360-405 | **Result:** an effective flow exists exactly for each non-empty intersection of an automatic flow and an effective source, and holds it |
| EffectiveFlows.FlowsSplitMessages | src/mailmap/policy_domain.py:350-420 | **Result:** every message is in exactly one effective flow, which lies in its effective source |
| EffectiveFlows.FlowConfidenceConservative | src/mailmap/policy_domain.py:387-391 | **Result:** cutting a flow never makes its confidence better than the flow's own or its worst member's |
| CorrectionSteps.SurvivorsDoNotCompete | src/mailmap/policy_domain.py:1147-1219 | **Result:** over all bindings, no field of any target has two surviving writers |
| PolicyEngine.EffectiveView.ApplyPlain | src/mailmap/policy_domain.py:1702-1710 | **Result:** applying the surviving corrections and protections never fails, and names, rubros, intentions and marks do not depend on the order |
| BindingReach.BindingsReach | src/mailmap/policy_domain.py:702-752 | **Result:** no binding, whatever its status, reaches a message outside the snapshot |
| Protection.MarkVanishesWhenComplete | src/mailmap/policy_domain.py:1286-1287 | **Result:** more reasons take the mixed mark off a conversation exactly when it was mixed and every message of it now has a reason |
| ProtectionTheorems.ConversationClosed | src/mailmap/policy_domain.py:1299-1382 | **Result:** every thread is entirely protected or entirely unprotected, a message is protected exactly when its thread had a reason, and the closure is idempotent |
| ProtectionTheorems.AutomaticSurvives | src/mailmap/policy_domain.py:1317-1319 | **Result:** automatic reasons and categories survive in the effective ones |
| ProtectionTheorems.AddingProtectionNeverWeakens | src/mailmap/policy_domain.py:1299-1382 | **Result:** a new protection never unprotects a message, lifts a hard exclusion or lowers a category |
| ProtectionTheorems.ReviewHasReason | src/mailmap/policy_domain.py:1364-1380 | **Result:** a required review or a hard exclusion always comes with a reason |
| PolicyRun.ApplyLocalPolicies | src/mailmap/policy_domain.py:1660-1750 | **Result:** the whole application never fails on accepted input and its sources, flows, bindings, reasons and reviews do not depend on the order of the policies |
| PolicyResult.JoinedDominates | src/mailmap/policy_domain.py:1470-1514 | **Result:** an aggregate category ranks at least as high as every member's automatic and effective category, and its flags are those of some member |
| PolicyResult.OutcomeIsValid | src/mailmap/policy_model.py:1513-1591 | **Result:** no check of the result constructors on references, completeness, counts or protection can fail |
| StructuralPrediction.PreparePredictsApply | src/mailmap/policy_domain.py:2015-2203 | **Result:** an accepted decision binds exactly once it is active, or is rebound when it targets a flow inside a merged source; it is never in conflict, in review, ambiguous or orphaned |
| StructuralMarks.AcceptedDisturbsExactly | src/mailmap/policy_domain.py:1979-2012 | **Result:** exactly which bindings an accepted decision leaves as they were: all, except corrections and protections that reach a message a merge or partition takes, and corrections whose conflict it settles or starts |
| PrepareAgain.PreparedAgain | src/mailmap/policy_domain.py:2015-2203 | **Result:** a structural decision or correction conflicts with its own repetition, a protection is accepted again with the same anchors, and any decision may be replaced by its repetition |
| Sorting.NewestFirstUnique | src/mailmap/cleanup_plan_domain.py:652-656 | **Result:** two lists of the same items that are newest first, then by identifier, are equal, so two stable sorts equal one lexicographic sort |
| CleanupScope.CleanMeans | src/mailmap/cleanup_plan_domain.py:604-659 | **Result:** a message is clean exactly when every source and flow of the plan's targets exists, its source, flow or sender is a target, it is unprotected, was received within both bounds of the window, is unread or read as asked, has no excluded label, and fewer than the quota of those of its flow are newer |
| CleanupScope.QuotaKeepsNewest | src/mailmap/cleanup_plan_domain.py:630-659 | **Result:** with a quota each flow keeps exactly the smaller of the quota and its number of candidates |
| CleanupEngine.CreatePlan | src/mailmap/cleanup_plan_domain.py:762-877 | **Result:** creation fails exactly on its listed checks, in their order, and otherwise gives a valid plan whose eligible messages are exactly the clean ones, with every member's reasons, dates, size and samples told from the composition |
| CleanupEngine.RevalidatePlan | src/mailmap/cleanup_plan_domain.py:917-1036 | **Result:** revalidation fails exactly on its listed checks, and then exactly when the clock went back; otherwise it keeps exactly the eligible messages that are clean, and records of each removal every reason |
| CleanupCreation.CreationIsValid | src/mailmap/cleanup_plan_model.py:1036-1204 | **Result:** a created plan passes every check of the ledger and is frozen exactly when something is selected |
| CleanupLedger.AggregateNeverTooLarge | src/mailmap/cleanup_plan_domain.py:743-759 | **Result:** with the per-message and member limits no aggregate exceeds 214,748,364,700,000 bytes, and eligible plus removed bytes are the selected ones |
| CleanupLedger.SelectionConserved | src/mailmap/cleanup_plan_model.py:1109-1188 | **Result:** in every valid plan the selected messages are the eligible ones plus all those the events removed |
| CleanupLedger.StateMeansRemovals | src/mailmap/cleanup_plan_model.py:1181-1188 | **Result:** unless cancelled, a plan is frozen, reduced or invalidated exactly as none, some or all of its members were removed |
| CleanupSteps.AppendedValid | src/mailmap/cleanup_plan_model.py:1126-1150 | **Result:** a fitting event and its removals keep every check of the ledger exactly when the clock is not before the last event |
| CleanupSteps.RevalidationKeepsClean | src/mailmap/cleanup_plan_domain.py:917-1036 | **Result:** a revalidation that passes its checks is persisted exactly when the clock did not go back, and keeps eligible and clean messages |
| CleanupSteps.CancellationKeepsLedger | src/mailmap/cleanup_plan_domain.py:1039-1077 | **Result:** a cancellation that passes its checks is persisted exactly when the clock did not go back, and keeps the preview |
| CleanupRuns.TerminalIsFinal | src/mailmap/cleanup_plan_domain.py:931-935 | **Result:** a cancelled or invalidated plan refuses every step and stays as it is |
| CleanupRuns.RunKeepsLedger | src/mailmap/cleanup_plan_model.py:1036-1204 | **Result:** under a clock that never goes back every run keeps the whole ledger |
| CleanupRuns.NoStepRejected | src/mailmap/cleanup_plan_domain.py:1014-1018 | **Result:** in such a run the ledger checks never refuse a step |
| CleanupRuns.RunConserves | src/mailmap/cleanup_plan_model.py:1227-1264 | **Result:** messages and bytes are conserved over every run |
| CleanupRuns.ClosedForm | src/mailmap/cleanup_plan_domain.py:937-1021 | **Result:** after a run the eligible messages are those every applied composition is clean of |
| CleanupRuns.OrderDoesNotMatter | src/mailmap/cleanup_plan_domain.py:937-1021 | **Result:** two runs that applied the same compositions leave the same messages |
| CleanupRuns.RepeatingRemovesNothing | src/mailmap/cleanup_plan_domain.py:986-996 | **Result:** a composition applied before, or the one that selected the members, removes nothing more |
| CleanupRuns.EmptiedMeansInvalidated | src/mailmap/cleanup_plan_domain.py:993-996 | **Result:** a run that leaves nothing ends invalidated |
| Cursor.CursorRoundTrip | src/mailmap/gmail_inventory.py:276-298 | **Result:** a cursor of any stripped token, or of none, is read back, and the sentinel is never an encoded token |
| Cursor.FullCursorRoundTrip | src/mailmap/gmail_inventory.py:301-310 | **Result:** the phase and token of a full scan are read back from its cursor |
| RemoteCalls.Outside.Remote | src/mailmap/gmail_inventory.py:459-481 | **Result:** at most five attempts and four waits; giving up takes five retryable failures, and only history calls find their history expired |
| GmailInventory.Inventory.ScanFull | src/mailmap/gmail_inventory.py:622-766 | **Result:** what is stored and what happens outside decide the kind of an attempt, the page it gets to, its outcome and every checkpoint it writes; it raises exactly when a pause meets a broken clock; left alone, it completes |
| FullScanRuns.ResumedScanIsComplete | src/mailmap/gmail_inventory.py:622-766 | **Result:** a resumed scan that completes counted every page once; its index is the full one exactly when an attempt emptied it or it held only listed messages, and its history point is kept exactly when no stop at the labels was written down |
| FullScanRuns.CheckpointsAreExact | src/mailmap/gmail_inventory.py:683-747 | **Result:** while no stop at the labels is written down, every checkpoint any attempt writes comes with exactly the pages before its cursor |
| PartialScan.CompletedPartialIsFull | src/mailmap/gmail_inventory.py:849-937 | **Result:** a completed partial scan over the full index of the old mailbox leaves the full index of the new one and only then moves the history point |
| PartialScan.HistoryCourse | src/mailmap/gmail_inventory.py:849-937 | **Result:** left alone, the remaining pages complete exactly when every changed message can still be read |
| GmailInventory.Inventory.ScanPartial | src/mailmap/gmail_inventory.py:768-951 | **Result:** what is stored and what happens outside decide what an attempt does and reports; a checkpoint without a history point blocks every later attempt, one that asks for a full scan stays, and only an attempt that can start or resume completes |
| PartialScanRuns.ResumedPartialIsFull | src/mailmap/gmail_inventory.py:768-951 | **Result:** however often interrupted, a partial scan that completes leaves the full index of the new mailbox, and no stop at the labels was written down |
| PartialScanRuns.AllOnPartialTrack | src/mailmap/gmail_inventory.py:768-951 | **Result:** the store is blocked exactly when a stop at the labels was written down |
| PartialScanRuns.PartialCheckpointsAreExact | src/mailmap/gmail_inventory.py:849-937 | **Result:** every checkpoint written before that holds exactly the changes of the pages before its cursor |
| Classifier.OrderedEvidence | src/mailmap/classification_domain.py:218-233 | **Result:** lists, in the order of the codes, exactly the best evidence of each code |
| Classifier.EvidenceOrderDoesNotMatter | src/mailmap/classification_domain.py:218-233 | **Result:** equal sets of evidence give equal lists, whatever the order and the repetitions |
| Classifier.OneIntention | src/mailmap/classification_domain.py:1242-1244 | **Result:** all members of a flow share one intention, so the intention consistency error cannot occur |
| ClassificationTheorems.ClassifiedIsValid | src/mailmap/classification_model.py:495-594 | **Result:** for any normalised records the result passes every check of its constructor |
| Classifier.OrderDoesNotMatter | src/mailmap/classification_domain.py:398-400 | **Result:** two lists of the same records give the same classification |
| Classifier.Classify | src/mailmap/classification_domain.py:1385-1411 | **Result:** classification fails exactly on a repeated message and is otherwise valid |
| MapEngine.Compose | src/mailmap/map_composition.py:841-948 | **Result:** composition never fails on a coherent input, and all its counters, dates and months are those of the members and agree |
| MapComposition.ProjectionConserves | src/mailmap/map_model.py:908-954 | **Result:** none of the sum checks of the map can fail |
| Pipeline.PipelineIsCoherent | src/mailmap/cleanup_plan_domain.py:157-229 | **Result:** classified records and valid policies always make a coherent composition in which every sender is known |
| AnchorStatus.SourceAnchorStatus | src/mailmap/policy_domain.py:1007-1040 | **Result:** an old anchor on an effective source applies exactly when the source is in the view, was created by the very decisions observed, and is the one observed; it is exact exactly when it also observed its automatic sources and flows; otherwise it needs a review |
| AnchorStatus.MissingSourceStatus | src/mailmap/policy_domain.py:1018-1040 | **Result:** when its source is not in the view, an anchor is orphaned, ambiguous or in need of a review as none, several or one of the sources are related to it and the decisions behind them are those observed |
| AnchorStatus.FlowStatus | src/mailmap/policy_domain.py:1041-1045 | **Result:** the same for an anchor on an effective flow |
| AnchorStatus.MissingFlowStatus | src/mailmap/policy_domain.py:1046-1085 | **Result:** the same for a flow that is not in the view, with the flows near it or, failing these, those of an akin source |
| AnchorStatus.DirectStatus | src/mailmap/policy_domain.py:1086-1111 | **Result:** a protection of a message, a sender or a label reaches exactly the messages told from the records, and is exact exactly when there is one |
| AnchorStatus.MergeStatus | src/mailmap/policy_domain.py:755-768 | **Result:** before conflicts, a merge applies exactly when every participant is there, observed and without a decision behind it, and is exact exactly when each observed all of its source |
| AnchorStatus.PartitionStatus | src/mailmap/policy_domain.py:769-828 | **Result:** before conflicts, a partition applies exactly when its source holds and its groups fit it, and is exact exactly when every anchor observed all it names |
| AnchorStatus.StructuralConflictExactly | src/mailmap/policy_domain.py:843-868 | **Result:** a merge or partition is in conflict exactly when another names an akin source or reaches a common message, and otherwise keeps its status |
| BindingMeaning.BindingReports | src/mailmap/policy_domain.py:545-592 | **Result:** every binding, whatever its status, reports exactly the automatic flows of the messages it reaches, and exactly their sources unless it targets a flow |
| BindingMeaning.BindingNames | src/mailmap/policy_domain.py:545-592 | **Result:** every correction and protection, whatever its status, names exactly the effective sources or flows in which its messages lie, and the decisions behind these |
| PrepareAccepts.CorrectionAccepted | src/mailmap/policy_domain.py:1979-2012 | **Result:** a correction is accepted exactly when all it replaces are corrections of its field on an equal or akin target, its target is in the view of the remaining policies, and no remaining correction of the field reaches a message of the target; each other case has its error |
| PrepareAccepts.ProtectionAccepted | src/mailmap/policy_domain.py:2015-2062 | **Result:** a protection is accepted exactly when all it replaces protect the same target and its target is there; each other case has its error |
| PrepareAccepts.MergeAccepted | src/mailmap/policy_domain.py:2064-2085 | **Result:** a merge is accepted exactly when all it replaces name akin sources, every source it names is in the view of the remaining policies, and no remaining merge or partition names an akin source or reaches their messages; each other case has its error |
| PrepareAccepts.PartitionAccepted | src/mailmap/policy_domain.py:2086-2137 | **Result:** a partition is accepted exactly under the same conditions when its groups also fit its source; each other case has its error |
| ProtectionMeaning.ProtectedExactly | src/mailmap/policy_domain.py:1299-1382 | **Result:** a message is protected exactly when some message of its conversation is labelled sent, draft, trash, starred or important, is of intent security, document or personal, is of low or contradictory confidence, or is protected, awaited or corrected to such an intent by the policies |
| ProtectionMeaning.HardExcludedExactly | src/mailmap/policy_domain.py:1391-1400 | **Result:** a message is hard excluded exactly when it is labelled sent, draft or trash |
| ProtectionMeaning.CategoryExactly | src/mailmap/policy_domain.py:1247-1268 | **Result:** the category of every message, told from its own or corrected intention, its labels, the decisions that reach it and its conversation |
| ProtectionMeaning.ReviewExactly | src/mailmap/policy_domain.py:1364-1380 | **Result:** a review is required exactly when the conversation is torn, a decision that reaches the message waits, or its confidence is low or contradictory |
| ProtectionMeaning.MixedExactly | src/mailmap/policy_domain.py:1271-1296 | **Result:** the mixed mark is on exactly the conversations torn by their own messages or, where none warrants protection, torn by the policies |
| GroupMeaning.SourcesThere | src/mailmap/policy_domain.py:871-947 | **Result:** an effective source is in the view exactly when an applying merge or partition makes it, or it is automatic and none takes it; the decisions behind it are those that make it |
| GroupMeaning.FlowSumsUp | src/mailmap/policy_domain.py:1470-1514 | **Result:** the protection reported on a flow is that of its messages together: every flag, reason and decision of some message, and the strongest categories |
| GroupMeaning.SourceSumsUp | src/mailmap/policy_domain.py:1470-1514 | **Result:** the same for a source |
| ReportMeaning.SourceTells | src/mailmap/policy_domain.py:308-347 | **Result:** an effective source holds exactly the messages its selector names, the worst confidence among them, the rubro they share, and the decisions that created it |
| ReportMeaning.MessageTells | src/mailmap/policy_domain.py:1403-1467 | **Result:** what is reported of every message: where it ends, its intention, and whether it is protected, hard excluded and to be reviewed, told from records, classification and decisions |
| ReportMeaning.DecisionsTell | src/mailmap/policy_domain.py:1364-1380 | **Result:** the decisions shown on a message are those that protect it, wait on it, made its source, or correct its source or flow |
| ClassificationMeaning.SourcesExactly | src/mailmap/classification_domain.py:483-515 | **Result:** two messages share a source exactly when they are one message, come from one address, or come from two addresses all of whose messages are authenticated for one name in one domain |
| ClassificationMeaning.FlowsExactly | src/mailmap/classification_domain.py:1095-1190 | **Result:** two messages share a flow exactly when they are one message, or share source and intention, neither is contradictory or without a sender, and they are of one list, or of no list and one sender |
| ClassificationMeaning.ConfidenceExactly | src/mailmap/classification_domain.py:966-1029 | **Result:** the confidence of every message, told from its signals and its address |
| ClassificationMeaning.GroupConfidenceExactly | src/mailmap/classification_domain.py:1193-1204 | **Result:** a group is contradictory when its authentication disagrees, and else as sure as its worst member |
| CleanupReasons.RevalidationChecks | src/mailmap/cleanup_plan_domain.py:929-950 | **Result:** a revalidation passes its checks exactly when the plan is not over and less than a day old, all three revisions are current, the composition can be counted and the scope is bounded; an over plan, an old one and a stale revision are refused in this order |
| CleanupReasons.CancellationChecks | src/mailmap/cleanup_plan_domain.py:1039-1060 | **Result:** a cancellation passes its checks exactly when the plan is not over, less than a day old and of the expected revision, refused in this order |
| CleanupReasons.CreationChecks | src/mailmap/cleanup_plan_domain.py:762-812 | **Result:** a creation passes its checks exactly when the revisions are current, the composition can be counted, every target exists, every excluded label may be excluded and the scope is bounded; every error names what is missing |
| CleanupReasons.CreationExplained | src/mailmap/cleanup_plan_domain.py:604-627 | **Result:** every reason recorded of a message when a plan is created, told from the record, its protection and the quota |
| CleanupReasons.RemovalExplained | src/mailmap/cleanup_plan_domain.py:955-974 | **Result:** every reason recorded of a removal, told from the record, its protection, the targets and the quota |
| MapComposition.ProjectionTells | src/mailmap/map_composition.py:860-924 | **Result:** every counter of a flow, a source and the summary counts its messages: all, protected, to be reviewed, hard excluded, and their bytes |
| PolicyExamples.MergeTakesProtected | src/mailmap/policy_domain.py:2064-2085 | **Failing input:** a merge is accepted although it takes a protected source, whose protection then does not apply |
| Protection.MarkVanishes | src/mailmap/policy_domain.py:1286-1287 | **Failing input:** a conversation of two messages loses its mixed mark once both have a reason |
| CleanupExamples.ClockWentBack | src/mailmap/cleanup_plan_model.py:1126-1150 | **Failing input:** a cancellation a moment before the creation passes its checks and is refused by the ledger |
| ScanExamples.PausedAtLabelsKeepsStale | src/mailmap/gmail_inventory.py:657-661 | **Failing input:** a full scan paused at the labels and resumed completes with a stale message and without a history point |
| ScanExamples.PauseWithBrokenClockRaises | src/mailmap/gmail_inventory.py:588-593 | **Failing input:** a full scan whose pause meets a broken clock raises |
| ScanExamples.PartialPauseWithBrokenClockRaises | src/mailmap/gmail_inventory.py:588-593 | **Failing input:** a partial scan whose pause meets a broken clock raises |
| ScanExamples.PausedAtLabelsBlocks | src/mailmap/gmail_inventory.py:804-807 | **Failing input:** a partial scan paused at the labels is never completed, by it or by another identifier |
| ScanExamples.CameAndWent | src/mailmap/gmail_inventory.py:884-899 | **Failing input:** a message added on one page and deleted on the next makes the scan fail |
| StaleExamples.StaleStructureNeedsReview | src/mailmap/policy_domain.py:599-600 | **Failing input:** the merge behind a named source is made by another decision: selector, identifier, sources and flows agree, and the name needs a review |
| StaleExamples.ReplacedMergeLeavesNameBehind | src/mailmap/policy_domain.py:599-600 | **Failing input:** an accepted repetition of a merge replaces it and leaves the name of the merged source in need of a review |
| StructuralPolicy.PartitionGroups | src/mailmap/policy_domain.py:518-542 | resolves the groups exactly when they split the allowed messages into non-empty, disjoint, complete, unambiguous parts, and returns those parts |
| StructuralPolicy.MatchGroup | src/mailmap/policy_domain.py:524-536 | collects the matches of a group exactly when no message is matched twice |
| StructuralPolicy.AutomaticState | src/mailmap/policy_domain.py:336-347 | an automatic selector stands for the messages and the identifier of its one source |
| PolicyModel.CombinedApplies | src/mailmap/policy_domain.py:682-699 | a combined binding applies exactly when every part applies, and is exact exactly when every part is |
| PolicyEngine.EffectiveView.constructor | src/mailmap/policy_domain.py:336-347 | the view starts with one effective source for each automatic source |
| PolicyEngine.EffectiveView.BindStructural | src/mailmap/policy_domain.py:755-828 | binds every structural policy against the automatic sources, in any order |
| PolicyEngine.CollectOverlaps | src/mailmap/policy_domain.py:843-868 | comparing each decision with the later ones marks exactly the decisions that overlap another one |
| PolicyEngine.EffectiveView.MarkStructuralConflicts | src/mailmap/policy_domain.py:843-868 | marks as conflicting exactly the structural policies that overlap another, and leaves the other bindings |
| PolicyEngine.EffectiveView.ApplyMerge | src/mailmap/policy_domain.py:871-914 | replaces the participants by their union; fails, changing nothing, exactly when a participant is missing |
| PolicyEngine.EffectiveView.ApplyPartition | src/mailmap/policy_domain.py:917-947 | replaces the target by its groups; fails, changing nothing, exactly when the target is missing or the groups do not resolve |
| PolicyEngine.EffectiveView.ApplyOne | src/mailmap/policy_domain.py:1678-1688 | the next surviving policy always finds its targets and takes the table to the one specified for one more policy |
| StructuralSafety.SurvivorsApplicable | src/mailmap/policy_domain.py:843-868 | policies that survive conflict marking name existing, pairwise disjoint automatic sources, and their partitions resolve |
| StructuralSafety.SharedSourceConflicts | src/mailmap/policy_domain.py:850-863 | two policies that name one existing source are always in conflict |
| StructuralSafety.ProductUnique | src/mailmap/policy_domain.py:518-542 | no message belongs to two products of one merge or partition |
| StructuralFold.TableStep | src/mailmap/policy_domain.py:871-947 | one more policy takes out its targets, adds its products and keeps every other source |
| StructuralFold.TargetsUntouched | src/mailmap/policy_domain.py:429-435 | the targets of the next policy are still the automatic sources they were at the start |
| StructuralFold.MergedStateIsProduct | src/mailmap/policy_domain.py:884-911 | the union read from the table is the state the merged selector stands for |
| StructuralFold.GroupStateIsProduct | src/mailmap/policy_domain.py:932-947 | each group read from the table is the state its selector stands for |
| EffectiveFlows.CutSource | src/mailmap/policy_domain.py:366-411 | cutting the automatic flows along a source never places a message twice |
| EffectiveFlows.BuildFlows | src/mailmap/policy_domain.py:350-420 | rebuilds flows and maps, and refuses exactly the tables that do not split the records |
| PolicyEngine.EffectiveView.Rebuild | src/mailmap/policy_domain.py:1689-1689 | on the surviving table the coverage and duplicate errors do not occur |
| PolicyApplication.ViewLinked | src/mailmap/policy_domain.py:350-420 | the maps of a rebuilt view agree with its flows and sources |
| PolicyEngine.EffectiveView.BindPlain | src/mailmap/policy_domain.py:1690-1698 | binds every other policy against the effective view, in any order; what each binding is follows from the anchors and the view alone |
| PolicyEngine.EffectiveView.MarkCorrectionConflicts | src/mailmap/policy_domain.py:1147-1168 | marks exactly the corrections that share a field and a message with another |
| PolicyBindings.SurvivorPresent | src/mailmap/policy_domain.py:1007-1060 | a surviving correction targets an object of the view, whose messages its binding holds |
| PolicyBindings.OneWriter | src/mailmap/policy_domain.py:1147-1168 | at most one surviving correction writes a given field of a given source or flow |
| CorrectionSteps.TargetFound | src/mailmap/policy_domain.py:1187-1210 | a surviving correction always finds its target |
| CorrectionSteps.SourceStep | src/mailmap/policy_domain.py:1185-1197 | one more correction writes its field of its source and nothing else, whatever was applied before |
| CorrectionSteps.FlowStep | src/mailmap/policy_domain.py:1198-1210 | one more correction writes its field of its flow and nothing else, whatever was applied before |
| PolicyEngine.EffectiveView.ApplyPlainPolicy | src/mailmap/policy_domain.py:1171-1219 | writes one surviving policy; fails exactly when its target is missing |
| PolicyEngine.EffectiveView.MarkUnsettled | src/mailmap/policy_domain.py:1712-1722 | shows on each message exactly the policies that reach it and wait for a review |
| Protection.CategoryMonotone | src/mailmap/policy_domain.py:1247-1268 | more reasons never lower a protection category nor lift a hard exclusion |
| Protection.SpreadCloses | src/mailmap/policy_domain.py:1271-1296 | after a pass a message has a reason exactly when some message of its thread had one |
| Protection.SpreadIdempotent | src/mailmap/policy_domain.py:1271-1296 | a second pass over the conversations changes nothing |
| Protection.SpreadMonotone | src/mailmap/policy_domain.py:1271-1296 | more reasons before the pass never mean less protection after it |
| ProtectionBook.Book.GroupByThread | src/mailmap/policy_domain.py:1277-1279 | groups the messages of each thread |
| ProtectionBook.Book.SpreadMixed | src/mailmap/policy_domain.py:1271-1296 | marks exactly the members of the mixed threads, in either of its two modes |
| ProtectionBook.Book.AddLabels | src/mailmap/policy_domain.py:1325-1336 | adds the label reason exactly to the messages an applying label protection reaches |
| ProtectionBook.Book.AddIntents | src/mailmap/policy_domain.py:1337-1350 | adds the corrected intention exactly to the messages of the corrected flow |
| ProtectionBook.Book.AddUnsettled | src/mailmap/policy_domain.py:1351-1363 | adds the review reason exactly to the messages an unsettled policy reaches |
| ProtectionBook.Book.AddReview | src/mailmap/policy_domain.py:1364-1380 | shows the decisions of source and flow and asks for a review on low or contradictory confidence or an unapplied decision |
| ProtectionBook.Book.Fill | src/mailmap/policy_domain.py:1299-1382 | the passes together give each message the specified reasons, decisions and review flag |
| ProtectionTheorems.ViewDependsOnStructure | src/mailmap/policy_domain.py:1660-1689 | corrections and protections cannot change the effective sources and flows |
| ProtectionTheorems.RecordedDecisionsApply | src/mailmap/policy_domain.py:1366-1368 | only applying decisions are recorded on effective sources and flows |
| PolicyRun.SplitOrder | src/mailmap/policy_domain.py:1664-1673 | separates structural policies from the others, keeping each exactly once |
| PolicyResult.Strongest | src/mailmap/policy_domain.py:1484-1498 | the aggregate automatic category is that of some member and no weaker than any |
| PolicyResult.SelectorSources | src/mailmap/policy_model.py:1378-1381 | an effective source has as many automatic sources as its selector names |
| PolicyResult.ShownConsistent | src/mailmap/policy_model.py:1228-1261 | the protection projection of every message satisfies its checks |
| StructuralPrediction.MergeExact | src/mailmap/policy_domain.py:2064-2085 | the anchors prepared for a merge resolve exactly against the automatic sources |
| StructuralPrediction.PartitionExact | src/mailmap/policy_domain.py:2086-2137 | the anchors prepared for a partition resolve exactly against the automatic sources |
| StructuralPrediction.StructuralUnmarked | src/mailmap/policy_domain.py:1979-2012 | a structural decision that passes the conflict check overlaps no remaining structural policy |
| PreparePrediction.PlainUnmarked | src/mailmap/policy_domain.py:1979-2012 | a correction that passes the conflict check competes with no remaining correction |
| PreparePrediction.FlowAnchorStatus | src/mailmap/policy_domain.py:595-613 | a prepared flow anchor is exact unless its source is merged, and then rebound |
| PreparePrediction.TargetResolves | src/mailmap/policy_domain.py:1858-1950 | the anchor prepared for a targeted command resolves to what it observed |
| StructuralMarks.CorrectionDisturbed | src/mailmap/policy_domain.py:1147-1168 | a correction outlives a merge or partition exactly when it reached no taken message and is in conflict exactly when another of its field still reaches it |
| StructuralMarks.SourceKeptMessages | src/mailmap/policy_domain.py:1016-1040 | what a source target still reaches afterwards, told from the view before |
| StructuralMarks.FlowKeptMessages | src/mailmap/policy_domain.py:1041-1085 | what a flow target still reaches afterwards, told from the view before |
| StructuralEffects.StructuralDisturbs | src/mailmap/policy_domain.py:1690-1698 | the raw binding of a correction or protection stays exactly when it reached no message that is taken, and so does the binding of a protection |
| StructuralEffects.ViewReplaced | src/mailmap/policy_domain.py:871-947 | an accepted merge or partition replaces its targets by its products and keeps every other source |
| StructuralEffects.ViewFlowsReplaced | src/mailmap/policy_domain.py:350-420 | it replaces the flows of its targets, each new one a fragment of one of them, and keeps every other flow |
| StructuralEffects.PreparedObservesItself | src/mailmap/policy_domain.py:1858-1950 | every prepared correction or protection observed its own target |
| PrepareAgain.AcceptedDisturbsNobody | src/mailmap/policy_domain.py:1979-2012 | an accepted correction or protection leaves every other binding, and an accepted structural decision every other structural binding, as it was |
| PrepareAgain.StructuralMarksStay | src/mailmap/policy_domain.py:843-868 | a structural decision that is not marked marks no other |
| PrepareAgain.CorrectionMarksStay | src/mailmap/policy_domain.py:1147-1168 | a correction that is not marked marks no other |
| Sorting.NewestFirstOrdered | src/mailmap/cleanup_plan_domain.py:652-656 | sorting by identifier and then, stably, by date in reverse orders strictly newest first, then by identifier |
| CleanupScope.ReportsAreCoherent | src/mailmap/cleanup_plan_domain.py:157-229 | every policy report makes a coherent composition |
| CleanupScope.FlagsAgree | src/mailmap/cleanup_plan_domain.py:586-595 | the two consistency errors of the plan's protection reasons cannot occur |
| CleanupScope.ListedReaches | src/mailmap/cleanup_plan_domain.py:521-555 | a listed target reaches at least one message |
| CleanupScope.FirstOnes | src/mailmap/cleanup_plan_domain.py:657-658 | the messages kept are those that fewer than the quota precede, newest first |
| CleanupEngine.TargetUniverse | src/mailmap/cleanup_plan_domain.py:558-577 | collects exactly the messages of the targets |
| CleanupEngine.GroupCandidates | src/mailmap/cleanup_plan_domain.py:644-650 | groups the candidates by flow, each exactly once |
| CleanupEngine.SelectNewest | src/mailmap/cleanup_plan_domain.py:630-659 | the grouping and sorting select exactly the quota's messages, and all candidates when the quota is zero |
| CleanupEngine.ListMembers | src/mailmap/cleanup_plan_domain.py:798-812 | lists one member for each message of the universe, by local identifier |
| CleanupEngine.CollectRemovals | src/mailmap/cleanup_plan_domain.py:946-984 | the loop records exactly the specified removals, in the order of the members |
| CleanupCreation.KindSamplesValid | src/mailmap/cleanup_plan_domain.py:706-740 | samples are at most five, numbered, distinct and newest first |
| CleanupLedger.EligibleCounted | src/mailmap/cleanup_plan_model.py:1253-1254 | the eligible count is the number of eligible messages |
| CleanupSteps.CleanMembersStay | src/mailmap/cleanup_plan_domain.py:955-974 | a member is removed exactly when it is not clean, and every removal has admissible reasons |
| CleanupRuns.StepKeepsLedger | src/mailmap/cleanup_plan_domain.py:917-1077 | each step keeps the ledger and only appends to it |
| Cursor.DecodeInvertsEncode | src/mailmap/gmail_inventory.py:276-298 | base64url decoding inverts encoding, padding included |
| Cursor.DecodedIsStripped | src/mailmap/gmail_inventory.py:296-298 | only a stripped, non-empty token is ever read from a cursor |
| RemoteCalls.RetryDelay | src/mailmap/gmail_inventory.py:426-439 | a wait is at least the exponential base and never above 32 seconds |
| RemoteCalls.Outside.BeforeRemote | src/mailmap/gmail_inventory.py:413-417 | a cancellation or a pause stops a call before it is made |
| GmailInventory.Inventory.ApplyPage | src/mailmap/gmail_inventory.py:502-518 | one atomic write of records, deletions and checkpoint, or nothing |
| GmailInventory.Inventory.FailedResult | src/mailmap/gmail_inventory.py:544-579 | a failure is written over the same progress exactly when the account is known, the failure can be resumed and the write goes through |
| GmailInventory.Inventory.PausedResult | src/mailmap/gmail_inventory.py:581-606 | a pause is written over the same progress exactly when the account is known, the clock works and the write goes through; it raises exactly when the clock is broken |
| GmailInventory.Inventory.Interrupt | src/mailmap/gmail_inventory.py:753-766 | whatever stops a scan is reported and written as its cause says; it raises exactly when a pause meets a broken clock |
| GmailInventory.Inventory.Begin | src/mailmap/gmail_inventory.py:653-660 | a stop at the labels is written down exactly when it may be and the write goes through |
| GmailInventory.Inventory.FetchPage | src/mailmap/gmail_inventory.py:702-712 | reads every listed message and keeps those that belong in the phase |
| GmailInventory.Inventory.ReadPage | src/mailmap/gmail_inventory.py:697-752 | one page is read and written with its checkpoint, or not, as the calls, flags, clock and write decide |
| GmailInventory.Inventory.ReadPages | src/mailmap/gmail_inventory.py:683-752 | every checkpoint written, also in between, says exactly which pages the index holds; how far it gets and how it ends is what the calls decide |
| FullScan.PageHolds | src/mailmap/gmail_inventory.py:733-747 | writing a page with its checkpoint is progress by exactly one page |
| FullScan.CursorReadBack | src/mailmap/gmail_inventory.py:678-680 | the cursor stored before a page leads back to that page |
| FullScanRuns.AllOnTrack | src/mailmap/gmail_inventory.py:622-766 | any number of attempts keeps the index equal to what was there before plus the pages before the cursor |
| PartialScan.UpsertsAndRemovalsDisjoint | src/mailmap/gmail_inventory.py:878-899 | on each page no message is both written and deleted |
| PartialScan.FullIndexIsIndexOf | src/mailmap/gmail_inventory.py:702-712 | a full scan that lists everything leaves exactly the messages that are not sent, draft or trash |
| PartialScan.AppliedMeans | src/mailmap/gmail_inventory.py:878-925 | each message the feed mentions ends as the mailbox has it, and the others stay |
| PartialScan.PartialPage | src/mailmap/gmail_inventory.py:909-931 | writing a page of changes is progress by exactly one page |
| GmailInventory.Inventory.FetchChanged | src/mailmap/gmail_inventory.py:884-899 | reads every changed message, fails when one cannot be read, and separates the excluded ones |
| GmailInventory.Inventory.ReadChanges | src/mailmap/gmail_inventory.py:849-937 | one page of changes is applied and written with its checkpoint, or not, as the calls, flags, clock and write decide |
| GmailInventory.Inventory.ReadHistory | src/mailmap/gmail_inventory.py:849-937 | every checkpoint written holds exactly the changes before its cursor; how far it gets and how it ends is what the calls decide |
| GmailInventory.Inventory.HistoryGone | src/mailmap/gmail_inventory.py:857-873 | an expired history asks for a full scan and keeps index and history point |
| Classifier.BestUnique | src/mailmap/classification_domain.py:218-233 | the best evidence of a code is unique |
| ClassificationModel.MergeableName | src/mailmap/classification_domain.py:409-422 | a mergeable name is shared by trusted messages only |
| Classifier.GroupSources | src/mailmap/classification_domain.py:483-515 | the two groupings give exactly the messages of each identity |
| Classifier.MergeCandidates | src/mailmap/classification_domain.py:495-515 | candidates of one identity are joined, and each exactly once |
| ClassificationTheorems.SourceIdDetermines | src/mailmap/classification_domain.py:525-566 | two groups never share a source identifier |
| ClassificationTheorems.DescriptorDetermines | src/mailmap/classification_domain.py:534-550 | two groups never share a source descriptor |
| ClassificationTheorems.SenderlessAlone | src/mailmap/classification_domain.py:487-494 | a message without a sender is a source of its own |
| Classifier.GroupFlows | src/mailmap/classification_domain.py:1160-1190 | the flow groups are exact and the descriptor consistency error cannot occur |
| ClassificationTheorems.FlowDetermines | src/mailmap/classification_domain.py:1095-1157 | messages of one flow share source, descriptor and intention |
| ClassificationTheorems.FlowDescriptorDetermines | src/mailmap/classification_domain.py:1095-1157 | the descriptor of a flow determines it |
| ClassificationTheorems.ConfidenceConservative | src/mailmap/classification_model.py:571-574 | a group's confidence is never better than a member's |
| ClassificationTheorems.FlowHolds | src/mailmap/classification_model.py:558-575 | each flow is complete, has one intention and a conservative confidence |
| ClassificationTheorems.SourceHolds | src/mailmap/classification_model.py:576-594 | each source is complete and has a conservative confidence |
| Classifier.AssembleFlows | src/mailmap/classification_domain.py:1228-1268 | describing each flow by any of its members gives the same flows |
| Classifier.AssembleSources | src/mailmap/classification_domain.py:1307-1382 | describing each source by any of its members gives the same sources |
| MapEngine.MonthlyVolume | src/mailmap/map_composition.py:282-291 | the counter of each month is that of its messages |
| MapEngine.Tally | src/mailmap/map_composition.py:333-337 | the accumulated counters are the sums over the members |
| MapEngine.Span | src/mailmap/map_composition.py:338-339 | the first and last dates bound the members and are theirs |
| MapEngine.GroupMembers | src/mailmap/map_composition.py:861-865 | the groups by source and by flow are those of the report |
| MapEngine.ComposeFlows | src/mailmap/map_composition.py:867-876 | no flow is without members, and every flow has its members' counters and first and last dates |
| MapEngine.ComposeSources | src/mailmap/map_composition.py:878-899 | no source is without members, and every source has its members' counters, dates, flows and months |
| MapComposition.MonthsCover | src/mailmap/map_model.py:470-473 | the months of a source add up to its messages and bytes |
| MapComposition.SourceAddsUp | src/mailmap/map_model.py:454-473 | the flows of a source add up to it in every counter |
| MapComposition.SummaryAddsUp | src/mailmap/map_model.py:937-954 | the sources add up to the summary in every counter |
| MapComposition.FlowsAddUp | src/mailmap/map_model.py:939-940 | the flow counts of the sources add up to the number of flows |
| Sums.SumPartition | src/mailmap/map_composition.py:860-924 | summing part by part over a partition is summing the whole |
| Pipeline.SenderOwned | src/mailmap/cleanup_plan_domain.py:232-247 | a classified message lies in a source that owns its sender |
| AnchorStatus.AkinFlowsMean | src/mailmap/policy_domain.py:616-651 | flows share an anchor exactly when they differ at most in their sources, and these are akin |
| AnchorStatus.AkinSourcesMean | src/mailmap/policy_domain.py:616-637 | selectors share an anchor exactly when they are made of automatic sources with a common sender, or of the same message without one |
| PartitionMeaning.GroupsFitMeans | src/mailmap/policy_domain.py:500-542 | the three checks of a partition hold exactly when each message of the source is named at one position, every position names one, and only messages without known sender and flow are named one by one |
| PartitionMeaning.MatchesMeans | src/mailmap/policy_domain.py:447-476 | what an anchor of a group matches, told from record, source and flow |
| PartialScan.EveryMention | src/mailmap/gmail_inventory.py:919-921 | a page of changes counts every message it mentions exactly once |
| PartialScan.ReadableMeans | src/mailmap/gmail_inventory.py:878-889 | what a page has to read are the messages it mentions and does not delete |
| PrepareAccepts.InvalidRefused | src/mailmap/policy_domain.py:2015-2062 | an input or command that breaks its own checks is refused as invalid |
| PrepareAccepts.DirectObserves | src/mailmap/policy_domain.py:1932-1950 | a prepared protection of a message, a sender or a label observed exactly the automatic sources and flows it reaches |
| PrepareAccepts.MayReplaceMeans | src/mailmap/policy_domain.py:1768-1799 | which active decisions a command may replace |
| PrepareAccepts.OccupiedIsDisputed | src/mailmap/policy_domain.py:1999-2012 | the identifiers of a target are occupied exactly when a remaining correction of the field reaches a message of the target |
| PrepareAccepts.OccupiedStructure | src/mailmap/policy_domain.py:1985-1998 | named sources are occupied exactly when a remaining merge or partition names an akin source or reaches their messages |
| ProtectionMeaning.ProtectedWithoutPolicies | src/mailmap/policy_domain.py:1222-1244 | without policies, exactly when some message of its conversation is one of those |
| ProtectionMeaning.OwnReasons | src/mailmap/policy_domain.py:1222-1244 | each label and confidence gives exactly its reason, whatever the policies |
| ProtectionMeaning.DecidedReasons | src/mailmap/policy_domain.py:1325-1363 | each intention, own or corrected, and each kind of decision gives exactly its reason |
| CorrectedValues.SourceValues | src/mailmap/policy_domain.py:1185-1197 | the name and rubro of an effective source are those of the applying correction, or else the ones it was built with |
| CorrectedValues.FlowValues | src/mailmap/policy_domain.py:1198-1210 | the name and intention of an effective flow are those of the applying correction, or else its automatic ones |
| CorrectedValues.MessageIntention | src/mailmap/policy_domain.py:1337-1350 | a message ends with the intention some applying correction gives its flow, or else its own |
| ReportMeaning.NameTells | src/mailmap/policy_domain.py:318-333 | an automatic source or a group keeps the name of its source, and a merged one has the combined name |
| ReportMeaning.FlowTells | src/mailmap/policy_domain.py:350-420 | an effective flow has the name, intention, subscription and confidence of its automatic flow, restricted to its source |
| ReportMeaning.AutomaticTells | src/mailmap/policy_domain.py:1317-1319 | the automatic category of every message, told from its intention, labels and conversation |
| ReportMeaning.MessageRubroTells | src/mailmap/policy_domain.py:1403-1467 | the rubro of a message is that of its source, corrected or not |
| ClassificationMeaning.ResultConfidence | src/mailmap/classification_domain.py:1228-1268 | every source and flow has the confidence of its group |
| ClassificationMeaning.SubscriptionExactly | src/mailmap/classification_domain.py:1217-1225 | the subscription of a flow, told from its members |
| ClassificationMeaning.DescriptorsExactly | src/mailmap/classification_domain.py:525-566 | a source holds exactly the messages that belong together, is described by exactly their addresses and identified by the first |
| ClassificationMeaning.FlowDescribed | src/mailmap/classification_domain.py:1095-1157 | a flow is described by its list and intention, by its sender and intention, or by its only message |
| ClassificationMeaning.ReadAsIs | src/mailmap/classification_domain.py:1271-1291 | what is read from a record goes into the result as it is |
| CleanupReasons.MembersExplained | src/mailmap/cleanup_plan_domain.py:662-680 | every member shows its message as the composition has it, and the members are exactly the messages of the targets |
| CleanupReasons.SamplesAreNewest | src/mailmap/cleanup_plan_domain.py:706-740 | a member is a sample exactly when fewer than five members of its kind are newer |
| CleanupLedger.SelectionLimits | src/mailmap/cleanup_plan_model.py:577-603 | a selection has one to a hundred distinct targets, at most a hundred excluded labels, and a quota of at most 10,000 |
| RemoteCalls.OneFailure | src/mailmap/gmail_inventory.py:441-481 | what one failed answer does to a call: a transient one is overcome, a lost history is found by history calls only, and each other one stops the call with its error |
| RemoteCalls.FiveFailures | src/mailmap/gmail_inventory.py:459-481 | four transient failures are overcome and a fifth one ends the call |
| RemoteCalls.DelaysDouble | src/mailmap/gmail_inventory.py:426-439 | the wait starts at one second, doubles, and with its jitter is cut at 32 seconds |
| RemoteCalls.WrittenFailures | src/mailmap/gmail_inventory.py:562-579 | which failures are written down |
| Cursor.TestVectors | src/mailmap/gmail_inventory.py:276-298 | the test vectors of section 10 of RFC 4648 and the two characters of the url alphabet of its section 5 |
| Cursor.CursorFormat | src/mailmap/gmail_inventory.py:301-310 | the stored form of the cursors of both scans |

## Left out

- Text rules: regular expressions, Unicode folding, term lists, header and address parsing, list and unsubscribe syntax. Records arrive normalised, and intent, subscription and the flags of the rules are data.
- Evidence contents, labels and details, and display-name choice.
- Rubro inference and display titles, which are functions of the grouped messages given as parameters (`Rules`).
- Label case folding in the automatic reasons: labels are already canonical.
- Hash collisions and truncated digests, fingerprints, receipts, redacted representations, run-time type checks and version checks. The second check of a structural target against its fingerprint is the first one again, since both are derived from the selector.
- Resolution of civil dates to instants; a selection carries its date window.
- Accounts: there is one account.
- Deterministic order of the projected sources and flows in the map (by count, folded name and identifier), and the decision-history rendering.
- The store behind the index: its two writes are atomic, as its transactions make them.
- Undo and relation records of prepared decisions beyond the anchors, and the revision arithmetic of the policy history.
- A stored full checkpoint in the state that requires a full resync, which no full scan writes.
- The limit of 500 messages on a page, header size limits, and the response parsers.
- HTTP, sessions, interface, the first demonstration path and its fixtures: plumbing, or simpler duplicates.
- GmailInventory.Inventory.Now: only whether the clock works is modelled; the dates on checkpoints are not.
- GmailInventory.Inventory.ApplyPage: identifiers repeated in one page of records cannot be expressed, since a page of records is a map.
- CleanupEngine.CreatePlan: the limit on the length of visible metadata is not modelled, because names are not part of a plan here.
- Cursor.DecodedIsStripped: only ASCII white space is stripped, and bytes that are not UTF-8 are not refused, because a token is any sequence of bytes here.
- Pipeline.PipelineIsCoherent: it asks of a record and its normalised form only that they agree on the sender, because nothing else is read from both.
