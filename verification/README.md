# Verified model of the mail assistant, the conversation pipeline and the trajectory loop guard

This project models the stateful cores of the repository in Dafny and proves
what they promise over every input, every run and every reachable state. It
stands beside the Python code and does not call it.

- **Conversation pipeline.** The cycle counter and the readiness flags of the
  export audit (`CycleCount`, `ExportAudit`), text normalization
  (`NormalizeText`, `NormalizeTwice`), the two chunkers and the greedy packer
  (`Chunking`, `Batching`), the round-robin review queue (`ReviewQueue`) and the
  review decision log (`ReviewDecisions`).
- **Trajectory loop guard.** The streaming detector over any extraction and
  comparison functions (`LoopDetector`), the concrete event format and its
  serialization (`LoopGuard`, `Trajectory`, `CanonicalPath`), and what the two
  together decide about a trajectory (`LoopAdvice`).
- **Background refresh.** The refresh task, its pending slot and the snapshot
  coverage as a class whose methods are steps of a transition system
  (`RefreshCoalescing`).
- **Rule edits.** The TOML block editor on the lines of a file (`RuleText`,
  `RuleFile`, `RuleUpdate`, `RuleAppend`), the proposal/commit service
  (`RuleTransactions`), how long its proposals live (`RuleLifetimes`) and what its
  edits do to loaded files (`RuleCandidates`).
- **Trash batches.** IMAP text, one session, the batch loop, what its outcomes
  say about the servers, the commands behind each move and preflight, and proposals (`ImapText`,
  `ImapSession`, `TrashBatch`, `TrashResults`, `TrashTruth`, `TrashTrace`,
  `TrashWorkflow`).
- **Mail merge and personal rules.** The merge of mailbox copies (`MailMerge`),
  what is delivered from the folders (`MailDelivery`), and rule loading, selection
  and collision warnings (`PersonalRules`).

`Common`, `Text` and `Sorting` hold small shared types and facts about strings.

Loops and objects that change state in the source are methods and classes here,
each tied by its contract to a function on values; the properties are lemmas
about those functions. `dafny verify dfyconfig.toml` checks everything.

Conventions used throughout: novelty and overlap are compared as integers
(`10 * novel <= total`, `2 * overlap >= smaller`); SHA-256 is an injective
function; tokens are fresh values; clocks, the TOML loader, Unicode NFC,
`str.strip`, `str.lower`, `str.casefold` and `str()` of a value are function
parameters or inputs; the IMAP server answers each command as it likes.

## What turned out to be false

Each of these comes with the condition under which it happens and with a
concrete input.

- `_update_rule` on its own is not idempotent: exactly when the rule's text stops
  in a bare carriage return and has no action (`RuleUpdate.UpdateRuleTwice`,
  input `RuleUpdate.UpdateNotIdempotent`). `_append_rule` on its own can add two
  headers: exactly when a bare carriage return at the end hides one
  (`RuleAppend.AppendAddsOneRule`, input `RuleCandidates.HiddenHeaderExample`).
  Both are facts about the functions. `propose` calls them only for text that the
  TOML loader has accepted, TOML has no bare carriage returns, and there neither
  happens (`RuleCandidates.CandidateEdits`).
- `normalize_text` is not idempotent: exactly when NFC changes the text behind the
  filter stage (`NormalizeTwice.IdempotentIffFiltered`, input
  `NormalizeTwice.AccentExample`).
- `exact_thread_reconstruction_usable` always means a rooted forest, but alone it
  does not exclude a cycle of records. Some parents of the given messages get past
  it with a cycle exactly when a conversation repeats an id beside another id and
  used both first (`ExportAudit.HiddenCycleIff`, input
  `ExportAudit.RepeatedIdHidesCycle`). With both flags there is no such cycle
  (`ExportAudit.AuditReadiness`).
- `move_messages_to_trash` can report a message as moved that was not: some replies
  and passwords make it do so exactly when two positions share a Message-ID and at
  least one of them can be moved (`TrashTruth.AlwaysTruthfulIff`, input
  `TrashResults.SharedIdExample`). The program does not hand in such a batch: the
  Trash routes drop repeated ids (examples/mail_assistant/web_app.py:645) and look
  messages up by id, and `iter_messages` keeps one message per id
  (`TrashTruth.PickedIsTruthful`).
- The outcome of a single move differs from its effect exactly when the server
  answers OK for a UID that is not there, or the reply to a move that took effect is
  lost (`TrashResults.MoveTellsEffectIff`, inputs `TrashResults.MissingUidExample`
  and `TrashResults.LostReplyExample`).
- The start-up refresh loses coverage: without explicit starts a window covered at
  the beginning is lost exactly when the start-up scan has published, was narrower,
  and no later scan has reached the window (`RefreshCoalescing.LostAtStartUpIff`,
  input `RefreshCoalescing.StartUpShrinks`). An explicit start loses coverage
  exactly when its scan publishes and is narrower
  (`RefreshCoalescing.ShrinksIffNarrower`, input
  `RefreshCoalescing.NarrowStartShrinks`).
- A raising scan leaves windows uncovered that were asked for: exactly when the
  snapshot covers not both its own window and the queued one
  (`RefreshCoalescing.RaiseLeavesUncoveredIff`, `RefreshCoalescing.AllCoveredIff`,
  input `RefreshCoalescing.FailureDropsQueue`); where only views ask, always
  (`RefreshCoalescing.ViewsCoveredIff`).
- Collision warnings are sound but not complete (`PersonalRules.UnreportedTie`,
  input `PersonalRules.SomeTiesAreUnreported`).
- A complete review can lose a decided candidate: exactly when its latest decision
  does not stand (`ReviewDecisions.BackedIff`, input
  `ReviewDecisions.CompleteReviewCanLoseCandidate`).

## Model

| member | source | states |
|---|---|---|
| CycleCount.CountCycles | scripts/audit_conversation_export.py:142-161 | the counter terminates and returns the number of distinct cycles of the partial parent function, whatever the dictionary order |
| CycleCount.CyclesAreExact | scripts/audit_conversation_export.py:142-161 | the counted sets are exactly the cycles under an independent definition |
| CycleCount.CyclesAreDisjoint | scripts/audit_conversation_export.py:142-161 | two different cycles share no message, so none is counted twice |
| CycleCount.NoCyclesIffAllLeave | scripts/audit_conversation_export.py:142-161 | the count is zero exactly when every parent chain leaves the domain |
| CycleCount.ClosedPath | scripts/audit_conversation_export.py:149-160 | a path that runs into itself adds exactly one new cycle, its tail, and everything on it is then finished territory |
| CycleCount.OpenPath | scripts/audit_conversation_export.py:149-160 | a path that ends outside or in finished territory adds no cycle |
| ExportAudit.CountDuplicates | scripts/audit_conversation_export.py:361-362 | summing count minus one over repeated ids gives the number of ids beyond the distinct ones |
| ExportAudit.ScanConversation | scripts/audit_conversation_export.py:206-274 | the message loop of one conversation extends records, counters and owners as the record list says and counts that conversation's cycles |
| ExportAudit.ScanExport | scripts/audit_conversation_export.py:206-274 | the same for the whole export |
| ExportAudit.ClassifyLinks | scripts/audit_conversation_export.py:357-393 | the branch counters equal the number of records of each kind of parent link |
| ExportAudit.AuditLinks | scripts/audit_conversation_export.py:206-461 | the report's counters and flags are those of the recorded links |
| ExportAudit.UsableIsForest | scripts/audit_conversation_export.py:452-461 | for any export, repeated ids or not, the zero counters of the second flag mean that every record has a path to a root inside its conversation |
| ExportAudit.UsableIffForest | scripts/audit_conversation_export.py:452-461 | with distinct ids the zero counters mean exactly that |
| ExportAudit.AuditReadiness | scripts/audit_conversation_export.py:452-461 | provenance is usable iff no id repeats or is missing; exact reconstruction always implies a rooted forest, with provenance it is equivalent to one, and both together exclude every cycle of records |
| ExportAudit.CycleNeedsRepeat | scripts/audit_conversation_export.py:367-384 | zero counters together with a cycle of records need a repeated id |
| ExportAudit.HiddenCycleIff | scripts/audit_conversation_export.py:367-384 | some parents of the given messages leave the second flag true and form a cycle of records iff a conversation repeats an id beside another id and used both first |
| ExportAudit.RepeatedIdHidesCycle | scripts/audit_conversation_export.py:357-393 | a concrete conversation with a repeated id: the second flag holds, every record is rooted, and two records are each other's parent |
| NormalizeText.Normalize | scripts/normalize_conversation_corpus.py:64-127 | the staged rewriter returns the composed stages and the counts, where a stage that counts nothing changes nothing |
| NormalizeText.FilterLoop | scripts/normalize_conversation_corpus.py:96-112 | the loop keeps exactly what is neither a removed control nor a removed format character and counts both |
| NormalizeText.FilterCounts | scripts/normalize_conversation_corpus.py:96-112 | kept, removed controls and removed formats add up to the text, and nothing is counted iff nothing is removable |
| NormalizeText.DroppedMeans | scripts/normalize_conversation_corpus.py:96-110 | the dropped characters are exactly the controls other than TAB and LF, the zero-width space and the byte order mark, by code point |
| NormalizeText.RespaceAt | scripts/normalize_conversation_corpus.py:86-94 | a no-break space turns into a space and each Unicode separator into a line feed, character by character; all else stays |
| NormalizeText.UnixEndsLines | scripts/normalize_conversation_corpus.py:68-75 | the two replacements equal one pass that turns CR LF, CR and LF into one line feed each |
| NormalizeText.EscapeLength | scripts/normalize_conversation_corpus.py:17-30 | with the alternatives tried in order every match of the escape pattern has length two |
| NormalizeText.StripsMatches | scripts/normalize_conversation_corpus.py:82 | the substitution takes out exactly the matches of the pattern, from left to right, and counts them |
| NormalizeText.ParametersStay | scripts/normalize_conversation_corpus.py:17-30 | a control sequence loses only ESC and its bracket; its parameters stay |
| NormalizeText.TrimIsPerLine | scripts/normalize_conversation_corpus.py:31 | the multi-line substitution equals trimming every line on its own |
| NormalizeText.CollapseRun | scripts/normalize_conversation_corpus.py:32 | a run of line feeds keeps the smaller of its length and three |
| NormalizeText.CollapseOther | scripts/normalize_conversation_corpus.py:32 | outside runs of line feeds nothing is collapsed |
| NormalizeText.CollapsedRuns | scripts/normalize_conversation_corpus.py:118-120 | each maximal run of four or more line feeds is counted once, and nothing else |
| NormalizeText.TrimmedRuns | scripts/normalize_conversation_corpus.py:114-116 | each maximal run of blanks before a line feed or the end is counted once, and nothing else |
| NormalizeText.OutputIsClean | scripts/normalize_conversation_corpus.py:64-127 | every output has no CR, ESC or other control but LF and TAB, no special space, no trailing blank on a line, no four line feeds in a row and no outer white space |
| NormalizeText.CleanMeans | scripts/normalize_conversation_corpus.py:64-127 | clean text, which every output is, said code point by code point |
| NormalizeText.CleanIsFixed | scripts/normalize_conversation_corpus.py:82-125 | clean text passes all stages other than NFC unchanged |
| NormalizeTwice.SecondPassIsNfc | scripts/normalize_conversation_corpus.py:64-127 | a second pass over an output does nothing but NFC |
| NormalizeTwice.IdempotentIff | scripts/normalize_conversation_corpus.py:64-127 | if NFC keeps clean text clean, normalization is idempotent on a text iff NFC is the identity on its output |
| NormalizeTwice.IdempotentIffFiltered | scripts/normalize_conversation_corpus.py:64-127 | if NFC keeps clean text clean and works word by word, normalization is idempotent on a text iff NFC is the identity on the text behind the filter stage |
| NormalizeTwice.SpacedKeepsWords | scripts/normalize_conversation_corpus.py:114-125 | the stages behind the filter keep exactly the words of the text |
| NormalizeTwice.NothingCountedIff | scripts/normalize_conversation_corpus.py:64-127 | no operation is counted iff the text is clean and in NFC, and then it is returned unchanged |
| NormalizeTwice.IdempotentWithoutDrops | scripts/normalize_conversation_corpus.py:64-127 | if NFC works word by word and no character is dropped, normalization is idempotent |
| NormalizeTwice.DroppingBreaksIdempotence | scripts/normalize_conversation_corpus.py:96-112 | a removed zero-width character between parts that NFC would compose makes normalization not idempotent |
| NormalizeTwice.AccentExample | scripts/normalize_conversation_corpus.py:96-112 | the concrete text e, zero-width space, combining acute accent |
| Chunking.UnitIdInjective | scripts/extract_knowledge_candidates.py:119-146 | unit ids of different records or parts differ, even past their padding |
| Chunking.SourceUnits | scripts/extract_knowledge_candidates.py:119-146 | the list is the slices of all selected records in order, or an error at the first selected record without a text |
| Chunking.ReviewUnits | scripts/review_knowledge_candidates.py:177-197 | the dictionary is the same slices keyed by id |
| Chunking.RecordIsReassembled | scripts/extract_knowledge_candidates.py:119-146 | the slices of a record are non-empty, bounded, contiguous and concatenate to its text |
| Chunking.CorpusIsReassembled | scripts/extract_knowledge_candidates.py:119-146 | in a corpus the units of each selected record are slices that concatenate to its text, numbered from 1 under its number, with its conversation and message, and other records have none |
| Chunking.AllUnitsHaveUniqueIds | scripts/extract_knowledge_candidates.py:119-146 | no id occurs twice in a corpus |
| Chunking.ChunkersAgree | scripts/review_knowledge_candidates.py:177-197 | the extractor and the review script produce the same units under the same ids for every corpus on which the extractor does not raise |
| Chunking.CorpusBatchesFit | scripts/extract_knowledge_candidates.py:119-191 | every batch made from a corpus is within MAX_BATCH_CHARS |
| Batching.Flush | scripts/extract_knowledge_candidates.py:155-175 | closing a non-empty batch records it with its number, ids and size and empties the current one |
| Batching.BuildBatches | scripts/extract_knowledge_candidates.py:149-191 | the batches are the greedy packing of the units; each is numbered from 1 and records the conversation, ids and total length of its own units |
| Batching.PackedIsPacking | scripts/extract_knowledge_candidates.py:149-191 | the batches are an order-preserving partition into non-empty single-conversation batches |
| Batching.WithinLimitIffUnits | scripts/extract_knowledge_candidates.py:149-191 | every batch is within the limit iff every unit is |
| Batching.GreedyStaysAhead | scripts/extract_knowledge_candidates.py:177-190 | greedy never has more parts than another packing, and with as many its open part is no longer |
| Batching.GreedyIsOptimal | scripts/extract_knowledge_candidates.py:149-191 | no other such partition uses fewer batches |
| ReviewQueue.OrderQueue | scripts/review_knowledge_candidates.py:236-249 | grouping, sorting and draining give the concatenated topic blocks |
| ReviewQueue.DrainRound | scripts/review_knowledge_candidates.py:246-249 | one pass pops the first item of every conversation that has one |
| ReviewQueue.DrainTopic | scripts/review_knowledge_candidates.py:245-249 | the while loop terminates with all rounds of the topic in order |
| ReviewQueue.OrderIsPermutation | scripts/review_knowledge_candidates.py:236-252 | the result is a permutation of the queue |
| ReviewQueue.TopicsAreSorted | scripts/review_knowledge_candidates.py:241 | topics come in contiguous sorted blocks |
| ReviewQueue.OrderSelect | scripts/review_knowledge_candidates.py:243-249 | each conversation's items of a topic come in candidate order, exactly as often as queued |
| ReviewQueue.BlockIsFair | scripts/review_knowledge_candidates.py:234-249 | after every prefix of a block no conversation is more than one item ahead of one that still has items |
| ReviewDecisions.LatestDecisions | scripts/review_knowledge_candidates.py:381-388 | the loops return the last decision about every candidate |
| ReviewDecisions.AppendStands | scripts/review_knowledge_candidates.py:369-388 | after appending a decision, it stands, and exactly those decisions go on standing that share no candidate with it |
| ReviewDecisions.StandingAreDisjoint | scripts/review_knowledge_candidates.py:381-461 | no candidate backs two standing decisions |
| ReviewDecisions.DecisionLog.AppendDecision | scripts/review_knowledge_candidates.py:369-378 | a decision is appended iff its candidates are known and its event id is new, and a valid log stays valid |
| ReviewDecisions.EmitEvents | scripts/review_knowledge_candidates.py:408-461 | the loop emits each standing, not withheld decision once, and the rows carry exactly the claims of the emitted decisions, unless a standing approval has no valid claim |
| ReviewDecisions.MaterializeApproved | scripts/review_knowledge_candidates.py:391-481 | it succeeds iff the log is valid and every standing approval is a valid claim; then the rows under each emitted event are numbered from 1 and carry its claims in order, or the candidate's own claim when approved, each row names its event and candidates and has a reference iff one of them has it, and there are no other rows |
| ReviewDecisions.RowsAreClaims | scripts/review_knowledge_candidates.py:423-461 | the same of the rows as they are built, decision by decision |
| ReviewDecisions.ByIdIsLast | scripts/review_knowledge_candidates.py:398-399 | the candidate under an id is the last one read with it |
| ReviewDecisions.EmittedHasRows | scripts/review_knowledge_candidates.py:440-461 | an emitted decision contributes one claim, a split at least two |
| ReviewDecisions.BackedIff | scripts/review_knowledge_candidates.py:391-461 | a candidate backs an emitted decision iff its latest decision stands and is neither reject nor defer |
| ReviewDecisions.CompleteReviewCanLoseCandidate | scripts/review_knowledge_candidates.py:420-481 | a partly overridden consolidation leaves a decided candidate that backs nothing in a complete review |
| LoopDetector.DecideActions | action_trajectory_loop_guard/src/action_trajectory_loop_guard/detector.py:105-154 | the loop with its evidence set and latch computes the per-action decisions and the first advice |
| LoopDetector.AssessTrajectory | action_trajectory_loop_guard/src/action_trajectory_loop_guard/detector.py:87-160 | the loops return the assessment that is stated action by action, or the extraction error |
| LoopDetector.RedundantMeans | action_trajectory_loop_guard/src/action_trajectory_loop_guard/detector.py:69-77 | an action is redundant iff one of the twelve before it is near and at most a tenth of its evidence is new |
| LoopDetector.InterventionMeans | action_trajectory_loop_guard/src/action_trajectory_loop_guard/detector.py:133-154 | advice is given iff two consecutive low-novelty actions after the warmup repeat earlier ones |
| LoopDetector.FirstInvalid | action_trajectory_loop_guard/src/action_trajectory_loop_guard/detector.py:163-174 | the first invalid event is the one reported, and only prefixes containing it fail |
| LoopDetector.PrefixStable | action_trajectory_loop_guard/src/action_trajectory_loop_guard/detector.py:87-160 | the assessment of a prefix is a prefix of the assessment of every extension, and an intervention once given stays the same |
| LoopDetector.Replay | action_trajectory_loop_guard/scripts/replay_nav_test_00.py:28-43 | the incremental loop returns the first prefix that fires, or none, or the offset where the detector raises |
| LoopDetector.ReplayAgreesWithBatch | action_trajectory_loop_guard/scripts/replay_nav_test_00.py:28-43 | without an invalid event the loop's first fire is the intervention of one batch call; with one, the batch call raises and the loop fires iff the part before it does |
| LoopDetector.NoveltyAccounts | action_trajectory_loop_guard/src/action_trajectory_loop_guard/detector.py:105-131 | the novel counts of all actions add up to the size of the union of their evidence |
| LoopDetector.TruncationCost | action_trajectory_loop_guard/src/action_trajectory_loop_guard/detector.py:133-154 | at the first firing prefix the cut drops exactly two tool actions, keeps at least eight and loses at most a tenth of the evidence those two carried |
| LoopDetector.CutAtOffset | action_trajectory_loop_guard/src/action_trajectory_loop_guard/detector.py:163-196 | cutting a raw trajectory at an action's offset keeps exactly the actions before it |
| LoopGuard.CollectEvidence | action_trajectory_loop_guard/src/action_trajectory_loop_guard/detector.py:246-262 | the nested loops collect exactly the atoms named by evidence entries and paths |
| LoopGuard.ActionRoundTrip | action_trajectory_loop_guard/src/action_trajectory_loop_guard/detector.py:163-229 | extracting a serialized action gives the same action at any offset |
| LoopGuard.AtomsInOrder | action_trajectory_loop_guard/src/action_trajectory_loop_guard/detector.py:199-206 | serialized evidence is in order of path and line, a whole file counting as line -1 |
| LoopGuard.ExtractedAreNormal | action_trajectory_loop_guard/src/action_trajectory_loop_guard/detector.py:246-262 | extracted evidence has canonical paths |
| LoopGuard.ReplayFidelity | action_trajectory_loop_guard/src/action_trajectory_loop_guard/detector.py:87-160 | assessing the returned actions reproduces the whole assessment |
| LoopGuard.UncapturedIsRaw | action_trajectory_loop_guard/src/action_trajectory_loop_guard/detector.py:185-188 | events without a captured offset get their own position |
| CanonicalPath.CanonicalLoop | action_trajectory_loop_guard/src/action_trajectory_loop_guard/detector.py:238-243 | the loop computes the canonical path |
| CanonicalPath.CanonicalIsFormatted | action_trajectory_loop_guard/src/action_trajectory_loop_guard/detector.py:238-243 | every canonical path is a root and components without empty, dot or backslash parts |
| CanonicalPath.CanonicalIdempotent | action_trajectory_loop_guard/src/action_trajectory_loop_guard/detector.py:238-243 | canonical paths are fixed points and never empty |
| CanonicalPath.FormattedIsFixed | action_trajectory_loop_guard/src/action_trajectory_loop_guard/detector.py:238-243 | a root and clean components without backslashes are left alone |
| CanonicalPath.SkippedComponents | action_trajectory_loop_guard/src/action_trajectory_loop_guard/detector.py:238-243 | empty and dot components behind the first one do not change the canonical path |
| CanonicalPath.BackslashIsSlash | action_trajectory_loop_guard/src/action_trajectory_loop_guard/detector.py:239 | a backslash counts as a slash |
| LoopAdvice.DetectAndRedirect | action_trajectory_loop_guard/src/action_trajectory_loop_guard/detector.py:79-160 | the entry point raises iff some tool event is malformed, at the first one, and otherwise advises exactly about the first confirmed loop |
| LoopAdvice.NearMeans | action_trajectory_loop_guard/src/action_trajectory_loop_guard/detector.py:275-314 | two actions are near duplicates iff their tools agree and, for two bounded file reads, the paths agree and at least half of the smaller set of lines is in both, otherwise every argument that counts is in both with the same value or in neither, paths compared in canonical form |
| LoopAdvice.PathOfTexts | action_trajectory_loop_guard/src/action_trajectory_loop_guard/detector.py:238-243 | a missing or empty path is the working directory |
| LoopAdvice.ExtractMeans | action_trajectory_loop_guard/src/action_trajectory_loop_guard/detector.py:163-174 | the events that become actions are those of kind tool with a call, and those that raise are the ones among them without a text name or mapped arguments |
| LoopAdvice.ExtractFields | action_trajectory_loop_guard/src/action_trajectory_loop_guard/detector.py:163-196 | offset, number, tool, arguments, success, category and evidence of an action, from its event and from the metadata that counts |
| LoopAdvice.EvidenceMeans | action_trajectory_loop_guard/src/action_trajectory_loop_guard/detector.py:246-262 | an atom is collected iff an evidence item names it by an integer line, or without lines as a whole file, or a path does |
| LoopAdvice.DecisionMeans | action_trajectory_loop_guard/src/action_trajectory_loop_guard/detector.py:105-131 | each decision lists the last twelve actions and, in order, those of them that are near; its counts, its share of new evidence and its redundancy are those of the evidence that no earlier action brought |
| LoopAdvice.AdviceMeans | action_trajectory_loop_guard/src/action_trajectory_loop_guard/detector.py:133-154 | advice is given iff two consecutive actions after the warmup confirm a loop, with near pairs and new evidence told from the actions themselves |
| LoopAdvice.AdviceFields | action_trajectory_loop_guard/src/action_trajectory_loop_guard/detector.py:133-154 | the advice is about the first confirmed loop: offset, number and shown call of the action before the confirming one, and the larger of the two shares |
| LoopAdvice.NoNearPairNoAdvice | action_trajectory_loop_guard/src/action_trajectory_loop_guard/detector.py:108-154 | a trajectory in which no action nearly repeats one of the twelve before it gets no advice |
| RefreshCoalescing.WindowDays | examples/mail_assistant/web_app.py:394-399 | accepted windows are between 1 and 25550 days, exactly the stated inputs are accepted, and a week counts seven days |
| RefreshCoalescing.RefreshApp.constructor | examples/mail_assistant/web_app.py:302-310 | after start-up the first task is created over the stored snapshot, or over the empty initial one, which counts as covering everything |
| RefreshCoalescing.RefreshApp.StartBackgroundRefresh | examples/mail_assistant/web_app.py:335-346 | starts a task when none runs, else keeps the larger pending window |
| RefreshCoalescing.RefreshApp.ViewWindow | examples/mail_assistant/web_app.py:418-427 | a view of an uncovered window starts or queues a refresh |
| RefreshCoalescing.RefreshApp.TaskBegins | examples/mail_assistant/web_app.py:282-286 | the task clears the error and sets its target |
| RefreshCoalescing.RefreshApp.ScanPublishes | examples/mail_assistant/services.py:142-150 | a scan replaces the snapshot coverage and bumps the revision |
| RefreshCoalescing.RefreshApp.ScanRaises | examples/mail_assistant/web_app.py:289-291 | a scan that raises changes no snapshot |
| RefreshCoalescing.RefreshApp.TaskResumes | examples/mail_assistant/web_app.py:287-300 | the task ends on an error or when the pending window is covered, else goes on with it |
| RefreshCoalescing.RunKeepsInv | examples/mail_assistant/web_app.py:282-346 | every interleaving of requests and task steps keeps the invariant |
| RefreshCoalescing.NoRequestIsLost | examples/mail_assistant/web_app.py:282-300 | when a task none of whose scans raised ends, the snapshot covers every window used to start it or queued meanwhile |
| RefreshCoalescing.TargetsIncrease | examples/mail_assistant/web_app.py:282-300 | a task's targets strictly increase, so it scans at most once per distinct window asked for |
| RefreshCoalescing.RevisionTellsCoverage | examples/mail_assistant/services.py:142-150 | in every run the revision only grows, and the coverage changes only with it |
| RefreshCoalescing.RunIsShown | examples/mail_assistant/web_app.py:282-300 | while a task scans, its target is its window and there is no error; when it has ended there is an error iff its scan raised |
| RefreshCoalescing.StartMeans | examples/mail_assistant/web_app.py:302-310 | the first task has the default window, over the stored coverage with revision 1 or an empty snapshot with revision 0 |
| RefreshCoalescing.ShrinksIffNarrower | examples/mail_assistant/services.py:142-150 | a step loses coverage iff it publishes a scan narrower than the snapshot |
| RefreshCoalescing.LostAtStartUpIff | examples/mail_assistant/web_app.py:302-310 | in a run without explicit starts a window covered at the beginning is lost iff the start-up scan has published, was narrower, and no later scan has reached it |
| RefreshCoalescing.StartUpShrinks | examples/mail_assistant/web_app.py:302-310 | starting with a year of stored mail drops all but the default week |
| RefreshCoalescing.NarrowStartShrinks | examples/mail_assistant/web_app.py:335-346 | an explicit narrower start drops a covered window |
| RefreshCoalescing.AllCoveredIff | examples/mail_assistant/web_app.py:282-300 | in every run, when a task has ended, all windows it was asked for are covered iff no scan raised or the snapshot covers both the raising scan's window and the queued one |
| RefreshCoalescing.RaiseLeavesUncoveredIff | examples/mail_assistant/web_app.py:287-291 | the same condition, read off the state in which the scan raises |
| RefreshCoalescing.ViewsCoveredIff | examples/mail_assistant/web_app.py:282-300 | where only views ask, all asked windows are covered iff no scan raised |
| RefreshCoalescing.FailureDropsQueue | examples/mail_assistant/web_app.py:287-291 | a concrete run in which a raising scan loses a queued window |
| RuleText.QuotedIsEscaped | examples/mail_assistant/rules.py:41-43 | the three replacements escape every character once |
| RuleText.ReadBack | examples/mail_assistant/rules.py:41-43 | a quoted value reads back as itself, whatever follows |
| RuleText.CommentSuffixLoop | examples/mail_assistant/rules.py:58-71 | the scanning loop computes the comment suffix |
| RuleText.ScanIsSuffix | examples/mail_assistant/rules.py:58-71 | the comment is a suffix of the scanned text |
| RuleText.CommentAfterQuoted | examples/mail_assistant/rules.py:41-71 | scanning skips every quoted value, whatever it contains |
| RuleText.CommentRecovered | examples/mail_assistant/rules.py:58-71 | a comment placed after any quoted value is recovered |
| RuleText.AssignmentKeeps | examples/mail_assistant/rules.py:74-84 | the part before the value survives replacing the value |
| RuleText.ReplaceAssignment | examples/mail_assistant/rules.py:74-84 | a key is found iff some line assigns it, and otherwise nothing changes |
| RuleUpdate.ReplaceAt | examples/mail_assistant/rules.py:74-84 | only the first assignment of the key is rewritten |
| RuleUpdate.UpdateRuleKeepsOthers | examples/mail_assistant/rules.py:87-104 | an update changes the chosen block and nothing else; the number of headers stays |
| RuleUpdate.UpdateRuleReads | examples/mail_assistant/rules.py:74-104 | the updated rule reads back as the new priority and action, both keep their comments, and every other line of the block stays; a missing action is one line more |
| RuleUpdate.UpdateRuleTwice | examples/mail_assistant/rules.py:87-104 | updating twice equals updating once iff the block did not stop in a bare CR without an action |
| RuleUpdate.UpdateRuleErrors | examples/mail_assistant/rules.py:90-97 | the two errors arise exactly for a missing rule and a missing priority |
| RuleUpdate.UpdateNotIdempotent | examples/mail_assistant/rules.py:98-103 | a concrete text on which the second update changes the file again |
| RuleFile.SegmentsOf | examples/mail_assistant/rules.py:89-94 | cutting a file at its headers recovers the blocks it was made of |
| RuleFile.NewValueFacts | examples/mail_assistant/rules.py:79-83 | a new value part reads back as the value, keeps the comment and is a fixed point |
| RuleFile.AddedNewline | examples/mail_assistant/rules.py:98-103 | an added action line ends in CR LF iff the block contains CR LF, and in LF otherwise |
| RuleAppend.AppendAddsOneRule | examples/mail_assistant/rules.py:46-55 | appending keeps the text and adds one rule, or two when a bare CR had hidden a header |
| RuleAppend.SeparatorMeans | examples/mail_assistant/rules.py:46-50 | the separator is the least number of line feeds that puts an empty line before the new rule, and nothing in an empty file |
| RuleAppend.AppendedReads | examples/mail_assistant/rules.py:46-55 | the last rule is the new one, and every field of it reads back |
| RuleCandidates.CandidateEdits | examples/mail_assistant/rules.py:153-186 | with a loader that refuses bare CRs, a proposed update keeps the number of rules and is idempotent, and a proposed new rule keeps the text and adds exactly one rule |
| RuleCandidates.ProposingTwice | examples/mail_assistant/rules.py:153-186 | proposing the same edit of the edited file gives the same file, as long as the loader finds the same rule |
| RuleCandidates.RequestMeans | examples/mail_assistant/rules.py:131-151 | a request passes the checks iff it names one of the three fields and a non-empty value, given or taken from the right part of the message, where a domain follows the last at sign |
| RuleCandidates.ChosenMeans | examples/mail_assistant/rules.py:159-175 | the edited rule is the last one with that field and value and nothing else |
| RuleCandidates.CandidateIff | examples/mail_assistant/rules.py:131-188 | there is a candidate iff the request names a value, the loader accepts the file, the rule to edit has a priority and the loader accepts the outcome |
| RuleCandidates.CandidateReads | examples/mail_assistant/rules.py:172-183 | the edited rule reads back as the requested priority and action and all other rules stay; a new rule also reads back as the requested field |
| RuleCandidates.HiddenHeaderExample | examples/mail_assistant/rules.py:46-55 | a concrete text, outside TOML, to which appending adds two headers |
| RuleTransactions.RuleTransactionService.constructor | examples/mail_assistant/rules.py:107-112 | a new service has no pending proposals |
| RuleTransactions.RuleTransactionService.Propose | examples/mail_assistant/rules.py:122-211 | a proposal is stored under a fresh token with the digest of its base, or an error is returned and nothing changes |
| RuleTransactions.RuleTransactionService.Commit | examples/mail_assistant/rules.py:213-229 | one commit is one step of the runs whose outcome RuleLifetimes.CommitIff states |
| RuleTransactions.CandidateIsValid | examples/mail_assistant/rules.py:153-211 | every proposed text has passed the loader, and so had its base |
| RuleTransactions.CommitReplacesBase | examples/mail_assistant/rules.py:213-229 | a successful commit replaces exactly the text its proposal was computed from, with what the request makes of it |
| RuleTransactions.RunKeepsInv | examples/mail_assistant/rules.py:122-229 | every run of proposals, commits and outside edits keeps the invariant |
| RuleTransactions.RunsAreSerial | examples/mail_assistant/rules.py:122-229 | in every run the file is what the committed requests and outside edits give one after another, and no token commits twice |
| RuleTransactions.FileStaysValid | examples/mail_assistant/rules.py:213-229 | without outside edits a file that starts empty or valid stays so |
| RuleTransactions.StaleCommitFails | examples/mail_assistant/rules.py:213-229 | a commit after the file changed fails and uses up its token |
| RuleLifetimes.PendingIffAlive | examples/mail_assistant/rules.py:189-217 | in every run a token is pending iff a proposal with it was neither committed since nor found expired by a later proposal |
| RuleLifetimes.CommitIff | examples/mail_assistant/rules.py:213-229 | in every run a commit succeeds iff a live proposal has the token, its time to live is not over and the file is the one it was made for; otherwise the file stays, and the token is gone in every case |
| RuleLifetimes.CommitLive | examples/mail_assistant/rules.py:213-229 | committing a live proposal: what the file becomes, and which of the errors arises when |
| RuleLifetimes.ProposalSurvives | examples/mail_assistant/rules.py:206-211 | a proposal stays pending across later proposals until it expires |
| ImapText.QuotedRoundTrip | examples/mail_assistant/imap_trash.py:52-55 | a name is quoted iff it has no line break, and the server reads exactly that name wherever the argument stands |
| ImapText.ValidatedIdIsPlain | examples/mail_assistant/imap_trash.py:58-62 | a validated Message-ID has one at sign and needs no escape, with or without angle brackets |
| ImapText.ValidatedIdMeans | examples/mail_assistant/imap_trash.py:18-62 | an id is validated iff the stripped text is an at sign between two parts that are not empty, of exactly the permitted ASCII characters |
| ImapSession.CandidateIsSafe | examples/mail_assistant/imap_trash.py:247-279 | every accepted candidate has quotable texts and a folder other than the Trash |
| ImapSession.CandidateMeans | examples/mail_assistant/imap_trash.py:247-279 | a message is accepted iff it belongs to an account, its folder is named and not the Trash in any case, its Message-ID is valid and neither mailbox name has a line break |
| ImapSession.Enter | examples/mail_assistant/imap_trash.py:410-430 | opening a session changes no mail |
| ImapSession.SearchUids | examples/mail_assistant/imap_trash.py:282-312 | searching changes no mail |
| ImapSession.Locate | examples/mail_assistant/imap_trash.py:352-379 | locating a message, with the All Mail fallback, changes no mail |
| ImapSession.UniqueMatch | examples/mail_assistant/imap_trash.py:440-452 | success means exactly one match, and no mail changed |
| ImapSession.MoveOneFacts | examples/mail_assistant/imap_trash.py:457-467 | one move sends at most one command, after exactly one match and to the account's own Trash, succeeds iff it was answered OK, and conserves each account's mail |
| ImapSession.MoveOneAccounted | examples/mail_assistant/imap_trash.py:457-467 | mail leaves only the place that the command names and arrives only in the Trash |
| TrashBatch.SortedCover | examples/mail_assistant/imap_trash.py:509-517 | the grouping loop puts every message exactly once into its account's group or among the rejected |
| TrashBatch.GroupMessages | examples/mail_assistant/imap_trash.py:510-517 | the loop builds those groups and writes the rejections into the outcomes |
| TrashBatch.TrashSession.Enter | examples/mail_assistant/imap_trash.py:410-430 | the session is open iff no step of the login failed |
| TrashBatch.MoveInSession | examples/mail_assistant/imap_trash.py:521-527 | a failed move is recorded and does not stop the following ones |
| TrashBatch.FailGroup | examples/mail_assistant/imap_trash.py:528-530 | a session error becomes the outcome of the whole group |
| TrashBatch.MoveMessagesToTrash | examples/mail_assistant/imap_trash.py:501-531 | the servers and outcomes after the batch are those of its attempts in order |
| TrashResults.BatchIsFaithful | examples/mail_assistant/imap_trash.py:501-531 | one attempt per message; attempts succeed exactly where a server answered OK, in order; every command follows one match and targets that account's Trash; all mail is conserved |
| TrashTrace.EnterMeans | examples/mail_assistant/imap_trash.py:410-430 | a session opens iff there is a password and the server takes the connection and the login and announces MOVE; the Gmail flag is its X-GM-EXT-1 |
| TrashTrace.SearchMeans | examples/mail_assistant/imap_trash.py:282-312 | the searches stop at the first non-empty answer, and only all of them in vain mean not found |
| TrashTrace.LocateMeans | examples/mail_assistant/imap_trash.py:352-379 | a message is located in its own folder, or, only on Gmail and only after that found nothing, in the one mailbox named as All Mail |
| TrashTrace.BatchIsTraced | examples/mail_assistant/imap_trash.py:410-467 | behind every move of a batch lies an open session of its account, a writable folder in which the searches gave exactly that UID, and the reply to the MOVE decides its outcome |
| TrashTrace.MoveNeedsCapability | examples/mail_assistant/imap_trash.py:427-428 | no move is sent for an account unless its server announced MOVE during the batch |
| TrashTrace.UniqueMeans | examples/mail_assistant/imap_trash.py:382-452 | success is exactly one located UID; not found means that nothing was located, an unexpected count that two or more were |
| TrashTrace.FoundIsLocated | examples/mail_assistant/imap_trash.py:483-498 | what a preflight found is one UID that the server gave in a read-only session opened during it |
| TrashTrace.MissedIsAbsent | examples/mail_assistant/trash_workflow.py:106-135 | what a proposal skips the server did not have: every search of that message's own preflight came back empty |
| TrashResults.LastAttemptDecides | examples/mail_assistant/imap_trash.py:509-531 | the outcome of an id is that of the last attempt with it |
| TrashResults.TruthfulIff | examples/mail_assistant/imap_trash.py:509-531 | outcomes tell the truth about all attempts iff attempts that share an id share their fate |
| TrashResults.DistinctIsTruthful | examples/mail_assistant/imap_trash.py:509-531 | with distinct ids no outcome is overwritten |
| TrashResults.OutcomeNoneIffMoved | examples/mail_assistant/imap_trash.py:501-531 | with distinct ids an outcome is None iff that message's UID MOVE returned OK |
| TrashResults.MovedAtMostOnce | examples/mail_assistant/imap_trash.py:518-527 | with distinct ids no message is the subject of two move commands |
| TrashResults.SharedIdHidesFailure | examples/mail_assistant/imap_trash.py:509-531 | with one id on two accounts a failed session can be reported as a success |
| TrashResults.SharedIdExample | examples/mail_assistant/imap_trash.py:509-531 | a concrete environment in which that happens |
| TrashResults.MoveTellsEffectIff | examples/mail_assistant/imap_trash.py:457-467 | a move reports success iff it emptied the named place, except exactly for an OK about a missing UID and for the lost reply to a move that took effect |
| TrashResults.MissingUidExample | examples/mail_assistant/imap_trash.py:461-467 | a concrete server that says OK for a UID no mailbox holds |
| TrashResults.LostReplyExample | examples/mail_assistant/imap_trash.py:461-467 | a concrete server that moves the message and loses the reply |
| TrashTruth.AlwaysTruthfulIff | examples/mail_assistant/imap_trash.py:501-531 | the outcomes are truthful for all replies, passwords and mailboxes iff no two positions share an id with at least one of them movable |
| TrashTruth.NoClashIsTruthful | examples/mail_assistant/imap_trash.py:501-531 | without such a pair every run is reported truthfully |
| TrashTruth.ClashLies | examples/mail_assistant/imap_trash.py:501-531 | for every such pair, also of one message given twice on one account, a server that is reported untruthfully |
| TrashTruth.PickedIsTruthful | examples/mail_assistant/web_app.py:740-759 | messages looked up in the snapshot by distinct ids are always reported truthfully |
| TrashWorkflow.VerifiedIsFound | examples/mail_assistant/imap_trash.py:483-498 | when a preflight ends without an error, each message's search, in a session of its account opened during that preflight, gave exactly one match |
| TrashWorkflow.SurveyFacts | examples/mail_assistant/trash_workflow.py:68-135 | a proposal splits its messages, in order, into available ones, each found exactly once while it ran, and skipped ones, each not found by its own preflight; it changes no mail |
| TrashWorkflow.Workflow.FilterAvailableRows | examples/mail_assistant/trash_workflow.py:106-135 | the loop sorts messages by their own preflight and stops at other errors |
| TrashWorkflow.Workflow.Propose | examples/mail_assistant/trash_workflow.py:68-104 | a successful proposal purges expired entries and stores exactly the available ids; a failed one stores nothing |
| TrashWorkflow.Workflow.Commit | examples/mail_assistant/trash_workflow.py:143-172 | one outcome per message, in order, read off the batch results |
| TrashWorkflow.CommitReportsTheTruth | examples/mail_assistant/trash_workflow.py:143-172 | with distinct ids a message is reported, under its id and subject, as moved iff its UID MOVE returned OK |
| TrashWorkflow.HandedOutAsProposed | examples/mail_assistant/trash_workflow.py:94-141 | in every run a pop hands out exactly the ids proposed under its token, within the time to live |
| TrashWorkflow.HandedOutIff | examples/mail_assistant/trash_workflow.py:94-141 | in every run a pop hands out the given ids iff a proposal has its token and these ids, was neither popped nor found expired since, and its time to live is not over |
| TrashWorkflow.HandedOutOnce | examples/mail_assistant/trash_workflow.py:94-141 | no token is handed out twice |
| TrashWorkflow.ProposalSurvives | examples/mail_assistant/trash_workflow.py:96-104 | an unexpired proposal stays available until it is popped, whatever else is proposed |
| MailMerge.MergeAssociative | mail_lib/thunderbird.py:509-539 | merging copies is associative |
| MailMerge.FoldSplits | mail_lib/thunderbird.py:509-539 | groups of folders can be merged separately |
| MailMerge.FoldRead | mail_lib/thunderbird.py:509-539 | the read flag is the conjunction over summary-file copies if there are any, else over all copies |
| MailMerge.ReadIgnoresOrder | mail_lib/thunderbird.py:509-539 | the read state does not depend on the folder order |
| MailMerge.FoldBody | mail_lib/thunderbird.py:509-539 | subject, body and mailbox path come from one copy: the first with a body, else the last |
| MailDelivery.IterMessages | mail_lib/thunderbird.py:542-584 | one message per id with a copy that counts, in the order of the first such copies, each field taken from these copies as promised: read flag, body, sender, recipients, date, folders and metadata |
| MailDelivery.DeliveredIds | mail_lib/thunderbird.py:555-584 | an id is delivered, and only once, iff some folder holds a copy with that non-empty id, dated at or after the cutoff when there is one, and listed in the folder's summary file when that lists anything |
| MailDelivery.FoldMerged | mail_lib/thunderbird.py:471-539 | where each field of a merged message comes from: metadata first for the addresses, else the first copy that has a value; body, subject and mailbox from one copy |
| MailDelivery.SurvivesCounts | mail_lib/thunderbird.py:561-578 | the filters keep exactly the copies that count, read as they lie in their folder |
| MailDelivery.OneMessagePerId | mail_lib/thunderbird.py:555-584 | exactly one message per surviving id, whose read flag speaks for all its copies |
| Text.AfterLastAt | mail_lib/personal_rules.py:209 | the domain is everything behind the last at sign and has none itself |
| PersonalRules.CompileRules | mail_lib/personal_rules.py:77-166 | the loop compiles all rules, numbered from 1 and valid, or reports the errors of every bad rule |
| PersonalRules.LoadRules | mail_lib/personal_rules.py:59-172 | loading succeeds iff the file is readable, has no other top-level key, `rule` is an array of tables and no rule has an error; then the rules are valid and the warnings are theirs, else there are none |
| PersonalRules.CompiledIsValid | mail_lib/personal_rules.py:84-166 | a compiled rule never has both sender and domain, has some predicate, and its domain has no at sign |
| PersonalRules.AcceptedIff | mail_lib/personal_rules.py:78-144 | a rule has no errors iff it is well-formed in plain words |
| PersonalRules.CompiledFields | mail_lib/personal_rules.py:84-166 | a compiled rule has the trimmed lower-case texts, the trimmed note, and the named priority and action |
| PersonalRules.MatchesMeans | mail_lib/personal_rules.py:205-216 | a rule matches iff the trimmed lower-case sender is its sender and ends in its domain and its subject occurs in the lower-case subject, as far as it has them |
| PersonalRules.KeyLessIsRank | mail_lib/personal_rules.py:146-154 | a subject yields to a domain, that to a sender, that to a domain with subject, that to a sender with subject; among equals the later rule wins |
| PersonalRules.SelectedWins | mail_lib/personal_rules.py:238-244 | the selected rule matches and beats every other match; none is selected only when none matches |
| PersonalRules.WinnerIsSelected | mail_lib/personal_rules.py:238-244 | whoever beats all other matches is selected |
| PersonalRules.SpecificityIsShape | mail_lib/personal_rules.py:146-154 | equal specificity means the same kinds of predicates |
| PersonalRules.TiesAgree | mail_lib/personal_rules.py:205-216 | rules of equal specificity that match one message agree on sender and domain |
| PersonalRules.TieIsPossible | mail_lib/personal_rules.py:205-216 | two rules tie on some message iff they agree on sender, domain and the presence of a subject |
| PersonalRules.CollisionWarnings | mail_lib/personal_rules.py:179-202 | the nested loops emit the warnings of all pairs in order |
| PersonalRules.ReportedIff | mail_lib/personal_rules.py:179-202 | a pair is reported iff its predicates are identical or its bare subjects nest |
| PersonalRules.WarningMeansTie | mail_lib/personal_rules.py:179-202 | every reported pair ties and the later rule has the larger key |
| PersonalRules.LaterWins | mail_lib/personal_rules.py:196-201 | of two reported rules the later wins whenever both match |
| PersonalRules.ShadowedIsNeverSelected | mail_lib/personal_rules.py:183-187 | a rule reported as identical to a later one is never selected |
| PersonalRules.ShadowedChangesNothing | mail_lib/personal_rules.py:183-187 | deleting such a rule changes no classification |
| PersonalRules.UnselectedIsRedundant | mail_lib/personal_rules.py:238-244 | deleting any rule that is not selected for a message does not change its selection |
| PersonalRules.UnreportedTie | mail_lib/personal_rules.py:189-202 | which ties go unreported |
| PersonalRules.SomeTiesAreUnreported | mail_lib/personal_rules.py:189-202 | two subject rules tie on a concrete message without a warning |
| PersonalRules.ClassifyAgrees | mail_lib/personal_rules.py:219-260 | classifying a message equals applying the full rule list to its built-in triage, with the winner's action and number |
| PersonalRules.ClassifyMeans | mail_lib/personal_rules.py:219-260 | with a match the winner's priority, action and number, its note or else the default text, and its tag behind the built-in matches; without one the built-in triage; an error iff the triage is about another message |

## Left out

- Files, SQLite, sockets, temporary files and HTTP: a file is its text, a server is its mailboxes and its replies, a clock is an input.
- UTF-8 decoding errors and lone surrogates in Python strings.
- TOML, JSON, e-mail, Mork and Unicode tables: the rule loader, NFC and case functions are parameters; quoting, scanning and filtering are concrete.
- Audit counters of `audit_export` that do not enter the two readiness flags (Unicode statistics, timestamps, content checks, hashes).
- Conversation-level checks of the audit other than parent links.
- Batch ids, claim ids, review indices and content hashes, which are derived from modelled values; approved rows keep their order of emission instead of the final sort by claim id.
- Evidence excerpts, related candidates, topic classification and the HTML of the review queue.
- `json.dumps` of normalized arguments is modelled as equality of the normalized mappings; values that only differ in how JSON prints them are not told apart differently.
- Two evidence atoms of one path, one without a line and one with line -1, have the same sort key in the source; the model breaks that tie.
- The redirect text of an intervention and the token statistics of the replay script.
- Cancellation of the refresh task at shutdown, and the snapshot's messages: only the coverage and the revision are modelled.
- Diffs, symlink checks, locks and the atomic file replacement of rule edits: a commit is one atomic step.
- Account lookup from folder URIs, directories and prefs.js: a function parameter of the Trash model.
- Parsing of CAPABILITY, LIST and SEARCH replies, and logout: replies arrive as lists of UIDs, capabilities in upper case, or names of All Mail mailboxes.
- The web routes that turn a token's ids back into messages, and the message subjects in skipped outcomes.
- Gloda rows, folder discovery and body loading: the merge starts from copies as the mailbox reader returns them, with normalised ids.
- Built-in triage: a function parameter of classification.
- RefreshCoalescing.TargetsIncrease: speaks of one task at a time; a history of earlier tasks is not kept.
- NormalizeTwice.IdempotentIff: takes as a hypothesis that NFC turns no clean text into an unclean one, because the Unicode tables are not part of this model.
- NormalizeTwice.IdempotentIffFiltered: takes as hypotheses that NFC turns no clean text into an unclean one and decides word by word, for the same reason.
- PersonalRules.TieIsPossible: assumes that stripping and lower-casing leave the witness message alone, because the case tables are not part of this model.
- PersonalRules.LoadRules: assumes that lower-casing never empties a text.
- PersonalRules.AcceptedIff: assumes the same.
- PersonalRules.CompiledFields: assumes the same.
- LoopGuard.ReplayFidelity: assumes that `str` of a text is that text.
- LoopAdvice.PathOfTexts: assumes the same.
- ReviewDecisions.MaterializeApproved: takes log lines that the validator has accepted; parsing them and the lengths of reviewer and rationale are not modelled.
- RuleCandidates.CandidateEdits: takes as a hypothesis that the loader refuses bare carriage returns, because the TOML parser is not part of this model.
- RuleCandidates.CandidateReads: takes the same hypothesis.
- RuleCandidates.ProposingTwice: takes as a hypothesis that the loader finds the same rule in the edited file, for the same reason.
- TrashTrace.MissedIsAbsent: takes as a hypothesis that the account lookup, a parameter here, never raises the not-found error itself.
- TrashBatch.MoveMessagesToTrash: a server refuses, accepts or loses each reply as it likes, but changes mailboxes only through MOVE; other clients are not modelled.
