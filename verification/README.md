# Kolega Code: histories, plans, recipes and protocols

Kolega Code is a coding agent. This project models the parts of it whose
correctness is not visible from one function body, and proves what they promise
for every input, every interleaving or every run.

- **Conversation history.** `Repaired` is the tool-call/tool-result repair, first as
  a function over entries that may have been drained, then as the in-place method
  `RepairInPlace` on the caller's own array. `PairedInOrder` and `ValidForProvider`
  say what a history must look like without mentioning the repair. `Conservation`
  counts every block through it, `Drains` reads off the history which messages the
  repair consumes and `Landings` where the others come out; `Regrouping` describes the
  whole repaired history without the run. `Appending` reconciles incoming results with held
  ones, `AppendedContent` says what becomes of everything that comes in, `Recovery` follows
  an interrupted call to its late result. `Compaction` cuts histories and builds the view that is sent, `Boundaries` follows
  the boundary over the life of a conversation, `Adaptation`
  rewrites a history for another provider, `AdaptedContent` says block by block how, `ImageBudget` finds the largest cap on
  image sizes that fits a budget, `Checkpoints` keeps the two cache markers.
- **Compaction planner.** `Planner` picks the span to leave out, widens it and climbs
  down the budget ladder against an arbitrary token counter and an arbitrary
  rejecting provider; `Compressor` puts it to work on a conversation.
- **Edit recipes.** Positions of a file are numbered so that slot 2g - 1 is line g and
  slot 2g the place after it; every operation then takes an interval of slots.
  `Splicing` says what patching one after the other lays down and when that is the
  simultaneous splice, `Applying` and `Trees` carry this to files and trees, `Deriving`, `Numbering` and
  `RoundTrip` prove that recipes derived from a line diff rebuild the other tree.
- **ACP session.** `Session` is a step system in which every `await` is a point where
  any other step may come in. The session writes a log that no step reads, and the
  safety properties are stated on that log alone. `Approvals` says which step writes what and
  on whose answer a plan is implemented, `Transitions` proves the nested code equal to one
  flat table, `Closing` when a session can still be closed.
- **Usage publisher, URL scan, trial pool.** `Publisher`, `UrlScan` and `TrialPool`.

A text's hash is represented by the text, the line diff by any opcode list that meets
`difflib`'s contract, and I/O, clocks, token counts, provider verdicts and model
replies are arbitrary functions or arbitrary choices of steps.

Six properties one would like are false of the code. Each has an input that shows it,
and a condition on the input that says when it holds:

- Repairing gives a provider-valid history for all histories over a set of blocks if
  and only if a result that answers a call in that set carries the call's provider id
  (`Repair.AlwaysValidIffCorrelated`; input: `Repair.UncorrelatedPairStaysInvalid`).
  Provider validity compares provider ids, the repair compares durable execution ids.
- Where each call has at most one answer, the repair conserves blocks if and only if no
  user message right after a call-bearing one has blocks that all answer calls of
  earlier messages (`Drains.ConservedIffShielded`; input:
  `Conservation.DrainedResultAppearsTwice`). Without that proviso the condition is still
  enough (`Conservation.ShieldedHistoryIsConserved`), and the exact condition is that the
  run reads no drained message (`Conservation.ConservedIffNoDrainedRead`).
- Where each call has at most one answer, extending a history leaves the compaction
  boundary a safe cut if and only if no call-bearing message lands right before it, counting
  what each message leaves in the repaired history (`Boundaries.SafeAfterRepairIff`, over
  runs `Boundaries.RunStaysSafeIff`; input: `Boundaries.ExtensionSplitsExchange`, from where
  the planner's head index leaves its range by `Planner.HeadInRangeIffPriorSafe`). One result
  per execution is enough for the proviso (`Boundaries.SoundHasOneAnswerEach`), without it the
  exact condition is what the run counts (`Boundaries.SafeAfterRepairIffRun`), and a
  prefix whose exchanges are whole when it is folded is enough for all later steps
  (`Boundaries.BoundaryStaysSafe`).
- In-place editing is the simultaneous splice if and only if every insertion that is
  made after its line was patched commutes with what it is displaced across, for any
  number of such ties (`Applying.SpliceIffTiesCommute`; input: `Applying.IdDecidesTie`).
- Adapting a valid history gives a valid one if and only if every kept call still has a
  kept result in the next message (`Adaptation.AdaptedIsValidIff`; input:
  `Adaptation.ReusedIdBreaksPairing`), and for every target if and only if each call has a
  result there that lasts wherever the call does (`Adaptation.AlwaysValidIffPairsLast`); that calls sharing an id agree on their origin and
  that kinds match is enough.
- No schedule restarts a settled trial if and only if the pending trials are distinct
  (`TrialPool.NeverRestartsIffDistinct`; input: `TrialPool.RestartIsPossible`).

Where documentation and code differ, the code is followed: the docstring of
`adapt_history_for_provider` says that tool calls are never dropped, and the code
replaces incompatible freeform calls by text.

Every lemma carries `{:induction false}`: proofs are explicit.

## Model

| member | source | states |
|---|---|---|
| Repair.RepairedIsPaired | kolega_code/agent/conversation.py:819-970 | for every history, each call-bearing assistant message of the repaired one is directly followed by a user message that opens with one result per call, in call order |
| Repair.RepairedIsValid | kolega_code/agent/conversation.py:771-802 | the repaired history passes the provider's own check when results carry their call's provider id |
| Repair.AlwaysValidIffCorrelated | kolega_code/agent/conversation.py:853-874 | over all histories built from a set of blocks, repair always yields a valid one if and only if answering results in that set carry the call's provider id |
| Repair.UncorrelatedPairStaysInvalid | kolega_code/llm/models.py:1224-1235 | a pair matched by execution id with another provider id is left as it is and refused by the provider check |
| Repair.PairedPrefixIsStable | kolega_code/agent/conversation.py:819-970 | repairing P + M is P followed by the repair of M alone, for every paired P |
| Repair.RepairedIsIdempotent | kolega_code/agent/conversation.py:819-970 | repairing twice is repairing once |
| Repair.SearchWhenFull | kolega_code/agent/conversation.py:887-925 | skipping the search once every call has its result changes nothing |
| Repair.Complete | kolega_code/agent/conversation.py:927-943 | one result per call in call order: the one found, or a placeholder |
| Recovery.RepairedInventsErrors | kolega_code/agent/conversation.py:927-943 | every block of a user message that repair puts out stood in one of the history, or is an error with the interruption text for one of its calls: with that call's id, name, kind and execution |
| Recovery.RepairedAnswersEachCall | kolega_code/agent/conversation.py:839-943 | an execution without a result has, after repair, exactly as many as it has calls |
| Recovery.LateResultReplaces | kolega_code/agent/conversation.py:662-716 | when the result of an interrupted call comes in after the repair it takes the place of the notice, and nothing else changes |
| Regrouping.RepairedIffRegrouped | kolega_code/agent/conversation.py:839-970 | where each call has at most one answer and nothing is read twice, the repaired history is the only one with these properties: each call-bearing message is followed by the results its calls own or notices, in call order, and by what is left of the next message; every other message stands in place with the blocks no earlier call owns |
| Conservation.RepairedKeepsOrder | kolega_code/agent/conversation.py:839-970 | assistant and system messages and plain-string user messages come out unchanged and in order |
| Conservation.RepairedAccounts | kolega_code/agent/conversation.py:839-970 | the copies of any block in the output are those of the input, plus placeholders, plus blocks of drained messages read again |
| Conservation.ConservedIffNoDrainedRead | kolega_code/agent/conversation.py:870-885 | blocks are conserved up to placeholders if and only if no drained message is read again |
| Conservation.ShieldedHistoryIsConserved | kolega_code/agent/conversation.py:870-885 | it is enough for conservation that every user message right after calls is empty or holds a block that answers no earlier call |
| Conservation.CopiesIsMultiplicity | kolega_code/agent/conversation.py:839-970 | the counts of these laws are multiplicities, so equal counts are equal multisets |
| Drains.ConservedIffShielded | kolega_code/agent/conversation.py:870-925 | where each call has at most one answer, blocks are conserved if and only if no user message right after calls has blocks that all answer earlier calls |
| Drains.SearchFilters | kolega_code/agent/conversation.py:887-925 | where each call has at most one answer, the search strips every later message of exactly the answers to its calls |
| Drains.ReadsDrainedIffExposed | kolega_code/agent/conversation.py:839-970 | from any point of a run on, a drained message is read again if and only if the input has such a message from there on |
| Conservation.DrainedResultAppearsTwice | kolega_code/agent/conversation.py:872 | two call-bearing messages and one user message with only the first one's result make that result appear twice |
| Conservation.PlaceholderIsLastResort | kolega_code/agent/conversation.py:887-943 | a call gets a placeholder only if no undrained user message after it holds an answer |
| Conservation.ExchangeConserves | kolega_code/agent/conversation.py:839-970 | one exchange moves blocks and adds only placeholders, except for a drained message read again |
| Conversations.RepairInPlace | kolega_code/agent/conversation.py:819-970 | the in-place loop with its processed indices computes exactly the repaired history and touches only user messages with block content |
| Conversations.SearchRemaining | kolega_code/agent/conversation.py:887-925 | the search loop over the rest of the list takes exactly the unmatched answers, strips or drains their messages and leaves all else |
| Conversations.ScanBlocks | kolega_code/agent/conversation.py:860-880 | the block loop takes the first unmatched answer for each call and keeps the other blocks in order |
| Conversations.Conversation.Extend | kolega_code/agent/conversation.py:733-738 | the history becomes the repair of old and new, and on a paired history the effective view grows by exactly the repaired new messages |
| Conversations.Conversation.AppendUser | kolega_code/agent/conversation.py:618-716 | the three loops compute the reconciled history whose laws the Appending lemmas prove |
| Conversations.Conversation.SettleHistory | kolega_code/agent/conversation.py:655-703 | the walk over the held messages settles the pending results and returns the unmatched ones |
| Conversations.Conversation.AppendAssistant | kolega_code/agent/conversation.py:718-731 | the message is appended, with a placeholder text when it is empty |
| Conversations.Conversation.ApplyCompaction | kolega_code/agent/conversation.py:1063-1071 | only the boundary moves, clamped to the history; the history is untouched |
| Conversations.Conversation.CompactionSplitPoint | kolega_code/agent/conversation.py:1073-1087 | the split point is the snapped request when the prefix before it is long enough |
| Conversations.Conversation.SnapToSafeBoundary | kolega_code/agent/conversation.py:1094-1107 | the backward loop finds the largest safe cut not above the request |
| Appending.AppendUserReconciles | kolega_code/agent/conversation.py:618-716 | afterwards there is one result per execution, each incoming execution is represented, held successes stay, and held failures are replaced exactly as promised |
| Appending.AppendRunsStaySound | kolega_code/agent/conversation.py:618-731 | the same over every run of appends: at most one result per execution, no success ever replaced, every incoming execution represented |
| Appending.AppendPreserves | kolega_code/agent/conversation.py:618-731 | one append keeps soundness and every held success |
| Appending.PendingIsLast | kolega_code/agent/conversation.py:634-653 | of incoming duplicates the last one is kept, one per execution |
| Appending.WalkSettles | kolega_code/agent/conversation.py:662-694 | each held block becomes itself or the one pending result of its execution, by the replacement rule |
| Appending.WalkLeaves | kolega_code/agent/conversation.py:662-694 | exactly the pending results whose execution is not held stay pending |
| Messages.AnswersMeans | kolega_code/llm/models.py:1220-1235 | a result with an execution id answers the call of that execution, one without the call with its provider id |
| Messages.CallsInApart | kolega_code/agent/conversation.py:846-848 | the calls of a message are taken in order, each as often as it is there |
| AppendedContent.AppendKeepsTexts | kolega_code/agent/conversation.py:618-726 | whatever is no tool result is kept, held or incoming, in order; empty content is recorded |
| AppendedContent.AppendKeepsPlaces | kolega_code/agent/conversation.py:662-726 | every message stays in its place with at most results exchanged one for one, and at most one is added behind them |
| AppendedContent.AddedMessage | kolega_code/agent/conversation.py:704-726 | the added message holds the incoming results of executions not held, then everything else, and there is none if that is nothing |
| AppendedContent.PendingInOrder | kolega_code/agent/conversation.py:634-656 | incoming results are taken in the order in which their executions first come in |
| AppendedContent.HeldGivesWay | kolega_code/agent/conversation.py:662-702 | a held success stays; a held error gives way to a success, and to anything if it tells of an interruption |
| AppendedContent.AssistantAppended | kolega_code/agent/conversation.py:718-731 | an assistant message is added as it is, or recorded as empty |
| Compaction.CutKeepsExchangesWholeIffSafe | kolega_code/agent/conversation.py:1094-1107 | on a history of whole exchanges, a cut leaves whole exchanges on both sides if and only if it is safe |
| Compaction.SnapIsLargestWholeCut | kolega_code/agent/conversation.py:1094-1107 | the snapped cut splits nothing, and every cut between it and the request would |
| Compaction.SnapIsMonotone | kolega_code/agent/conversation.py:1094-1107 | a later request never snaps to an earlier cut |
| Compaction.SplitPointIsLargest | kolega_code/agent/conversation.py:1073-1088 | the split point is the largest safe cut that leaves the recent messages behind it, if and only if it leaves enough before it |
| Compaction.EffectiveHolds | kolega_code/agent/conversation.py:746-762 | the view is every skill message of the folded prefix, in order, the summary, and all of the rest |
| Compaction.ProtectedMeans | kolega_code/agent/conversation.py:758-769 | what marks a message as carrying skill content: a user's text, alone or among blocks |
| Compaction.CompactedMeans | kolega_code/agent/conversation.py:1063-1071 | the summary is recorded as one text of a user's, at the split point |
| Compaction.EffectiveStaysValid | kolega_code/agent/conversation.py:744-757 | the view of a provider-valid history is provider-valid wherever the boundary lies |
| Compaction.CompactionAtSplitPoint | kolega_code/agent/conversation.py:1063-1092 | compaction at a split point keeps exchanges whole on both sides and the view valid |
| Landings.MessagesLand | kolega_code/agent/conversation.py:839-970 | where each call has at most one answer, the history alone tells how long its repaired form is and which places in it hold call-bearing messages |
| Landings.RunCalls | kolega_code/agent/conversation.py:839-970 | for every history, the run's own count tells at which places it puts out call-bearing messages |
| Boundaries.SafeAfterRepairIff | kolega_code/agent/conversation.py:733-738 | where each call has at most one answer, extending leaves the boundary a safe cut if and only if it stays within the history and no call-bearing message lands right before it |
| Boundaries.SafeAfterRepairIffRun | kolega_code/agent/conversation.py:733-738 | the same for every history, by the run's own count |
| Boundaries.SoundHasOneAnswerEach | kolega_code/agent/conversation.py:618-714 | one result per execution, which appending keeps, is one answer per call |
| Boundaries.ExtensionSplitsExchange | kolega_code/agent/conversation.py:733-738 | an unanswered call before the boundary makes an extension move the boundary between a later call and its result |
| Boundaries.RunStaysSafeIff | kolega_code/agent/conversation.py:618-738 | a run of appends, extensions and compactions keeps the boundary a safe cut throughout if and only if no extension lands a call-bearing message right before it |
| Boundaries.BoundaryStaysSafe | kolega_code/agent/conversation.py:618-738 | where results carry execution ids and each folded prefix has whole exchanges when it is folded, the boundary stays a safe cut over every run |
| Boundaries.UserKeepsSeal | kolega_code/agent/conversation.py:654-714 | reconciling incoming results keeps the exchanges of the folded prefix whole |
| Boundaries.ExtendKeepsSeal | kolega_code/agent/conversation.py:733-738 | an extension keeps the exchanges of the folded prefix whole |
| Boundaries.PairedHistoryFolds | kolega_code/agent/conversation.py:1073-1088 | compacting a paired history always folds whole exchanges |
| Compaction.ExtendGrowsEffectiveView | kolega_code/agent/conversation.py:733-757 | under an active compaction, extending turns the view V into V followed by the repaired new messages |
| Adaptation.AdaptContentBlocks | kolega_code/agent/conversation.py:312-452 | the accumulator loop, nested results included, computes the adapted blocks and the change flag whose laws the following lemmas prove |
| Adaptation.AdaptHistory | kolega_code/agent/conversation.py:455-535 | the two loops compute the adapted history; when nothing changed it is the very input |
| Adaptation.AdaptStored | kolega_code/agent/conversation.py:455-535 | each remaining message stands in its place: as the same object if nothing in it changes, as a new object otherwise; no stored message is written to |
| Adaptation.AdaptOneStored | kolega_code/agent/conversation.py:482-535 | the stored object itself is handed on if and only if its blocks report no change |
| Adaptation.RecordOrigins | kolega_code/agent/conversation.py:496-504 | the dictionaries hold the origin of the last call with each id |
| Adaptation.AllOriginsMeans | kolega_code/agent/conversation.py:496-504 | exactly the ids of calls are recorded, each with the origin of one of its calls |
| Adaptation.BlocksSurvive | kolega_code/agent/conversation.py:312-452 | a message keeps exactly its kept calls and the ids of its kept results, is emptied only if it had neither, and is unchanged unless a change is reported |
| AdaptedContent.BlocksApart | kolega_code/agent/conversation.py:330-452 | blocks are adapted independently of each other and keep their order |
| AdaptedContent.TextBecomes | kolega_code/agent/conversation.py:436-450 | text of users and tools is kept to the letter; an assistant's is scrubbed, and left out if nothing remains |
| AdaptedContent.ReasoningBecomes | kolega_code/agent/conversation.py:338-348 | reasoning is kept exactly for a target that can replay its provider's |
| AdaptedContent.ImageBecomes | kolega_code/agent/conversation.py:50-90 | an image becomes what the image conversion makes of it |
| AdaptedContent.CallBecomes | kolega_code/agent/conversation.py:349-360 | a call is kept, or mentioned by name and source if it is freeform and does not suit the target |
| AdaptedContent.ResultBecomes | kolega_code/agent/conversation.py:361-415 | a result of text is kept, stripped of foreign hashlines, or reported in words with its content |
| AdaptedContent.NestedBecomes | kolega_code/agent/conversation.py:370-435 | a result of blocks stays that result, adapted inside as tool output |
| AdaptedContent.ReasoningSurvives | kolega_code/agent/conversation.py:338-348 | the reasoning of a message goes on complete and in order to a target that can read it, and to no other |
| AdaptedContent.NoForeignReasoning | kolega_code/agent/conversation.py:455-535 | whatever the history, adapted messages with reasoning are from a provider the target can read |
| AdaptedContent.NothingToAdapt | kolega_code/agent/conversation.py:455-535 | a target that takes every block as it is gets the very history |
| AdaptedContent.CompatibleProviders | kolega_code/agent/conversation.py:235-240 | each provider reads itself, the two of OpenAI read each other, and nobody else does |
| AdaptedContent.MessageBecomes | kolega_code/agent/conversation.py:504-535 | a message of plain text is handed on, any other holds its blocks adapted, and is left out only if it loses them all |
| Adaptation.AdaptAllCons | kolega_code/agent/conversation.py:504-535 | messages are adapted one by one, in order |
| AdaptedContent.OriginMeans | kolega_code/agent/conversation.py:289-297 | provider and edit protocol are those recorded with the message; otherwise the patch tool tells its protocol |
| AdaptedContent.LastUseCounts | kolega_code/agent/conversation.py:492-502 | of calls that share an id the last one in the history is recorded, wherever it is |
| Adaptation.ExchangeStaysTogether | kolega_code/agent/conversation.py:353-397 | a call and its result are both kept or both turned to text when calls sharing an id agree on their origin and kinds match |
| Adaptation.AdaptedIsValidIff | kolega_code/agent/conversation.py:455-535 | a valid history stays valid if and only if every kept call still has a kept result in the next message |
| Adaptation.AlwaysValidIffPairsLast | kolega_code/agent/conversation.py:235-286 | a valid history is adapted to a valid one for every target if and only if each call has a result in the next message that is not freeform or that every target keeping the call keeps too |
| Adaptation.CarriesMeans | kolega_code/agent/conversation.py:235-286 | one origin is kept wherever another is, for every target, exactly under a condition on the two |
| Adaptation.AdaptationKeepsValidity | kolega_code/agent/conversation.py:455-535 | valid in, valid out |
| Adaptation.AdaptationOrphansNothing | kolega_code/agent/conversation.py:475-480 | neither rewriting nor dropping emptied messages leaves a result without its call |
| Adaptation.UniqueIdsAgree | kolega_code/agent/conversation.py:496-504 | unique call ids are a special case of calls agreeing on their origin |
| Adaptation.ReusedIdBreaksPairing | kolega_code/agent/conversation.py:365-397 | an id reused by an incompatible provider splits the first exchange: valid in, invalid out |
| ImageBudget.ImageLimit | kolega_code/agent/conversation.py:131-152 | the loop returns the largest cap that fits the budget, and its fall-through is unreachable |
| ImageBudget.ShareIsOptimal | kolega_code/agent/conversation.py:145-150 | at the first image above the even share of what is left, capping at that share fits and one more does not |
| ImageBudget.BudgetMetIff | kolega_code/agent/conversation.py:131-152 | the cap keeps the total within the budget if and only if the floor of four per image does |
| ImageBudget.EvenShareSuffices | kolega_code/agent/conversation.py:131-152 | an even share of at least four is enough for that |
| Checkpoints.Tracker.MarkCacheCheckpoint | kolega_code/agent/conversation.py:976-1010 | exactly the last cacheable block and the one chosen by the previous choosing call, if still present, end up marked: never more than two, all of which accept a marker |
| Checkpoints.Tracker.LastCacheableBlock | kolega_code/agent/conversation.py:1012-1025 | the backward loops find the last cacheable block of the history |
| Checkpoints.LastInIsLast | kolega_code/agent/conversation.py:1012-1025 | it is one behind which no block accepts a marker, and there is none only if no block does |
| Checkpoints.AtMostTwoMarked | kolega_code/agent/conversation.py:976-1010 | blocks that are the last cacheable one or the previously chosen one are at most two and accept a marker |
| Planner.MiddleGap | kolega_code/agent/compression.py:97-113 | the two loops find the longest head and the longest tail that each fit half the allowance |
| Planner.WithoutImagesKeepsResults | kolega_code/agent/conversation.py:185-225 | no image is left, on its own or in a tool result; blocks without images stay as they are and a result changes in its body only |
| Planner.GapShape | kolega_code/agent/compression.py:279-283 | a lossy allowance gives a non-empty gap inside the span with safe edges that keeps no more than the allowance |
| Planner.GapAntitone | kolega_code/agent/compression.py:97-113 | a smaller allowance omits everything a larger one omits |
| Planner.HeadInRangeIffPriorSafe | kolega_code/agent/compression.py:281 | the head index stays in range for every choice if and only if the prior boundary is a safe cut |
| Planner.WidenStep | kolega_code/agent/compression.py:277-288 | whatever the counter answered, the next gap covers the present one and is larger or the same |
| Planner.TargetChars | kolega_code/agent/compression.py:278 | the target is non-negative and keeps at most nine tenths |
| Planner.TargetMeans | kolega_code/agent/compression.py:278 | over budget, what is kept shrinks in proportion and by a tenth more |
| Planner.IndexReads | kolega_code/agent/compression.py:277 | slices count a negative index from the end and stop at both ends |
| Planner.WidenEnds | kolega_code/agent/compression.py:269-289 | every count but the last is over budget, and the last fits, stalls or is the last attempt |
| Planner.RungsDescend | kolega_code/agent/compression.py:294-298 | the rungs go down from the whole bound to its tenth part in tenths |
| Planner.WidenUntilFits | kolega_code/agent/compression.py:269-289 | the loop stops exactly where a count fits, the gap stalls or the attempts run out |
| Planner.WidenGrows | kolega_code/agent/compression.py:269-289 | the omitted span only grows along it when every choice over budget grows |
| Planner.WiderAdvances | kolega_code/agent/compression.py:277-288 | from a safe prior boundary every choice over budget does, whatever the count |
| Planner.ClimbedIsLadder | kolega_code/agent/compression.py:294-316 | from a safe prior boundary each request of the ladder omits strictly more than all before it |
| Planner.Climb | kolega_code/agent/compression.py:295-301 | one rung widens from where the last one stopped, and a gap that did not move is not sent again |
| Planner.Dispatch | kolega_code/agent/compression.py:291-320 | at least one and at most ten requests are sent, all but the last were rejected, the stops follow the rungs, a rejection means all ten rungs were climbed and none is left unanswered; from a safe prior boundary each request omits strictly more than all before it |
| Planner.GapKeepsExchangesWhole | kolega_code/agent/compression.py:280-283 | both edges of every planned gap are cuts that keep each exchange whole |
| Planner.PlannedIsWellEdged | kolega_code/agent/compression.py:279-283 | every gap the planner can reach has a safe head edge and a tail edge that starts no results |
| Compressor.Summarize | kolega_code/agent/compression.py:179-369 | each outcome comes exactly when it should: too few messages, nothing above the prior boundary, a rejected ladder or failed request, three blank replies, or the first reply that says something becomes the summary of everything before the split point; otherwise nothing changes; the requests are those of the ladder and split no exchange |
| Compressor.FirstReply | kolega_code/agent/compression.py:318-352 | blank replies are asked for again up to three times; the result is the first other one, or the first failure |
| Compressor.DescribeSpan | kolega_code/agent/compression.py:244-267 | the span's weights and flags are those of the image-free prefix |
| UrlScan.UrlStart | kolega_code/tool_subjects.py:176-191 | the result is the leftmost position where the documented pattern matches, or there is no match anywhere |
| UrlScan.SchemeStart | kolega_code/tool_subjects.py:210-220 | the earliest scheme start that ends at the colon, or the slashes themselves |
| UrlScan.MatchUsesFirstSlashes | kolega_code/tool_subjects.py:176-191 | a match that starts before the first slashes with a body must be a scheme that ends there |
| UrlScan.SpacesAre | kolega_code/tool_subjects.py:176-191 | the white space of the pattern |
| UrlScan.SchemesCount | kolega_code/tool_subjects.py:176-191 | a match starts at the scheme where there is one and at the slashes otherwise |
| Publisher.PublisherIsSafe | kolega_code/acp/accounting.py:294-426 | in every interleaving, not dirty means the last delivered update has the current revision, deliveries never go backward, and the idle publisher is dirty only if a send failed since the last change |
| Publisher.QuietMeansUpToDate | kolega_code/acp/accounting.py:407-426 | an idle publisher without a failed send since the last change is up to date |
| Publisher.NextKeepsInvariant | kolega_code/acp/accounting.py:294-461 | every step keeps the invariant behind this |
| Publisher.PublisherDelivers | kolega_code/acp/accounting.py:407-461 | wherever a run stands, a running publisher brings the client the current revision by itself if its sends succeed and none failed since the last change |
| Publisher.RunsUntilClosed | kolega_code/acp/accounting.py:294-330 | the publisher runs if and only if it was started and the session was not closed |
| Publisher.SendsCurrent | kolega_code/acp/accounting.py:380-426 | a send carries the revision at its start and goes only to a bound client that has something new coming or asked for it |
| Publisher.RunCounts | kolega_code/acp/accounting.py:294-461 | the revision counts the changes, and the publisher wakes at most once per change or start |
| Publisher.FailuresAreReal | kolega_code/acp/accounting.py:407-461 | a failure is remembered exactly until the next change |
| Publisher.PublisherGoesRound | kolega_code/acp/accounting.py:430-461 | with the lock in hand it sends if there is something new and goes back to wait otherwise, and after every send |
| Session.EveryRunIsSafe | kolega_code/acp/server.py:284-391 | in every interleaving an approved plan is there only if nothing was cancelled or closed since its prompt was opened, turns run only on agents not retired while nothing is being cleaned up, cleanups belong to retired agents, and an unregistered session is clean |
| Session.NextKeepsInvariant | kolega_code/acp/server.py:653-889 | every step of every participant keeps the invariant that ties the session's fields to its log |
| Session.ImplementedUninterrupted | kolega_code/acp/server.py:819-889 | in every run, an implementation turn starts in build mode, never after a close and never with an interruption since its prompt was opened |
| Session.ImplementedOnce | kolega_code/acp/server.py:875-889 | in every run, each approval starts at most one implementation turn |
| Session.CleanedUpOnce | kolega_code/acp/agent_factory.py:322-343 | in every run, no retired agent's cleanup is started twice |
| Session.FenceHolds | kolega_code/acp/agent_factory.py:311-343 | in every run, between the start of a cleanup and any later start of a turn or rebuild, or the end of the session, that cleanup has succeeded |
| Session.TurnsAreLogged | kolega_code/acp/server.py:720-748 | no turn starts without its event, and a plan is taken in the same stretch that starts its turn |
| Session.LayOffKeeps | kolega_code/acp/agent_factory.py:532-550 | replacing an agent retires the old one once, with or without a cleanup |
| Session.RetireForCloseKeeps | kolega_code/acp/agent_factory.py:281-294 | closing cleans up the retired agents one by one and goes on only when none is left |
| Session.UnwindKeeps | kolega_code/acp/server.py:853-866 | an exception through any number of suspended approvals keeps the invariant |
| Session.PlansGetImplemented | kolega_code/acp/server.py:763-889 | the guards let an approved plan through to its implementation turn |
| Approvals.OnlyApprovedPlans | kolega_code/acp/server.py:811-889 | in every run, a plan waits to be implemented or is implemented only if the client's answer to its open prompt chose to implement it |
| Approvals.NothingStartsUnasked | kolega_code/acp/server.py:284-391 | after a cancel or close no turn starts, no plan is implemented and none is put up until the next prompt |
| Approvals.StepWrites | kolega_code/acp/server.py:653-889 | exactly which events each step of each participant writes, and when |
| Approvals.StepControls | kolega_code/acp/server.py:653-889 | exactly what each step does to the plan at hand, the generation, the pause, the mode, the agent and the session's life |
| Approvals.UnwindLeaves | kolega_code/acp/server.py:853-866 | an exception drops the plan if it is a cancellation of a current approval, or another error before the agent was replaced; in the background it pauses |
| Approvals.ClosedCleansAll | kolega_code/acp/agent_factory.py:271-304 | once a session is unregistered every agent it replaced has been cleaned up |
| Transitions.RunIsFlat | kolega_code/acp/server.py:284-889 | in every interleaving, the nested code with its returns, handlers and suspended approvals does what one flat table says |
| Transitions.StepFences | kolega_code/acp/agent_factory.py:311-343 | a cleanup that starts goes behind the fence, one that fails stays there for good, one that succeeds leaves it with its agent |
| Transitions.WithoutKeepsOrder | kolega_code/acp/agent_factory.py:337-340 | agents keep the order in which they were retired |
| Closing.ClosableIffNoneFailed | kolega_code/acp/agent_factory.py:264-304 | whatever a session is doing, it can still be closed if and only if none of its cleanups has failed |
| Recipes.ValidateNonOverlapping | benchmarks/edit_tools/recipes.py:79-97 | the loops accept exactly the operations of which no two share a slot |
| Recipes.ClashByKind | benchmarks/edit_tools/recipes.py:79-97 | checking each kind by itself and then insertions against regions is enough |
| Splicing.BottomUpIsSplice | benchmarks/edit_tools/recipes.py:119-139 | patching from the bottom up is the simultaneous splice over original coordinates |
| Splicing.InPlaceIsLaid | benchmarks/edit_tools/recipes.py:119-139 | patching one after the other is the layout over original coordinates in which an insertion whose line was already patched goes in behind the first line that stands there |
| Splicing.PairStep | benchmarks/edit_tools/recipes.py:123-139 | exactly where such an insertion goes, whatever is below |
| Splicing.InPlaceIsSpliceIff | benchmarks/edit_tools/recipes.py:119-139 | the layout is the splice if and only if all such insertions commute with what they are displaced across: no displacement undoes another |
| Applying.ApplyToFile | benchmarks/edit_tools/recipes.py:118-139 | the edit loop rejects exactly the operations that clash, lie outside or do not match, and otherwise edits in descending order |
| Applying.AcceptsIff | benchmarks/edit_tools/recipes.py:77-137 | a recipe is accepted if and only if every operation reads its place as recorded and no two share lines, an insertion point, or a region and an insertion inside it |
| Applying.SingleEdit | benchmarks/edit_tools/recipes.py:117-140 | one operation puts its own text in the place of the lines it names, or behind the line it names |
| Applying.DescendingOrders | benchmarks/edit_tools/recipes.py:121 | the processing order is by line and identifier, downward |
| Applying.ApplyIsSplice | benchmarks/edit_tools/recipes.py:118-139 | for every accepted recipe without a losing tie, in-place editing is the simultaneous splice |
| Applying.OrderDoesNotMatter | benchmarks/edit_tools/recipes.py:118-139 | with distinct ids the order of the list decides neither acceptance nor result, ties included |
| Applying.ApplyIsLaid | benchmarks/edit_tools/recipes.py:118-139 | the exact outcome of every accepted recipe with distinct ids, however many ties it loses |
| Applying.SpliceIffTiesCommute | benchmarks/edit_tools/recipes.py:118-139 | every accepted recipe with distinct ids is the simultaneous splice if and only if each losing insertion commutes with what it is displaced across |
| Applying.OneForOneCommutes | benchmarks/edit_tools/recipes.py:121-139 | a tie with a region replaced by exactly one line is harmless |
| Applying.TextTellsSplice | benchmarks/edit_tools/recipes.py:140 | where all lines are newline-terminated, equal texts are equal lists of lines |
| Applying.IdDecidesTie | benchmarks/edit_tools/recipes.py:121 | deleting a line and inserting after it gives one of two results, and the identifiers decide which |
| Trees.ApplyRecipe | benchmarks/edit_tools/recipes.py:100-141 | the loops reject or change the tree exactly path by path: creations stand alone on new paths, edits need an existing file that accepts them |
| Trees.Group | benchmarks/edit_tools/recipes.py:103-105 | each path is listed once and holds its operations in order |
| Trees.RecipeApplies | benchmarks/edit_tools/recipes.py:97-141 | a valid recipe applies if and only if every creation is alone on a free path and every edit reads its place as recorded with no other in its way; created files hold their text |
| Trees.RecipeOrderDoesNotMatter | benchmarks/edit_tools/recipes.py:100-141 | two valid recipes with the same operations do the same to every tree |
| Trees.RecipeIsSplice | benchmarks/edit_tools/recipes.py:100-141 | an applied recipe gives each edited file the text of the exact layout, which is the splice if and only if its ties commute, also as a text where the file and the inserted texts are terminated; every other file is left alone |
| Lines.JoinIsInjective | benchmarks/edit_tools/recipes.py:140 | lists of newline-terminated lines are told apart by their texts |
| Lines.ClosedIffTerminated | benchmarks/edit_tools/recipes.py:27-28 | a text splits into newline-terminated lines if and only if it is empty or ends in a newline and breaks only at newlines |
| Lines.JoinSplit | benchmarks/edit_tools/recipes.py:27-28 | splitting into lines with terminators and joining is the identity |
| Lines.SplitIff | benchmarks/edit_tools/recipes.py:27-28 | the split is the only list of lines that joins to the text: a line per break, with `\\r\\n` as one |
| Lines.BreaksAre | benchmarks/edit_tools/recipes.py:27-28 | the ten characters that end a line |
| Deriving.CodeOp | benchmarks/edit_tools/recipes.py:169-190 | the operation for a differing opcode is well shaped, fits the original and has the right place and number |
| Deriving.FileOpsAscend | benchmarks/edit_tools/recipes.py:166-192 | the operations of a file ascend without sharing a line or a slot |
| Deriving.UpwardRebuilds | benchmarks/edit_tools/recipes.py:166-192 | applied from the last to the first they turn the original into the other side's text |
| Deriving.IdsAreDistinct | benchmarks/edit_tools/recipes.py:157 | different numbers give different zero-padded ids, of any length |
| Deriving.IdsRead | benchmarks/edit_tools/recipes.py:165-200 | numbers are padded to three digits and may have more |
| Numbering.OpsForPath | benchmarks/edit_tools/recipes.py:154-192 | the operations of one path are those derived for it |
| Numbering.AllDistinct | benchmarks/edit_tools/recipes.py:153-192 | ids are unique across the recipe |
| RoundTrip.FileRoundTrip | benchmarks/edit_tools/recipes.py:163-192 | derived operations pass the overlap and text checks, have no tie, and turn the one text into the other; there are none only if the texts agree |
| RoundTrip.DerivedRecipeRebuilds | benchmarks/edit_tools/recipes.py:144-199 | for every diff that meets its contract the derived operations form a valid recipe that rebuilds the other tree exactly |
| RoundTrip.Derive | benchmarks/edit_tools/recipes.py:144-199 | deleted files, empty new files and unchanged trees are the only reasons for an error, each exactly when it applies; the reconstruction error is unreachable |
| TrialPool.LoadTrialRecords | benchmarks/edit_tools/artifacts.py:75-87 | the journal is read back as its last-wins fold |
| TrialPool.SettledIsLast | benchmarks/edit_tools/artifacts.py:66-87 | a trial once journaled with a terminal status still has one when read back |
| TrialPool.PlanPending | benchmarks/edit_tools/runner.py:668-678 | the loop computes the pending trials that the next two rows characterise |
| TrialPool.PendingExactly | benchmarks/edit_tools/runner.py:668-678 | exactly the planned trials without a skipped status are pending, each as often as it is planned |
| TrialPool.PendingInOrder | benchmarks/edit_tools/runner.py:673-678 | and in the order in which they are planned |
| TrialPool.RerunTakesFailures | benchmarks/edit_tools/runner.py:668-678 | trials without a record are pending, settled ones never are, and those the infrastructure let down exactly when failures are rerun |
| TrialPool.EachPlannedTrialRunsOnce | benchmarks/edit_tools/runner.py:668-723 | a run in which every worker finishes starts each such trial exactly as often as it is planned, and no other |
| TrialPool.EveryScheduleIsSafe | benchmarks/edit_tools/runner.py:680-723 | every worker schedule has at most one trial per provider in flight and starts no settled trial |
| TrialPool.EachPendingTrialRunsOnce | benchmarks/edit_tools/runner.py:680-723 | no schedule starts a pending trial more often than it is queued, and when all workers are done each was started exactly as often |
| TrialPool.WorkersAreBounded | benchmarks/edit_tools/runner.py:721-723 | as many workers as allowed, no more than there are trials, and at least one |
| TrialPool.SomethingMoves | benchmarks/edit_tools/runner.py:685-719 | as long as a worker is not done some step does something: no schedule gets stuck on the provider locks |
| TrialPool.PoolsFinish | benchmarks/edit_tools/runner.py:685-723 | from every pool the workers can be brought to their end within the work left |
| TrialPool.SchedulesEnd | benchmarks/edit_tools/runner.py:685-723 | no schedule takes more steps that do something than there is work left |
| TrialPool.JournalIsHonest | benchmarks/edit_tools/runner.py:700-716 | the journal only grows, by records of trials that were started |
| TrialPool.SettledTrialsNeverRestart | benchmarks/edit_tools/runner.py:667-726 | across any sequence of interrupted and resumed runs a settled trial is never executed again |
| TrialPool.NeverRestartsIffDistinct | benchmarks/edit_tools/runner.py:673-723 | within a run no schedule restarts a settled trial if and only if the pending trials are distinct |
| TrialPool.RestartIsPossible | benchmarks/edit_tools/runner.py:688-716 | a duplicate in the queue has a schedule that runs it again after it passed |

## Left out

- Message metadata other than the provider and the edit protocol: usage, stop reasons and the duplicated list of tool calls do not affect pairing or content.
- Image decoding and resizing, hashline stripping and the echoed-placeholder pattern: arbitrary functions of `Adaptation.Target`, constrained only in that an image becomes an image or a text.
- Token counting, transcripts and prompts, streaming and logging: the planner sees arbitrary counts and verdicts.
- The legacy setter of `last_compression_index`, dump and restore, and the truncation of oversized results: simple record handling.
- Folding the whole history with `record_compression`: the boundary it leaves may be an unsafe cut; `Compressor.Summarize` accepts it, and `Planner.HeadInRangeIffPriorSafe` shows that the properties of the requests need a safe one.
- Compressor.Summarize: does not say which of the replies is asked for with which prompt, because prompt text is not modelled.
- Adaptation.AdaptationKeepsValidity: requires that calls sharing an id agree on their origin and that kinds match; `Adaptation.AdaptedIsValidIff` gives the exact condition for one target and `Adaptation.AlwaysValidIffPairsLast` for all.
- Spelling rules for operation ids and relative paths, and the prompt rendering of recipes: string checks without interplay.
- Session.NextKeepsInvariant: requests that wait for the execution lock may run whenever it is free, also where `idle` would have refused them, which only adds runs; closing a session that the server does not know and the load of synthetic sub-sessions are not modelled.
- Presentation of background completions, accounting flushes and the event pump of the ACP server: they change none of the modelled fields.
- Cost and token aggregation in the usage accounting: sums over dictionaries.
- Redaction, shell tokenising and permissions in `tool_subjects.py`, worktrees, manifests and reports of the benchmark: I/O or string tables.
