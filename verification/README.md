# Verification of the platform's dense algorithms and crash-safe protocols

This project models the parts of the platform whose correctness is hard to see from one function,
and proves what each of them is for. `dafny verify dfyconfig.toml` checks all of it.

- **Contract comparison** (`JsonSchema`, `ContractDiff`, `ContractDiffRun`, `ContractDiffSoundness`,
  `ContractDiffTermination`, `ContractDiffLimits`, `ContractDiffLoosening`). `JsonSchema` gives
  schemas a meaning of their own, as the least set of accepted values. `ContractDiff` is the
  comparison as a function of what it finds and which pairs it marks; `ContractDiffRun` is the
  recursive comparison with its mutable set and its findings, proved equal to it. The main theorem
  says that a comparison without findings has shown inclusion of values, across named recursion,
  alternatives tried on a copy of the marked pairs, and both directions. The hypotheses of the
  theorem are conditions on the nodes that are met; for each of them a lemma named `...Unread` has
  two schemas without it that are taken as compatible, and a value that tells them apart.
  `ContractDiffLoosening` is the other direction: it tells looser and tighter schemas by what they
  say, and a change that only loosens the wide side or tightens the narrow one brings no finding.
  The comparison ends wherever a rank of the pairs exists, and so where one of the documents does
  not refer to itself and the alternatives of the other do not go round; it does not end over a set
  of pairs, none of two references, that leads back into itself. For documents without alternatives
  that set is the only reason. It finds nothing between a document and itself.
- **One agent run** (`RunLog`, `RunTrace`, `RunWrites`, `RunSteps`, `AgentRunWorker`, `RunState`,
  `RunSignal`, `RunObservation`). `RunLog` is the row and every transaction of a claimed run; its laws
  hold of every history the store accepts. `AgentRunWorker` is the execution, method by method, with a
  call that lets anything else happen wherever the worker waits: requests to cancel, a lost lease, the
  burial of the job, the removal of the row, the stops of the worker, and the conversation writes of
  the execution at any stage. What becomes of each store call, which may fail with or without effect,
  and when the execution writes to its conversation are given from outside, so no failure and no such
  write is told that did not happen. `RunSteps` is what such steps keep. `RunTrace` keeps the books of
  it: every event the worker was given is stored, held back, on its way or in a write that failed, and
  what is stored is always the beginning of what the execution gave out, with at most the end of the
  run behind it. `RunState` is the live log with its queue of writes and its observer. `RunSignal`
  keeps shared mutable sets of resolvers; `RunObservation` reads the stored log and waits on that
  signal.
- **Approval of a skill change** (`SkillChangeApproval`). A machine whose steps are the store calls of
  the workflow and of its handler in the order they are issued. Any number of attempts may run,
  stop after any call, or lose their lock, and everybody else may write assets in between.
- **The history the model sees** (`ModelMessages`, `HistoryProjection`, `HistoryPruning`,
  `ImageBudget`). Ordering, chunking, selecting and pruning as loops proved equal to recursive
  definitions, and the laws between them: the scanner of chunks and the scanner of pruning take
  different results, and trimming still commutes with projection.
- **Writes of config assets** (`AssetWrites`, `AssetBatches`, `AssetOrder`). The set a write would leave,
  the list of mutations built from the validated set, the replays of that list, what of it the order
  of the items decides, and when the second validation is passed. The reference checks of the kinds
  are any function of the definitions by name.
- **Reading an event stream** (`ServerSentEvents`), the **usage backfill** (`UsageBackfill`), the
  **references of the API document** (`OpenApiDocument`) and the **cleanup of deleted
  conversations** (`DeletionCleanup`). `Optional` and `SetSizes` are used by several of these.

Conditions that a fact needs are part of its statement. Where the code does not keep what one would
expect on all inputs, the project proves when it does. These conditions are exact:
`EndsUnlessItGoesRound`, `TrimmingCommutesExactly`, `RefusedIsNotLive`, `AskedFailsByBurial`,
`DefaultFollowsOrder`, `ValidatedAgain`, `PiecesMatterForTriples` and `StateComesBack`. Inputs on
which the expectation fails are in the lemmas named `...Unread`, in `OutOfStepNeverEnds`,
`OwnAlternativeNeverEnds`, `UnmarkedResultsMatter`, `LostLockCanApplyRejected`, `BuriedThoughAsked` and
`RowGoesWhileExecuting`.

## Model

| member | source | states |
|---|---|---|
| `ContractDiffSoundness.NoFindingMeansIncluded` | `packages/api-contract/src/contract-diff.ts:158-351` | For all documents, both directions and any pair of schemas: if the comparison ends without a finding over regular pairs, every value the narrow side accepts is accepted by the wide side |
| `ContractDiffSoundness.RunCovers` | `packages/api-contract/src/contract-diff.ts:219-266` | A run without findings covers its own pair and every pair it has marked, up to the depth of values and number of steps to which the pairs marked before are covered |
| `ContractDiffSoundness.NodeIncluded` | `packages/api-contract/src/contract-diff.ts:268-341` | Two nodes without alternatives and without findings include each other's values once their fields, items and map values do |
| `ContractDiffSoundness.HereIncluded` | `packages/api-contract/src/contract-diff.ts:268-306` | Kept types, values, bounds and unknown keywords are enough for what a node says of a value by itself |
| `ContractDiffSoundness.KeyNamesOnePair` | `packages/api-contract/src/contract-diff.ts:226-231` | The text that marks a pair names one pair only, where the first reference holds no space |
| `ContractDiffLimits.SelfIsSilent` | `packages/api-contract/src/contract-diff.ts:219-341` | A well-formed document with primitive enumeration values has no finding against itself, in either direction, whatever was compared before, unless the fuel runs out |
| `ContractDiffTermination.AcyclicSelfFindsNothing` | `packages/api-contract/src/contract-diff.ts:219-351` | An acyclic well-formed document compared with itself: the comparison ends, with no finding |
| `ContractDiffLoosening.LooseningIsSilent` | `packages/api-contract/src/contract-diff.ts:219-341` | What must not be reported: a comparison without findings stays without findings, and marks the same pairs, when its wide side becomes looser and its narrow side tighter at any depth, as told by what the schemas say; it ends as well, unless other alternatives are tried first |
| `ContractDiffLoosening.CompatibleChangeIsSilent` | `packages/api-contract/src/contract-diff.ts:219-341` | A document compared with a compatible change of itself (a request accepts more, an answer holds less, either lists new fields) has no finding, wherever it ends against itself |
| `ContractDiffLoosening.OrdinaryChangeIsSilent` | `packages/api-contract/src/contract-diff.ts:268-331` | So a raised upper or lowered lower bound, a dropped bound, list of types, requirement or refusal of other fields, and a gained type, value, alternative or field of one named schema of a request is not reported; of an answer the same backwards, and a gained field |
| `ContractDiffLimits.NothingMissing` | `packages/api-contract/src/contract-diff.ts:344-351` | In well-formed documents the comparison never meets a reference without a component |
| `JsonSchema.RefNameOf` | `packages/api-contract/src/contract-diff.ts:344-351` | A reference names the component behind its last slash |
| `ContractDiffTermination.RankedEnds` | `packages/api-contract/src/contract-diff.ts:169-175` | The comparison ends, within a stated number of nested calls, where a rank falls along every descent except at a pair of two references |
| `ContractDiffTermination.AcyclicEnds` | `packages/api-contract/src/contract-diff.ts:219-266` | The comparison ends where one of the two documents, old or new, has an acyclic graph of references and the alternatives of the other one do not go round |
| `ContractDiffTermination.GoingRoundNeverEnds` | `packages/api-contract/src/contract-diff.ts:226-266` | Over any set of pairs, none of two references, from each of which the comparison comes to one of them again, it never ends, whatever was compared before |
| `ContractDiffTermination.NeverEndingMayGoRound` | `packages/api-contract/src/contract-diff.ts:226-266` | Behind every comparison of finite documents that never ends there is such a set, where of the alternatives some may be tried |
| `ContractDiffTermination.EndsUnlessItGoesRound` | `packages/api-contract/src/contract-diff.ts:169-266` | For documents without alternatives, every comparison of their schemas ends if and only if there is no such set |
| `ContractDiffTermination.OwnAlternativeNeverEnds` | `packages/api-contract/src/contract-diff.ts:240-266` | Against a schema that is its own only alternative the comparison never ends, even from a document without references: the alternatives of the other side must not go round |
| `ContractDiffTermination.OutOfStepNeverEnds` | `packages/api-contract/src/contract-diff.ts:226-234` | Two documents whose self-referring schemas are met out of step are compared without end, whatever the fuel |
| `ContractDiffLimits.SiblingOfAlternativesUnread` | `packages/api-contract/src/contract-diff.ts:240-266` | A keyword beside alternatives is not compared: no finding, and a value that only one side accepts |
| `ContractDiffLimits.SiblingOfReferenceUnread` | `packages/api-contract/src/contract-diff.ts:344-351` | A keyword beside a reference is not compared: no finding, and a value that only one side accepts |
| `ContractDiffLimits.SiblingBehindReferenceUnread` | `packages/api-contract/src/contract-diff.ts:344-351` | Nor is one beside a reference that a named schema consists of |
| `ContractDiffLimits.ItemsOfOneSideUnread` | `packages/api-contract/src/contract-diff.ts:334-336` | Items that only the wide side describes are not compared |
| `ContractDiffLimits.UndeclaredRequirementUnread` | `packages/api-contract/src/contract-diff.ts:308-324` | A required field of an answer that no property declares is not compared |
| `ContractDiffLimits.MapThatListsAFieldUnread` | `packages/api-contract/src/contract-diff.ts:310-341` | A field that a map gains is not compared with the values of the map |
| `ContractDiffLimits.FieldOfAnyObjectUnread` | `packages/api-contract/src/contract-diff.ts:310-331` | A field that an object without fields gains in a request is not compared |
| `ContractDiffLimits.MapOfAnyObjectUnread` | `packages/api-contract/src/contract-diff.ts:337-341` | Map values that an open object gains in a request are not compared |
| `ContractDiffLimits.RefusalOfAnswerUnread` | `packages/api-contract/src/contract-diff.ts:325-333` | An answer that refused unknown fields and holds some now is not noticed |
| `ContractDiffLimits.MapOfAnswerUnread` | `packages/api-contract/src/contract-diff.ts:337-341` | An answer that was a map and may hold anything now is not noticed |
| `ContractDiffLimits.FieldOfAnswerMapUnread` | `packages/api-contract/src/contract-diff.ts:310-341` | A field that an answer lists in place of a map is not compared with the values of the map |
| `ContractDiffLimits.SpaceInNameUnread` | `packages/api-contract/src/contract-diff.ts:226-231` | Two pairs of references with the same text, where one holds a space: the second pair is not compared |
| `ContractDiffLimits.ConstantBesideEnumerationUnread` | `packages/api-contract/src/contract-diff.ts:278-283` | A constant beside an enumeration is not compared |
| `ContractDiffRun.Comparison.CompareNodes` | `packages/api-contract/src/contract-diff.ts:219-237` | The recursive comparison with its mutable set and findings reports and marks exactly what the comparison function says, or fails as it does |
| `ContractDiffRun.Comparison.CompareAlternatives` | `packages/api-contract/src/contract-diff.ts:240-266` | Each option of the narrow side is tried against the wide options on a copy of the marked pairs, and only an uncovered option is reported |
| `ContractDiffRun.Comparison.CompareKept` | `packages/api-contract/src/contract-diff.ts:278-341` | The checks of one pair of nodes, in their order, report and mark what the comparison function says of them |
| `HistoryProjection.OrderApprovalDecisions` | `packages/agent-runtime/src/model-context-projection.ts:101-116` | The loop orders the messages as the definition does |
| `HistoryProjection.OrderingKeepsAll` | `packages/agent-runtime/src/model-context-projection.ts:101-116` | Ordering loses nothing: decisions keep their order among themselves, and so do all other messages |
| `HistoryProjection.OrderedDecisionsWait` | `packages/agent-runtime/src/model-context-projection.ts:101-116` | After ordering, a decision is followed by a decision or by the user turn it waited for |
| `HistoryProjection.OrderingTwice` | `packages/agent-runtime/src/model-context-projection.ts:101-116` | Where every decision waits already, ordering changes nothing |
| `HistoryProjection.OrderedAroundTurn` | `packages/agent-runtime/src/model-context-projection.ts:101-116` | A decision moves to the next user turn and no further: what stands before a user turn and what stands behind it are ordered each on its own |
| `HistoryProjection.OrderedBetweenTurns` | `packages/agent-runtime/src/model-context-projection.ts:101-116` | Without a user turn, the decisions come behind all other messages |
| `HistoryProjection.ChunkHistory` | `packages/agent-runtime/src/model-context-projection.ts:280-334` | The index loop cuts the history into the chunks of the definition, which `OneCutting` describes |
| `HistoryProjection.OneCutting` | `packages/agent-runtime/src/model-context-projection.ts:280-334` | The chunks are the only way to cut the history into single messages, decisions alone, and calls followed by results of their own up to the one that makes them complete, where nothing that belongs to a chunk stands right behind it |
| `HistoryProjection.SelectRecentCompleteHistory` | `packages/agent-runtime/src/model-context-projection.ts:118-148` | The loop from the newest chunk back selects what the definition selects, which `SelectedIsRecent` and `PlainHistoryIsTrimmed` describe |
| `HistoryProjection.SelectedIsRecent` | `packages/agent-runtime/src/model-context-projection.ts:118-148` | The selection is a suffix of whole chunks of the ordered history with at least `limit` messages, and fewer without its oldest chunk, so fewer than `limit` and the length of that chunk together |
| `HistoryProjection.PlainHistoryIsTrimmed` | `packages/agent-runtime/src/model-context-projection.ts:118-148` | Of a history without calls and decisions exactly the newest `limit` messages are selected |
| `HistoryProjection.SelectedIsOrdered` | `packages/agent-runtime/src/model-context-projection.ts:101-148` | Ordering a selection again changes nothing |
| `HistoryPruning.RemoveIncompleteToolContext` | `packages/agent-runtime/src/model-context-projection.ts:336-397` | The index loop prunes as the definition does |
| `HistoryPruning.PrunedIsWellFormed` | `packages/agent-runtime/src/model-context-projection.ts:336-397` | After pruning, every call is followed directly by exactly one result for each of its ids, and no other tool message is left |
| `HistoryPruning.WellFormedIsKept` | `packages/agent-runtime/src/model-context-projection.ts:336-397` | A well-formed history is left as it is |
| `HistoryPruning.PruningTwice` | `packages/agent-runtime/src/model-context-projection.ts:336-397` | Pruning twice is pruning once |
| `HistoryPruning.PruningKeepsSpoken` | `packages/agent-runtime/src/model-context-projection.ts:336-404` | Every user and system message and every assistant text stays, in order |
| `HistoryPruning.EachSpeaksAsItself` | `packages/agent-runtime/src/model-context-projection.ts:222-278` | In the projection everybody speaks in their own role and in the order of the ordered history: the user in the user turns, decisions and system messages as the system, the assistant in every answer with text or without calls |
| `HistoryPruning.UserTurnsAreSeen` | `packages/agent-runtime/src/model-context-projection.ts:83-116` | The user turns are seen as they came |
| `HistoryPruning.PrunedApart` | `packages/agent-runtime/src/model-context-projection.ts:336-397` | What stands before a message that is no result is pruned on its own |
| `HistoryPruning.CompleteCallIsKept` | `packages/agent-runtime/src/model-context-projection.ts:336-397` | A call with all its results directly behind it is kept with them, wherever it stands |
| `HistoryPruning.RunsAgree` | `packages/agent-runtime/src/model-context-projection.ts:307-332` | What pruning takes of the results of a chunk does not depend on what follows the chunk, although the two scanners stop at different results |
| `HistoryPruning.ChunkIsPrunedAlone` | `packages/agent-runtime/src/model-context-projection.ts:280-397` | Pruning a history is pruning its first chunk and the rest, one after the other |
| `HistoryPruning.TrimmingCommutes` | `packages/agent-runtime/src/model-context-projection.ts:83-148` | For a limit of at least one and results that carry their metadata, projecting the selection gives exactly the part of the projected whole that came from it |
| `HistoryPruning.CutIsSeen` | `packages/agent-runtime/src/model-context-projection.ts:336-397` | Pruning the two parts of any history apart is pruning it whole, if and only if no call before the cut gets the last of its results from behind it |
| `HistoryPruning.TrimmingCommutesExactly` | `packages/agent-runtime/src/model-context-projection.ts:83-148` | For every history, with result metadata or without: trimming commutes with projection if and only if no dropped call gets the last of its results from the selection |
| `HistoryPruning.MarkedNeverAcross` | `packages/agent-runtime/src/model-context-projection.ts:307-332` | Where every result carries its metadata, no call gets results across the cut |
| `HistoryPruning.UnmarkedResultsMatter` | `packages/agent-runtime/src/model-context-projection.ts:257-262` | With a tool message whose metadata is not read as that of a result, cutting at a chunk border can change what the model sees |
| `ImageBudget.ApplyBudget` | `packages/agent-runtime/src/model-input-image-budget.ts:34-70` | Every message stays in its place with role and calls, and exactly the images behind the longest fitting part of the priority order are left out and counted; the bytes left are within the budget, and of distinct images the right ones stay, as `KeepsTheRightOnes` has it |
| `ImageBudget.Prioritize` | `packages/agent-runtime/src/model-input-image-budget.ts:38-47` | Reversals and filters give the order of priority |
| `ImageBudget.BudgetHolds` | `packages/agent-runtime/src/model-input-image-budget.ts:48-70` | The bytes of all images left in the messages are within the budget, also where one image object is sent twice |
| `ImageBudget.KeptExactly` | `packages/agent-runtime/src/model-input-image-budget.ts:48-70` | For distinct image objects, an image is still in its message afterwards exactly where it is in the longest part that fits, and the count is that of the others |
| `ImageBudget.KeepsTheRightOnes` | `packages/agent-runtime/src/model-input-image-budget.ts:36-70` | Of the messages and the result alone, for distinct images: every image of the newest user message stays if any other does, of two others the later one stays if the earlier does, and within that message the earlier one if the later does; and the last image to go would not have fitted beside what is left |
| `ImageBudget.ImagesLeft` | `packages/agent-runtime/src/model-visible-artifacts.ts:68-113` | The rewritten content holds the images that are not omitted, in their order |
| `ImageBudget.TextLeft` | `packages/agent-runtime/src/model-visible-artifacts.ts:68-113` | A content that loses images keeps its text, as the note makes it with just those images in order; any other content stays as it is |
| `ImageBudget.TextTogether` | `packages/agent-runtime/src/model-visible-artifacts.ts:81-84` | The text of a content is that of its text parts, one behind the other |
| `RunLog.StoresExactly` | `packages/postgres-store/src/postgres-agent-run-worker-operations.ts:205-268` | What the store takes of an attempt: exactly numbered events of an open run, of which only the last may end it, and of a run asked to cancel none that ends it otherwise or suspends it |
| `RunLog.StoredInOrder` | `packages/postgres-store/src/postgres-agent-run-worker-operations.ts:205-268` | In every history of transactions the stored events have consecutive numbers, at most one ends the run, that is the last, and the row agrees with it |
| `RunLog.NothingAfterLease` | `packages/postgres-store/src/postgres-agent-run-worker-operations.ts:575-595` | Nothing is stored for the run by this attempt once its lease is lost |
| `RunLog.CancellingEndsCancelled` | `packages/agent-runtime/src/agent-run-worker.ts:226-250` | Once a run was asked to cancel, no transaction of its worker stores an event that completes, fails or suspends it |
| `RunLog.AskedFailsByBurial` | `packages/postgres-store/src/postgres-agent-run-worker-operations.ts:412-434` | A run that was asked to cancel is never completed, and it fails if and only if it is buried with its job after the request |
| `RunLog.BuriedThoughAsked` | `packages/postgres-store/src/postgres-agent-run-worker-operations.ts:412-434` | Such a burial: the run was asked to cancel, loses its lease, and ends as failed |
| `RunLog.RowGoesWhileExecuting` | `packages/postgres-store/src/postgres-workspace-deletion.ts:134-156` | A workspace is removed with its inactive conversations without a look at their runs: the row of a run in progress, with its lease held, can be gone, and so can that of a run buried while its worker still executes it |
| `RunTrace.StoredAsGiven` | `packages/postgres-store/src/postgres-agent-run-worker-operations.ts:214-256` | At any time: what is stored is the beginning of what the worker was given, in order and without a gap, and behind it at most the event that ends the run |
| `RunTrace.CompletedIsWhole` | `packages/postgres-store/src/postgres-agent-run-worker-operations.ts:214-256` | A run that is completed has stored everything the worker was given up to the completion |
| `RunTrace.Grows` | `packages/agent-runtime/src/agent-run-worker.ts:206-225` | A transaction that stores what was given keeps the books balanced, and so does every one of somebody else |
| `RunLog.AnswerMeansEnded` | `packages/agent-runtime/src/agent-run-worker.ts:215-223` | Of any set of what conversation writes found held: where each answer is stored with the end of the run, was found by such a write, or was held with more than 1000 events, an answer that is neither of the last two stands beside a run that ended, by the event stored with it |
| `AgentRunWorker.Execution.AnswerBesideOpenRun` | `packages/agent-runtime/src/agent-run-worker.ts:215-285` | At every wait of the worker, so wherever it is killed: a stored answer was stored with the event that ended the run, or a write to the conversation found just that batch held, or it was held with more than 1000 events |
| `AgentRunWorker.Execution.StoreWrite` | `packages/agent-runtime/src/agent-run-worker.ts:206-225` | A fenced write that reports success was stored; one that fails was not answered, or the store refused just this transaction as its row then was; a refusal for the lease stops the execution, and it is stopped for a lost lease only where the lease is lost or the job said so |
| `AgentRunWorker.Execution.Write` | `packages/agent-runtime/src/agent-run-worker.ts:226-250` | A write that succeeds was stored as it is, or, behind a request to cancel, with that cancellation in place of its end; one that fails is given up, and was not answered or refused; a refused completion or failure is tried again as cancelled, unless the run was found not to be asked to cancel |
| `AgentRunWorker.Execution.Append` | `packages/agent-runtime/src/agent-run-worker.ts:251-271` | The event is given once; while an answer is held it is only held too; the event that ends the run stores all of it in one transaction, and so does the event beyond 1000; it fails only where the write of just that failed |
| `AgentRunWorker.Execution.CloseRun` | `packages/agent-runtime/src/agent-run-worker.ts:317-349` | A close that succeeds ended the run with the right event: a known request to cancel first, then the first cause of the stop, then the failure; or it gave nothing, because the run had ended before, was buried, or its row is gone. What was held is stored with that event or dropped with it, unless a write to the conversation found it; of a run that had ended or was gone it gives nothing, and of one that was asked to cancel only a cancellation; the events it gives are numbered behind what was held and behind the row as it was then; a close that fails had a call unanswered or a write refused |
| `AgentRunWorker.Execution.ConsumeEvents` | `packages/agent-runtime/src/agent-run-worker.ts:380-396` | The first `k` events of the execution are passed on one after the other, all of them unless the run is stopped or ended or a write fails; it throws only what the execution throws behind all of its events; each event is then stored, held, on its way, or lost with a failed flush of the conversation; of a run that is stopped before it begins no event is given, and once a stop has come at most one more; the event of a stop is numbered behind the last event |
| `AgentRunWorker.Execution.Execute` | `packages/agent-runtime/src/agent-run-worker.ts:351-412` | Under every interference: a normal return means the run is ended, by its burial, an event of the execution or the right own end; that the execution ended is told only behind all of its events, and a failure of the worker only where it threw, a call was not answered or a write was refused; the store holds the beginning of the source, all of it for a completed run; the error for a run left open is thrown only where the row is gone, and where it was gone before nothing else is returned; once the run is stopped, at most one more event of the execution is given, and none of a run stopped before; it fails only behind a close with the failure of the worker, an ended run or a lost lease |
| `AgentRunWorker.Execution.Stop` | `packages/agent-runtime/src/agent-run-worker.ts:178-182` | The first cause stands, but a lost lease outranks the others |
| `AgentRunWorker.Execution.AppendMessage` | `packages/agent-runtime/src/agent-run-worker.ts:456-476` | A message of the conversation is stored, and in an earlier transaction what it found held; it fails only where one of the two writes was not answered or refused |
| `AgentRunWorker.Execution.AppendFinalMessage` | `packages/agent-runtime/src/agent-run-worker.ts:465-468` | The answer is held and nothing of it is stored; what was held before is stored first; where that fails, nothing is held |
| `RunState.RunState.Emit` | `packages/agent-runtime/src/run-state.ts:141-143` | Appends the next number, or nothing once the run is closed or its cancellation has started; the log ends at most once exactly as long as no ending event came in this way |
| `RunState.RunState.BeginCancellation` | `packages/agent-runtime/src/run-state.ts:145-152` | Freezes the log and returns exactly the text streamed of a message that is not complete |
| `RunState.RunState.Cancel` | `packages/agent-runtime/src/run-state.ts:175-205` | Appends the partial message only where none was completed, then the cancellation, and closes |
| `RunState.RunState.Complete` | `packages/agent-runtime/src/run-state.ts:160-173` | Appends the completion and closes, or changes nothing on a closed run |
| `RunState.RunState.SettleWrite` | `packages/agent-runtime/src/run-state.ts:275-293` | A failed write of an event fails the run once, unless it is closed |
| `RunState.RunState.Observe` | `packages/agent-runtime/src/run-state.ts:92-117` | Yields exactly the log from where it began, right behind the number it is given, an event a turn while there is one, and finishes with a closed run; hears of an end only when the writes before it are through |
| `RunState.ReadsOn` | `packages/agent-runtime/src/run-state.ts:223-252` | What one more event does to the streamed text, the completed message and the reasoning summaries |
| `RunSignal.Signal.Notify` | `packages/agent-runtime/src/store-backed-agent-runtime.ts:37-42` | Wakes every live subscription of the run and no other |
| `RunSignal.Signal.Subscribe` | `packages/agent-runtime/src/store-backed-agent-runtime.ts:43-51` | Adds one live subscription that the next notification of its run reaches |
| `RunSignal.Signal.Stop` | `packages/agent-runtime/src/store-backed-agent-runtime.ts:51-58` | Ends one subscription, however late, and leaves every other one reachable |
| `RunObservation.Observed.ReadBatch` | `packages/agent-runtime/src/store-backed-agent-runtime.ts:111-122` | Behind a read that found nothing, every event stored since has woken the subscription or is about to: it was made before the read |
| `RunObservation.Observed.Turn` | `packages/agent-runtime/src/store-backed-agent-runtime.ts:110-133` | One read gives the next events in order, as many of those stored before as a batch holds; it finishes only with all of an ended run, and always where the run had ended before within the batch |
| `RunObservation.Observed.Observe` | `packages/agent-runtime/src/store-backed-agent-runtime.ts:102-134` | Yields every stored event behind the start once and in order, at least those stored before that its turns hold, and ends only with the ended run wholly yielded; a run that had ended finishes once the turns hold it |
| `RunObservation.BatchIsBehind` | `packages/agent-runtime/src/store-backed-agent-runtime.ts:114-129` | A batch is a prefix of what is unread, empty only where nothing is, and with an ending event it is all of it |
| `SkillChangeApproval.AppliesOnce` | `packages/chat-server/src/skill-change-approval-handler.ts:148-192` | In every run of attempts, crashes, lost locks and other writes, at most one revision applies the request, and it holds the change of the skill as it was right before; a creation leaves its agent with the names it had, in their order, and the new one, an update leaves the agent |
| `SkillChangeApproval.StatusTells` | `packages/chat-server/src/approval-request-workflow.ts:163-241` | An approved request has exactly one such revision, which its result names |
| `SkillChangeApproval.RefusedIsNotLive` | `packages/chat-server/src/approval-request-workflow.ts:163-289` | A refused, superseded or withdrawn request has no such revision, if and only if no asset write of it committed while it was refused or about to be, by the attempt that held its row |
| `SkillChangeApproval.HeldRefusalIsNotLive` | `packages/chat-server/src/approval-request-workflow.ts:163-289` | Where every asset write is made by the attempt that holds the row, nothing refused is live |
| `SkillChangeApproval.RevertsOnce` | `packages/chat-server/src/skill-change-approval-handler.ts:193-260` | At most one revision takes the request back, directly behind the one that applied it; it restores what was there before, or deletes the created skill, of whose agent only this name goes |
| `SkillChangeApproval.ApprovingAgainRecords` | `packages/chat-server/src/skill-change-approval-handler.ts:148-156` | After a stop between the asset write and the status, approving again records the outcome and writes nothing, even where the agent is gone |
| `SkillChangeApproval.RevertingAgainRecords` | `packages/chat-server/src/skill-change-approval-handler.ts:205-213` | After a stop between the asset write of a revert and its status, reverting again writes nothing more |
| `SkillChangeApproval.UndisturbedApplies` | `packages/chat-server/src/skill-change-approval-handler.ts:148-192` | An approval that nothing disturbs, whose change fits what there is and is permitted, stores the next revision of the skill and approves the request with it |
| `SkillChangeApproval.UndisturbedIsSuperseded` | `packages/chat-server/src/skill-change-approval-handler.ts:117-141` | Where the agent is gone or does not name the skill, or the change cannot be made, such an approval supersedes the request and stores nothing |
| `SkillChangeApproval.UndisturbedFails` | `packages/chat-server/src/skill-change-approval-handler.ts:157-164` | Where the policy does not permit the change, such an approval fails and leaves everything as it was |
| `SkillChangeApproval.UndisturbedReverts` | `packages/chat-server/src/skill-change-approval-handler.ts:193-260` | A revert that nothing disturbs, where the applied revision is the latest and there is something to restore, takes the request back with the next revision |
| `SkillChangeApproval.UndisturbedRevertFails` | `packages/chat-server/src/skill-change-approval-handler.ts:200-234` | Where newer changes came behind it, or nothing is there to restore, such a revert fails and changes nothing |
| `SkillChangeApproval.DecidedOnce` | `packages/chat-server/src/approval-request-workflow.ts:178-268` | In every run a refusal stands for good, and an approval with its result until it is taken back |
| `SkillChangeApproval.StepKeeps` | `packages/chat-server/src/approval-request-workflow.ts:175-289` | Every step of every attempt and of everybody else keeps the invariant |
| `SkillChangeApproval.WriteKeepsAssets` | `packages/chat-server/src/skill-change-approval-handler.ts:271-281` | A write that names a version read before everything it rests on applies the change to what is current |
| `SkillChangeApproval.LostLockCanApplyRejected` | `packages/postgres-store/src/postgres-approval-request-operations.ts:147-179` | Where the lock is lost while an approval is about to write, a rejection can be recorded with the change live behind it |
| `AssetWrites.ReplayMutations` | `packages/chat-server/src/config-asset-writer.ts:35-66` | The candidate the writer builds holds, under every key, what the transaction of the store leaves, and the same default |
| `AssetWrites.LastDecides` | `packages/postgres-store/src/postgres-config-asset-operations.ts:261-400` | The last mutation of a key decides what becomes of it, and the last default stands |
| `AssetWrites.AtAccepted` | `packages/chat-server/src/asset-set.ts:107-135` | The validated set holds under each key what its kind reads the candidate's definition as, with the same names and default |
| `AssetWrites.AtWith` | `packages/chat-server/src/asset-set.ts:46-56` | Putting a definition changes what is found under its own name and nothing else |
| `AssetBatches.SyncLeaves` | `packages/chat-server/src/asset-sync.ts:141-227` | Replayed over what is stored, the mutations of a sync leave the validated names, the accepted definition at each put, everything else untouched, and the planned default |
| `AssetBatches.AtSynced` | `packages/chat-server/src/asset-sync.ts:375-392` | The validated sync holds, for each put, what its kind reads of the definition prepared against the one stored under the same key, and nothing for a delete |
| `AssetOrder.SyncVerdictIsFree` | `packages/chat-server/src/asset-sync.ts:141-180` | Whether a sync is valid, reference checks included, does not depend on the order of its items |
| `AssetOrder.SyncOrderIsFree` | `packages/chat-server/src/asset-sync.ts:203-227` | In another order of its items an accepted sync is accepted too, and stores the same definitions |
| `AssetOrder.DefaultFollowsOrder` | `packages/chat-server/src/asset-sync.ts:465-493` | Every order stores the same default, unless the batch makes one of several puts of a kind its first default: then, and only then, the first put decides |
| `AssetOrder.PassesByKey` | `packages/chat-server/src/asset-set.ts:107-171` | Where names are distinct, a set is valid exactly if what it holds under each key is read, the default is one of its definitions, and the reference checks find nothing in what is read, by kind and name |
| `AssetOrder.ValidatedAgain` | `packages/chat-server/src/asset-set.ts:201-216` | A set is validated a second time with its puts as they were accepted: it is valid if and only if each put is read again and the reference checks find nothing in what is read then |
| `AssetOrder.SecondValidation` | `packages/chat-server/src/config-asset-writer.ts:35-68` | The writer's validation of what the mutations of a sync replay to: accepted if and only if each put definition is read again as it was accepted; and where kinds read what they have read as the same, valid with its reference checks exactly where the first was |
| `AssetOrder.SecondValidationOfRelease` | `packages/chat-server/src/config-asset-writer.ts:35-68` | The same of a release: accepted again if and only if each definition it sends and leaves is read again |
| `AssetBatches.PlannedDefaultFits` | `packages/chat-server/src/asset-sync.ts:465-493` | A planned change of the default is one the validation accepts |
| `AssetBatches.PlannedDefault` | `packages/chat-server/src/asset-sync.ts:465-493` | The change of the default in every case: the first put of the kind, where there was neither a definition nor a default; none any more, where the batch leaves no definition and deletes the default; and otherwise no change |
| `AssetBatches.ReplaceAssets` | `packages/chat-server/src/config-asset-workflow.ts:202-336` | A mirror or merge leaves exactly the names it sends and those its mode keeps, each sent name as its kind reads it, every other as it was stored, and the same default; it is refused only where that candidate is not valid |
| `AssetBatches.ReleaseKinds` | `packages/chat-server/src/config-asset-workflow.ts:425-447` | The candidate of a merge or mirror, kind by kind |
| `AssetBatches.WithOwned` | `packages/chat-server/src/config-asset-workflow.ts:449-460` | What workspaces own is put back exactly where the set does not carry its name |
| `ServerSentEvents.ReadServerSentEvents` | `packages/api-client/src/server-sent-events.ts:8-34` | The reading loop gives the data of the blocks its pieces give |
| `ServerSentEvents.DataOfBlock` | `packages/api-client/src/server-sent-events.ts:36-44` | The data of a block is that of its data lines, joined line by line, each without one leading space; other lines say nothing of it, and a block without data gives no event |
| `ServerSentEvents.PiecesMatterForTriples` | `packages/api-client/src/server-sent-events.ts:17-26` | The blocks read do not depend on how the text is cut if and only if no carriage return stands before a carriage return and line feed |
| `ServerSentEvents.PiecesDoNotMatter` | `packages/api-client/src/server-sent-events.ts:17-26` | Any cutting of such a text yields exactly the blocks of the whole normalised text, in order, an unterminated last one too |
| `ServerSentEvents.StreamComesBack` | `packages/chat-server/src/routes/agent-run-routes.ts:176-202` | What the server writes of a run comes back through the reader, each observation once and in order, however the stream is cut |
| `UsageBackfill.StateComesBack` | `packages/chat-server/src/usage-backfill.ts:66-91` | A state is read back as it was stored if and only if its moment of verification is not the empty text |
| `UsageBackfill.UsageStore.BackfillBatch` | `packages/chat-server/src/usage-backfill.ts:122-156` | One transaction fills exactly the next batch behind the last one; the comparison is owed from the first event that changes, the changes are counted, and a pass is verified exactly where it changed nothing, and then every event it began with is filled |
| `UsageBackfill.UsageStore.Run` | `packages/chat-server/src/usage-backfill.ts:160-183` | Whatever a killed process left, a tick that comes to its end leaves daily sums that count every event as it is, and has ended a pass unless the last verification is recent; it comes to its end unless it is stopped or killed |
| `UsageBackfill.UsageStore.Reconcile` | `packages/chat-server/src/usage-backfill.ts:174-181` | One transaction makes the daily sums those of the events and takes away what the state owes |
| `UsageBackfill.UsageStore.OthersClear` | `packages/postgres-store/src/postgres-audit-usage-operations.ts:135-170` | The deletion of an account or a workspace changes an event in place, and leaves true what the stored state says and the daily sums where they agreed |
| `OpenApiDocument.WiderOnInput` | `packages/api-contract/src/openapi.ts:422-433` | The loop ends, and whatever the order finds exactly the schemas that differ or lead by references to one that does |
| `OpenApiDocument.UsedComponents` | `packages/api-contract/src/openapi.ts:472-484` | The worklist ends with exactly the names reachable from the document |
| `OpenApiDocument.RenamesReferences` | `packages/api-contract/src/openapi.ts:486-508` | Renaming a schema renames exactly its references |
| `OpenApiDocument.RenamesNothingElse` | `packages/api-contract/src/openapi.ts:497-508` | A document part whose references all keep their names stays as it is |
| `OpenApiDocument.ReferencesAreAll` | `packages/api-contract/src/openapi.ts:486-495` | The references of a part are exactly those to a component anywhere in it, at any depth of lists and objects |
| `OpenApiDocument.OpensObjects` | `packages/api-contract/src/openapi.ts:510-520` | An answered schema loses, at any depth, the entries that call an object closed, and nothing else of it changes |
| `OpenApiDocument.AcceptedFormsHold` | `packages/api-contract/src/openapi.ts:434-443` | The accepted form of a wider schema refers to the accepted form of every wider schema, and to all others as they are |
| `OpenApiDocument.AnsweredFormsHold` | `packages/api-contract/src/openapi.ts:434-443` | Each schema is a component as it is answered |
| `OpenApiDocument.ComponentsResolve` | `packages/api-contract/src/openapi.ts:422-445` | Every reference of a component, answered or accepted form, is to a component |
| `OpenApiDocument.DocumentResolves` | `packages/api-contract/src/openapi.ts:472-484` | A document with the components it leads to refers to nothing else |
| `DeletionCleanup.Cleanups.RetryAll` | `packages/chat-server/src/subject-deletion.ts:103-132` | The loop ends; with honest reports it ends with nothing pending or with a failed cleanup, and never for want of progress; it ends as failed exactly where a cleanup failed |
| `DeletionCleanup.Cleanups.RetryPass` | `packages/chat-server/src/conversation-cleanup.ts:103-134` | Completed and failed cleanups add up to the conversations visited, the first of the list up to the limit |

## Left out

- NoFindingMeansIncluded: one direction only. The comparison reads types and bounds keyword by keyword, so many pairs with included values have findings. `oneOf` is read as `anyOf`, as the comparison does; a keyword the comparison does not read has an arbitrary meaning that does not depend on the document; `required` of an answer and `items` are as the regularity of the pairs says.
- RankedEnds: recursion of the comparison has a fuel parameter, since the code has no bound of its own and can run without end; the theorems hold for every fuel, and those on termination say how much is enough, that enough exists, or that none is.
- NeverEndingMayGoRound: for documents with alternatives it is no equivalence, because a later alternative is tried only where the ones before it do not cover, which depends on the pairs marked so far.
- CompareNodes: the comparison of paths, parameters, security and responses around the schemas is left out, and so are the texts of findings.
- Emit: an event that ends the run can be passed to it, since its type allows it. No caller in the repository does; the statement says what holds exactly until one does.
- Execute: liveness is left out. How long a call takes is not stated; a lost worker is ended by the burial of its job. The text of the worker's own failure, which carries that of the error, is one constant. Loading the input and the user is one step that may fail. The other stores a run writes to under its fence are left out.
- ConsumeEvents: the conversation writes of an execution come one after the other, as its runtime awaits each of them; that two of them overlap is left out. What the runtime does about a write of its conversation that failed is not part of this model.
- AppendMessage, AppendFinalMessage: the loop over the events does not run beside these two methods; beside the loop they run as the steps of the interference.
- AnswerMeansEnded: what a write to the conversation found held is flushed before that write; that the write itself is stored later is not stated, since the worker may be killed in between.
- Observe: a reader may leave at any time, so an endless wait is a turn that is not taken; timers and polling are steps that may happen.
- SkillChangeApproval is a machine on values, not a class: its facts are about attempts that overlap, which one object's methods do not show. One request, its skill and its agent are modelled; other requests and all other writes are the steps of others. Permissions, previews, audit and the texts of errors are left out, and an attempt may fail at every call. The reads of a snapshot are two steps. Assets owned by a workspace are left out, since no kind can be owned by one yet.
- SyncLeaves: the rights of the caller, the expected revisions and the guardrails stop a batch before it is built, and are left out. Here and in ReplaceAssets the set is one the kinds accept; the reference checks between definitions, which `AssetOrder` adds, only refuse more sets.
- ReplaceAssets: the base revisions, which refuse a stale release before it is validated, are left out, and so are refusals for the scope of an asset.
- ReadServerSentEvents: the decoder of bytes into text is not modelled; the pieces are pieces of text. Data is read as the code does: only `data` fields, one leading space removed.
- UnmarkedResultsMatter: every tool message of this release carries its result metadata (`packages/agent-runtime/src/run/tool-dispatch.ts:84-96`). One without it is a stored message whose metadata has a shape this release does not read (`packages/core/src/message-metadata.ts:363-368`), as another release may have written it.
- RemoveIncompleteToolContext: how a message is rendered for the model is a parameter of the projection. Loading of attachments and the bounds on tool output are left out.
- ApplyBudget: the note that names the images left out of a message is a parameter; the text of a message without an omitted image is kept.
- BackfillBatch: what an event is filled with is a parameter that depends on the event alone. An event that the deletion of an account or workspace changed counts as new for the pass under way. The daily sums are the set of events they count; the sums of each day are not computed. One tick is under way at a time, as the schedule has it. The daily reconciliation beside the backfill is left out.
- ComponentsResolve: that no schema is named like the input form of another is not needed for this fact and not stated.
- RetryAll: conversations that become pending during the loop are left out. The bookkeeping of the audit is left out.
- HTTP, routes, the user interface, signing and hashing, the object storage, the job executor, leases by time, and the SQL of the stores beyond the contract of each transaction.
