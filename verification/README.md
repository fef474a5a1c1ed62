# Verified model of the MCP lifecycle controller, its transports and its text boundaries

This project models the lifecycle controller of `src/state_machine.rs` with its TLA+ specification, the
transport runners of `src/transport.rs` as concurrent programs over that controller, the bounded reading
and extraction of AI provider responses, and the two delimiter formats (allowlists and log directives).
`dafny verify dfyconfig.toml` checks everything.

The main results hold for every number of threads, waiters and tasks, every run length and every audit
capacity the constructor admits, where the repository's own checks stop at revision 12, capacity 3 and two
threads:

- **Refinement.** Threads whose calls interleave at lock, read, write, pop, push, publish and unlock only
  ever produce behaviours of the TLA+ `Spec`, and their answers are linearizable:
  sequential in the order of return, and in keeping with real time (`ControllerThreads.RunRefinesSpec`,
  `ControllerThreads.Linearizability`, `ControllerThreads.RealTimeOrder`).
- **No lost wakeup.** A waiter with nothing to do has read the newest value, and a waiter for `stopped`
  always finishes (`WaitFor.NoLostWakeup`, `WaitFor.StoppedWaiterFinishes`).
- **Runners under interference.** With any number of tasks marking health in the middle of everything,
  a runner that passes `Start` ends in `stopped` after exactly its own phases, and marks health itself only for
  a failure of its own. No headroom is assumed: the results say that an exhausted revision counter is the only
  other way out, and `finish_lifecycle` has its exact headroom
  (`TcpRunner.RunnerSafety`, `TransportRunners.RunListener`, `TransportRunners.FinishLifecycle`).
- **The exact language.** The accepted event sequences are the words of a grammar, in both directions
  (`Lifecycle.AcceptedIffLifecycleWord`).
- **The model checker is right.** For any finite relation, the closure is path reachability and validation
  accepts exactly the relations with its four properties (`ModelCheck.ClosureIffPath`,
  `ModelCheck.ValidateIff`).
- **Folds mean joins.** Each early-exit, checked-arithmetic traversal of a provider response equals a flat
  definition, and the three providers share one contract (`Providers.ExtractIsUniform`, `Providers.ExtractFailsExactly`,
  `Providers.ExtractsExactly`).
- **Round trips.** The comma list and the log filter are read back exactly
  (`EnvList.AcceptedListsAreCleanLists`, `LogFilter.FilterRoundTrip`).

## Modules

- `Lifecycle`: the transition relation, full histories, the grammar, counting and phase laws.
- `McpLifecycle`: the TLA+ module, action by action, with its invariants.
- `AuditRing`: pop-if-full-then-push as a suffix of the history.
- `LifecycleControllers`: the controller as a class changed in place, with a ghost full history.
- `ControllerThreads`: the critical section in small steps, for any number of threads. The fields `log`,
  `published` and `answers` are observations; no step reads them.
- `WaitFor`: the watch cell and any number of `wait_for` loops beside those threads.
- `ModelCheck`: `validate_model` and `reachable_closure` over an arbitrary finite relation.
- `TransportRunners`: health marks, `finish_lifecycle` and the stdio and listener runners as methods on the
  controller class, with `Interfere` at every point where another task could run. A `Handle` keeps apart what
  the program records itself and what others record.
- `TcpRunner`: the TCP runner as a state machine over its own steps and those of its tasks, and
  `drain_tasks` as the loop it is.
- `Text`, `EnvList`, `LogFilter`, `SensitiveKeys`: trimming, splitting, joining and the readers built on them.
- `ProviderErrors`, `BodyRead`, `CollectOutput`, `Providers`: the provider side.

## Assumptions

- The controller lock is never poisoned.
- A watch channel is a value with a version; `borrow_and_update` reads both at once, and `changed` completes
  when the version differs from the one last seen, marking it seen, or fails when no sender is left.
- A controller handle cannot be dropped while a call on it is running, as the borrow rules of Rust have it.
- Clones held outside a runner fire only Degrade and Recover. This is the rely condition of every runner
  result: a foreign Drain or Stop would make the runner's own one fail.
- Inside `TransportRunners` and `TcpRunner` a controller call is one step; `ControllerThreads` justifies it.
- Sockets, factories, services, timers and cancellation are nondeterministic outcomes, given as parameters
  or as choices of a step. `usize` and `u64` are bounded explicitly; byte lengths are UTF-8 lengths.

## Model

| member | source | states |
|---|---|---|
| Lifecycle.AcceptedIffLifecycleWord | src/state_machine.rs:120-139 | an event sequence is accepted from `created` iff it is a word of the lifecycle grammar |
| Lifecycle.ServingTailIff | src/state_machine.rs:120-139 | while serving, exactly strictly alternating marks and then at most Drain, Stop are accepted |
| Lifecycle.RecordableIffLifecycleWord | src/state_machine.rs:288-320 | the event sequences the controller can record are exactly the lifecycle words that the revision counter has room for |
| Lifecycle.CallIsAnsweredByTheGrammar | src/state_machine.rs:296-303 | recorded, invalid or exhausted: which one, in terms of the grammar and the revision |
| Lifecycle.ExtendHistory | src/state_machine.rs:296-307 | a decided transition extends a valid history by the next revision |
| Lifecycle.HistoryReplays | src/state_machine.rs:304-317 | replaying any tail of a history from the state before it reaches the snapshot state |
| Lifecycle.CountingLaw | src/state_machine.rs:120-139 | phase events at most once, a Stop after Started needs a Drain, Degrade leads Recover by 0 or 1, revision at most 4 plus the marks |
| Lifecycle.PhaseNeverDecreases | src/state_machine.rs:120-139 | the phase rank never goes back over any history |
| Lifecycle.DrainRightBeforeStop | src/state_machine.rs:120-139 | once started, Drain is the record just before Stop |
| Lifecycle.NothingFollowsStopped | src/state_machine.rs:76-81 | no history continues after `stopped` |
| McpLifecycle.NextIffTransition | formal/McpLifecycle.tla:41-76 | `Next` has exactly the edges of `transition_target` |
| McpLifecycle.EnabledIffNotStopped | formal/McpLifecycle.tla:104 | an action is enabled iff the state is not `stopped` |
| McpLifecycle.SpecInvariants | formal/McpLifecycle.tla:94-102 | the three audit invariants hold in every state of every behaviour, without a revision bound |
| McpLifecycle.SpecKeepsContiguous | formal/McpLifecycle.tla:25-39 | retained revisions are the contiguous block ending at the current one |
| McpLifecycle.LatestMatchesIffCapacityPositive | formal/McpLifecycle.tla:99-102 | the latest-record invariant holds of all behaviours iff the capacity is positive |
| AuditRing.PushBoundedIsBoundedAppend | src/state_machine.rs:309-317 | pop-if-full-then-push equals append-then-truncate iff the capacity is positive |
| AuditRing.PushKeepsSuffix | src/state_machine.rs:309-317 | the ring stays the last `capacity` records of the full history |
| AuditRing.RingView | src/state_machine.rs:265-279 | size, contiguous revisions, chaining and replay of the retained records |
| LifecycleControllers.LifecycleController.New | src/state_machine.rs:234-249 | Ok exactly for capacities 1 to 4096, with a fresh empty controller |
| LifecycleControllers.LifecycleController.Transition | src/state_machine.rs:288-320 | Ok is one specification action and one new record; each error names its cause and changes nothing |
| LifecycleControllers.LifecycleController.SnapshotAndAudit | src/state_machine.rs:274-279 | an atomic view: the records end at the snapshot and replay to it |
| ControllerThreads.RunRefinesSpec | formal/McpLifecycle.tla:69-78 | every interleaving of any number of threads maps to a behaviour of `Spec` |
| ControllerThreads.StepRefines | src/state_machine.rs:295-319 | the snapshot write is one `Next` action, every other step is a stutter |
| ControllerThreads.NextKeepsInv | src/state_machine.rs:295-319 | mutual exclusion, ring, publication and linearization facts are kept by every step |
| ControllerThreads.Linearizability | src/state_machine.rs:281-320 | in the order of their return, the answers are those of the atomic object called sequentially; with the lock free the Ok answers are the publications, once each |
| ControllerThreads.LinearizationPoints | src/state_machine.rs:281-320 | each answer is the atomic answer at its index in the one order of transitions, and the indices keep the order of return |
| ControllerThreads.RealTimeOrder | src/state_machine.rs:281-320 | a call takes its place after every call answered before it was made, at a point between its invocation and its return; a transition is written in between |
| ControllerThreads.AnswerIsToTheCallMade | src/state_machine.rs:288-320 | the answer a thread gets is to the event it called with |
| ControllerThreads.PublicationOrder | src/state_machine.rs:217-221 | published revisions are 1, 2, 3, ...; with the lock free, watch equals snapshot |
| ControllerThreads.RefusedCallIsStutter | src/state_machine.rs:297-303 | no step of a refused call touches snapshot, ring or watch cell |
| ControllerThreads.RefusalsNameTheirReason | src/state_machine.rs:297-303 | a refusal is InvalidTransition from the state at its point iff the event continues no lifecycle word there, and else RevisionExhausted at the last revision |
| ControllerThreads.SomeCallAdvances | src/state_machine.rs:288-320 | the lock holder always has a next step, and with the lock free every call has; an idle thread may make any call |
| ControllerThreads.StepsLeadOn | src/state_machine.rs:288-320 | every step of a call brings it closer to its answer |
| WaitFor.NoLostWakeup | src/state_machine.rs:342-358 | a waiter with no ready arm has observed the current value, and it is not the target |
| WaitFor.ObservationsAreMonotonic | docs/state-machine.md:51-55 | observed revisions strictly increase; Ok is the first observed value in the target state, and one the cell held |
| WaitFor.SenderOutlivesWaiters | src/state_machine.rs:336-342 | whatever handles are cloned and dropped, the watch sender is alive while a call waits |
| WaitFor.FailuresNameTheirCause | src/state_machine.rs:342-362 | Timeout iff the timeout elapsed, Cancelled only if cancelled, never Closed; a call that was neither is still waiting or Ok |
| WaitFor.OnlyExpiryTimesOut | src/state_machine.rs:360-362 | among all steps, exactly the timeout of a call makes it time out |
| WaitFor.WaitingCallsCanEnd | src/state_machine.rs:349-357 | a waiting call has a next step iff it is cancelled or the cell has changed, cancellation first, and its timeout may always elapse |
| WaitFor.CallsWaitForTheirTarget | src/state_machine.rs:336-343 | a call through any live handle is possible at any time and waits for the state it names |
| WaitFor.StoppedIsFinal | src/state_machine.rs:58-59 | once `stopped` is published the cell never changes |
| WaitFor.StoppedWaiterFinishes | src/state_machine.rs:336-363 | a waiter for `stopped` always has a next step and, uncancelled, returns it within two |
| ModelCheck.ClosureIsLeastFixedPoint | src/state_machine.rs:485-499 | the closure is the least closed set around the seed, reached within one call per missing state plus one |
| ModelCheck.ClosureIffPath | src/state_machine.rs:488-499 | a state is in the closure iff a finite event path reaches it |
| ModelCheck.SuccessorIffEdge | src/state_machine.rs:479-483 | successors are the targets of the enabled events |
| ModelCheck.FirstBadEdgeFinds | src/state_machine.rs:445-453 | the edge check reports the first faulty edge in declaration order, and its first fault |
| ModelCheck.EdgeFaultIsFirst | src/state_machine.rs:438-453 | an edge fault is reported iff it is that of the first faulty state/event pair in declaration order |
| ModelCheck.ValidateIff | src/state_machine.rs:437-476 | Ok iff closed, terminal-safe, fully reachable and deadlock-free; each error iff or only if its property fails |
| ModelCheck.ReportedCount | src/state_machine.rs:454 | the reported count is the number of enabled state/event pairs |
| ModelCheck.LifecycleIsValid | src/state_machine.rs:525-535 | the lifecycle relation passes with six states and ten edges |
| TransportRunners.MarksKeepPhase | src/transport.rs:554-570 | any number of marks only moves between `ready` and `degraded` and changes nothing elsewhere |
| TransportRunners.MarksAreLegalEdges | src/transport.rs:554-570 | a recorded mark is Ready to Degraded or Degraded to Ready |
| TransportRunners.MarkDegraded | src/transport.rs:554-561 | at most one own edge, Ready to Degraded, none unless ready at the check, and failing to mark only if others came between; a serving controller ends `degraded` unless revisions are exhausted |
| TransportRunners.MarkRecovered | src/transport.rs:563-570 | at most one own edge, Degraded to Ready, none unless degraded at the check, and failing to mark only if others came between; a serving controller ends `ready` unless revisions are exhausted |
| TransportRunners.Transition | src/transport.rs:547-552 | the collapsed transition succeeds iff the edge exists and a revision is left |
| TransportRunners.FinishLifecycle | src/transport.rs:572-589 | from any state, under interference: Ok iff the revisions left suffice for the missing phases and the marks of others meanwhile (none unless serving), and then it is `stopped` after exactly those phases and no mark of its own |
| TransportRunners.RunStdio | src/transport.rs:689-722 | result, phases and own records of a stdio run for every outcome and interference: its one mark is for a failed service, made unless somebody else degraded the controller |
| TransportRunners.Serve | src/transport.rs:814-839 | the select of the listener runners: on cancellation the runner itself records Drain and no mark, whatever the grace period does; nothing when serving ended well; at most one Degrade when it failed, and the controller is then `degraded` |
| TransportRunners.RunListener | src/transport.rs:778-842 | result, phases and own records of an HTTP run, its own marks being none on cancellation or success and at most one on a serving failure; `run_websocket` has the same skeleton (lines 1184-1256) |
| TcpRunner.RunnerSafety | src/transport.rs:915-1002 | a finished run is refused at Start, out of revisions, or in `stopped` with all tasks joined; Err iff bind or accept failed, Ok iff cancelled |
| TcpRunner.StepKeepsInv | src/transport.rs:946-1001 | permits, phases and task set stay consistent at every step of runner, tasks and outside clones |
| TcpRunner.TryIsDecide | src/state_machine.rs:296-307 | a call of the runner model applies exactly when the controller decides for it, and leads to the same snapshot |
| TcpRunner.MarkKeepsPhase | src/transport.rs:554-570 | a mark fired at any point of the runner keeps the phase facts |
| TcpRunner.PermitConservation | src/transport.rs:946-988 | available permits plus permit-holding tasks equal the cap in every reachable state; a connection is always accepted, and is served with a permit of its own iff fewer than the cap are live, else dropped without a trace |
| TcpRunner.NoMarkWithoutCause | src/transport.rs:853-883 | every Degrade or Recover edge answers a distinct failure, factory success or outside attempt |
| TcpRunner.RefusalTakesMarks | src/state_machine.rs:299-303 | on a new controller, running out of revisions takes at least 2^64 - 4 failures, factory successes and outside attempts |
| TcpRunner.CompletedMarksHold | src/transport.rs:554-570 | whatever comes between check and fire, the step that completes a mark of the runner or of a task leaves a serving controller in the marked state, unless revisions are exhausted |
| TcpRunner.OutcomesAreMarked | src/transport.rs:862-883 | every failure of a factory or service is answered by a degrade mark and every factory success by a recover mark, after which the connection is served |
| TcpRunner.RunnerNotes | src/transport.rs:927-969 | bind failures, accept failures and cancellations are noted when they happen and only then; a failed accept or panicked task is marked next |
| TcpRunner.DrainDecreases | src/transport.rs:889-902 | every draining step lowers a measure; the phase ends with no task and every permit back |
| TcpRunner.DrainCanStep | src/transport.rs:892-901 | draining is never stuck |
| TcpRunner.NothingIsRuledOut | src/transport.rs:889-969 | at every point the failures, cancellations, joins and deadlines that may happen are possible |
| TcpRunner.DrainTasks | src/transport.rs:889-902 | the drain loop ends for every deadline timing with the set empty and all permits returned, through a sequence of task steps, joins and at most one abort that could happen in that order |
| Text.TrimSplits | src/transport.rs:370 | trimming removes exactly the outer whitespace |
| Text.WidthIsEncodedLength | src/ai/mod.rs:900-905 | the length counted for a character is that of its UTF-8 encoding |
| Text.SplitOfJoin | src/transport.rs:369 | splitting undoes joining of separator-free parts |
| Text.JoinOfSplit | src/transport.rs:369 | joining undoes splitting; parts are separator-free |
| EnvList.AcceptedListsAreCleanLists | src/transport.rs:364-378 | the lists a set variable yields are exactly the non-empty lists of trimmed, non-empty, comma-free items |
| EnvList.ParseOfJoin | src/transport.rs:368-373 | parsing the comma-join of a clean list returns it |
| EnvList.RefusedIffNothingButSeparators | src/transport.rs:374-376 | the empty error occurs iff the value holds only commas and whitespace |
| EnvList.ParseJoinParse | src/transport.rs:368-373 | parse, join, parse equals parse |
| EnvList.DefaultIsForUnset | src/transport.rs:365-377 | the default is for unset variables only, non-Unicode values are an error, all others give items or the empty error |
| EnvList.CommaSeparates | src/transport.rs:368-373 | around a comma, the items of both sides are read one after the other; a piece without comma gives itself trimmed, or nothing |
| LogFilter.BuildKeepsAccepted | crates/ores-telemetry/src/lib.rs:122-135 | builder calls keep exactly the valid targets, in call order |
| LogFilter.AcceptedInCallOrder | crates/ores-telemetry/src/lib.rs:122-135 | the accepted calls of two stretches follow each other, and a single call is accepted iff its target is valid |
| LogFilter.IdentifiersAre | crates/ores-telemetry/src/lib.rs:626-632 | valid identifiers are 1 to 128 letters, digits, `-`, `.` or `_` |
| LogFilter.DependencyBlock | crates/ores-telemetry/src/lib.rs:534 | the eleven dependency directives, as written |
| LogFilter.TargetRoundTrip | crates/ores-telemetry/src/lib.rs:544-549 | a rendered override splits back into target and level and holds no comma |
| LogFilter.FilterRoundTrip | crates/ores-telemetry/src/lib.rs:536-554 | the rendered filter reads back as default, accepted overrides, dependency block |
| LogFilter.DependencyLevelsAreFixed | crates/ores-telemetry/src/lib.rs:531-534 | under longest-prefix matching with the last entry winning ties, no overrides change the level of a listed dependency or of any module below it |
| SensitiveKeys.TelemetryRejectsOnlyFlaggedKeys | crates/ores-telemetry/src/lib.rs:663-681 | a key telemetry rejects as sensitive is flagged by the deny-list |
| SensitiveKeys.SpellingDoesNotMatter | src/redaction.rs:60-61 | ASCII case and the choice among `-`, `.`, `_` never change the answer |
| SensitiveKeys.EmbeddingKeepsSensitivity | src/redaction.rs:62-82 | surrounding text never hides a sensitive name |
| SensitiveKeys.SensitiveIff | src/redaction.rs:60-83 | a key is flagged iff some part of it spells one of the seventeen names, in any case and with any separator |
| SensitiveKeys.TelemetryTakesIff | crates/ores-telemetry/src/lib.rs:663-681 | telemetry refuses exactly invalid identifiers and keys that spell one of its seven names in any case, and says which |
| BodyRead.ReadBody | src/ai/http.rs:80-95 | Exceeded iff the chunks hold more bytes than the limit; else the failure that ended the body, or all bytes with every chunk in its place; the buffer never exceeds the limit |
| BodyRead.Send | src/ai/http.rs:52-96 | transport failure by kind, status gate, length pre-check, then the body chunk by chunk in place; an accurate length is refused only when the loop would refuse too |
| BodyRead.ReadEitherWay | src/ai/http.rs:80-95 | two bodies of the same bytes with the same end are read with the same result, whatever their chunks |
| CollectOutput.CollectIsJoined | src/ai/mod.rs:890-918 | the bounded fold equals the declarative join with its three outcomes |
| CollectOutput.FoldContinues | src/ai/mod.rs:897-912 | per-part early exit agrees with the total-length check |
| CollectOutput.CollectMeaning | src/ai/mod.rs:913-917 | Ok is the join of the non-blank parts, bounded and not blank; EmptyResponse iff all parts are blank |
| CollectOutput.PartsAreJoinedInOrder | src/ai/mod.rs:894-911 | parts that are not blank are all joined by newlines, in their order and untrimmed, or refused as too long |
| CollectOutput.BlankPartsDoNotCount | src/ai/mod.rs:894-896 | a blank part anywhere is as good as none |
| Providers.CollectAllMeaning | src/ai/openai.rs:149 | collecting results fails iff with the first error in order, and otherwise keeps all values |
| Providers.FoldItemsIsFlat | src/ai/openai.rs:126-157 | the nested fold equals collecting the flattened item-then-content sequence |
| Providers.NoMessagesNoTexts | src/ai/openai.rs:158-160 | without a message there is no text, so the zero check is redundant |
| Providers.OpenAiIsFlatTraversal | src/ai/openai.rs:118-162 | first fault in document order before any size error, otherwise the joined texts |
| Providers.FlattenIsAccepted | src/ai/anthropic.rs:135-168 | flattening the collected options keeps exactly the accepted texts |
| Providers.ExtractIsUniform | src/ai/gemini.rs:165-213 | all three extractors are gate, first fault, bounded join |
| Providers.UniformContract | src/ai/anthropic.rs:122-169 | Ok text is the bounded non-blank join of exactly the accepted parts; one fault anywhere refuses the response |
| Providers.FaultlessIffAcceptable | src/ai/openai.rs:126-157 | no part is at fault iff every item, block or part has the shape its provider allows, and then the accepted texts are all texts in document order |
| Providers.ExtractsExactly | src/ai/anthropic.rs:122-169 | a text is returned iff the response is admitted, every part is acceptable, and the text is the non-empty bounded join of its non-blank texts |
| Providers.ExtractFailsExactly | src/ai/gemini.rs:165-213 | each error is returned exactly when the response is refused for its reason, or the first faulty part has it, or nothing or too much is left |
| Providers.GateNamesTheReason | src/ai/gemini.rs:166-198 | the error of a refused response, by stop or finish reason, role, candidates and safety |
| Providers.PartFaults | src/ai/anthropic.rs:137-163 | the error of a refused part, of each kind |
| Providers.ItemFails | src/ai/openai.rs:128-156 | an output item fails with its own error, or with the first of its contents |
| Providers.TextsInDocumentOrder | src/ai/openai.rs:126-157 | verdicts and texts of an output follow the order of its items and of their contents |
| Providers.PartsInDocumentOrder | src/ai/gemini.rs:199-211 | so do those of content blocks and candidate parts |

## Left out

- `run_websocket`: its lifecycle skeleton is that of `RunListener`; the permits of upgraded sockets follow the
  same discipline as the TCP ones, without a task set, and are not repeated.
- TCP accept loop: a state machine rather than a method, because its tasks run at the same time; update in place
  of the task set is shown only in `DrainTasks`. An early return on an exhausted counter drops the task set,
  which is not modelled further.
- `wait_for`: a state machine for the same reason. A waiter for a transient state may miss it, as the channel
  coalesces; a call whose future is dropped halfway is not modelled.
- Fairness: progress results are measures and enabled steps, not statements about schedulers.
- Timers and cancellation propagation inside tokio: deadlines and cancellations are steps that may happen.
- Poisoned locks, and the `audit` and `snapshot` readers alone: one field of `SnapshotAndAudit` each.
- Wire framing, JSON decoding, header and URL parsing: done by libraries that are not part of this model.
- `Limits::new`, `AiRequest::new`, `ModelId`, `Secret`, the `validate_*` range checks and `make_provider`: each is
  settled by one branch.
- Log filter matching beyond longest prefix with the last entry winning ties: the filter library is not part of
  this model.
- The converse of `TelemetryRejectsOnlyFlaggedKeys`: the deny-list is longer on purpose.
- Meters, exporters, guards and subscriber installation: foreign SDK calls.
