# Rion runtime state machines in Dafny

This project models the synchronous state machinery of the Rion core, and the graph, projection, byte and text code
beside it, and proves properties of the models. `dafny verify dfyconfig.toml` checks everything.

The parts, hardest first:

- **Browser operations** (`BrowserOperations`, `BrowserOperationRuns`, `BrowserOperationGuarantees`): leases over several
  roles, one FIFO queue a role, data versions, permanent blocking and shutdown. Each region the code runs under its mutex
  is one step; a condition-variable wait means "woken later". The class methods are proved equal to pure steps, and the
  guarantees are stated over every interleaving of those steps. `ServiceOrder` adds that overlapping requests are served
  in arrival order, `WakeUps` that "woken later" needs no more signals than the code sends. `CoordinatorAnswers` tells
  every answer by the history of leases and mutations, without the queues, versions and blocks that produce it.
- **The scoped sequence and the simulation** (`ScopedSequence`, `ScopedSequenceRuns`, `LockSimulation`): the second lock
  design, with one pending list and an active set; exclusion, order of service and wake-ups over its own runs, and a proof
  that both designs grant the same requests.
- **Embedded input** (`EmbeddedInput`, `EmbeddedInputRuns`): reference-counted held keys, the scripts they emit, and
  rollback. The scripts are checked by an independent replay that refuses a key-down on a pressed key, a key-up on a
  released one and a wrong list of active codes. `TransitionMeaning` tells what each phase text does to the owners and what
  its script holds.
- **Tab and divider projections** (`TabProjection`, `TabProjectionRuns`, `DividerProjection`, `DividerBounds`): writing a
  projection into a native controller whose calls may fail before, within or after their effect, poisoning, and recovery.
  The native tab list follows the controller's own ensure, remove, reorder and activate operations; divider projections
  are checked on both sides of the boundary. `ProjectionAnswers` tells which projections and revisions are taken.
- **Popups** (`PopupLifecycle`, `PopupLifecycleRuns`, and `BoundedLedger`, which visibility replay shares): the
  eight-phase lifecycle with revision fences and bounded replay ledgers. `PopupAnswers` tells the effect of every event and
  request on the record's fields.
- **The scheduler** (`Scheduler`, `SchedulerRuns`): a lazily cleaned heap beside the pending map, refined to a plain map.
- **The diagnostics archive** (`LinearIteration`, `Crc32`, `CrcResidue`, `ZipLayout`, `ZipWriter`, `ZipReader`): the ZIP32
  writer against an independent reader that follows the central directory. `ArchiveBytes` has the records byte by byte and
  the refusals in order.
- **Macro graphs** (`CallGraph`, `MacroGraph`, `MacroDependencies`, `MacroRules`): the cycle check and the worklist
  searches, all against one definition of reachability.
- **Visibility replay** (`VisibilityReplay`), **canonical payload** (`StableSort`, `CookieOrder`, `CanonicalPayload`,
  `PayloadRules`) and the **macro-coordinate clipboard** (`ClipboardText`, `MacroCoordinates`, `MacroCoordinateRoundTrip`,
  `ClipboardForm`).

Conventions: a fresh UUID is an identity the run has not drawn before, passed as a parameter; wrapping `u64` counters are
naturals; mutexes are never poisoned; clocks, native calls, URL parsing and JSON are parameters. `complete` and `abort` of
the coordinator are called with the id of a granted, unfinished lease, since ids leave `acquire` only at the grant.

Where the code does less than one might expect, the model follows the code and the difference is a theorem:

- The host checks divider coordinates against 32 bits, the native controller against ten million; the host refuses control
  characters in identities, the controller format characters as well, such as a zero-width joiner. A first projection
  that the host accepts and the controller refuses for either reason leaves the host poisoned with nothing verified;
  apply then refuses because it is poisoned and restore because nothing was verified, for the rest of its life:
  `DividerBounds.FirstApplyStrandsIffRefused`, `DividerBounds.WideProjectionStrands`,
  `DividerBounds.JoinedIdentityStrands`, `DividerProjection.StrandedForever`. The tab projection has no such state:
  `TabProjectionRuns.TwoFaultlessRestoresSucceed` holds from every reachable one.
- The two clipboard functions of `src/shared/macroCoordinates.ts` are not inverse on fractional pixels: the plain form
  prints them as they are, the parser takes no exponent and compares the rounded pixel with the viewport
  (`MacroCoordinateRoundTrip.LostInsideViewportIff`). Nothing in the program prints such a measurement: the overlay
  measures in whole pixels inside the viewport.

## Model

| member | source | states |
|---|---|---|
| `BrowserOperationRuns.ReachableInv` | crates/rion-core/src/browser_operations.rs:71-297 | From the empty coordinator, every interleaving of arrivals, wake-ups, completions, aborts and shutdowns keeps one invariant over all queues, leases, versions and blocks at once |
| `BrowserOperationGuarantees.QueueIsLiveTicketsInOrder` | crates/rion-core/src/browser_operations.rs:108-123 | In every reachable state each role's queue is exactly the live tickets naming that role, in arrival order, each once |
| `BrowserOperationGuarantees.GrantedLeasesAreExclusive` | crates/rion-core/src/browser_operations.rs:130-188 | Granted and unfinished leases have pairwise disjoint roles |
| `BrowserOperationRuns.FrontIffOldest` | crates/rion-core/src/browser_operations.rs:130-136 | A ticket is at the front of a role's queue exactly when no older live ticket names the role |
| `BrowserOperationGuarantees.StuckIffBehindOlderOverlap` | crates/rion-core/src/browser_operations.rs:124-142 | A woken waiter goes back to waiting exactly when no shutdown has begun and some older live ticket shares a role with it |
| `BrowserOperationRuns.TicketNeverMissing` | crates/rion-core/src/browser_operations.rs:155 | The lookup behind "queued ticket exists" never fails for a waiting thread |
| `BrowserOperationGuarantees.EffectiveStepBurnsFuel` | crates/rion-core/src/browser_operations.rs:124-189 | Every wake-up that leaves the loop and every finish lowers a measure of two per waiter and one per lease |
| `BrowserOperationGuarantees.RunsWithoutArrivalsAreShort` | crates/rion-core/src/browser_operations.rs:124-206 | With no new arrivals a run has at most two effective steps per live ticket, whatever wake-ups without effect and shutdowns happen between them |
| `BrowserOperationGuarantees.QuiescentWaitersWaitOnLeases` | crates/rion-core/src/browser_operations.rs:130-142 | When no wake-up helps, each waiter is behind a chain of overlapping tickets that ends in an open lease |
| `BrowserOperationGuarantees.WaitersWithoutLeasesProgress` | crates/rion-core/src/browser_operations.rs:130-142 | No deadlock: with waiters and no open lease some wake-up has an effect |
| `WakeUps.NoLostWakeUps` | crates/rion-core/src/browser_operations.rs:124-283 | In every run a waiter whose wake-up would have an effect has been signalled by a notify_all since it last looked |
| `WakeUps.OnlySignalsHelp` | crates/rion-core/src/browser_operations.rs:124-283 | A step that signals nobody, a grant or an arrival above all, turns no waiter's vain wake-up into one with an effect |
| `BrowserOperationGuarantees.DataChangedIffMutatedWhileQueued` | crates/rion-core/src/browser_operations.rs:155-176 | A normal operation at the front, unblocked, with no shutdown, is refused with ROLE_DATA_CHANGED exactly when a recoverable mutation sharing a role was granted after it arrived |
| `BrowserOperationGuarantees.RefusalLeavesDataAlone` | crates/rion-core/src/browser_operations.rs:125-176 | A refused ticket changes no version and no block |
| `BrowserOperationGuarantees.BlockedRolesAreAccountedFor` | crates/rion-core/src/browser_operations.rs:184-240 | The blocked set is always the roles of open destructive leases together with the roles kept by finished ones |
| `BrowserOperationGuarantees.KeptRolesAreNeverGrantedAgain` | crates/rion-core/src/browser_operations.rs:144-153 | A role kept by a finished destructive lease stays blocked and is never granted again, in any continuation |
| `BrowserOperationGuarantees.IdleShutdownIsFinal` | crates/rion-core/src/browser_operations.rs:274-283 | Once shut down with no tickets, no ticket exists in any later state |
| `BrowserOperationGuarantees.IdleAnswerMeansFinal` | crates/rion-core/src/browser_operations.rs:274-283 | An answer of true from the shutdown check means no ticket ever exists again |
| `BrowserOperationRuns.NextRefinesCoordinator` | crates/rion-core/src/browser_operations.rs:71-283 | Each step of the run model moves the coordinator's state exactly as the method of the same name does |
| `BrowserOperations.BrowserOperationCoordinator.Acquire` | crates/rion-core/src/browser_operations.rs:71-190 | Registration and the first pass of the loop: the new state and the answer are those of the specified step, error cases included; what that answer is, `TurnedAway` and `FirstAnswer` of `CoordinatorAnswers` say without it |
| `BrowserOperations.BrowserOperationCoordinator.Recheck` | crates/rion-core/src/browser_operations.rs:124-189 | One pass of the wait loop by a woken thread gives the specified next state and answer, which `CoordinatorAnswers.WaiterAnswers` states without that step |
| `BrowserOperations.BrowserOperationCoordinator.Complete` | crates/rion-core/src/browser_operations.rs:192-206 | Removes the ticket from every queue and drops emptied queues; an unknown id is refused |
| `BrowserOperations.BrowserOperationCoordinator.CompleteDestructiveWithRetainedRoles` | crates/rion-core/src/browser_operations.rs:208-242 | Unblocks exactly the roles not retained, and only for a destructive ticket |
| `BrowserOperations.BrowserOperationCoordinator.Abort` | crates/rion-core/src/browser_operations.rs:244-267 | Unblocks a destructive ticket's roles and removes the ticket |
| `BrowserOperations.BrowserOperationCoordinator.BeginShutdownAndCheckIdle` | crates/rion-core/src/browser_operations.rs:274-283 | Sets the shutdown flag and answers whether no ticket was left |
| `BrowserOperations.BrowserOperationCoordinator.RemoveTicket` | crates/rion-core/src/browser_operations.rs:285-297 | Takes the ticket out of the map and out of each of its queues, keeping the order of the rest |
| `CoordinatorAnswers.WaiterAnswers` | crates/rion-core/src/browser_operations.rs:124-189 | In every reachable state, of a waiter of any kind: refused for shutdown exactly when one has begun; else waits exactly when an older live ticket shares a role; else refused as blocked exactly when one of its roles is kept or named by an open destructive lease; else granted its roles, except a normal operation whose role a recoverable mutation was granted meanwhile |
| `CoordinatorAnswers.GrantLeavesItsMark` | crates/rion-core/src/browser_operations.rs:178-188 | A granted recoverable mutation moves the versions of exactly its roles, a destructive one closes exactly its roles, a normal one changes neither, and the lease is open |
| `CoordinatorAnswers.TurnedAway` | crates/rion-core/src/browser_operations.rs:77-107 | A request gets no ticket exactly for an unknown kind, no name that is not blank, or a shutdown, refused in this order, and leaves no trace |
| `CoordinatorAnswers.FirstAnswer` | crates/rion-core/src/browser_operations.rs:71-189 | A request that gets a ticket waits exactly when a live ticket names one of its roles, is else refused exactly when one of them is closed, and is else granted all of them, each once and in order |
| `CoordinatorAnswers.FirstGrantLeavesItsMark` | crates/rion-core/src/browser_operations.rs:71-189 | A request granted at once leaves the mark of the kind its text names |
| `CoordinatorAnswers.FinishAnswers` | crates/rion-core/src/browser_operations.rs:192-267 | Which completions and aborts are accepted, and that refused ones change nothing |
| `CoordinatorAnswers.FinishFrees` | crates/rion-core/src/browser_operations.rs:192-267 | A completion frees no role, one with retained roles exactly the others of its destructive lease, an abort all of them; kept roles stay closed |
| `CoordinatorAnswers.ShutdownIsRemembered` | crates/rion-core/src/browser_operations.rs:269-283 | A shutdown has begun exactly when its event is in the run, and it answers whether no ticket was live |
| `LockSimulation.FrontIffUnblocked` | crates/rion-core/src/browser_operations.rs:130-136 | For normal operations: front of every role queue holds exactly when the request is disjoint from the active scopes and from every earlier pending request |
| `LockSimulation.DesignsGrantTheSameRequests` | crates/rion-core/src/runtime_scoped_sequence.rs:27-70 | After any run of the same requests, wake-ups and releases both designs have granted the same requests in the same order and hold and queue the same ones |
| `LockSimulation.RunRelated` | crates/rion-core/src/runtime_scoped_sequence.rs:27-70 | The simulation relation between the two designs holds along every run |
| `ServiceOrder.ServedInArrivalOrder` | crates/rion-core/src/browser_operations.rs:108-189 | In every run, of two grants sharing a role the earlier one went to the request that arrived first |
| `ScopedSequenceRuns.SequenceServesInTicketOrder` | crates/rion-core/src/runtime_scoped_sequence.rs:27-52 | In every run of the scoped sequence, on any scopes, overlapping requests are granted in the order of their tickets |
| `ScopedSequenceRuns.PermitsAreExclusive` | crates/rion-core/src/runtime_scoped_sequence.rs:38-70 | In every run open permits share no scope and the active scopes are exactly theirs |
| `ScopedSequenceRuns.DropFreesOnlyItsScopes` | crates/rion-core/src/runtime_scoped_sequence.rs:63-70 | Dropping a permit leaves active exactly the scopes of the other open permits |
| `ScopedSequenceRuns.OldestProceeds` | crates/rion-core/src/runtime_scoped_sequence.rs:38-52 | No deadlock: with no permit open the oldest pending request is granted |
| `ScopedSequenceRuns.NoLostWakeUps` | crates/rion-core/src/runtime_scoped_sequence.rs:38-70 | In every run a pending request that would be granted on waking has been signalled since it last looked, though only dropping a permit signals |
| `ScopedSequenceRuns.PassAnswers` | crates/rion-core/src/runtime_scoped_sequence.rs:38-52 | In every run a waiting request is granted exactly when no open permit and no request with a lower ticket shares a scope with it, and is then open with its scopes |
| `ScopedSequenceRuns.AskAnswers` | crates/rion-core/src/runtime_scoped_sequence.rs:27-52 | A new request is refused exactly when it names no scope, and otherwise gets the next ticket and is granted at once exactly when nothing open or queued shares a scope with it |
| `ScopedSequence.RuntimeScopedSequence.Request` | crates/rion-core/src/runtime_scoped_sequence.rs:27-56 | Issues the next ticket, queues it and makes the first pass; an empty scope set is refused |
| `ScopedSequence.RuntimeScopedSequence.Pass` | crates/rion-core/src/runtime_scoped_sequence.rs:38-52 | One pass of the wait loop: waits exactly when an active scope or an earlier pending request overlaps |
| `ScopedSequence.RuntimeScopedSequence.DropPermit` | crates/rion-core/src/runtime_scoped_sequence.rs:63-70 | Removes the permit's scopes from the active set |
| `EmbeddedInputRuns.ScriptsMatchHeldKeys` | crates/rion-core/src/embedded_input.rs:72-118 | In every reachable state, replaying a role's committed effects since its last clear from no keys down fits at every effect and ends at exactly the codes held; the effects of the role's own open transition lead on to the codes held now |
| `EmbeddedInputRuns.HoldReplays` | crates/rion-core/src/embedded_input.rs:176-204 | Replaying a hold's effects takes the pressed set from the codes held before to those held after, each key-down on a released key and with true sorted code lists |
| `EmbeddedInputRuns.ReleaseReplays` | crates/rion-core/src/embedded_input.rs:206-233 | The same of a release, each key-up on a pressed key |
| `EmbeddedInputRuns.TapReplays` | crates/rion-core/src/embedded_input.rs:235-260 | A tap's effects replay from the held codes back to the held codes, auto-repeat only on a key already down |
| `EmbeddedInputRuns.TapRestores` | crates/rion-core/src/embedded_input.rs:235-260 | A tap leaves the owner map unchanged, since no accepted owner id begins with NUL |
| `EmbeddedInputRuns.HoldReleaseRoundTrip` | crates/rion-core/src/embedded_input.rs:176-233 | Hold then release by an owner new to the codes restores the owner map and emits the mirror image of the hold's effects |
| `EmbeddedInputRuns.HoldThenReleaseRestores` | crates/rion-core/src/embedded_input.rs:176-233 | Hold then release by an owner new to the codes restores the owner map, whatever the modifiers |
| `EmbeddedInputRuns.HoldPressesNewCodes` | crates/rion-core/src/embedded_input.rs:188-201 | A hold presses only codes that were not held |
| `EmbeddedInputRuns.FailureRestoresOnlyItsRole` | crates/rion-core/src/embedded_input.rs:102-118 | A failed completion puts back exactly that role's committed owner map and no other role's |
| `EmbeddedInputRuns.RollbackSpansOtherWork` | crates/rion-core/src/embedded_input.rs:102-118 | Whatever other roles do meanwhile, a failure rolls the role back to its map before the prepare |
| `EmbeddedInputRuns.PrepareRemembersCommittedMap` | crates/rion-core/src/embedded_input.rs:72-94 | A transition remembers the role's committed map, through any later work |
| `EmbeddedInputRuns.LateCompletionIsRefused` | crates/rion-core/src/embedded_input.rs:102-118 | An id once used and no longer pending is refused and changes nothing, in any continuation |
| `EmbeddedInputRuns.ClearForgetsItsTransition` | crates/rion-core/src/embedded_input.rs:162-167 | Clearing a role drops its held keys and its pending transition |
| `EmbeddedInputRuns.PendingIsBounded` | crates/rion-core/src/embedded_input.rs:58-70 | At most one transition a role and at most 512 in all are pending |
| `EmbeddedInputRuns.ReassertPressesHeldCodesOnce` | crates/rion-core/src/embedded_input.rs:120-154 | Reassert presses each held code exactly once, every effect showing the whole sorted held set |
| `EmbeddedInput.HoldLoop` | crates/rion-core/src/embedded_input.rs:176-204 | The hold loop computes the specified owner map and effects |
| `EmbeddedInput.ReleaseLoop` | crates/rion-core/src/embedded_input.rs:206-233 | The release loop computes the specified owner map and effects |
| `EmbeddedInput.TapSequence` | crates/rion-core/src/embedded_input.rs:235-260 | The tap computes the specified owner map and effects |
| `EmbeddedInput.SortedActiveCodes` | crates/rion-core/src/embedded_input.rs:266-274 | The sorted codes that have an owner |
| `EmbeddedInput.EmbeddedInputRuntime.Prepare` | crates/rion-core/src/embedded_input.rs:28-100 | Validation, back-pressure and ordering errors, and the new runtime state and effects, whose meaning for each phase text `TransitionMeaning` states |
| `EmbeddedInput.EmbeddedInputRuntime.Complete` | crates/rion-core/src/embedded_input.rs:102-118 | Forgets the transition and restores the map before it on failure; an unknown id is refused |
| `EmbeddedInput.EmbeddedInputRuntime.Reassert` | crates/rion-core/src/embedded_input.rs:120-154 | Effects for the role's held codes, modifiers first; refused while a transition is pending |
| `EmbeddedInput.EmbeddedInputRuntime.ClearRole` | crates/rion-core/src/embedded_input.rs:162-167 | Drops the role's keys and transitions and nothing else |
| `EmbeddedInput.EmbeddedInputRuntime.Shutdown` | crates/rion-core/src/embedded_input.rs:169-173 | Drops everything |
| `TransitionMeaning.PrepareRefusals` | crates/rion-core/src/embedded_input.rs:28-70 | What a prepare is refused for and in which order, in numbers and words; a refused one changes nothing |
| `TransitionMeaning.ModifierProblemIs` | crates/rion-core/src/embedded_input.rs:44-57 | The error is that of the first modifier that does not fit: not an identifier, no modifier code, or a repeated one |
| `TransitionMeaning.AcceptedIsEntered` | crates/rion-core/src/embedded_input.rs:72-100 | An accepted prepare is pending with the map before it, its role takes no other, and it answers that keys are held exactly when the role's new map holds a code |
| `TransitionMeaning.HoldMeans` | crates/rion-core/src/embedded_input.rs:72-86 | An accepted "hold" adds exactly the owner at the key and each modifier, and its script presses, modifiers first, exactly the codes nobody held; only the key suppresses its shortcut |
| `TransitionMeaning.ReleaseMeans` | crates/rion-core/src/embedded_input.rs:72-92 | An accepted "release" takes exactly the owner from the key and each modifier, and its script releases, key first and modifiers backwards, exactly the codes the owner alone held |
| `TransitionMeaning.TapMeans` | crates/rion-core/src/embedded_input.rs:72-100 | An accepted "tap" leaves every owner as it was; its script presses what a hold would, repeats the key if it was held, and releases what it pressed |
| `TransitionMeaning.ReassertAnswers` | crates/rion-core/src/embedded_input.rs:120-154 | A reassert is refused for a bad role or a pending transition, and otherwise answers whether keys are held and presses codes modifiers first, each part in order, only modifiers letting shortcuts through |
| `TransitionMeaning.CompletionAnswers` | crates/rion-core/src/embedded_input.rs:102-118 | A completion is accepted exactly for a pending transition and ends it and no other; it changes no other role's keys, and none at all when the transition succeeded |
| `TransitionMeaning.ClearingSparesOthers` | crates/rion-core/src/embedded_input.rs:162-167 | Clearing a role leaves the held keys and the pending transitions of every other role |
| `MacroGraph.ValidateMacroGraph` | crates/rion-core/src/macro_graph.rs:7-57 | Ok exactly when every macro parses, ids are unique and non-blank, every macro step names a known macro and the call graph has no cycle; a missing-target error names a missing target and its caller, a cycle error a macro that calls itself; and the first macro in the list that does not parse or repeats an id gives its own error |
| `MacroGraph.Visit` | crates/rion-core/src/macro_graph.rs:59-79 | Marks only nodes that lie on no cycle, reports only an id that lies on one, and nests at most one frame for each id not being visited, and one more |
| `MacroGraph.SearchCycles` | crates/rion-core/src/macro_graph.rs:51-56 | Whatever order the ids come in, the search fails exactly when the graph has a cycle, names an id on one, and never nests deeper than the number of ids plus one |
| `CallGraph.NewCallAcyclicIff` | crates/rion-core/src/macro_graph.rs:59-79 | Adding a call from a to b to an acyclic graph keeps it acyclic exactly when b does not reach a |
| `MacroDependencies.MacroDependsOn` | src/shared/macroDependencies.ts:11-30 | True exactly when the target is reached from the source in zero or more calls |
| `MacroDependencies.FindUnassignedMacroDependency` | src/shared/macroDependencies.ts:32-53 | Finds a macro exactly when some reachable known macro is not source-role and has no roles, and what it finds is one |
| `MacroDependencies.HasUnassignedDependency` | crates/rion-core/src/overlay.rs:228-252 | True under the same condition as the TypeScript search finds a macro |
| `MacroDependencies.SourceRoleDependencies` | src/shared/macroExecution.ts:8-23 | Each reachable known source-role macro exactly once, cyclic calls included |
| `MacroDependencies.AllowsMacroChainSource` | src/shared/macroExecution.ts:25-28 | True exactly when the root allows the role and so does every reachable source-role macro |
| `MacroDependencies.AddingCallAcceptedIffNotDepending` | src/shared/macroDependencies.ts:11-30 | For an accepted macro list, adding a call from a to b is accepted by the validator exactly when macroDependsOn(b, a) is false |
| `MacroRules.ParsedMacro` | crates/rion-core/src/macro_graph.rs:7-39 | A stored macro is refused for not being an object, for its id, for its steps or for a step that names no macro, in this order, and otherwise calls exactly what its macro steps name |
| `MacroRules.CallsAreSteps` | crates/rion-core/src/macro_graph.rs:7-39 | The edges of the graph are exactly the macro steps of the stored macros |
| `MacroRules.DependenciesAreCalls` | src/shared/macroDependencies.ts:7-9 | The ids a macro depends on are exactly those its steps call |
| `MacroRules.LastNamesakeCounts` | src/shared/macroDependencies.ts:16 | Of several macros with one id the last stands for it |
| `MacroRules.AllowedSources` | src/shared/macroExecution.ts:3-28 | Which roles may start a macro under each of the three scopes |
| `Crc32.CrcOfAnySplit` | crates/rion-core/src/diagnostics.rs:191-210 | Feeding a CRC register chunk after chunk, however the data is cut, gives the register of the whole |
| `CrcResidue.ResidueIsMagic` | crates/rion-core/src/diagnostics.rs:141-144 | Data followed by its stored CRC always leaves 0xdebb20e3 in the register, as APPNOTE section 4.4.7 says |
| `CrcResidue.ShiftLinear` | crates/rion-core/src/diagnostics.rs:197-205 | One bit step of the CRC is linear over exclusive or |
| `Crc32.WordRoundTrip` | crates/rion-core/src/diagnostics.rs:216-218 | A 32-bit word is recovered from its four little-endian bytes |
| `LittleEndian.U16RoundTrip` | crates/rion-core/src/diagnostics.rs:212-214 | A number below 65536 is recovered from its two little-endian bytes |
| `LittleEndian.U32RoundTrip` | crates/rion-core/src/diagnostics.rs:216-218 | A number below 2^32 is recovered from its four little-endian bytes |
| `ZipWriter.PutU16` | crates/rion-core/src/diagnostics.rs:212-214 | Overwrites exactly two bytes of the buffer with the number |
| `ZipWriter.PutU32` | crates/rion-core/src/diagnostics.rs:216-218 | Overwrites exactly four bytes of the buffer with the number |
| `ZipWriter.UpdateAndWrite` | crates/rion-core/src/diagnostics.rs:191-210 | Appends the bytes, advances the register over them bit by bit and adds their count, saturating |
| `ZipWriter.CopyFile` | crates/rion-core/src/diagnostics.rs:127-137 | Copies block after block up to the first empty read, with the register and size of all of them |
| `ZipWriter.LocalHeaderBuffer` | crates/rion-core/src/diagnostics.rs:105-114 | The thirty bytes of a local header, laid out as in APPNOTE section 4.3.7 |
| `ZipWriter.DescriptorBuffer` | crates/rion-core/src/diagnostics.rs:142-146 | The sixteen bytes of a data descriptor (APPNOTE section 4.3.9) |
| `ZipWriter.CentralHeaderBuffer` | crates/rion-core/src/diagnostics.rs:163-172 | The forty-six bytes of a central header (APPNOTE section 4.3.12) |
| `ZipWriter.EndRecordBuffer` | crates/rion-core/src/diagnostics.rs:181-186 | The twenty-two bytes of the end record (APPNOTE section 4.3.16) |
| `ZipWriter.WriteEntry` | crates/rion-core/src/diagnostics.rs:101-156 | One entry: the local record and its central entry with exact offset, size and CRC, or the first limit it breaks |
| `ZipWriter.WriteLocals` | crates/rion-core/src/diagnostics.rs:97-157 | Every entry in turn, stopping at the first that does not fit |
| `ZipWriter.WriteCentrals` | crates/rion-core/src/diagnostics.rs:161-178 | The central directory and its exact size |
| `ZipWriter.WriteZip` | crates/rion-core/src/diagnostics.rs:91-189 | Returns the described archive, or the first error in the order the code checks |
| `ZipWriter.RefusedIffOutsideZip32` | crates/rion-core/src/diagnostics.rs:91-180 | Refused exactly when a count, name length or archive part is over its 16-bit or 32-bit limit |
| `ZipLayout.DirectoryFits` | crates/rion-core/src/diagnostics.rs:162-174 | Within the limits no recorded size, name length or offset is cut short |
| `ArchiveBytes.LocalHeaderBytes` | crates/rion-core/src/diagnostics.rs:105-114 | The thirty bytes, one by one: signature, version 2.0, the flags for a descriptor and UTF-8, and the name's length |
| `ArchiveBytes.DescriptorBytes` | crates/rion-core/src/diagnostics.rs:142-146 | The sixteen bytes: signature, checksum and the size twice |
| `ArchiveBytes.CentralHeaderBytes` | crates/rion-core/src/diagnostics.rs:163-172 | The forty-six bytes: signature, versions, flags, checksum, sizes, name length and offset, and zeros |
| `ArchiveBytes.EndRecordBytes` | crates/rion-core/src/diagnostics.rs:181-186 | The twenty-two bytes: signature, counts, the size and the place of the central directory |
| `ArchiveBytes.StoredName` | crates/rion-core/src/diagnostics.rs:102 | The stored name is the entry's with every backslash turned into a slash and nothing else changed |
| `ArchiveBytes.StoredFile` | crates/rion-core/src/diagnostics.rs:127-137 | A file's data are the blocks up to its first empty read, all of them in order |
| `ArchiveBytes.KnownChecksums` | crates/rion-core/src/diagnostics.rs:191-210 | The CRC of nothing is zero, and that of the letter a is 0xe8b7be43 |
| `ArchiveBytes.RefusedForTheFirst` | crates/rion-core/src/diagnostics.rs:91-180 | Too many entries are refused first, then the first entry that does not fit, by its offset, its name or its data, then the archive's two parts |
| `ZipReader.ArchiveReadsBack` | crates/rion-core/src/diagnostics.rs:91-189 | A reader following the end record and central directory, checking every local header and descriptor, recovers every stored member of an archive within the limits |
| `ZipReader.EntriesReadBack` | crates/rion-core/src/diagnostics.rs:91-189 | What the writer accepts reads back with sound checksums as every entry's data under its name; a name with no backslash is unchanged |
| `ZipReader.ArchiveDeterminesMembers` | crates/rion-core/src/diagnostics.rs:91-189 | Equal archives within the limits come from equal members |
| `TabProjectionRuns.ReachableInv` | crates/rion-node/src/appkit_runtime_host.rs:472-664 | In every run from a fresh host the shown ids lie in the last verified projection or the last failed attempt, and an unpoisoned host the user has not disturbed shows exactly the verified tabs, order and active tab |
| `TabProjectionRuns.RestoreBringsBackTheApplied` | crates/rion-node/src/appkit_runtime_host.rs:582-664 | After a successful apply, however many applies and restores fail at whatever native call and whatever the user reorders, one restore reporting success has brought back exactly the applied tabs, active tab and revision |
| `TabProjectionRuns.VerifiedSurvives` | crates/rion-node/src/appkit_runtime_host.rs:546-578 | Failed attempts never change the verified projection or its revision |
| `TabProjectionRuns.WriteKeepsIds` | crates/rion-node/src/appkit_runtime_host.rs:548-568 | Wherever an attempt stops, every shown id was shown before or is wanted |
| `TabProjectionRuns.DoneIsExact` | crates/rion-node/src/appkit_runtime_host.rs:548-578 | An attempt that reports success has written the projection exactly, metadata included |
| `TabProjectionRuns.FaultlessRestoreSucceeds` | crates/rion-node/src/appkit_runtime_host.rs:640-664 | A restore of a poisoned host whose native calls do not fail succeeds, from every reachable state |
| `TabProjectionRuns.TwoFaultlessRestoresSucceed` | crates/rion-node/src/appkit_runtime_host.rs:618-664 | From every reachable state the second of two restores without a fault succeeds |
| `TabProjectionRuns.FaultlessApplySucceeds` | crates/rion-node/src/appkit_runtime_host.rs:546-578 | On an unpoisoned host a newer well-formed projection is applied unless a native call fails |
| `TabProjectionRuns.PoisonHoldsUntilRestored` | crates/rion-node/src/appkit_runtime_host.rs:518-523 | Through any run a poisoned host stays poisoned and applies nothing until a restore reports success |
| `TabProjectionRuns.ReorderedKeeps` | crates/rion-appkit/native/macos/RionRuntimeTabsController/06_fullscreen.mm:1071-1092 | The native reorder neither loses, invents nor repeats a tab |
| `TabProjectionRuns.ReorderedIsOrder` | crates/rion-appkit/native/macos/RionRuntimeTabsController/06_fullscreen.mm:1071-1092 | When exactly the listed tabs are present the native reorder yields the listed order |
| `TabProjectionRuns.EnsureTabKeeps` | crates/rion-appkit/native/macos/RionRuntimeTabsController/06_fullscreen.mm:923-1023 | A native ensure keeps the other tabs, adds at most its own id, and when it finishes holds the tab as given |
| `TabProjection.ValidateTabProjection` | crates/rion-node/src/appkit_runtime_host.rs:1110-1197 | True exactly for at most 128 well-formed tabs with distinct ids and an active tab that is one of them, or none for an empty list |
| `TabProjection.AppKitRuntimeHost.ApplyTabProjection` | crates/rion-node/src/appkit_runtime_host.rs:472-578 | Every refusal, the recheck of an equal revision, and the write of a newer one, with poison marks, as specified; which revisions are refused, `ProjectionAnswers` says |
| `TabProjection.AppKitRuntimeHost.RestoreLastVerifiedTabProjection` | crates/rion-node/src/appkit_runtime_host.rs:582-664 | Recheck when unpoisoned, otherwise rewrite of the verified projection and removal of the failed attempt's tabs |
| `TabProjection.AppKitRuntimeHost.WriteProjection` | crates/rion-node/src/appkit_runtime_host.rs:548-568 | The native calls of one attempt, stopping at the first that fails |
| `ProjectionAnswers.ProjectionAcceptedIff` | crates/rion-node/src/appkit_runtime_host.rs:1110-1197 | The projections an apply accepts: up to 128 tabs of different ids, each with an identity, texts, phase and kind in the limits, one of them active unless there is none |
| `ProjectionAnswers.StaleIffOutdated` | crates/rion-node/src/appkit_runtime_host.rs:525-535 | With access, a well-formed projection and no poison, an apply is refused as stale exactly when its revision is smaller than the verified one, or equal with other tabs or another active tab, and the host is then as it was |
| `ProjectionAnswers.RefusedUntouched` | crates/rion-node/src/appkit_runtime_host.rs:472-535 | Every other refusal, exactly when it is given; none touches the host |
| `ProjectionAnswers.RepeatCompares` | crates/rion-node/src/appkit_runtime_host.rs:536-544 | A repeated apply touches nothing: it compares, and poisons the host only on a mismatch |
| `ProjectionAnswers.NewerIsTakenOrPoisons` | crates/rion-node/src/appkit_runtime_host.rs:546-577 | A newer projection is taken whole under its revision, or leaves the host poisoned with its ids remembered |
| `ProjectionAnswers.RestoreAnswers` | crates/rion-node/src/appkit_runtime_host.rs:582-664 | A restore of a poisoned host takes the verified projection under its old revision or stays poisoned; of another host it compares |
| `ProjectionAnswers.RevisionNeverFalls` | crates/rion-node/src/appkit_runtime_host.rs:472-664 | Over every run the verified revision never goes back, and while it stays so does the projection |
| `ProjectionAnswers.AppliesInOrder` | crates/rion-node/src/appkit_runtime_host.rs:472-578 | Of two successful applies in a run the later one has no smaller revision, and the same only with the same tabs and active tab |
| `ProjectionAnswers.ReadbackSees` | crates/rion-node/src/appkit_runtime_host.rs:537-538 | Readbacks that neither error nor refuse succeed exactly when the controller shows the projected ids in order, their phases, and the active tab as the only active one |
| `ProjectionAnswers.CallsKeepActiveShown` | crates/rion-appkit/native/macos/RionRuntimeTabsController/06_fullscreen.mm:923-1069 | No native call, however far it gets, leaves the controller with an active tab it does not show |
| `ProjectionAnswers.EnsuresBeforeRemoving` | crates/rion-node/src/appkit_runtime_host.rs:548-563 | An attempt that fails while it ensures the wanted tabs has lost no tab |
| `DividerProjection.RefusedUntouched` | crates/rion-node/src/appkit_runtime_host.rs:693-720 | Each refusal of a divider apply, exactly when it is given, a stale revision among them; none touches the host |
| `DividerProjection.RepeatCompares` | crates/rion-node/src/appkit_runtime_host.rs:721-727 | A repeated apply writes nothing: it compares, and poisons the host exactly when the readback answers otherwise |
| `DividerProjection.NewerIsTakenOrUndone` | crates/rion-node/src/appkit_runtime_host.rs:729-748 | A newer value is taken, or the native error poisons the host, or the mismatch is undone to the verified value and the host stays poisoned unless that was read back |
| `DividerProjection.RestoreAnswers` | crates/rion-node/src/appkit_runtime_host.rs:753-781 | What a restore answers, and that it never changes the verified value |
| `DividerProjection.RevisionNeverFalls` | crates/rion-node/src/appkit_runtime_host.rs:685-781 | Over every run the verified revision never goes back, and while it stays so does the value |
| `DividerProjection.AppliesInOrder` | crates/rion-node/src/appkit_runtime_host.rs:685-749 | Of two successful applies in a run the later one has no smaller revision, and the same only with the same value |
| `DividerProjection.StepSynced` | crates/rion-appkit/src/lib.rs:1433-1473 | Since the native calls and readbacks error only in checks made before them, no apply or restore leaves an unpoisoned host on another value than the verified one, whatever the native side does |
| `DividerProjection.FreshRunSynced` | crates/rion-node/src/appkit_runtime_host.rs:685-781 | In every run from a fresh host an unpoisoned host's controller holds the last verified value |
| `DividerProjection.RestoreBringsBackTheApplied` | crates/rion-node/src/appkit_runtime_host.rs:753-781 | After any failures one restore that reports success shows the last applied value again |
| `DividerProjection.StrandedForever` | crates/rion-node/src/appkit_runtime_host.rs:706-711 | A host poisoned before anything was verified refuses every apply and every restore for the rest of its life |
| `DividerProjection.StrandedIffFirstWriteFails` | crates/rion-node/src/appkit_runtime_host.rs:729-744 | From a fresh host that state is reached exactly by a valid first apply whose native write or readback fails |
| `DividerProjection.WorkspaceDividerHost.Apply` | crates/rion-node/src/appkit_runtime_host.rs:685-749 | Refusals, recheck, write and rollback to the prior value, as specified |
| `DividerProjection.WorkspaceDividerHost.Restore` | crates/rion-node/src/appkit_runtime_host.rs:753-781 | Rewrite of the verified value; refused when nothing was ever verified |
| `DividerBounds.ValidateWorkspaceDividerProjection` | crates/rion-node/src/appkit_runtime_host.rs:1208-1329 | True exactly for at most 128 dividers with distinct keys, well-formed identities and bounds inside the content, none reaching past 32 bits |
| `DividerBounds.AcceptedDividers` | crates/rion-node/src/appkit_runtime_host.rs:1208-1329 | A projection is accepted exactly when every point of every divider and indicator is a point of the content and below the 32-bit limit, no two dividers agree in tab, attempt and index, and counts, captions, axes and background are in the limits |
| `DividerBounds.NativeAcceptsIffReadableInReach` | crates/rion-appkit/native/macos/RionRuntimeTabsController/03_workspace_divider_views.mm:547-695 | Of the projections the host accepts the controller accepts exactly those whose content ends within ten million pixels and whose identities hold no format character |
| `DividerBounds.FirstApplyStrandsIffRefused` | crates/rion-node/src/appkit_runtime_host.rs:729-744 | The first projection a host applies leaves it refusing everything for good exactly when its content reaches past ten million pixels or one of its identities holds a format character |
| `DividerBounds.WideProjectionStrands` | crates/rion-node/src/appkit_runtime_host.rs:729-744 | An empty projection one pixel too wide is accepted by the host and strands it |
| `DividerBounds.JoinedIdentityStrands` | crates/rion-node/src/appkit_runtime_host/validation.rs:7-22 | A projection of 100 by 100 pixels with a zero-width joiner in a tab identity is accepted by the host and strands it |
| `PopupLifecycleRuns.ReachableInv` | crates/rion-core/src/popup_lifecycle.rs:79-416 | In every run from an empty registry at most 64 popups are live, each record says what its phase promises, and both ledgers are exact duplicate-free queues of at most 128 requests and 256 events |
| `PopupLifecycleRuns.OutcomeLawful` | crates/rion-core/src/popup_lifecycle.rs:190-416 | An answered event leaves the record alone or moves a live one forward by one revision, its receipt tells the state reached, and it has an effect only at the expected revision |
| `PopupLifecycleRuns.CloseRequestedLawful` | crates/rion-core/src/popup_lifecycle.rs:250-292 | A close request leaves a closing popup with a host, an outcome and a close operation: the open one exactly until that has settled |
| `PopupLifecycleRuns.NativeClosedLawful` | crates/rion-core/src/popup_lifecycle.rs:293-334 | The fallbacks for a missing outcome or operation are never needed: a closing popup reaches the recorded phase, with the recorded status, code and operation on the receipt; any other live popup ends indeterminate |
| `PopupLifecycleRuns.FailLawful` | crates/rion-core/src/popup_lifecycle.rs:353-414 | With a valid code a known failure of a hosted popup leads to closing towards that failure, without a host it ends it at once, and an unknown one ends it indeterminate |
| `PopupLifecycleRuns.TerminalIsFinal` | crates/rion-core/src/popup_lifecycle.rs:710-718 | A terminal popup's record never changes again |
| `PopupLifecycleRuns.PhasesMoveForward` | crates/rion-core/src/popup_lifecycle.rs:208-416 | A popup's phase never goes back |
| `PopupLifecycleRuns.CleanEndNeedsNativeClose` | crates/rion-core/src/popup_lifecycle.rs:293-334 | A popup that had a native host reaches Closed, Cancelled or Failed only through an applied NativeClosed |
| `PopupLifecycleRuns.HostedEndsByNativeClose` | crates/rion-core/src/popup_lifecycle.rs:293-334 | That NativeClosed found the popup closing and ends it in the recorded outcome |
| `PopupLifecycleRuns.ClosingEndsAsRecorded` | crates/rion-core/src/popup_lifecycle.rs:250-334 | However a run goes on, a closing popup for which no failure is reported is still closing towards the same outcome or has ended in it |
| `PopupLifecycleRuns.EachEventMovesOnce` | crates/rion-core/src/popup_lifecycle.rs:163-206 | An event that has moved its popup never moves a popup again, even after the ledger has forgotten it |
| `PopupLifecycleRuns.RevisionCountsEffects` | crates/rion-core/src/popup_lifecycle.rs:208-416 | A popup's revision grows by exactly the number of events that moved it |
| `PopupLifecycleRuns.ReplayAnswersAlike` | crates/rion-core/src/popup_lifecycle.rs:169-177 | A replayed event gets its first receipt and changes nothing while at most 255 newer events are recorded |
| `PopupLifecycleRuns.RepeatAnswersAlike` | crates/rion-core/src/popup_lifecycle.rs:83-92 | A repeated request gets its first admission and changes nothing while at most 127 newer ones are admitted |
| `PopupLifecycleRuns.AdmittedIff` | crates/rion-core/src/popup_lifecycle.rs:79-135 | A new request is admitted exactly when it is well formed, fewer than 64 popups are live and the parent's display holds 640 by 480; the capacity error means exactly 64 live popups, and the title is the host of the address |
| `PopupLifecycleRuns.EveryLivePopupCanBeClosed` | crates/rion-core/src/popup_lifecycle.rs:250-334 | From every live phase a close request, confirmed by the native side when there is a host, ends the popup |
| `PopupAnswers.EffectiveIff` | crates/rion-core/src/popup_lifecycle.rs:208-416 | The phases in which each kind of event has an effect at the present revision, and no others |
| `PopupAnswers.OtherRevisionIgnored` | crates/rion-core/src/popup_lifecycle.rs:190-194 | An event that names another revision changes nothing and is answered as superseded |
| `PopupAnswers.HostReadyAnswers` | crates/rion-core/src/popup_lifecycle.rs:214-231 | A native host is taken by an admitted popup only, and only the right one: the popup is native-ready, one revision further, with that host and its open operation pending |
| `PopupAnswers.PageReadyAnswers` | crates/rion-core/src/popup_lifecycle.rs:232-249 | A canonical page is taken by a native-ready popup only, which is then ready with its open operation settled as applied |
| `PopupAnswers.CancelAnswers` | crates/rion-core/src/popup_lifecycle.rs:335-352 | Only an admitted popup can be cancelled; a bad code is refused first in every phase |
| `PopupAnswers.CloseRequestedAnswers` | crates/rion-core/src/popup_lifecycle.rs:250-292 | A close request finds an open popup in one of three phases; by its reason, and for the user's by whether the open operation had settled, it leads to the end the code names, at once without a host |
| `PopupAnswers.NativeClosedAnswers` | crates/rion-core/src/popup_lifecycle.rs:293-334 | A native close ends a closing popup as recorded and any other live one with its end unknown |
| `PopupAnswers.FailAnswers` | crates/rion-core/src/popup_lifecycle.rs:353-414 | A failure ends a live popup with its end unknown when the native state is, at once without a host, and otherwise by closing towards that failure |
| `PopupAnswers.EventAnswers` | crates/rion-core/src/popup_lifecycle.rs:163-206 | Which events reach their record and what the others are answered; those change nothing |
| `PopupAnswers.ReachedRecordMoves` | crates/rion-core/src/popup_lifecycle.rs:177-206 | An event that reaches its record changes that record as its outcome says, and no other |
| `PopupAnswers.RepeatedRequestAnswers` | crates/rion-core/src/popup_lifecycle.rs:83-92 | A request of a known id is answered as before, or refused when it differs, and changes nothing |
| `PopupAnswers.AdmissionRepeatsRequest` | crates/rion-core/src/popup_lifecycle.rs:106-161 | An admission repeats the request under the drawn identities at revision 1, and its record starts admitted |
| `PopupAnswers.RequestRefusals` | crates/rion-core/src/popup_lifecycle.rs:516-575 | What a new request is refused for, in which order, in limits and characters |
| `PopupAnswers.CanonicalUrlIs` | crates/rion-core/src/popup_lifecycle.rs:577-607 | An address must be an HTTP one without credentials or blanks, of at most 8192 bytes, written as the parser prints it |
| `PopupAnswers.UuidIs` | crates/rion-core/src/popup_lifecycle.rs:682-693 | Request and event ids are five groups of 8, 4, 4, 4 and 12 lower-case hexadecimal digits |
| `PopupAnswers.WindowRefusals` | crates/rion-core/src/popup_lifecycle.rs:609-664 | A popup gets a window exactly when the parent's rectangles can be drawn within 32 bits, its scale is over zero and at most eight and the display holds 640 by 480, and which error it gets otherwise |
| `PopupAnswers.WindowIsItsOwn` | crates/rion-core/src/popup_lifecycle.rs:637-649 | The window is named for the popup and stands on the parent's display at its scale |
| `PopupAnswers.PopupIsCentred` | crates/rion-core/src/popup_lifecycle.rs:609-636 | Away from the low end of the coordinates a popup is four fifths of its parent and centred on it to half a pixel, as far as the work area allows |
| `PopupLifecycle.PopupStaysInWorkArea` | crates/rion-core/src/popup_lifecycle.rs:609-650 | A popup is placed exactly when the geometry is valid and the work area is at least 640 by 480, and then lies inside it at no less than that size, even if the centring wraps around |
| `PopupLifecycle.CentreWrapsIff` | crates/rion-core/src/popup_lifecycle.rs:634-636 | The 32-bit centring wraps around only for a parent smaller than the popup within 320 pixels of the low end of the coordinates |
| `PopupLifecycle.ChromiumPopupLifecycleRuntime.Admit` | crates/rion-core/src/popup_lifecycle.rs:79-161 | Replay, validation, capacity and placement errors, and the registry with the new popup |
| `PopupLifecycle.ChromiumPopupLifecycleRuntime.ApplyEvent` | crates/rion-core/src/popup_lifecycle.rs:163-206 | Replay, fence and validation errors, and the registry with the event recorded; the effect of each event, phase by phase, is in `PopupAnswers` |
| `PopupLifecycle.ChromiumPopupLifecycleRuntime.CountActive` | crates/rion-core/src/popup_lifecycle.rs:95-100 | The number of popups whose phase is not terminal |
| `BoundedLedger.TrimLedger` | crates/rion-core/src/popup_lifecycle.rs:720-730 | Keeps the newest entries up to the capacity and drops the others from queue and map alike |
| `BoundedLedger.LedgerKeeps` | crates/rion-core/src/popup_lifecycle.rs:720-730 | Adding a new entry and trimming keeps queue and map in exact agreement within the capacity |
| `BoundedLedger.RetainedValue` | crates/rion-core/src/popup_lifecycle.rs:720-730 | An entry among the newest keeps its value when another is added |
| `SchedulerRuns.RunRefines` | crates/rion-core/src/scheduler.rs:94-154 | Over any run the heap with its stale entries sends exactly what a plain map from id to latest deadline sends |
| `SchedulerRuns.EveryWaitIsAnsweredOnce` | crates/rion-core/src/scheduler.rs:94-154 | No wait is answered twice, none is completed before its deadline, and after shutdown each wait asked for was answered |
| `SchedulerRuns.DueIdsAreDue` | crates/rion-core/src/scheduler.rs:141-153 | A resolve answers exactly the pending waits that are due, each once, earlier deadlines first and of equal ones the earlier asked |
| `SchedulerRuns.WakesInTime` | crates/rion-core/src/scheduler.rs:100-103 | The thread's timeout never passes a pending deadline |
| `SchedulerRuns.AskSettles` | crates/rion-core/src/scheduler.rs:105-117 | An ask tells an earlier wait of its id that it was cancelled, and nobody else, and waits until its duration from now |
| `SchedulerRuns.CancelSettles` | crates/rion-core/src/scheduler.rs:118-122 | A cancel tells the wait of its id that it was cancelled, and nobody else |
| `SchedulerRuns.ResolveSettles` | crates/rion-core/src/scheduler.rs:136-154 | A resolve completes exactly the waits whose deadline has come, each once, and leaves the others |
| `SchedulerRuns.ShutdownSettles` | crates/rion-core/src/scheduler.rs:123-129 | A shutdown tells every pending wait, each once, that the scheduler stops |
| `SchedulerRuns.SleepsUntilLeast` | crates/rion-core/src/scheduler.rs:100-103 | The thread sleeps up to the least deadline and not beyond, and a minute with none |
| `SchedulerRuns.AcceptedIff` | crates/rion-core/src/scheduler.rs:50-60 | Waits are accepted for at most a day under an id of at most 200 bytes that is not blank |
| `Scheduler.LiveEntryPopped` | crates/rion-core/src/scheduler.rs:145-153 | The live entry popped is its wait's own, and the rest stay represented |
| `Scheduler.LeastIsFirst` | crates/rion-core/src/scheduler.rs:141-153 | The least heap entry, when live and due, is the first due wait |
| `Scheduler.StaleEntryPopped` | crates/rion-core/src/scheduler.rs:145-149 | Popping an entry of a replaced or cancelled wait touches no pending wait |
| `Scheduler.MonotonicScheduler.ResolveExpired` | crates/rion-core/src/scheduler.rs:136-154 | Leaves exactly the waits not due, sends exactly the due replies, and clears every entry that has come up |
| `Scheduler.MonotonicScheduler.Schedule` | crates/rion-core/src/scheduler.rs:105-117 | Tells a replaced wait it was cancelled and records the new one |
| `Scheduler.MonotonicScheduler.Cancel` | crates/rion-core/src/scheduler.rs:118-122 | Tells the wait it was cancelled; an unknown id changes nothing |
| `Scheduler.MonotonicScheduler.Shutdown` | crates/rion-core/src/scheduler.rs:123-129 | Answers every pending wait once, in whatever order, and stops |
| `Scheduler.MonotonicScheduler.Timeout` | crates/rion-core/src/scheduler.rs:100-103 | The time to the least heap entry, or sixty seconds |
| `CanonicalPayload.Canonicalize` | crates/rion-core/src/chrome_profile_import_contract.rs:919-1038 | The checks in the code's order with its errors, and the encoded sorted inventory with its digest; the order and the rules themselves are in `PayloadRules` |
| `CanonicalPayload.AcceptedIffAcceptable` | crates/rion-core/src/chrome_profile_import_contract.rs:929-1031 | Accepted exactly when counts, cookies and entries are valid, no two cookies share name, path and domain, no two entries share a key, and the encoding fits |
| `CanonicalPayload.CookieNeighboursTell` | crates/rion-core/src/chrome_profile_import_contract.rs:981-999 | The neighbour test on the sorted cookies finds a duplicate exactly when there is one anywhere |
| `CanonicalPayload.StorageNeighboursTell` | crates/rion-core/src/chrome_profile_import_contract.rs:1013-1019 | The same of the storage keys |
| `CanonicalPayload.KeyIdentifies` | crates/rion-core/src/chrome_profile_import_contract.rs:957-997 | For valid cookies the sort key tells cookies apart exactly as name, path and domain do |
| `CanonicalPayload.OrderDoesNotMatter` | crates/rion-core/src/chrome_profile_import_contract.rs:929-1038 | The verdict, the error and the bytes do not depend on the order of the input |
| `CanonicalPayload.CanonicalIsIdempotent` | crates/rion-core/src/chrome_profile_import_contract.rs:919-1038 | Canonical bytes are accepted again and give themselves |
| `CanonicalPayload.SameBytesIffSameElements` | crates/rion-core/src/chrome_profile_import_contract.rs:1023-1031 | Accepted inventories have equal bytes exactly when they hold the same cookies and entries |
| `CanonicalPayload.NothingIsLost` | crates/rion-core/src/chrome_profile_import_contract.rs:1020-1037 | The bytes decode to the same elements, the counts are the input's and the digest is that of the bytes |
| `PayloadRules.AcceptedIsOrdered` | crates/rion-core/src/chrome_profile_import_contract.rs:981-1013 | What the bytes of an accepted payload decode to stands in order: cookies by domain, then path, then name, entries by key, strings by their first differing character |
| `PayloadRules.CookieAcceptedIff` | crates/rion-core/src/chrome_profile_import_contract.rs:941-979 | The rules of one cookie: name, value and path in their limits, a same-site rule, secure only from https, and a domain that covers the host |
| `PayloadRules.CoversIff` | crates/rion-core/src/chrome_profile_import_contract.rs:957-968 | A domain is accepted exactly when the host is that domain or lies below it, letter case and one leading dot aside |
| `PayloadRules.RefusalsInOrder` | crates/rion-core/src/chrome_profile_import_contract.rs:929-1031 | Which error an inventory is refused with: counts first, then origin and cookies, repeated cookies, entries, repeated keys and the encoded size |
| `PayloadRules.UnreadableRefused` | crates/rion-core/src/chrome_profile_import_contract.rs:924-928 | Empty, oversized and undecodable bytes are refused, each with its error |
| `StringOrder.LeIff` | crates/rion-core/src/chrome_profile_import_contract.rs:981-992 | A string comes no later than another exactly when it is its prefix or has the lesser character where they first differ |
| `StableSort.SortSorts` | crates/rion-core/src/chrome_profile_import_contract.rs:981-1013 | Sorting by key yields the same elements in order |
| `StableSort.SortedIsUnique` | crates/rion-core/src/chrome_profile_import_contract.rs:981-1013 | With distinct keys there is one sorted arrangement |
| `StableSort.NeighboursTell` | crates/rion-core/src/chrome_profile_import_contract.rs:993-1019 | In a sorted list keys are distinct exactly when neighbours differ |
| `VisibilityReplay.EveryRun` | crates/rion-core/src/runtime_window_visibility_replay.rs:79-217 | In every run active identities and live owners correspond one to one, a live owner's finish is never refused, the ledger is an exact queue of at most 512, and every value handed out is one an owner with the same id and fingerprint finished with |
| `VisibilityReplay.FinishedIsReplayed` | crates/rion-core/src/runtime_window_visibility_replay.rs:79-149 | Until 512 newer finishes a finished operation answers joiners and repeats with its result and refuses its id to other work |
| `VisibilityReplay.OwnerCanFinish` | crates/rion-core/src/runtime_window_visibility_replay.rs:151-190 | A live owner's finish succeeds and its id was not terminal |
| `VisibilityReplay.RunInv` | crates/rion-core/src/runtime_window_visibility_replay.rs:79-217 | Owners, active entries, terminal entries and the order queue stay in exact agreement |
| `VisibilityReplay.InFlightAnswers` | crates/rion-core/src/runtime_window_visibility_replay.rs:96-149 | An id in flight joins exactly when its live owner's fingerprint agrees, and is refused as reused otherwise; its waiters wait |
| `VisibilityReplay.IdleAnswers` | crates/rion-core/src/runtime_window_visibility_replay.rs:105-138 | An id neither in flight nor kept makes its caller the owner; a waiter on it is told the replay is lost |
| `VisibilityReplay.KeptAnswers` | crates/rion-core/src/runtime_window_visibility_replay.rs:87-132 | A kept id is answered with its result for its fingerprint and refused for another, and nothing changes |
| `VisibilityReplay.StrangersChangeNothing` | crates/rion-core/src/runtime_window_visibility_replay.rs:160-217 | Whoever does not hold an id under its fingerprint can neither finish it, with the error told, nor free it |
| `VisibilityReplay.AbandonedIsIdle` | crates/rion-core/src/runtime_window_visibility_replay.rs:202-217 | An abandoned id is idle again |
| `VisibilityReplay.RuntimeWindowVisibilityReplay.Admit` | crates/rion-core/src/runtime_window_visibility_replay.rs:79-117 | Replay, join, ownership or refusal, and the ledger afterwards |
| `VisibilityReplay.RuntimeWindowVisibilityReplay.PollTerminal` | crates/rion-core/src/runtime_window_visibility_replay.rs:119-149 | One turn of a waiter: the result, an error, or wait |
| `VisibilityReplay.RuntimeWindowVisibilityReplay.Finish` | crates/rion-core/src/runtime_window_visibility_replay.rs:151-190 | Moves the operation from active to terminal and trims the ledger; refused when not active under that fingerprint |
| `VisibilityReplay.RuntimeWindowVisibilityReplay.DropOwner` | crates/rion-core/src/runtime_window_visibility_replay.rs:202-217 | Frees the identity of an owner that goes away unfinished |
| `MacroCoordinateRoundTrip.PlainRoundTrip` | src/shared/macroCoordinates.ts:38-152 | For every measurement without reference coordinates, fractional pixels included, parsing the printed text gives its plain form exactly when the pixels are not negative and printed without an exponent and rounded pixels, rounded percentages and viewport are in the parser's ranges, and nothing otherwise |
| `MacroCoordinateRoundTrip.ReferenceRoundTrip` | src/shared/macroCoordinates.ts:38-115 | The same of the reference form, with the parser's one-pixel consistency checks under the printed zoom |
| `MacroCoordinateRoundTrip.RoundTripIsExact` | src/shared/macroCoordinates.ts:38-152 | A measurement in whole pixels with two-decimal percentages and zoom comes back with its anchor filled in and nothing else changed, exactly when it is accepted |
| `MacroCoordinateRoundTrip.SecondCopyIsTheSame` | src/shared/macroCoordinates.ts:38-152 | Of every measurement in numbers a double can hold: printing what was read and reading it again changes nothing |
| `MacroCoordinateRoundTrip.LostInsideViewportIff` | src/shared/macroCoordinates.ts:54-55 | In plain text a point inside its viewport is printed and not read back exactly when a coordinate lies in the last half pixel of its side, or above zero and below a millionth of a pixel |
| `MacroCoordinateRoundTrip.SomePointsAreLost` | src/shared/macroCoordinates.ts:115-143 | There are such points: one at 799.5 of 800 pixels, one at a ten-millionth of a pixel |
| `MacroCoordinateRoundTrip.TailReads` | src/shared/macroCoordinates.ts:115 | Of the four ways to take the plain expression's optional groups, exactly the one the text was printed with fits |
| `ClipboardText.PrintedMatches` | src/shared/macroCoordinates.ts:59-115 | Matching a printed text against an expression is comparing them token by token |
| `ClipboardText.TokenReads` | src/shared/macroCoordinates.ts:59-115 | Each printed number, name or word is matched whole, exactly when it fits |
| `ClipboardText.ScaledReads` | src/shared/macroCoordinates.ts:115 | Every finite decimal of zero or more is read back exactly from its shortest positional text |
| `ClipboardText.ReadsShort` | src/shared/macroCoordinates.ts:115 | A number printed with an exponent, or with a fraction where an integer is expected, is read only up to the exponent or the point |
| `ClipboardText.ShortBlocks` | src/shared/macroCoordinates.ts:59-115 | After a number read only in part neither expression goes on |
| `ClipboardText.ScaledReadsAsInteger` | src/shared/macroCoordinates.ts:115 | A printed decimal is read whole by the integer expression exactly when it has no fraction; otherwise the expression stops at the point |
| `ClipboardText.IntegralIffWhole` | src/shared/macroCoordinates.ts:293-295 | The test on a decimal's digits says whether its value is whole |
| `ClipboardForm.PlainTextIs` | src/shared/macroCoordinates.ts:52-56 | The plain text is the template's, piece by piece |
| `ClipboardForm.ReferenceTextIs` | src/shared/macroCoordinates.ts:41-51 | The reference text is the template's, piece by piece |
| `ClipboardForm.ReferenceAcceptedIff` | src/shared/macroCoordinates.ts:73-98 | When a printed reference text is accepted, in numbers: percentages, safe sizes, points inside their spaces, and the two spaces within one pixel of each other under the printed zoom |
| `ClipboardForm.HasReferenceIff` | src/shared/macroCoordinates.ts:301-323 | Which measurements are printed in the reference form: both reference coordinates, a positive zoom and four sizes in whole safe pixels |
| `ClipboardForm.AnchorKeptOrNearest` | src/shared/macroCoordinates.ts:39 | A chosen anchor is printed; without one the nearest is, exactly when there is a viewport of positive sides |
| `ClipboardForm.ParseIgnoresCase` | src/shared/macroCoordinates.ts:59-115 | Texts that differ only in the case of letters, in words and anchors alike, are read alike |
| `ClipboardForm.AnchorsStandAtTheirPlaces` | src/shared/macroCoordinates.ts:154-187 | A point at one of the nine places of a viewport is given the anchor named after that place |
| `MacroCoordinates.FindNearestMacroClickAnchor` | src/shared/macroCoordinates.ts:154-187 | None without a positive viewport; otherwise an anchor no other anchor is nearer than |
| `MacroCoordinates.NearestIsFirstLeast` | src/shared/macroCoordinates.ts:171-186 | Among equally near anchors the first listed is taken |

## Left out

- Threads, condition variables, channels and real clocks: only the atomic steps and a non-decreasing time are kept; fairness of wake-ups is not modelled.
- Mutex poisoning, worker start-up and joins, dropped `try_send` results, and wrap-around of 64-bit counters.
- File and stream errors of the archive writer, and the partial file such an error leaves behind.
- ZipWriter.PutWord: takes the CRC as its four bytes, because conversion happens once where the entry is finished instead of at each header.
- ZipWriter.WriteLocals: the output is a byte sequence in memory and the local and central loops are separate methods; the code writes to an open file in one function.
- ZipReader.EntriesReadBack: extraction tools' own rules (comments, encryption, compression, ZIP64) are not modelled; the reader accepts only stored, unencrypted members.
- LockSimulation.DesignsGrantTheSameRequests: covers requests whose names are not blank, since the coordinator drops blank roles and the sequence keeps them; mutations and shutdown have no counterpart in the sequence.
- `crates/rion-core/src/runtime_sequence.rs`: the single-scope special case of the scoped sequence.
- TabProjection.AppKitRuntimeHost.ApplyTabProjection: a native ensure that reports success is taken to have had its effect, because its only silent failure is on a destroyed controller, which the lifecycle lease excludes; the text of the revision is a positive natural.
- Native callbacks that replace a tab's model behind the host (`updateTabMetadata`), drag ghosts beyond the insertion position they choose, animation and drawing.
- DividerProjection.WorkspaceDividerHost.Apply: the divider value is any type and its validation a boolean, because only equality of whole values matters to the protocol; `DividerBounds` gives the value its fields.
- DividerBounds.NativeAcceptsIffReadableInReach: Cocoa's control characters are taken to be categories Cc and Cf, as documented, with Cf as of Unicode 15; the JSON is taken to fit 64 KiB, which both sides check before any effect.
- "One terminal receipt per popup operation" is not a property of the code: an unrequested native close after `Ready` issues a second terminal receipt for the open operation (`crates/rion-core/src/popup_lifecycle.rs:293-310`).
- PopupLifecycle.ChromiumPopupLifecycleRuntime.Admit: the URL parser is a parameter, because the URL library is not part of this model; the one-valued disposition is left out.
- CanonicalPayload.Canonicalize: JSON is a reader and a writer assumed exact where a lemma says so, and SHA-256 is a function of the bytes.
- The rest of the Chrome import contract (lease map, journal, encrypted vault), the filesystem and the state database.
- MacroCoordinateRoundTrip.PlainRoundTrip: numbers are finite decimals and exact; floating-point rounding and infinities are not modelled.
- ClipboardText.PrintedMatches: the regular expressions are modelled as token lists with blanks allowed between any two, which is how they are written; engine details such as backtracking order do not matter because no token can be split another way.
- `resolveMacroClickOffset` and `convertMacroCoordinateToOffset` (`src/shared/macroCoordinates.ts:201-271`): short arithmetic that would add only easy members.
- `OverlayProjection` change detection and the overlay's coalescing refresh worker (`crates/rion-core/src/overlay.rs:254-430`).
- `crates/rion-core/src/session_migration.rs`: its transition rules live in submodules that are not part of this model.
- Cryptography, SQLite, symlink checks, Electron, AppKit drawing and Win32 calls, probe scripts, end-to-end configuration, UI presentation, settings normalisers and façade files.
