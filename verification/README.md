# A verified model of PatchMesh

PatchMesh records what coding agents did in a repository as an event ledger, with an observation
layer that watches the working tree. This project models its hardest parts in Dafny and proves what
they promise. `dafny verify dfyconfig.toml` checks everything; nothing here runs the program.

**Observation.** `Observation` is a state machine of one workspace: a tree-shaped disk, a watcher
whose events arrive in any order and as late as they like, the session (cache, bounded journal,
cursors, marks), the window flow split at its awaits, and the periodic reconciliation beside it.
`ObservationSafety` carries the invariant that every path at which the cache differs from the disk
has an undelivered event, an unprocessed journal entry, a covering gap or a mark on the session, and
`ObservationGuards` proves that the guards it needs are exact: an accounted state stays accounted
through a step, and through a run, if and only if the guards are met.
`ObservationTheorems` draws the consequences (a complete window returns what a full scan would),
`ObservationConservation` proves that the out-of-band changes bridge consecutive windows,
`ObservationReports` that every gap owed reaches the next window's result, and
`WatchSession.dfy` is the session as an object whose methods are proved against the same functions
the machine steps by. `Effects` is the patch generator under all of it, characterised in closed form.

**Host gateway.** `Dispatch` is the promise-chain lock with sequence reservation, `Lifecycles` the
task lifetimes whose overlap sets are interval intersection and the concurrency proofs built on them,
and `Proxy` the tool-call transaction over a store whose appends fail in any pattern, whose reported
gaps `ToolRecords` explains in terms of what the log holds.

**Detectors.** `Replay` is the causal replay order, popped from a binary heap, and a function of the
event set; `WorkGraph` the coverage table derived from it; `Causation` the cycle-safe walk to the
nearest covered ancestor. `SameSymbol` and `SameSymbolRuntime` derive findings that do not depend on
the order of the events and form a matching; `SameSymbolMeaning` says what a finding is without
naming any step of the derivation.

**Small languages.** `Contracts` (parameter splitting; compatibility against call acceptance),
`JsonSchema`, `JsonValidator` and `JsonTransparency` (pointers; validation with a reference stack;
when a reference means its target), `JsonKeywords` (what each keyword asks of a value, and that a plain
schema asks for all of its keywords), `CanonicalJson` and
`CanonicalOrder` (the printer against a parser; equal text exactly for equal values).

**Bounded resources.** `Injection` (a 32-session store against the unbounded record), `Mailbox`
(mail under a byte budget, claimed and then marked), `M0Evidence` (percentiles from raw samples).

## What turned out not to hold

The code is modelled as it is; each of these has a run or an input in the project, and the positive
theorem carries the condition that excludes the whole family.

- A drain pass publishes its capture even when a reconciliation published a newer snapshot while the
  pass was reading. The cache then misses a change that nothing records
  (`ObservationCounterexamples.PassOverReconciliation`), and the out-of-band list stops being a
  bridge. `ObservationGuards.InvIsKeptIff` and `ObservationConservation.PublicationBridgesIff` say
  exactly when neither happens, `ObservationTheorems.JournalCoversIff` when the journal still covers
  what is unprocessed.
- When a directory is replaced by a plain file and only the directory is reported, the cached files
  below it stay in the snapshot of a complete window (`ShadowedFilesStay`).
  `ObservationTheorems.FileReadKeepsCaptureIff` gives the exact condition.
- One slot holds the degradation mark. An overlapping `beginWindow` overwrites an overflow and the
  window's end clears it (`OverlapErasesOverflow`); an overflow overwrites a dead watcher's mark and a
  reconciliation then heals it (`HealedDeadWatcher`). `ObservationTheorems.MarkIsLostIff` lists
  exactly the steps that lose a mark.
- Findings are not invariant under exact repetition: a repeated event ID makes the replay throw, which
  leaves no coverage, so recording one event of a stream twice erases its findings
  (`SameSymbolCounterexample.RepetitionErasesFindings`). `SameSymbolRuntime.SameFindingsIff` says
  exactly when two lists of the same events give the same findings.
- Widening a parameter to a rest parameter can be reported as breaking although every call stays
  accepted (`Contracts.WideningToRestIsBreaking`); exactness holds where rest parameters line up.
- The validator hands its reference stack down through items and properties, so a recursive schema
  is rejected at its second level (`JsonValidator.RecursiveReferencesAreNotTransparent`);
  `JsonTransparency.TransparentIff` says for which values a reference still means its target.
- `canonicalJson` with a comparator that ties on distinct keys keeps their listed order
  (`CanonicalOrder.KeyOrderIndependentIff`).
- `withinBudget` does not reserve room for its own notice, so its result can exceed the budget; and
  trimming such a result again, as happens to a recap without mail, replaces the count of withheld
  lines by one (`Mailbox.TrimmedFitsIff`, `SomeTextOverflows`, `SecondTrimMiscounts`, and a text with
  two withheld lines reported as one in `TwoLinesReportedAsOne`).

## Model

| member | source | states |
|---|---|---|
| Effects.DiffSnapshots | packages/observation/src/effects.ts:35-126 | the change list is exactly the changes there are, in strictly ascending path order, by a definition that mentions no loop; a deleted path is reported ambiguous exactly when several created paths hold its state |
| Effects.PairRenames | packages/observation/src/effects.ts:49-75 | the greedy pairing equals the closed form: a rename is the one created path of a state, taken by the first deleted path of that state |
| Effects.PatchInAnyOrder | packages/observation/src/effects.ts:35-126 | applying the changes to `before` in any order gives `after` up to content and kind |
| Effects.PatchAppliesIff | packages/observation/src/effects.ts:35-126 | the patch turns any other snapshot into `after` exactly when that one agrees with `before` wherever the two agree |
| Effects.TouchedIff | packages/observation/src/effects.ts:28-112 | the list touches a path, as new or previous one, exactly if the snapshots differ there in presence, content hash or kind |
| Effects.DiffIsUnique | packages/observation/src/effects.ts:35-126 | two snapshots have one change list |
| Effects.RenamesAreInjective | packages/observation/src/effects.ts:61-75 | no created path is paired twice |
| Effects.FootprintsAreDisjoint | packages/observation/src/effects.ts:61-110 | no two changes write or remove a common path |
| Effects.DeletedOnce | packages/observation/src/effects.ts:90-99 | a deleted path occurs in exactly one change |
| Effects.CreatedOnce | packages/observation/src/effects.ts:101-110 | a created path occurs in exactly one change |
| Effects.AmbiguousFallsBack | packages/observation/src/effects.ts:57-60 | an ambiguous deleted path appears as a deletion, and its candidates as creations |
| Effects.SharedStateIsNotReported | packages/observation/src/effects.ts:49-75 | of several deleted paths with one state and one created twin only the first is renamed, and no gap tells |
| ObservationSafety.RunKeepsInv | packages/observation/src/node-observation.ts:549-1005 | in every guarded run, whatever interleaves, the cache, the captures in flight, the journal and the marks account for every path that differs from the disk |
| ObservationGuards.InvIsKeptIff | packages/observation/src/node-observation.ts:549-1005 | from an accounted state a step leads to an accounted state if and only if it meets its guard: an overtaken pass contradicts the newer snapshot nowhere it is wrong and unexcused, a path read as a plain file has nothing unexplained cached below it, a dead watcher's mark is not overwritten, and an overlapping begin finds nothing resting on the mark it overwrites |
| ObservationGuards.GuardedRunIff | packages/observation/src/node-observation.ts:549-1005 | a run is accounted for in all its states if and only if all its steps are guarded |
| ObservationGuards.SafeRunIsAccounted | packages/observation/src/node-observation.ts:549-1005 | conditions the session itself can see are enough: if no begin overlaps while a mark stands, passes publish over their own snapshot only, a failed watcher's mark is not overwritten, and a plain file is read only over paths still to be read, then every run from the start is accounted for and its complete windows agree with a full scan up to undelivered events |
| ObservationGuards.SafeRunIsCovered | packages/observation/src/node-observation.ts:715-722 | if also no event meets a full journal, the journal covers the unprocessed cursors in every state |
| ObservationSafety.WriteKeepsInv | packages/observation/src/node-observation.ts:715-722 | a disk write at any await is accounted for by the events it raises |
| ObservationSafety.DeliverKeepsInv | packages/observation/src/node-observation.ts:715-722 | a delivery, however late, turns a pending event into a journal entry or an overflow mark |
| ObservationSafety.AdvanceKeepsInv | packages/observation/src/node-observation.ts:736-852 | resuming an incremental capture between any two reads keeps every path accounted for |
| ObservationSafety.ReadKeepsCapture | packages/observation/src/node-observation.ts:786-816 | reading one candidate settles every path the candidate stood for, leaves a gap over it, or leaves paths below a plain file that have another excuse |
| ObservationSafety.PassKeepsInv | packages/observation/src/node-observation.ts:925-941 | publishing a drain pass over its own snapshot, or over a newer one it does not wrongly contradict, keeps the invariant |
| ObservationSafety.EndKeepsInv | packages/observation/src/node-observation.ts:619-643 | publishing a window's capture keeps the invariant |
| ObservationSafety.ReconcileKeepsInv | packages/observation/src/node-observation.ts:959-991 | a reconciliation that publishes, or gives up, keeps the invariant |
| ObservationTheorems.CompleteWindowAgrees | packages/observation/src/node-observation.ts:611-648 | a window that ends complete returns the files of a full scan except at paths with undelivered events, and exactly those if none is undelivered |
| ObservationTheorems.QuietCacheIsFullScan | packages/observation/src/node-observation.ts:736-852 | with nothing undelivered, unprocessed, marked or recorded the cache is a full scan |
| ObservationTheorems.FileReadKeepsCaptureIff | packages/observation/src/node-observation.ts:801-808 | reading a candidate as a plain file keeps the capture accounted for exactly when every path cached below it has another excuse |
| ObservationTheorems.JournalIsConsecutive | packages/observation/src/node-observation.ts:715-722 | in every run whatsoever the journal's cursors are consecutive, end at the session cursor, and never exceed the bound |
| ObservationTheorems.JournalCoversIff | packages/observation/src/node-observation.ts:715-722 | the journal holds exactly the cursors from `processedCursor` to `cursor` in every state of a run if and only if no event overflows it and no drain pass stops before what is already processed |
| ObservationTheorems.OwnPassKeepsCoverage | packages/observation/src/node-observation.ts:928-936 | a pass over the snapshot it started from never stops before what is processed |
| ObservationTheorems.MarkIsLostIff | packages/observation/src/node-observation.ts:987-991 | a step loses a mark exactly when it is an overlapping begin or a reconciliation that finds only tool and Git gaps and heals a replaced root, or an overflow whose cache agreed |
| ObservationTheorems.MarkedWindowsAreDegraded | packages/observation/src/node-observation.ts:627-641 | from a mark until such a step, no window ends complete |
| ObservationTheorems.OverflowMarks | packages/observation/src/node-observation.ts:718-721 | an event beyond the journal's capacity marks the session |
| ObservationReports.OpenedWindowIs | packages/observation/src/node-observation.ts:564-573 | a window that opens has exactly the session's persistent and pending gaps, its mark, and the busy gap if it is behind; it takes the pending gaps and the out-of-band changes with it |
| ObservationReports.ClosedWindowIs | packages/observation/src/node-observation.ts:619-646 | a window ends with exactly the gaps it started with, its capture's, the mark and late activity, and complete exactly if none is more than the snapshot-origin gap |
| ObservationReports.PendingGapsAre | packages/observation/src/node-observation.ts:939-978 | a gap is pending after a step if and only if the step owes it (a mismatch, a replaced root, a reconciliation that gave up), or it was pending and the step opens no window |
| ObservationReports.PendingGapIsReported | packages/observation/src/node-observation.ts:567-641 | over every run: a gap pending at any time is among the gaps of the next window that opens, when it ends, and that one is not complete |
| ObservationReports.UnsettledReconciliationDegrades | packages/observation/src/node-observation.ts:943-1000 | over every run: after a reconciliation that found a mismatch or a replaced root, or gave up, the next window that opens does not end complete |
| ObservationReports.LastingGapsAre | packages/observation/src/node-observation.ts:925-985 | a gap is lasting after a step exactly if a full capture just found it, or it was and no full capture replaced it, or a published incremental capture has it |
| ObservationReports.EndSchedulesIff | packages/observation/src/node-observation.ts:643-646 | a window's end schedules a reconciliation exactly if one was scheduled or the count of ended windows is a multiple of the period |
| ObservationReports.DueAgain | packages/observation/src/node-observation.ts:943-1000 | a reconciliation that gave up at a multiple of the period, or found the root replaced, is due again when the next window ends |
| ObservationConservation.OutOfBandBridgesWindows | packages/observation/src/node-observation.ts:564-569 | in a run whose publications bridge, the out-of-band changes handed to a window, applied to the files the previous window ended with, give the files it starts from, through any drains and reconciliations |
| ObservationConservation.RunConservesIff | packages/observation/src/node-observation.ts:925-991 | the list of out-of-band changes bridges the last window and the current cache in every state of a run if and only if every publication of the run bridges |
| ObservationConservation.StepConservesIff | packages/observation/src/node-observation.ts:925-991 | a step keeps the list a bridge if and only if it publishes nothing, or agrees with the snapshot it replaces as `PublicationBridgesIff` says |
| ObservationConservation.OwnEpochBridges | packages/observation/src/node-observation.ts:928-934 | a publication over the snapshot it was computed from always bridges |
| ObservationConservation.PublicationBridgesIff | packages/observation/src/node-observation.ts:928-934 | a publication keeps the bridge exactly when the snapshot it replaces agrees with the one it was computed from wherever it changes nothing |
| ObservationCounterexamples.ShadowedFilesStay | packages/observation/src/node-observation.ts:793-808 | a run in which a complete window returns a file the disk does not have |
| ObservationCounterexamples.OverlapErasesOverflow | packages/observation/src/node-observation.ts:551-557 | a run with room for one journal entry in which an overlapping begin makes the session forget an overflow |
| ObservationCounterexamples.HealedDeadWatcher | packages/observation/src/node-observation.ts:987-991 | a run with room for one journal entry in which the mark of a dead watcher is healed and later writes leave no trace |
| ObservationCounterexamples.PassOverReconciliation | packages/observation/src/node-observation.ts:925-941 | a run in which a drain pass overwrites a newer snapshot |
| WatchSessions.WatchSession.OnWatchEvent | packages/observation/src/node-observation.ts:715-722 | appends under the next cursor, and past the bound drops the oldest entries and marks the overflow |
| WatchSessions.WatchSession.PruneJournal | packages/observation/src/node-observation.ts:1028-1032 | on ascending cursors, leaves exactly the entries past the processed cursor, in order |
| WatchSessions.WatchSession.CollectCandidates | packages/observation/src/node-observation.ts:757-785 | the paths to read are exactly the visible paths the journal names in range, each once, parents first; a nameless event leaves its gap |
| WatchSessions.WatchSession.PublishPass | packages/observation/src/node-observation.ts:929-936 | a drain pass publishes its capture, records the difference out of band and prunes |
| WatchSessions.WatchSession.FinishBegin | packages/observation/src/node-observation.ts:564-573 | the window's gaps are exactly the persistent gaps, the pending gaps, the degradation mark and, if the session is behind, the busy gap; its snapshot, cursor and out-of-band changes are the session's; pending gaps and out-of-band changes are emptied by the handover |
| WatchSessions.WatchSession.EndWindow | packages/observation/src/node-observation.ts:622-646 | the result lists every gap once, in order of first occurrence, and is complete exactly when only the snapshot-origin gap is left |
| WatchSessions.WatchSession.PublishReconciliation | packages/observation/src/node-observation.ts:973-991 | a full capture replaces the cache, records the mismatch and heals the marks it may |
| WatchSessions.ReadCandidates | packages/observation/src/node-observation.ts:786-816 | the loop does what as many resumptions of the machine do; every path ends up as the last read that decides it says, a plain file for itself, a missing path for all below it, a directory scan for all in it, and as it was cached if no read decides it |
| WatchSessions.LastReadDecides | packages/observation/src/node-observation.ts:786-816 | the same about the machine's capture after any number of its reads |
| WatchSessions.ReadsLeaveGaps | packages/observation/src/node-observation.ts:786-816 | the gaps added are exactly one at each candidate that was neither a plain file, missing, nor hashed already |
| WatchSessions.SameSnapshot | packages/observation/src/node-observation.ts:1076-1083 | the size check and one-sided scan decide equality of the file maps |
| WatchSessions.UniqueGaps | packages/observation/src/node-observation.ts:1018-1026 | keeps every gap once, in the order of first occurrences |
| Paths.SegmentsOfJoin | packages/observation/src/ignore-policy.ts:10 | splitting a joined path gives the parts' segments, one after the other |
| Paths.IgnoredIff | packages/observation/src/ignore-policy.ts:1-11 | a path is ignored exactly if it is or lies below the runtime evidence, or one of its parts is .git or node_modules |
| Paths.IgnoredBelow | packages/observation/src/ignore-policy.ts:7-11 | everything below an ignored path is ignored |
| Dispatch.MutualExclusion | packages/adapters/src/patchmesh-site-mcp-gateway.ts:621-631 | in every reachable state at most one dispatch runs, and calls enter in arrival order |
| Dispatch.EnterIff | packages/adapters/src/patchmesh-site-mcp-gateway.ts:621-631 | a waiting call can enter exactly when every earlier call has returned or thrown |
| Dispatch.NobodyIsStuck | packages/adapters/src/patchmesh-site-mcp-gateway.ts:625-630 | the first call that is not over can always advance, also behind a throw |
| Dispatch.StepsUseWork | packages/adapters/src/patchmesh-site-mcp-gateway.ts:621-631 | without new calls every schedule ends |
| Dispatch.RunKeepsNumbered | packages/adapters/src/patchmesh-site-mcp-gateway.ts:496-499 | a call holds the pair (2k, 2k + 1), where k earlier calls reserved under its source key, and the table holds the next number |
| Dispatch.NumbersAreNeverReused | packages/adapters/src/patchmesh-site-mcp-gateway.ts:496-499 | of two calls of one source key the later holds a pair entirely above the earlier one's |
| Dispatch.KeysTellApart | packages/adapters/src/patchmesh-site-mcp-gateway.ts:496-499 | the key tells sources apart whose kind and source hold no colon |
| Dispatch.SourcesNumberFromZero | packages/adapters/src/patchmesh-site-mcp-gateway.ts:496-499 | in every run of such sources a call's pair starts at twice the number of earlier calls of its own source that reserved, so each source numbers from zero whatever the others do |
| Dispatch.SeparatorsMayCollide | packages/adapters/src/patchmesh-site-mcp-gateway.ts:496-499 | for any parts there are two different sources with colons inside that share a key |
| Dispatch.LogSequencesIncrease | packages/adapters/src/mcp-proxy.ts:793-796 | however calls arrive, interleave and fail, each source's sequences strictly increase in append order |
| Dispatch.DispatchGateway.Arrive | packages/adapters/src/patchmesh-site-mcp-gateway.ts:622-624 | a call takes the tail as its predecessor and leaves a fresh promise in its place |
| Dispatch.DispatchGateway.Reserve | packages/adapters/src/patchmesh-site-mcp-gateway.ts:496-499 | reading and advancing the counter is one step of the machine |
| Dispatch.DispatchGateway.Release | packages/adapters/src/patchmesh-site-mcp-gateway.ts:626-630 | returning and throwing both settle the call's own promise |
| Lifecycles.OverlapIsIntersection | packages/adapters/src/patchmesh-site-mcp-gateway.ts:449-477 | for every run a lifetime's overlap set holds another exactly when both are of one repository and some state had both active |
| Lifecycles.OverlapsAreSymmetric | packages/adapters/src/patchmesh-site-mcp-gateway.ts:462-469 | overlap is irreflexive and symmetric |
| Lifecycles.NothingIsLost | packages/adapters/src/patchmesh-site-mcp-gateway.ts:598-614 | no later operation, recording included, loses an overlap or a recorded change or revives an ended lifetime |
| Lifecycles.LifecycleRegistry.BeginTaskLifecycle | packages/adapters/src/patchmesh-site-mcp-gateway.ts:449-470 | rejects exactly the unauthorized, blank, uncanonical and conflicting registrations, repeats being idempotent; otherwise the registry takes the model's step |
| Lifecycles.LifecycleRegistry.EndTaskLifecycle | packages/adapters/src/patchmesh-site-mcp-gateway.ts:473-477 | ends exactly an active lifetime and rejects anything else |
| Lifecycles.LifecycleRegistry.RecordSymbolChanges | packages/adapters/src/patchmesh-site-mcp-gateway.ts:598-614 | adds the changes to an active lifetime and touches nothing else |
| Lifecycles.RecordedChangesAreOwn | packages/adapters/src/patchmesh-site-mcp-gateway.ts:598-614 | in every run a lifetime holds only changes made under its own repository, workspace, worktree, agent and task |
| Lifecycles.EmitConcurrencyProofs | packages/adapters/src/patchmesh-site-mcp-gateway.ts:548-595 | collects the evidence, walks for coverage and emits exactly the provable pairs whose proofs pass the validation of their participants, are taken by the store and were not emitted before, each pair of changes once; a pair whose append fails stays open, a pair stored already counts as emitted |
| Lifecycles.CollectEvidence | packages/adapters/src/patchmesh-site-mcp-gateway.ts:540-570 | the map holds for every change exactly the sufficient V3 symbol evidence about it that is bound to the snapshot, in order |
| Lifecycles.EligibleIff | packages/adapters/src/patchmesh-site-mcp-gateway.ts:540-570 | in every run, a pair is eligible if and only if the current lifetime recorded the first change and one other lifetime alone the second, both touch one symbol, the two were active together in one repository on one target under different agents and worktrees, and each change has exactly one piece of evidence |
| Lifecycles.EmittedIff | packages/adapters/src/patchmesh-site-mcp-gateway.ts:548-595 | in every run, whatever the store holds: a pair counts as emitted afterwards if and only if it did before, or it is such a pair whose proof is stored already, or is taken, the walk from the first change finding coverage and the tasks differing; and a proof is appended if and only if it is of the last kind |
| Lifecycles.KeyNamesPair | packages/adapters/src/patchmesh-site-mcp-gateway.ts:573-591 | a key names its two changes, in whichever order, and the target |
| Lifecycles.ProofsRestOnRealOverlap | packages/adapters/src/patchmesh-site-mcp-gateway.ts:559-570 | a provable pair rests on two lifetimes that were active together, of different agents and worktrees |
| Lifecycles.EmittableIff | packages/protocol/src/validation.ts:207-227 | lifetimes are looked up by task, and of the provable pairs exactly those of different tasks pass the validation: two agents on one task yield no proof |
| Lifecycles.EmittedProofNamesBoth | packages/adapters/src/patchmesh-site-mcp-gateway.ts:573-591 | in every run every emitted proof names exactly the current lifetime and another, each for a change it recorded itself, and the two were active together under different tasks, agents and worktrees |
| Proxy.McpProxy.Execute | packages/adapters/src/mcp-proxy.ts:785-1215 | under any pattern of failing appends: every new event's cause precedes it or is the caller's; at most one completion, whose effects are persisted and whose attribution proves its conditions; on a store that never persists and then throws, no file change is omitted; ids stay distinct; every gap of the observation is returned; no gap is returned only if nothing is missing on record, and on such a store if and only if; a proof-bearing dependent write is appended only then |
| Proxy.MeasuredByStages | packages/adapters/src/mcp-proxy.ts:809-1044 | the gaps gathered before the completion are only origin gaps exactly if the read, both undegraded captures with nothing out of band, every difference with its analysis, every resolved dependency and the declared write are on record, and then there is none at all exactly if the captures had none |
| Proxy.MeasuredGaps | packages/adapters/src/mcp-proxy.ts:1044-1163 | with the origin gaps taken out only under attribution, the reported list is empty exactly if also the captures had no gap or the succeeded call reported exactly what it changed |
| Proxy.McpProxy.Observe | packages/adapters/src/mcp-proxy.ts:815-911 | the gaps of an observation are exactly the missing root, a boundary that failed, its capture's gaps, a degraded window, the missing comparison, ambiguous renames and the opaque call |
| Proxy.McpProxy.Gather | packages/adapters/src/mcp-proxy.ts:809-1044 | if nothing speaks against attribution, then the call succeeded transparently between two undegraded captures with nothing out of band, every difference was persisted and analyzed, the reported resources are exactly the differing ones, and the declared read and dependent write are on record |
| Proxy.McpProxy.PersistChange | packages/adapters/src/mcp-proxy.ts:913-949 | nothing is an effect if the append threw; otherwise the change alone or the change with all its symbols, and exactly the complete cases leave no objecting gap |
| Proxy.McpProxy.PersistOutOfBand | packages/adapters/src/mcp-proxy.ts:958-1001 | every change seen outside the call leaves its gap, and is on record without a cause or its loss is a gap |
| Proxy.McpProxy.AnalyzeChange | packages/adapters/src/mcp-proxy.ts:933-949 | source analysis contributes all symbols of the change, or none and a gap |
| Proxy.McpProxy.DeriveChangedSourceEvents | packages/adapters/src/mcp-proxy.ts:636-733 | the derived symbols are reported only if all their events were appended after the file change |
| Proxy.McpProxy.PersistResolvedDependencies | packages/adapters/src/mcp-proxy.ts:735-783 | the log gains nothing or every resolved dependency in turn, each caused by its consumer's persisted file change and followed by its evidence; no reason means all are there, and on a store that never persists and then throws a reason means none is |
| Proxy.McpProxy.AppendDependentWrite | packages/adapters/src/mcp-proxy.ts:1105-1203 | coverage is reported sufficient exactly when no gap is left; on the proof path a write is appended only without gaps, with prerequisites, for an attributed change, and no gap is left exactly if it was; off it a write is appended exactly if the change, the dependency and the task are there |
| Proxy.HasExactEffectResourceMatch | packages/adapters/src/mcp-proxy.ts:227-236 | sorting and comparing decides that both lists are duplicate-free and hold the same non-empty set |
| Proxy.AttributedIds | packages/adapters/src/mcp-proxy.ts:238-252 | attribution is all or nothing, and all exactly when nothing speaks against it |
| ToolRecords.ClosingKeeps | packages/adapters/src/mcp-proxy.ts:1052-1203 | completions and dependent writes change nothing about what is on record for the call |
| Causation.CoverageFor | packages/core/src/same-symbol-runtime.ts:89-99 | the walk ends on every graph, cyclic ones included, with the nearest covered ancestor's coverage, or with nothing if no ancestor at any distance is covered |
| Causation.WalkIsUnique | packages/core/src/same-symbol-runtime.ts:89-99 | that promise determines the answer |
| Causation.CycleAddsNothing | packages/core/src/same-symbol-runtime.ts:92-97 | past a repeated ancestor every later one has been seen |
| Causation.SufficientCoverageIds | packages/core/src/same-symbol-runtime.ts:65-76 | an event is mapped exactly when the sufficient rows holding it have one coverage ID between them |
| Causation.LookupsAgreeIff | packages/adapters/src/mcp-proxy.ts:108-126 | the two lookups differ at an event exactly when several rows of one ID hold it |
| Causation.WalksAgreeIff | packages/adapters/src/patchmesh-site-mcp-gateway.ts:348-366 | the walks agree on every graph exactly when no event is held by several rows of one ID |
| Causation.WalksAgree | packages/adapters/src/patchmesh-site-mcp-gateway.ts:348-366 | in particular when no two sufficient rows share an ID |
| Causation.SharedIdsMakeWalksDiffer | packages/adapters/src/patchmesh-site-mcp-gateway.ts:357-358 | on an arbitrary table with a shared ID, which the projection never derives, the gateway can climb past an event the deriver binds |
| Replay.MinHeap.Push | packages/storage/src/replay.ts:46-58 | sifting up keeps the heap and adds the value |
| Replay.MinHeap.Pop | packages/storage/src/replay.ts:60-86 | takes a value no other precedes, and sifting down keeps the heap of the rest |
| Replay.CausalOrder | packages/storage/src/replay.ts:89-135 | fails exactly on a repeated ID, an absent cause, or a chain of causes that never ends; otherwise lists all events, at each turn the first by ID of those whose cause is listed |
| Replay.CausesComeFirst | packages/storage/src/replay.ts:115-132 | in that order every event occurs once and after its cause |
| Replay.CausalOrderIsUnique | packages/storage/src/replay.ts:89-135 | an event set has one such order, so the replay of a list does not depend on how it is listed |
| WorkGraph.DeriveProjectionCoverage | packages/storage/src/work-graph-coverage.ts:152-194 | the indexes built in one pass give, for every request, the row that scanning all events for its completion, reads and effects gives |
| WorkGraph.SufficientIff | packages/storage/src/work-graph-coverage.ts:70-150 | a call is sufficiently covered exactly when it completed, all effects its last completion declares are changes on record, attributed where only the watcher saw them, and an effect was seen or, unless the call is opaque, a read; stated on the event list alone |
| WorkGraph.HoldsIff | packages/storage/src/work-graph-coverage.ts:70-150 | a row covers exactly its request, its last completion, the reads the request caused, the declared effects on record and the changes bound to the completion |
| WorkGraph.RowsHaveTheirOwnIds | packages/storage/src/work-graph-coverage.ts:149 | no two rows of a derived table share a coverage ID |
| WorkGraph.ProjectedWalksAgree | packages/adapters/src/mcp-proxy.ts:108-126 | on every derived table the walks of the gateway, the proxy and the deriver answer alike, from every event of every graph |
| WorkGraph.CoverageLookup | packages/core/src/same-symbol-runtime.ts:65-76 | the lookup is a function of the event set, and empty once an ID repeats or the set cannot be replayed |
| SameSymbol.FindingsAreSound | packages/core/src/same-symbol-overlap.ts:51-92 | a finding rests on one V3 observation, not from the core, naming exactly its two changes, with different agents, tasks, worktrees and values |
| SameSymbol.FindingsFormAMatching | packages/core/src/same-symbol-runtime.ts:172-191 | findings that share any event are the same finding |
| SameSymbol.OverlapIsMutual | packages/core/src/same-symbol-runtime.ts:168-179 | two changes that overlap were paired with each other by one and the same observation |
| SameSymbol.EvidenceIsUnambiguous | packages/core/src/same-symbol-runtime.ts:180-191 | a change has one evidence record |
| SameSymbolMeaning.FindingsMean | packages/core/src/same-symbol-runtime.ts:123-192 | a finding is there if and only if the events do not conflict and two changes and an observation mean one, in terms of events and coverage alone |
| SameSymbolMeaning.BackedIff | packages/core/src/same-symbol-runtime.ts:123-166 | a change has its proof exactly if sufficient V3 evidence targets it as a symbol, bound by digest to a stored read or change of that resource and version, covered, and in agreement about repository, snapshot and contract |
| SameSymbolMeaning.DecidesIff | packages/core/src/same-symbol-runtime.ts:172-179 | an observation decides for a change exactly if all that join it agree on the other change, the target and the coverage, and none of them has a smaller ID |
| SameSymbolRuntime.HasConflictingDuplicateIds | packages/core/src/same-symbol-runtime.ts:78-87 | detects exactly an ID with two contents |
| SameSymbolRuntime.EquivalentDerivedByTarget | packages/core/src/same-symbol-runtime.ts:110-121 | a target is mapped exactly when its assertions all say the same, and then to the least ID; `exactOne` also asks for a single one |
| SameSymbolRuntime.SelectionIsMetadata | packages/core/src/same-symbol-runtime.ts:110-121 | without `exactOne` the selection is a function of the event set |
| SameSymbolRuntime.SelectionIgnoresOrder | packages/core/src/same-symbol-runtime.ts:239 | contract evidence survives any permutation |
| SameSymbolRuntime.RepetitionDeselects | packages/core/src/same-symbol-runtime.ts:115 | in the selection by itself, repeating the selected event deselects its target under `exactOne` and changes nothing without |
| SameSymbolRuntime.DeriveSameSymbolEvidence | packages/core/src/same-symbol-runtime.ts:140-192 | the loops compute exactly the evidence of the event set under the coverage lookup of the event list, and nothing for a conflicting one |
| SameSymbolRuntime.RunSameSymbolDetector | packages/core/src/detector-runner.ts:25-35 | on unambiguous evidence the findings are exactly those of the evidence set, one per ID, in order |
| SameSymbolRuntime.StableFindings | packages/core/src/detector-runner.ts:16-22 | every ID once, in ascending order |
| SameSymbolRuntime.SameSymbolFindings | packages/core/src/same-symbol-runtime.ts:298-300 | from events to findings, replay and coverage included: exactly the findings of the event set, and none once an ID repeats |
| SameSymbolRuntime.OrderDoesNotMatter | packages/core/src/detector-runner.ts:25-35 | reordering the events leaves the list of findings unchanged |
| SameSymbolRuntime.RepetitionYieldsNothing | packages/storage/src/replay.ts:91-96 | a list in which an event ID repeats, be it exactly, has no evidence and no findings |
| SameSymbolRuntime.SameFindingsIff | packages/core/src/same-symbol-runtime.ts:140-192 | two lists of the same events give the same findings if and only if both repeat an ID, or neither does, or both find nothing |
| SameSymbolCounterexample.RepetitionErasesFindings | packages/core/test/same-symbol-runtime.test.ts:200-220 | a stream of two rival changes under one covered call has a finding, and recording any of its events twice leaves none |
| SameSymbolCounterexample.SomeStream | packages/core/test/same-symbol-runtime.test.ts:200-202 | there is such a stream for every digest |
| Contracts.SplitParameters | packages/analyzers/src/contract-compatibility.ts:20-44 | nothing exactly for unbalanced text; otherwise balanced pieces without a top-level comma that rejoin to the text up to the trimmed last one |
| Contracts.SplitIsUnique | packages/analyzers/src/contract-compatibility.ts:20-44 | those conditions determine the pieces |
| Contracts.BracketsHold | packages/analyzers/src/contract-compatibility.ts:20-44 | balanced text between angle, square or curly brackets is one piece, commas included; a bracket left open, or closing nothing, unbalances it |
| Contracts.Classify | packages/analyzers/src/contract-compatibility.ts:84-107 | the verdict compatible exactly for parsed signatures that keep the contract, unknown exactly where a side does not parse |
| Contracts.CompatibleIsSound | packages/analyzers/src/contract-compatibility.ts:94-106 | every call the old signature accepted (arity, optional, default, rest) is accepted by the new one |
| Contracts.KeepsIsTransitive | packages/analyzers/src/contract-compatibility.ts:94-106 | compatibility is transitive |
| Contracts.KeepsBothWaysIff | packages/analyzers/src/contract-compatibility.ts:94-106 | signatures are compatible both ways exactly when they differ in parameter names only |
| Contracts.CompatibleIff | packages/analyzers/src/contract-compatibility.ts:94-106 | among signatures of equal name and return type: compatible exactly when rest parameters line up and no accepted call is lost |
| Contracts.CompatibleIffRestFree | packages/analyzers/src/contract-compatibility.ts:94-106 | without rest parameters: exactly when no accepted call is lost |
| Contracts.WideningToRestIsBreaking | packages/analyzers/src/contract-compatibility.ts:100 | a change no caller can notice that is reported breaking |
| JsonSchema.UnescapeEscape | tools/phase2/json-schema.ts:12 | token decoding undoes the escaping of section 4 of RFC 6901 for every key |
| JsonSchema.OtherOrderFails | tools/phase2/json-schema.ts:12 | decoding in the other order would not |
| JsonSchema.PointerFindsNode | tools/phase2/json-schema.ts:7-14 | a reference built by the escaping rule and percent-encoding finds exactly the node its keys lead to, for all keys |
| JsonValidator.ValidateNode | tools/phase2/json-schema.ts:29-78 | ends on every schema, cyclic references included, and pushes no diagnostic exactly when the value is valid |
| JsonValidator.ValidateJsonSchemaInstance | tools/phase2/json-schema.ts:80-85 | no diagnostics exactly for an object schema and a valid instance |
| JsonKeywords.KeywordLaw | tools/phase2/json-schema.ts:49-72 | a schema holding one of type (each name, and lists), const, enum, minLength, pattern, format, minimum, exclusiveMinimum, maximum, minItems, maxItems, uniqueItems and required is valid for a value exactly if a condition on its constructor, number, length or members holds |
| JsonKeywords.UnknownLaw | tools/phase2/json-schema.ts:49-77 | any other keyword accepts every value |
| JsonKeywords.ItemsLaw | tools/phase2/json-schema.ts:63-68 | items alone: a value other than an array, or an array of valid items |
| JsonKeywords.PropertiesLaw | tools/phase2/json-schema.ts:69-77 | properties alone: a value other than an object, or an object whose named members are valid |
| JsonKeywords.AdditionalPropertiesLaw | tools/phase2/json-schema.ts:69-77 | additionalProperties false alone: a value other than an object, or the empty object |
| JsonKeywords.PropertiesMean | tools/phase2/json-schema.ts:69-77 | together: named members are valid and, if additional ones are forbidden, there is no other |
| JsonKeywords.AnyOfLaw | tools/phase2/json-schema.ts:38-42 | anyOf alone: some branch accepts |
| JsonKeywords.OneOfLaw | tools/phase2/json-schema.ts:43-48 | oneOf alone: exactly one branch accepts |
| JsonKeywords.RefLaw | tools/phase2/json-schema.ts:30-37 | a reference alone: it is local, not being followed, leads to an object, and that one accepts the value with the reference on the stack |
| JsonKeywords.ReplacingKeywords | tools/phase2/json-schema.ts:30-48 | beside a reference, anyOf or oneOf, in this order, no other keyword counts |
| JsonKeywords.KeywordsCompose | tools/phase2/json-schema.ts:49-77 | a plain schema is valid for a value exactly if each of its keywords alone is, properties and additionalProperties being taken together |
| JsonValidator.StackIsIrrelevant | tools/phase2/json-schema.ts:32 | on schemas without reference cycles the stack never decides |
| JsonValidator.RecursiveReferencesAreNotTransparent | tools/phase2/json-schema.ts:67-74 | a recursive list schema accepts one link and the reference to it rejects it |
| JsonTransparency.TransparentIff | tools/phase2/json-schema.ts:30-37 | a reference means its target for every value whose validation does not get back to it; without anyOf and oneOf it fails to exactly for the accepted values whose validation does; with them, exactly where the verdict turns by `Turns` |
| JsonTransparency.StackTurnsIff | tools/phase2/json-schema.ts:29-78 | for every schema, value and stack: putting one more reference on the stack turns exactly the verdicts that a recursion over the parts names |
| JsonTransparency.UnfollowedDoesNotTurn | tools/phase2/json-schema.ts:32 | a value whose validation does not get to the reference does not notice |
| JsonTransparency.BranchlessTurnsIff | tools/phase2/json-schema.ts:49-77 | without anyOf and oneOf exactly the accepted values whose validation gets there notice |
| JsonTransparency.UnreachableIsTransparent | tools/phase2/json-schema.ts:30-37 | a reference out of its own reach means its target for every value, whatever cycles lie elsewhere in the document |
| CanonicalJson.ParsePrint | tools/phase2/gate-definitions.ts:76-83 | whatever follows, the parser takes exactly the printed value off the front |
| CanonicalJson.Decodes | tools/phase2/gate-definitions.ts:76-83 | canonical text is uniquely decodable: a value whose numbers are written readably is recovered with its keys in print order |
| CanonicalJson.WholeNumbersWriteBack | tools/phase2/gate-definitions.ts:82 | decimal text of whole numbers is such a writing |
| CanonicalOrder.CanonicalTextIff | packages/adapters/src/mcp-proxy.ts:99-106 | canonical text is equal exactly for values equal up to key order |
| CanonicalOrder.KeyOrderIndependentIff | tools/phase2/gate-definitions.ts:80 | the printer ignores key order exactly when its comparator tells all keys apart |
| Injection.InjectionState.ClaimInjection | packages/gateway/src/injection-state.ts:84-122 | refuses exactly a repeat inside the window, changes nothing then, and otherwise keeps the 32 most recent sessions |
| Injection.RefusesExactlyRepeats | packages/gateway/src/injection-state.ts:84-122 | for every run of an increasing clock the bounded store refuses exactly the repeats of a session's last granted digest inside the window with at most 31 other sessions claimed since |
| Injection.RunAgrees | packages/gateway/src/injection-state.ts:106-113 | the bounded store is always the recent part of the unbounded record |
| Mailbox.BuildMailboxBlock | packages/gateway/src/mailbox-inject.ts:54-75 | the block holds the longest prefix of oldest-first messages that fits the budget, whole |
| Mailbox.WithinBudget | packages/gateway/src/session-start-bin.ts:99-112 | short text unchanged; long text cut to the longest prefix of lines that fits, with the cut declared |
| Mailbox.NoticeSays | packages/gateway/src/session-start-bin.ts:110-111 | the notice names the number of lines withheld |
| Mailbox.MailFits | packages/gateway/src/session-start-bin.ts:257-268 | when mail is included the composed context is within the budget and holds every included message whole, body and subject between its two markers, oldest first and next to each other, before the recap |
| Mailbox.ComposeContext | packages/gateway/src/session-start-bin.ts:249-268 | the last trim is the identity whenever mail is included |
| Mailbox.SessionStart | packages/gateway/src/session-start-bin.ts:249-317 | a message is marked delivered only if the context was granted and written and holds it whole, its body between its trust markers; a suppressed repeat marks nothing; and all that fits is marked |
| Mailbox.TrimmedFitsIff | packages/gateway/src/session-start-bin.ts:100-111 | trimmed text meets the budget exactly when the kept lines leave room for the notice |
| Mailbox.TrimmedFitsIffRoomForNotice | packages/gateway/src/session-start-bin.ts:100-111 | that is, exactly when the longest prefix of lines within the budget is also the longest within the budget less the notice |
| Mailbox.SomeTextOverflows | packages/gateway/src/session-start-bin.ts:110-111 | for every budget some text comes back larger |
| Mailbox.SecondTrimMiscounts | packages/gateway/src/session-start-bin.ts:249-268 | trimming such text again reports one withheld line however many there were |
| Mailbox.TwoLinesReportedAsOne | packages/gateway/src/session-start-bin.ts:249-268 | for every budget a text of which two lines are withheld and the second trim says one |
| M0Evidence.NearestRank | tools/phase2/m0-evidence.ts:56-59 | the result is a sample, and within a bound exactly when at least the ranked share of samples is |
| M0Evidence.RankIsCeiling | tools/phase2/m0-evidence.ts:56-59 | the rank is the least whole number no less than the percentile's share of the samples |
| M0Evidence.SumAddsUp | tools/phase2/m0-evidence.ts:149-160 | the cold runs are averaged by a sum that adds up |
| M0Evidence.VerifyWorkload | tools/phase2/m0-evidence.ts:162-217 | the maximum of the runs' percentiles is within budget and no sample failed exactly when every run passes on its raw samples |
| M0Evidence.VerifyM0Evidence | tools/phase2/m0-evidence.ts:91-245 | rejected exactly when malformed, accepted exactly when bound to the request and every workload passes |
| M0Evidence.AcceptedMeansMeasured | tools/phase2/m0-evidence.ts:167-217 | accepted evidence has, in every run of every workload, no failed sample, overheads that are the non-negative differences of the two timings, and a share of samples within budget no less than the percentile, as an inequality on reals |
| M0Evidence.AcceptedIff | tools/phase2/m0-evidence.ts:91-245 | well-formed evidence is accepted if and only if it is of a clean tree at the requested commit and environment, identified in every field, and in every run no sample failed and the percentile's share of the timings kept within the contracted budget |
| M0Evidence.AcceptedCoversContract | tools/phase2/m0-evidence.ts:129-145 | accepted evidence covers every contracted workload |
| M0Evidence.SummariesHaveNoInfluence | tools/phase2/m0-evidence.ts:87-90 | artifacts that differ only in well-formed summaries and decision fields get the same outcome |

## Left out

- ObservationTheorems.CompleteWindowAgrees: stated for guarded runs. The guards are exact for the invariant that every difference is accounted for (`ObservationGuards.GuardedRunIff`), not for the agreement of one window: a run may leave the invariant and still end with a window that happens to agree.
- ObservationConservation.OutOfBandBridgesWindows: stated for runs whose publications bridge; that is exact for a bridge in every state of the run, not for the one state in which a window opens.
- Proxy.McpProxy.Execute: event identifiers are numbers from a counter, fresh where the store's are below it; events carry only identity, cause and kind, and the proof prerequisites that compare tokens, candidates and authorities are one boolean input.
- Lifecycles.EmitConcurrencyProofs: pieces of evidence, causes and coverage rows are read from the store as given; of the validation before the append the tests on the participants are modelled, and whether the rest of it passes and the append succeeds is an input.
- Contracts.Classify: starts from a `parse` function; the regular expressions of `parseFunction` and `parseParameter` are not modelled, and splitting knows no round brackets because the code does not count them.
- M0Evidence.VerifyM0Evidence: durations are real numbers, the checks on keys, dates, digests and environment identity are one boolean, and the text of diagnostics is not modelled.
- In the observation machine: a candidate's `lstat` and the read after it are one step, so a replacement between the two is not modelled; nor are Git visibility of paths (every path is taken as visible), the revision and Git blob names, the metadata map (a directory scan may or may not rehash a file and always leaves its gap), the reasons inside gaps, `dispose`, `restoreSnapshot`, `reconcile`, stale windows, two begins racing before either is active, exceptions inside `beginWindow`, and the timing of quiescence (any number of events may arrive before the drain cursor is taken). A full walk sees every path that nothing touches meanwhile or leaves a gap over it; a replaced root shows only through its mark and gap. How the numbers of other values than whole ones are written is an input of the canonical printer.
- Dispatch.SourcesNumberFromZero: stated for sources without a colon in kind and source, which a caller can check; sources that share a key (`Dispatch.SeparatorsMayCollide`) share a counter, and their numbers interleave but still increase.
- Strings are sequences of Unicode scalar values with the order of their code points; UTF-16 code units, lone surrogates, locale collation beyond a total order on identifiers, and Unicode normalisation are not modelled. White space is space, tab, line feed and carriage return.
- SHA-256 and identifiers derived from it are injective functions or the hashed values themselves; a coverage ID's digest is taken whole, not cut to 32 digits.
- WorkGraph.DeriveProjectionCoverage: the rows for unattributed changes and for sequence gaps, which always have a gap and are never sufficient, are left out, and the rows are not sorted by ID. That an ordered event set has no diagnostics is the input `valid`, and mapping events to nodes and edges, which coverage does not read, is not modelled.
- Assertions about one target are compared as values, where the code compares their `JSON.stringify` texts, which also depend on the order of keys.
- `Replay.MinHeap` compares events by ID, the one comparison it is used with.
- Stale-read and exported-contract findings, apart from the selection of their evidence, repeat the same-symbol derivation with longer conditions.
- In JSON schemas: `decodeURIComponent`, regular expressions and dates are inputs that do not throw, and properties inherited from `Object.prototype` do not exist.
- The injection store is read and written without failure; an unreadable file counts as an empty store and costs a repeat.
- File system, Git, SQLite, MCP transport, command lines, rendering, lenses, benchmarks and corpora: plumbing or finite data.
