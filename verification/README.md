# Verified models of EmbyProxy's protocols

EmbyProxy is a reverse proxy for media servers that also moves its own public
address between proxy nodes. This project models the parts of it where a wrong
step is costly and hard to see, and proves what they keep.

- **Public ingress** (`IngressProtocol.dfy`, `IngressSwitcher.dfy`,
  `IngressSafety.dfy`, `IngressPasses.dfy`, `IngressRecovery.dfy`). Moving the public
  DNS record to another node is a transaction over a persisted operation record, a
  record changed by compare-and-swap, and two observations. `IngressProtocol` says
  which writes and swaps are allowed after what a call has seen. `Switcher` is the code
  path by path, a class over the durable store; every persist, swap and observation it
  makes is a logged event, and each method proves that its events are allowed. The
  other three prove properties of all logs of allowed events, over any interleaving of
  administrator switches, confirmations, scheduler passes and restarts. Every prefix of
  such a log is such a log, so a crash may come after any step; writes and swaps may
  take effect and still report failure; others may write the record.
- **Failover controller** (`FailoverPolicy.dfy`, `FailoverController.dfy`,
  `FailoverRuns.dfy`, `FailoverCycles.dfy`). A two-node policy with cooldown, a sliding switch limit and
  billing-cycle hysteresis, behind a controller that persists before it publishes
  and changes DNS only through one-time dry-runs. Properties of runs are those of the
  controller in operation, and the hysteresis holds against the true billing calendar.
- **Resumable streaming** (`HttpRange.dfy`, `StreamResume.dfy`). Stitching up to
  three upstream responses into one body under Range and If-Range (sections 8.8,
  13.1.5 and 14.4 of RFC 9110).
- **Log store** (`LogPages.dfy`, `LogStore.dfy`). A ring buffer and rotated files
  whose counters are never recomputed, read through one cursor.
- **Image cache** (`ImageTrace.dfy`, `ImageCache.dfy`). Single-flight fills and commit
  at the end of a response, with everybody else's steps interleaved before every read
  of a body and between any two file operations of a lookup, a store or a removal. A
  history of what was put where tells which response each file is from.
- **Authentication** (`AuthFailures.dfy`, `AuthSessions.dfy`, `AuthTotp.dfy`).
  Failure windows, session families, one-time codes (RFC 6238).
- **Node scheduler** (`NodeScheduler.dfy`), **billing calendar**
  (`BillingCalendar.dfy`) and **edge replay protection** (`EdgeReplay.dfy`).

Verify everything with `dafny verify dfyconfig.toml`.

## Abstractions

- The provider's compare-and-swap and the key-value transaction are atomic, but
  their answers may be lost. Node tables, probes and lookups are arbitrary answers.
- Clocks never go back. Operation ids are the nanosecond clock, read strictly
  increasing. Floating-point numbers are reals.
- Hashes and signatures are injective or arbitrary functions. Cookies, setup ids and
  dry-run ids are fresh.
- An origin is honest about strong validators and Content-Range: bytes sent under
  the plan's validator are bytes of that one version. It may break off anywhere.
- Log, state and event writers either store what they are given or report failure.

## What the code does not do

Where a stated or expected property fails, the model keeps the code's behaviour.

- An ingress operation whose call ends before it is closed can be closed exactly when
  its record names a previous address and an active node
  (`IngressRecovery.ClosedExactlyWhen`). It names no previous address while `preparing`,
  where a died process or a failed save leaves it, and no active node on the first
  switch of an installation: `IngressRecovery.FirstSwitchesCanBeStuck`.
- A scheduler pass judges the active node once. It goes on to later candidates even
  if a later reading in the same pass finds the node usable again:
  `IngressPasses.PassGoesOnAfterUsableReading`. What holds is
  `IngressPasses.FirstBeginFollowsJudgement`.
- The branch of `reconcile` that turns fixed manual records into preferred ones
  cannot be reached from a fresh installation (`IngressSafety.ManualIsNeverFixed`);
  it is modelled for records older software left.
- Cooldown and window pace switches, not DNS commits, which change the active node
  too: `FailoverCycles.CommitThenSwitch` and `FailoverRuns.DNSCommitsAreNotPaced`, with
  the bound in `FailoverRuns.ChangeBound`.
- A cycle the state has remembered is never returned to again while known cycle keys
  keep to the clock (`FailoverRuns.SpentCycle`), but only transitions on a known sample
  are remembered (`FailoverRuns.TransitionRemembers`).
  With recovery on unknown traffic switched on, and no such transition, the primary can
  be returned to twice in one cycle: `FailoverRuns.ReturnMeansForgotten` and
  `FailoverRuns.UnknownTrafficReturnsTwice`.
- A filtered log page asked for without a limit can claim older entries that do not
  exist: `LogStore.UnlimitedFlag` says exactly when, and
  `LogStore.UnlimitedFlagCanBeWrong` gets there by two writes.
- Numbered log pages come from the history alone once there is one, so they can leave
  out entries only the buffer still holds: `LogStore.Logger.NumberedPagesMiss`.
- Body and headers of a cached image may come from different complete responses:
  exactly when another body has been put in place since that of the headers
  (`ImageTrace.PairedExactlyWhen`, which `ImageCache.Cache.Get` promises of every hit).
  Two stores at once do it, since requests that miss after waiting store without the
  lead (`ImageCache.HeadersMayBeAnothers`), so does a slow lookup around a clear
  (`ImageCache.SlowLookupMixes`), and even leading stores with nothing removed do
  (`ImageCache.LeadersMix`).
- A session renewal that runs after its family has expired can leave an older cookie
  of the family without a record: `AuthSessions.RenewalKeepsComplete` says when
  it does not, `AuthSessions.LateRenewalLosesACookie` is one that does.
- Step 0 stored as the last used one-time step counts as none:
  `AuthTotp.Totp.VerifyNext` and `AuthTotp.StepZeroPassesTwice`.
- The service's billing-cycle start differs from the reference computation before
  the reset in a month after a shorter one: `BillingCalendar.StartsAgree`. Contrary
  to what the step back suggests it is still monotone, and a return never acts on the
  difference: `FailoverCycles.BegunIsTrue`.
- While a current node dwells, node selection stays out of the best tier:
  `NodeScheduler.TierIsLeftOnlyToDwell`.
- Replay protection in memory and in the file differ on a reused nonce at the very
  instant an entry expires: `EdgeReplay.VerdictsDiffer` and
  `EdgeReplay.ReusedNonceTwoWays`.

## Model

| member | source | states |
|---|---|---|
| `IngressProtocol.PersistWellFormed` | internal/admin/public_ingress.go:154-260 | whatever step of the protocol writes the operation record, the record stays well formed: an operation past `preparing` names its previous and desired address, a verified one names its node and mode |
| `IngressProtocol.StepCoherent` | internal/admin/public_ingress.go:154-156 | every step keeps the state key equal to the history key of the same operation, and never files an operation under a foreign id |
| `IngressProtocol.Extend` | internal/admin/public_ingress.go:164-260 | an allowed next event extends a conforming run to a conforming run, with the state it leads to |
| `IngressSwitcher.Switcher.Reopen` | internal/admin/public_ingress.go:133-140 | a process restarted on what any prefix of an earlier run left behind is valid again, whatever record name it is configured with: a crash may come after any step |
| `IngressSwitcher.Switcher.Save` | internal/admin/public_ingress.go:154-156 | state and history are written together or not at all; a reported failure may nevertheless have taken effect; other history entries are untouched |
| `IngressSwitcher.Switcher.ExactRecord` | internal/admin/public_ingress.go:198-202 | the address read is the live one at that moment; others may have written before |
| `IngressSwitcher.Switcher.ReplaceExactA` | internal/admin/public_ingress.go:210-227 | a compare-and-swap: it takes effect only on the expected address, success means it did, failure says nothing |
| `IngressSwitcher.Switcher.WaitRecursive` | internal/admin/public_ingress.go:351-386 | success only when every recursive answer of one poll is the wanted address |
| `IngressSwitcher.Switcher.WaitPublicRequest` | internal/admin/public_ingress.go:463-485 | success only when the expected node's identity answered the public name |
| `IngressSwitcher.Switcher.VetNode` | internal/admin/public_ingress.go:180-197 | the target checks in order, each failure naming one of the codes that are safe to retry after; success means vetted, reached at its address and media-ready |
| `IngressSwitcher.Switcher.Vet` | internal/admin/public_ingress.go:180-205 | nothing is persisted and DNS is not touched by this call; success fixes both addresses from fresh readings |
| `IngressSwitcher.Switcher.Prepare` | internal/admin/public_ingress.go:180-209 | ends `preparing`, `submitting_dns` or `failed` without any swap; success has the intent durable before DNS changes |
| `IngressSwitcher.Switcher.Unacknowledged` | internal/admin/public_ingress.go:211-227 | an unacknowledged change is never a success; it is filed as failed only with the record back on the previous address, and at most one rollback swap follows |
| `IngressSwitcher.Switcher.Submit` | internal/admin/public_ingress.go:210-232 | exactly one forward swap; success means acknowledged, durable and nothing swapped back |
| `IngressSwitcher.Switcher.ConfirmRecursive` | internal/admin/public_ingress.go:233-241 | success means recursive DNS showed the desired address; otherwise at most one rollback swap |
| `IngressSwitcher.Switcher.ConfirmRequest` | internal/admin/public_ingress.go:242-257 | success means the public request was answered by the requested node, which alone becomes active, in the caller's mode |
| `IngressSwitcher.Switcher.SwitchToLocked` | internal/admin/public_ingress.go:164-260 | refuses without any effect while an operation is in flight; on success the new operation is verified for exactly that node; on failure active node and mode are those from before unless the last write took effect unseen |
| `IngressSwitcher.Switcher.SwitchTo` | internal/admin/public_ingress.go:158-162 | an administrator's switch: the trigger follows from the mode, at most one swap each way, the requested node verified or nothing but this operation added |
| `IngressSwitcher.Switcher.JudgePredecessor` | internal/admin/public_ingress.go:487-490 | an automatic operation reads its predecessor afresh before going back; other triggers go back unconditionally |
| `IngressSwitcher.Switcher.Rollback` | internal/admin/public_ingress.go:487-539 | keeps the operation's target and the rest of history, makes at most one swap, never reports success |
| `IngressSwitcher.Switcher.Unwind` | internal/admin/public_ingress.go:502-539 | a rollback whose predecessor may be returned to makes at most one swap and ends with the operation's target and all other history unchanged |
| `IngressSwitcher.Switcher.Revert` | internal/admin/public_ingress.go:506-527 | verified only with provider, recursive DNS and the public request all back on the original |
| `IngressSwitcher.Switcher.ConfirmPreviousIngress` | internal/admin/public_ingress_recovery.go:11-49 | closes an in-flight operation without any swap, only when its original address and node serve |
| `IngressSwitcher.Switcher.OriginalServes` | internal/admin/public_ingress_recovery.go:20-38 | success means provider and recursive DNS both on the original address and the original node answering, found without changing DNS or state |
| `IngressSwitcher.Switcher.VerifiedBeforeFailure` | internal/admin/public_ingress_pre_dns_retry.go:18-56 | what it returns may be restored: the prior verified operation of the same node, record and mode, still shown by provider and recursive DNS, and still serving or automatically abandoned |
| `IngressSwitcher.Switcher.RecoverAutomaticHealthLocked` | internal/admin/public_ingress_runtime_recovery.go:12-101 | anything but an automatic-health operation in preferred mode with both addresses is refused without effect; otherwise one resume swap at most and never a rollback swap |
| `IngressSwitcher.Switcher.TryCandidates` | internal/admin/public_ingress_runtime_recovery.go:35-100 | candidates in list order; without one the operation keeps its target and DNS is untouched |
| `IngressSwitcher.Switcher.ResumeOn` | internal/admin/public_ingress_runtime_recovery.go:53-91 | intent is durable before the swap, the swap starts from the record just read, and the node becomes active only when verified |
| `IngressSwitcher.Switcher.SwapResume` | internal/admin/public_ingress_runtime_recovery.go:60-68 | no swap when the record already shows the candidate |
| `IngressSwitcher.Switcher.FinishResume` | internal/admin/public_ingress_runtime_recovery.go:73-90 | verified only after recursive DNS and the public request agree |
| `IngressSwitcher.Switcher.Reconcile` | internal/admin/public_ingress.go:585-672 | a pass makes at most one forward and one rollback swap; ending without a candidate from a verified preferred state it leaves the record as it found it and DNS untouched |
| `IngressSwitcher.Switcher.RestorePrior` | internal/admin/public_ingress.go:592-601 | restores exactly the operation filed under the failed one's prior id |
| `IngressSwitcher.Switcher.UpgradeManual` | internal/admin/public_ingress.go:602-609 | an old manual record written as fixed becomes preferred and changes in nothing else |
| `IngressSwitcher.Switcher.Decide` | internal/admin/public_ingress.go:619-645 | at most one swap each way, and without a candidate the verified record and DNS stay as they were; when a switch may begin is stated by `AutomaticSwitchIsDue` |
| `IngressSwitcher.Switcher.Leave` | internal/admin/public_ingress.go:646-671 | a candidate that fails before DNS is passed over only once the verified operation is restored: ending without a candidate leaves it in place with no swap made, and ending on a later one means that one alone swapped and is verified over the same predecessor |
| `IngressSafety.PrefixConforms` | internal/admin/public_ingress.go:164-260 | every prefix of a conforming run conforms, so every crash point is covered |
| `IngressSafety.AlwaysCoherent` | internal/admin/public_ingress.go:154-156 | state and history agree after every step of every run |
| `IngressSafety.WriteAhead` | internal/admin/public_ingress.go:164-268 | without other writers of the record, in every state of every run the live address is named by the persisted operation, and in `preparing` and `failed` it is the one from when the operation began |
| `IngressSafety.WriteAheadHolds` | internal/admin/public_ingress_runtime_recovery.go:12-101 | the live address is named by the persisted operation after every step, resumed operations included, and what a call last read of the record is what it shows |
| `IngressSafety.OneOperationAtATime` | internal/admin/public_ingress.go:168-171 | while an operation is in flight no other operation is persisted or restored |
| `IngressSafety.ActiveNodeChange` | internal/admin/public_ingress.go:228-259 | over every run the persisted active node changes only in a write that enters `verified`, after the same call, with no swap since, saw recursive DNS agree and that node answer |
| `IngressSafety.AutomaticSwitchIsDue` | internal/admin/public_ingress.go:610-645 | a pass begins a switch only outside fixed mode, away from the active node, after judging that node unusable, or usable with the cooldown of its verification over |
| `IngressSafety.ManualIsNeverFixed` | internal/admin/admin.go:296-300 | in every reachable state a verified `admin_manual` operation is not in fixed mode |
| `IngressSafety.PinnedThrough` | internal/admin/public_ingress.go:585-615 | a fixed mode, once verified, lasts until a preferred administrator switch is verified |
| `IngressSafety.FixedPin` | internal/admin/public_ingress.go:585-615 | once a fixed switch is verified no scheduler pass writes DNS or changes the active node until a preferred administrator switch is verified, through any node changes, restarts and failed or rolled-back switches |
| `IngressSafety.NeverOverwritesForeign` | internal/admin/public_ingress.go:506-512 | with other writers about, a swap that takes effect replaces an address the persisted operation names by another it names |
| `IngressSafety.AutomaticRollbackTarget` | internal/admin/public_ingress.go:487-512 | an automatic rollback goes to the previous address, and only after this call's latest reading found the predecessor usable |
| `IngressSafety.CountsSwaps` | internal/admin/public_ingress.go:646-671 | counted over the run, one entry makes at most one forward and one rollback swap |
| `IngressSafety.OneSwapEachWay` | internal/admin/public_ingress.go:646-671 | between any two entries of the run there is at most one forward and one rollback swap |
| `IngressPasses.SkippedCandidatesLeaveDNS` | internal/admin/public_ingress.go:646-671 | whenever a pass begins an operation it has made no swap so far, and what it leaves is verified or rolled back: the candidates skipped before left nothing |
| `IngressPasses.RestoredBetweenCandidates` | internal/admin/public_ingress_pre_dns_retry.go:18-56 | between two operations one pass begins, exactly the operation current at the first is restored |
| `IngressPasses.FirstBeginFollowsJudgement` | internal/admin/public_ingress.go:619-645 | the first operation a pass begins follows its judgement of the active node with no other reading of that node in between |
| `IngressPasses.LaterReadingsServeCandidates` | internal/admin/public_ingress_pre_dns_retry.go:43-51 | after its judgement a pass reads a node only for a candidate it has begun for the active node's health |
| `IngressPasses.PassGoesOnAfterUsableReading` | internal/admin/public_ingress.go:646-671 | a concrete run in which a pass reads the judged node as usable while skipping one candidate and still begins the next |
| `IngressRecovery.StuckForever` | internal/admin/public_ingress_recovery.go:16-19 | an operation in flight that nobody drives and whose record lacks its previous address or its active node is never closed: in no continuation is anything persisted, restored or swapped |
| `IngressRecovery.PreparingIsATrap` | internal/admin/public_ingress.go:207-209 | so an operation left `preparing` by the end of its call, whether the process died or the save failed, is never closed by any later call |
| `IngressRecovery.ClosingCloses` | internal/admin/public_ingress_recovery.go:11-49 | from any such record with both, some continuation closes it by confirming the previous ingress |
| `IngressRecovery.ClosedExactlyWhen` | internal/admin/public_ingress_recovery.go:16-19 | an operation in flight that nobody drives can be closed by some continuation of the run exactly when its record names a previous address and an active node |
| `IngressRecovery.FirstSwitchesCanBeStuck` | internal/admin/public_ingress.go:521-523 | both ways of being stuck are reached by a first switch: its call ends while `preparing`, or once it has submitted with no active node to go back to |
| `FailoverPolicy.FindRoles` | internal/failover/policy.go:77-88 | one pass finds for both roles the first node among those with the lowest priority number |
| `FailoverPolicy.LeaderIsFound` | internal/failover/policy.go:77-88 | a node of a role that beats every other is the one found, whatever the order |
| `FailoverPolicy.ReturnNeedsNewCycle` | internal/failover/policy.go:110-117 | with the fallback able to serve, returning needs a known cycle the state does not remember, usage under the return threshold, enough successes and an expired cooldown |
| `FailoverController.PacedAppend` | internal/failover/state.go:577-592 | an event that is no automatic switch, or one that is allowed, keeps the log paced |
| `FailoverController.SwitchesSplit` | internal/failover/state.go:577-592 | counting switches since a moment splits over the log |
| `FailoverController.Controller.Restore` | internal/failover/state.go:92-114 | a controller restored from numbered events is valid; an empty mode becomes automatic; pacing goes on from the restored log when it was paced |
| `FailoverController.Controller.CommitTransition` | internal/failover/state.go:535-551 | published state and events are the durable ones extended by one event with its position as id, or nothing changed |
| `FailoverController.Controller.SwitchLimitReached` | internal/failover/state.go:577-592 | counts exactly the switches in the window |
| `FailoverController.Controller.SetMode` | internal/failover/state.go:383-397 | a valid mode is published with its event, or nothing changes |
| `FailoverController.Controller.SetTraffic` | internal/failover/state.go:399-429 | an invalid or unwritten sample changes nothing; a valid one is normalised |
| `FailoverController.Controller.SetHealth` | internal/failover/state.go:431-453 | streaks and health status of one node change together or not at all |
| `FailoverController.Controller.EvaluateNow` | internal/failover/state.go:467-490 | the decision at one reading of the clock: the policy on the node list, held when the window is full |
| `FailoverController.Controller.Evaluate` | internal/failover/state.go:467-490 | decides as the policy does on the node list, and holds when the window is full |
| `FailoverController.Controller.ApplyDecision` | internal/failover/state.go:492-526 | the exact refusal for every target, and on success exactly the switched state and its event |
| `FailoverController.Controller.PrepareDNSApply` | internal/failover/state.go:129-209 | success issues a fresh id for a permitted provider, eligible node and allow-listed change; failure issues none; expired ids go |
| `FailoverController.Controller.ApplyDNSAndCommit` | internal/failover/state.go:211-299 | for every answer what it leaves of state and log; a mutation needs the dry-run's own node, mode and change before its expiry; the id is consumed by its first use whatever follows; success publishes node and record together |
| `FailoverController.Controller.ApplyDNS` | internal/failover/state.go:245-270 | the one provider call: it is recorded against a dry-run nobody used before, issued under the present provider and guard |
| `FailoverController.Controller.Consume` | internal/failover/state.go:225-240 | takes a dry-run out exactly once |
| `FailoverController.Controller.CommitDNS` | internal/failover/state.go:270-299 | run, state and event are stored together or not at all |
| `FailoverController.Controller.SetDNSProvider` | internal/failover/state.go:116-121 | replacing the provider cancels every pending dry-run |
| `FailoverController.Controller.ConfigureDNSGuard` | internal/failover/dns_guard.go:109-114 | replacing the guard cancels every pending dry-run, keeps exactly the rules that have a canonical form, and makes a lifetime out of range five minutes |
| `FailoverRuns.WindowBound` | internal/failover/state.go:577-592 | any interval as long as the window, in which only automatic switches since the log was paced fell, holds at most the configured number of `node_switched` events |
| `FailoverRuns.CooldownBetween` | internal/failover/state.go:492-526 | an automatic `node_switched` event comes at least the cooldown after the `node_switched` event before it; DNS commits are not paced |
| `FailoverRuns.LoadedTailIsPaced` | cmd/embyproxy/main.go:190-194 | the last events of a paced log, which are all a restart loads, are paced, and the cooldown goes on |
| `FailoverRuns.OnlyMovesChange` | internal/failover/state.go:492-526 | the active node the log tells changes exactly at a switch or DNS commit to another node; that the state follows the log is `FailoverCycles.ActiveByLog` |
| `FailoverRuns.ChangeBound` | internal/failover/state.go:577-592 | in such an interval the active node changes at most the configured number of times and once more for every DNS commit that changes it |
| `FailoverRuns.DNSCommitsAreNotPaced` | internal/failover/state.go:270-299 | a concrete case: a DNS commit and an automatic switch, refused by nothing, change the node twice at one moment |
| `FailoverRuns.HoldersAreFound` | internal/failover/policy.go:77-88 | two sole role holders are what the controller sees in whatever order nodes are listed |
| `FailoverRuns.RunTick` | internal/failover/state.go:467-526 | a round on the controller, evaluate and apply at one reading of the clock, is a step of the run or nothing |
| `FailoverRuns.ReturnAdopts` | internal/failover/state.go:608-624 | a return remembers the primary's billing cycle exactly when its sample is known, and otherwise leaves what was remembered |
| `FailoverRuns.KeyStaysSeen` | internal/failover/state.go:608-624 | a remembered cycle is always one the primary has shown since the return |
| `FailoverRuns.ReturnShowsNewKey` | internal/failover/policy.go:143-162 | whatever the quality of the sample, a return shows a cycle other than the remembered one, with a reset day the clock's, and the grace after its start has passed |
| `FailoverRuns.TransitionRemembers` | internal/failover/state.go:608-624 | the remembered cycle changes exactly when another node becomes active while the primary's sample is known, and then to that sample's |
| `FailoverRuns.MemoryHolds` | internal/failover/state.go:608-624 | once remembered, a cycle gives way only to one a known sample has shown since |
| `FailoverRuns.SpentCycle` | internal/failover/policy.go:143-162 | the primary is never returned to in a cycle the state remembers or has remembered, whatever the samples' quality and whatever happens in between, as long as known keys neither go back below it nor are ahead of the one the return shows |
| `FailoverRuns.ReturnMeansForgotten` | internal/failover/state.go:608-624 | where the primary is returned to in a cycle, no transition before was made on a known sample of that cycle: a second return is possible only because the cycle was never remembered |
| `FailoverRuns.OneReturnAfterKnown` | internal/failover/policy.go:143-162 | after a return on a known sample the next return is into a strictly later billing cycle, whatever its own sample's quality |
| `FailoverRuns.OneReturnPerCycle` | internal/failover/policy.go:143-162 | the case of known samples at both ends: two returns fall into different, strictly later billing cycles |
| `FailoverRuns.OneReturnPerCycleWhenKnown` | internal/failover/policy.go:143-162 | without recovery on unknown traffic every return is on a known sample, so any two fall into different cycles |
| `FailoverRuns.UnknownTrafficReturnsTwice` | internal/failover/policy.go:143-162 | a concrete run: with recovery on unknown traffic switched on and no transition on a known sample, the cycle is not remembered and the primary is returned to twice in it |
| `FailoverCycles.RunDNS` | internal/failover/state.go:211-299 | a DNS commit on the controller is the run's step that committed, failed with the reconcile flag raised, or was rejected |
| `FailoverCycles.Operate` | internal/failover/state.go:383-526 | any number of calls of any kind with any arguments make a run at times that do not go back, so what is proved of runs is true of controllers |
| `FailoverCycles.ActiveByLog` | internal/failover/state.go:492-526 | over a whole run the log says at every moment which node is active |
| `FailoverCycles.ActiveChangesByMove` | internal/failover/state.go:492-526 | another node becomes active exactly in a step that logs a switch or a DNS commit to it |
| `FailoverCycles.CommitThenSwitch` | internal/failover/state.go:270-299 | on any controller that has switched nothing yet, after a DNS commit an automatic switch back is refused by nothing: the active node changes twice at one moment |
| `FailoverCycles.CalendarIsMonotone` | internal/failover/policy.go:168-189 | the service's cycle keys do not go back with the clock, for every reset day and zone whose dates do not |
| `FailoverCycles.BegunIsTrue` | internal/failover/policy.go:143-162 | a cycle the service names is the true one once it has begun, so a return, which waits for that, is never misled |
| `FailoverCycles.ReturnsInDifferentCycles` | internal/failover/policy.go:143-189 | with a reset day, two returns of which the first is on a known sample lie in different true billing cycles, the second in a later one, for every reset day, although the service does not always compute the true cycle |
| `HttpRange.DecimalReadsBack` | internal/proxy/resume.go:353-358 | a number written in decimal is read back |
| `HttpRange.ContentRangeReadsBack` | internal/proxy/resume.go:422-434 | a Content-Range in its standard form is read as its three numbers exactly when they fit 64 signed bits |
| `HttpRange.ResumeRangeAsksRemainder` | internal/proxy/resume.go:353-358 | a server reads a resume's Range header as exactly the remainder |
| `StreamResume.PlansAreValid` | internal/proxy/resume.go:78-134 | a plan names a nonempty range inside the resource and a validator of the response it came from |
| `StreamResume.PlannedAgrees` | internal/proxy/resume.go:78-134 | the planned response delivers the planned range from its start |
| `StreamResume.AcceptedAgrees` | internal/proxy/resume.go:276-303 | a response that passes validation delivers the same version from where the client stands |
| `StreamResume.Response.Read` | internal/proxy/resume.go:239-251 | bytes in order, at most as many as asked for |
| `StreamResume.Proxy.Resume` | internal/proxy/resume.go:213-233 | a refused response is closed; an accepted one continues the range |
| `StreamResume.Proxy.Renew` | internal/proxy/resume.go:186-196 | the response that broke off is closed either way, and at most one more is in use |
| `StreamResume.Proxy.CopyChunk` | internal/proxy/resume.go:235-253 | what the client got is what was read, short or failed writes included |
| `StreamResume.Proxy.CopyBody` | internal/proxy/resume.go:136-211 | the bytes written are a prefix of the planned range of one version; no error means all of it; at most three upstream responses, all closed on return |
| `LogPages.MergeOfEnds` | internal/logging/logger.go:389-408 | merging two ends of one run by id and sorting gives the longer end |
| `LogPages.BelowCursor` | internal/logging/logger.go:500-523 | the id of a listed entry as cursor selects exactly what precedes it |
| `LogPages.ReadThenFilter` | internal/logging/logger.go:714-739 | selecting by id first and by filter afterwards is selecting by both |
| `LogPages.OlderIsListed` | internal/logging/logger.go:705-712 | without a filter, something older than a listed entry exists exactly when the page leaves entries out |
| `LogPages.WalkListsAll` | internal/logging/logger.go:352-387 | walking by cursor until nothing older is reported lists every wanted entry once, in order, in no more calls than entries |
| `LogPages.NumberedPagesTile` | internal/logging/logger.go:859-897 | the bounds of the numbered pages cut the entries without gap or overlap, all full but the oldest |
| `LogPages.NumberedPagesListAll` | internal/logging/logger.go:859-897 | the numbered pages joined list every entry exactly once, in order, and each says whether there is an older one |
| `LogPages.PagesClamp` | internal/logging/logger.go:869-880 | a page number out of range means the nearest page there is |
| `LogStore.ScanLast` | internal/logging/logger.go:807-814 | reading oldest file first |
| `LogStore.ScanLength` | internal/logging/logger.go:764-797 | with every rotated file full, the scan is as long as the counters say |
| `LogStore.Overwrite` | internal/logging/logger.go:474-486 | overwriting the oldest slot of a full ring drops it and appends the new entry |
| `LogStore.Buffer.Append` | internal/logging/logger.go:474-486 | the contents become the last `capacity` of what was there and the new entry, which gets the next id |
| `LogStore.Buffer.Clear` | internal/logging/logger.go:493-498 | empties the buffer and keeps numbering |
| `LogStore.Buffer.EntriesBefore` | internal/logging/logger.go:500-523 | the last wanted entries up to the limit, and whether there were more |
| `LogStore.History.Shift` | internal/logging/logger.go:784-796 | the renames, highest number first, move every file up by one |
| `LogStore.History.FullByCount` | internal/logging/logger.go:780-783 | whether the oldest file is in use can be told from the count alone |
| `LogStore.History.Rotate` | internal/logging/logger.go:764-797 | drops the oldest file's entries, or everything when one file is kept, and all three counters still equal a full scan |
| `LogStore.History.Append` | internal/logging/logger.go:600-630 | what was retained, less what rotation gives up, plus the entry; counters exact |
| `LogStore.History.Reset` | internal/logging/logger.go:583-598 | removes everything, counters included |
| `LogStore.History.HasBefore` | internal/logging/logger.go:705-712 | exact, though answered from the counters |
| `LogStore.History.Page` | internal/logging/logger.go:714-739 | the last wanted entries of all files up to the limit, and whether there were more |
| `LogStore.MergeEntries` | internal/logging/logger.go:389-408 | the sorted union by id, cut to the limit, and whether it was cut |
| `LogStore.MergedIsLast` | internal/logging/logger.go:352-366 | with a limit, merging the two stores' last matches gives the last matches of both together |
| `LogStore.UnlimitedFlag` | internal/logging/logger.go:352-366 | without a limit the flag of a filtered page is right exactly unless more than a file's worth matches in the history and the buffer still holds all of it |
| `LogStore.UnlimitedFlagCanBeWrong` | internal/logging/logger.go:352-366 | two writes and a page asked of a new logger: the page lists everything and claims older entries |
| `LogStore.BufferPage` | internal/logging/logger.go:368-376 | an unfiltered page out of the buffer is honest about what only the history has |
| `LogStore.Logger.Write` | internal/logging/logger.go:432-465 | one id per entry; both stores end with it and keep ends of one run |
| `LogStore.Logger.Clear` | internal/logging/logger.go:288-304 | nothing is retained and numbering goes on |
| `LogStore.Logger.EnableHistory` | internal/logging/logger.go:320-338 | a new history starts empty |
| `LogStore.Logger.RetainedIsRun` | internal/logging/logger.go:352-387 | what is retained is one run with rising ids, so a walk over its pages lists all of it |
| `LogStore.Logger.MergedPage` | internal/logging/logger.go:358-366 | a filtered page with a limit is the last matches of buffer and history together, with an exact flag |
| `LogStore.Logger.Page` | internal/logging/logger.go:352-387 | every page with a limit, and every unfiltered one, is the newest wanted entries below the cursor with an exact flag |
| `LogStore.Logger.ListAll` | internal/logging/logger.go:352-387 | the walk itself: calling for page after page until nothing older is reported yields everything wanted, and unfiltered everything retained, in no more calls than entries |
| `LogStore.Buffer.PageNumber` | internal/logging/logger.go:525-544 | a numbered page of the buffer's wanted entries |
| `LogStore.History.PageNumber` | internal/logging/logger.go:741-762 | a numbered page of all files' wanted entries |
| `LogStore.Logger.PageNumber` | internal/logging/logger.go:410-425 | a numbered page of the history's wanted entries, or of the buffer's when there is no history |
| `LogStore.Logger.NumberedPagesMiss` | internal/logging/logger.go:410-425 | the numbered pages list all that is retained exactly when there is no history or the buffer has no more matches than it |
| `ImageTrace.PairedExactlyWhen` | internal/proxy/image_cache.go:608-645 | in every history, headers of one response and the body in place belong to that response exactly when no other body has been put in place for the key since its own |
| `ImageTrace.ReadThenOpen` | internal/proxy/image_cache.go:169-213 | a lookup that reads the headers of the body in place serves one response if nobody puts another body in place before it opens the file |
| `ImageTrace.OthersKeep` | internal/proxy/image_cache.go:404-428 | files of a key that are all of one response stay so while others remove, and put back nothing of another response |
| `ImageTrace.HeldCame` | internal/proxy/image_cache.go:608-645 | whatever a file or the memory holds is data of a response whose body has been in place |
| `ImageTrace.MoveKeeps` | internal/proxy/image_cache.go:608-645 | every rename, removal and memory update keeps each place explained by the history, and touches one key |
| `ImageCache.Cache.OneLeader` | internal/proxy/image_cache.go:464-480 | two unfinished fills never share a key |
| `ImageCache.Cache.BeginFill` | internal/proxy/image_cache.go:464-480 | the lead goes to the first, everybody else gets that fill to wait for |
| `ImageCache.Cache.FinishFill` | internal/proxy/image_cache.go:494-506 | takes effect once and frees the key |
| `ImageCache.Cache.Interfere` | internal/proxy/image_cache.go:259-296 | anything others do keeps cache and history valid and leaves alone the caller's fills, keys nobody touched and responses not yet placed |
| `ImageCache.Cache.Get` | internal/proxy/image_cache.go:169-213 | with any interleaving, headers shown are those of one complete response to the key, unexpired, and the body that of one; they are the same response exactly when no other body was placed since, and always when the files agreed at the start and nobody put anything of another response in place; a stored image is found byte for byte if nobody else touches its key meanwhile and no file operation fails |
| `ImageCache.Cache.ReadMeta` | internal/proxy/image_cache.go:404-428 | headers come from a response whose body has been in place, or the entry is removed |
| `ImageCache.Cache.Believe` | internal/proxy/image_cache.go:414-427 | headers read from the file are kept only with a body in place, whatever happens in between |
| `ImageCache.Writer.Publish` | internal/proxy/image_cache.go:608-645 | body first, then headers, then memory; if nobody else touches the key and nothing fails all three are in place afterwards |
| `ImageCache.Writer.Read` | internal/proxy/image_cache.go:588-599 | the client gets what the upstream delivers; nothing becomes visible before the end, and at the end the led fill is over |
| `ImageCache.Writer.Commit` | internal/proxy/image_cache.go:608-645 | publishes a body copied without failure, once; unless others touch the key it is then what a lookup finds |
| `ImageCache.Writer.Close` | internal/proxy/image_cache.go:601-661 | closing early makes nothing visible and ends the led fill |
| `ImageCache.Lookup` | internal/proxy/media.go:188-226 | a hit, a failure while waiting, or a fetch with or without the lead |
| `ImageCache.WrapStore` | internal/proxy/image_cache.go:215-257 | exactly an unranged GET answered 200 with an image is stored, unless no file can be made, and the store inherits the lead |
| `ImageCache.Load` | internal/proxy/media.go:227-320 | on every path the lead is passed to the response body or finished |
| `ImageCache.Handle` | internal/proxy/media.go:179-338 | an image request from lookup to response: a hit is a complete response to its key, and the fill it led is over or rides on the response body |
| `ImageCache.Serve` | internal/proxy/media.go:179-338 | with others at work at every read, by the time the response body is closed every fill the request led is finished, on every path |
| `ImageCache.StoredIsFound` | internal/proxy/image_cache.go:169-213 | what one request stored the next lookup finds, byte for byte with its own headers, if nobody else touches the key and nothing fails |
| `ImageCache.HeadersMayBeAnothers` | internal/proxy/media.go:197-226 | two requests that store at once, one without the lead: their renames interleave and lookups show the headers of one over the body of the other |
| `ImageCache.LeadersMix` | internal/proxy/media.go:197-226 | nor is it excluded by leading stores without any removal: a second leader, which missed before the first store, is caught between its renames by a lookup |
| `ImageCache.SlowLookupMixes` | internal/proxy/image_cache.go:404-428 | the same with every store in the lead: a slow lookup remembers headers it read before the cache was cleared and filled again |
| `AuthFailures.AtMostThree` | internal/auth/auth.go:171-194 | any four recorded failures of a client span more than the window |
| `AuthFailures.OneMore` | internal/auth/auth.go:171-194 | counting one more failure within the window keeps any four of them more than a window apart |
| `AuthFailures.StartOver` | internal/auth/auth.go:171-194 | starting a new count after a silence keeps any four failures more than a window apart |
| `AuthFailures.TimePasses` | internal/auth/auth.go:218-257 | waiting, and dropping an entry older than the window, leaves every entry describing its client's failures |
| `AuthFailures.FailureRecords.Record` | internal/auth/auth.go:171-194 | blocked exactly after three failures until a window has passed since the last; a blocked client's failures are not counted |
| `AuthFailures.FailureRecords.ClearIfAllowed` | internal/auth/auth.go:202-216 | a correct credential forgets the failures unless the client is blocked |
| `AuthFailures.FailureRecords.Limited` | internal/auth/auth.go:218-228 | whether a client is blocked, without counting anything |
| `AuthFailures.FailureRecords.Cleanup` | internal/auth/auth.go:242-257 | the scheduled sweep changes no client's standing |
| `AuthSessions.DroppingIsSafe` | internal/auth/session.go:142-171 | dropping expired records keeps one active member per family, shared expiry and completeness |
| `AuthSessions.ReplacementKeepsOneActive` | internal/auth/session.go:61-83 | after a replacement the new session is the only active one anywhere, and families still expire together |
| `AuthSessions.ReplacementKeepsComplete` | internal/auth/session.go:61-83 | a replacement leaves every cookie of an unexpired family with its record exactly when no cookie of the renewed family had lost its record before |
| `AuthSessions.RenewalKeepsComplete` | internal/auth/twofactor.go:177-224 | a renewal authorised in time, with expired records dropped up to the replacement, leaves every cookie of an unexpired family with its record exactly when none of the family was dropped, and so whenever the authorising session has not expired by then |
| `AuthSessions.LateRenewalLosesACookie` | internal/auth/twofactor.go:183-215 | a login and two renewals on a new table, the second checked a second before its family expires and carried out when it has, with the first cookie looked up in between: the family lives on and that cookie has no record |
| `AuthSessions.SessionTable.Create` | internal/auth/session.go:33-47 | a login starts a family of its own and drops expired records |
| `AuthSessions.SessionTable.ActiveFamily` | internal/auth/session.go:142-163 | answers exactly for active, unexpired cookies and drops only expired records |
| `AuthSessions.SessionTable.Deactivate` | internal/auth/session.go:64-75 | the loop over the records computes the replacement |
| `AuthSessions.SessionTable.ReplaceAll` | internal/auth/session.go:61-83 | the whole table after a replacement; pending setups are gone |
| `AuthSessions.SessionTable.Renew` | internal/auth/twofactor.go:177-224 | the check, other requests in between, and the replacement: cookies keep their records if the session that authorised it has not expired |
| `AuthSessions.SessionTable.Logout` | internal/auth/session.go:85-124 | ends the family of the cookie shown, drops the setups of that cookie |
| `AuthSessions.SessionTable.LogoutFamily` | internal/auth/session.go:107-123 | every member of the family becomes inactive, every setup of a member goes, nothing else changes |
| `AuthSessions.SessionTable.LogoutEndsFamily` | internal/auth/session.go:85-124 | with any cookie ever issued in an unexpired family, no cookie of it opens anything afterwards and no other family changes |
| `AuthTotp.Totp.MatchAt` | internal/auth/twofactor.go:356-378 | a step within the skew whose code was shown, or there is none |
| `AuthTotp.Totp.Verify` | internal/auth/twofactor.go:283-328 | blocked exactly when the client is; accepted means shown, stored and later than the last step; refused leaves everything as it was and, with a store that answers, means the code shows nothing or a used step |
| `AuthTotp.Totp.VerifyCode` | internal/auth/twofactor.go:297-328 | a well-formed code is refused only if it shows nothing or a used step |
| `AuthTotp.Totp.Enroll` | internal/auth/twofactor.go:177-224 | the confirming code is the first accepted step; with a store that answers it is refused only if it shows nothing |
| `AuthTotp.RisingIsIncreasing` | internal/auth/twofactor.go:317-319 | accepted steps, which rise except for repetitions of step 0, strictly increase exactly unless the first two are both 0 |
| `AuthTotp.Totp.VerifyNext` | internal/auth/twofactor.go:317-325 | over all calls accepted steps strictly increase exactly unless the first two are both 0, so always from a minute after the epoch on |
| `AuthTotp.StepZeroPassesTwice` | internal/auth/twofactor.go:317-319 | right after the epoch the code that confirmed the secret is accepted a second time |
| `NodeScheduler.CandidatesAre` | internal/nodes/scheduler.go:28-46 | candidates are exactly the eligible nodes, in order |
| `NodeScheduler.SortedHead` | internal/nodes/scheduler.go:50-58 | the head of the stable order is the first node nothing comes before |
| `NodeScheduler.Select` | internal/nodes/scheduler.go:40-82 | the first by priority and name, or in smart mode the first of the best tier with the greatest weight |
| `NodeScheduler.MinimumPriority` | internal/nodes/scheduler.go:62-67 | the lowest priority number of any candidate, which some candidate has |
| `NodeScheduler.SelectSmart` | internal/nodes/scheduler.go:59-82 | the loops over tier and weight find the first of the best tier with the greatest weight |
| `NodeScheduler.SelectWithPolicy` | internal/nodes/scheduler.go:88-116 | an answer exactly when something is eligible, and the one that hysteresis makes of the choice |
| `NodeScheduler.ChosenIsUnique` | internal/nodes/scheduler.go:40-82 | the choice is determined |
| `NodeScheduler.ChosenStays` | internal/nodes/scheduler.go:72-81 | being the current node only helps the chosen one |
| `NodeScheduler.AnswerIsEligible` | internal/nodes/scheduler.go:88-116 | the answer can always serve |
| `NodeScheduler.SmartKeepsTier` | internal/nodes/scheduler.go:59-70 | smart selection never leaves the best tier with an eligible node |
| `NodeScheduler.TierIsLeftOnlyToDwell` | internal/nodes/scheduler.go:102-114 | with hysteresis it is left only for an eligible current node that dwells, which is kept whatever its tier |
| `NodeScheduler.AnswerIsStable` | internal/nodes/scheduler.go:88-116 | asking again with the answer installed selects the same node |
| `BillingCalendar.CyclesTile` | deploy/failover/embyproxy_failover_policy.py:63-75 | start <= now < end, and a new cycle begins at the end |
| `BillingCalendar.SameCycle` | deploy/failover/embyproxy_failover_policy.py:63-79 | two moments share a cycle exactly when one lies in the other's |
| `BillingCalendar.NextMonth` | deploy/failover/embyproxy_failover_policy.py:69-73 | the day arithmetic used to step to the next and the previous month does so |
| `BillingCalendar.StartsAgree` | internal/failover/policy.go:168-189 | the service computes the reference start exactly unless now precedes this month's start and the month before is too short for the clamped day |
| `BillingCalendar.DisagreementIsAhead` | internal/failover/policy.go:168-189 | where it differs it names the start to come |
| `BillingCalendar.EarlyResetsAgree` | internal/failover/policy.go:168-189 | for reset days up to 28 the service always computes the reference start |
| `BillingCalendar.MarchIsAhead` | internal/failover/policy.go:168-189 | a concrete day on which the service is a cycle ahead |
| `BillingCalendar.StartsAreMonotone` | internal/failover/policy.go:168-189 | cycle starts never go back, on either side and for every reset day |
| `EdgeReplay.NonceStore.Verify` | internal/edgecontrol/job.go:105-138 | every answer and the whole new store: fields, time and signature in order, then purge, replay test, entry |
| `EdgeReplay.PersistentNonceStore.Verify` | internal/edgecontrol/job.go:148-210 | acceptance implies a durable entry; a refusal leaves the file alone; dying leaves the old or the new file |
| `EdgeReplay.StepRemembers` | internal/edgecontrol/job.go:173-182 | no step forgets a job that has not expired or accepts its nonce |
| `EdgeReplay.NeverAgain` | internal/edgecontrol/job.go:148-210 | from an accepted job on, no call of a run accepts its nonce before it expires |
| `EdgeReplay.SameNonceSeparated` | internal/edgecontrol/job.go:148-210 | over any run with restarts, purges and failures, of two accepted jobs with one nonce the second comes when the first has expired |
| `EdgeReplay.AcceptedOnce` | internal/edgecontrol/job.go:148-210 | over any run with restarts, purges and failures no payload is accepted twice, in whatever text its signature is written |
| `EdgeReplay.VerdictsDiffer` | internal/edgecontrol/job.go:126-137 | the two stores answer a call alike unless the nonce belongs to an entry that expires at this very instant |
| `EdgeReplay.StoresAgree` | internal/edgecontrol/job.go:105-210 | with unique nonces and nothing failing they answer every run alike |
| `EdgeReplay.ReusedNonceCanDiffer` | internal/edgecontrol/job.go:126-137 | a reused nonce on which they differ |
| `EdgeReplay.ReusedNonceTwoWays` | internal/edgecontrol/job.go:105-210 | two jobs with one nonce, the second at the instant the first expires, presented to a new store of each kind: memory refuses it as a replay, the file never does |

## Left out

- IngressSwitcher.Switcher.WaitRecursive: one poll is one list of answers; the resolvers, timeouts and retry pauses behind it are not modelled.
- IngressSwitcher.Switcher.VetNode: address resolution, TLS and HTTP preflight are arbitrary answers.
- IngressSwitcher.Switcher.ListProxyNodes: assumes non-empty node ids, as the node table's keys are.
- IngressSwitcher.Switcher.Reconcile: the scheduler's own status entry and its warnings are not modelled, nor are the request error and failed observation texts of an operation.
- IngressSafety.WriteAhead: assumes that nobody else writes the record; with other writers only `NeverOverwritesForeign` is claimed.
- FailoverController.Controller.Restore: restored events are assumed to carry their positions as ids; node runtime restored from storage is part of the given nodes.
- FailoverController.Controller.PrepareDNSApply: the provider's plan and its previous value are arbitrary answers; name and address normalisation is a given idempotent function.
- FailoverRuns.WindowBound: covers `node_switched` events made in automatic mode since the log was paced, not manual ones and not DNS commits; a restart loads the last 200 events, so switches before those no longer count.
- FailoverRuns.SpentCycle: traffic samples are reported from outside; a known one with an older or a future cycle key undoes what the state remembers, so keys are required to lie between the remembered one and the one the return shows. Where the fallback cannot serve, or outside automatic mode, the primary is returned to regardless.
- FailoverCycles.Operate: requires that each role has one node of the lowest priority number; calls that only concern dry-runs and the guard do not change nodes, state or log.
- FailoverCycles.ReturnsInDifferentCycles: requires a zone in which dates do not go back; a daylight saving change that repeats a midnight is outside it.
- StreamResume.Response.Read: reads that return neither bytes nor an ending are not modelled.
- StreamResume.PlannedAgrees: media type, Accept-Ranges and the shape of the client's Range header are given as flags.
- LogStore.Logger.Write: I/O errors, closing the logger and the write buffer are not modelled; buffered entries count as written.
- LogStore.Logger.Page: error-free I/O only, so the fallback after a failed history read does not occur.
- LogStore.Logger.ListAll: nothing is written between the calls of one walk; the walk of an unlimited filtered request is left to `UnlimitedFlag`.
- ImageCache.Handle: the disabled cache, the JSON rewrite and the playback redirect, none of which meets a stored image, are not modelled; key normalisation and header rewriting are not either.
- ImageCache.Cache.Get: a file damaged or unreadable from outside is one arbitrary fault; freshness towards the client is an arbitrary answer.
- ImageCache.Cache.Interfere: files left by an earlier process, and the limit on entries in memory, are not modelled; others may drop entries at any time.
- AuthFailures.FailureRecords.Record: reading the clock and updating the record are one step.
- AuthSessions.SessionTable.ActiveFamily: the occasional sweep, tied to the clock's low bits, may happen at any call.
- AuthTotp.Totp.MatchAt: times before the epoch are not modelled; code values are an arbitrary function of secret and step.
- NodeScheduler.Select: unique, non-empty node ids are required, as the node table's keys are; rounding is not modelled.
- BillingCalendar.CyclesTile: moments are wall-clock times of one zone; zone lookup is not modelled.
- EdgeReplay.PersistentNonceStore.Verify: file permissions, temporary files and an unset path are one arbitrary failure.
- Probes, DNS-over-HTTPS lookups, the provider and storage packages, request decoding and the browser interface.
- Shell scripts, certificate tools, service configuration, WebSocket tunnelling, capture, notifications.
- Body rewriting: its replacements are applied in map order, so its result is not a function of its input.
