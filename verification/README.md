# Hikyo: verified models of its stateful core

Hikyo keeps state across crashes, nodes and long runs in a handful of places, and each
of them promises something that no single branch of its code shows. This project models
those places in Dafny and proves the promises for every input, every run or every crash
schedule.

- **Scheduler lease** (`LeaseStore`, `SchedulerNode`, `SchedulerProtocol`, `SchedulerSafety`,
  `SchedulerLateCalls`, `SchedulerLoop`). Any number of nodes compete for one fenced lease row.
  Statements, commits and answers are separate steps, so calls may take effect and lose their
  answer, or commit after their caller gave up, while the row lock is held. `SchedulerLoop` is
  the heartbeat loop as the source writes it, proved to take exactly the protocol's steps.
  `SchedulerLateCalls` shows what the row lock is worth: it states exactly from which states a
  call that could still reach the row after its caller abandoned it leads to two live leaders,
  and gives such runs for a renewal and for a release.
- **Adapter sync** (`Ledger`, `SyncScript`, `SyncConvergence`, `SyncSentinels`, `FakeModule`,
  `Planning`, with `Sorting`). One sync is the list of durable steps it takes (reserve, gate,
  intent, provider write, outcome); a crash is a first part of that list. `FakeModule.Target` is
  the module with its journal and provider, proved to run exactly such a first part.
- **Outbox worker** (`Outbox`, `SyncJob`). One attempt at a job, from claim to settlement, and
  what a settled sync job leaves at its target.
- **Upgrade application** (`UpgradeRecord`, `UpgradeApply`). A host journal and a database
  control record that move in step, where every operation may fail with or without effect and
  the host may crash at any of them.
- **Route discovery** (`Routes`, `RouteDiscovery`). A release graph fetched one node at a time,
  and the planner's breadth-first search.
- **Admission** (`SlidingWindow`, `SharedCounters`, `Limiter`, `LimiterHistory`). Sliding and fixed windows,
  bounded tables with eviction, slots derived from a memory budget, the account backoff in its
  two forms, and the handoff of counters.
- **Generation swap** (`GenerationSwap`, `OwnerRuntime`). Drain, inherit, install or resume.
- **Audit export** (`AuditExport`). The streaming acceptor of an export body.

Times are integers in nanoseconds (the lease protocol uses abstract ticks). Clocks, randomness,
the network, the contents of JSON lines, and the answers of stores, loaders and child processes
are parameters. Strings are sequences of characters and upper-casing maps ASCII letters only;
byte order of names is order of characters.

Where the code and its comments differ, the model follows the code:

- `internal/admission/admission.go:625-626` describes the account delay as 2^(failures-5)
  seconds; the code at 672 and 585 yields 2^(failures-6), which `BackoffCurve` states.
- `internal/admission/inherit.go:19-20` says the old limiter must not serve again after a
  handoff; `internal/app/owner_runtime.go:309-318` resumes the old graph when the pool refuses
  afterwards. Nothing is lost: the copy goes stale with a candidate that can never be activated
  again (`SupersededStaysOut`).
- `internal/adapter/ledger.go:112` looks a name up as written in a set of upper-cased names, and
  takes a held secret that was marked missing for somebody else's. `PlanAgreesWithSync` names
  both as the cases in which a plan and a sync part; `HiddenVariableExample` and
  `MissingSecretExample` are inputs. Rows marked missing come from other modules, since the
  completions modelled here never set the mark.
- `internal/adapter/ledger.go:161-162` recognises sentinels by the end of their name, while
  `internal/adapter/adapter.go:317-344` accepts keys that end the same way.
  `ManifestIsBracketedExactlyWhen` says for which manifests a teardown then keeps the bracket,
  and `LookalikeEscapes` gives one for which it does not.
- `internal/admission/admission.go:544-547` says that losing a live window forgives whoever it
  belonged to. Counted over later attempts it does (`ForgettingAdmitsNoLess`, and over whole
  histories `NobodyIsWorseOff`), but a single later attempt can be refused that would have been
  admitted. `ForgivesExactlyWhenExpired` says when: the claim holds attempt by attempt exactly
  for expired windows, and of a whole sweep exactly when it finds room or something expired
  (`SweepForgivesExactlyWhen`); `ForgettingCanRefuseLater` is one input where it fails.

## Model

| member | source | states |
|---|---|---|
| `SchedulerSafety.StepKeepsInv` | internal/app/scheduler.go:189-334 | every step of any node, of the store or of the clock keeps the lease invariant: what a node believes, what the row says and what is in flight fit together |
| `SchedulerSafety.RunKeepsInv` | internal/app/scheduler.go:189-334 | so does every run of any length |
| `SchedulerSafety.OneLiveLeader` | internal/app/scheduler.go:169-334 | in every run, a leader inside its deadline is the owner and fence in the row, its deadline is covered by the row's expiry, and there is no second one |
| `SchedulerSafety.WritesAreFenced` | internal/app/scheduler.go:62-70 | in every run, committed fences never decrease, a claim's fence is strictly fresh, and a write follows the claim of its own term |
| `SchedulerSafety.TermsNeverOverlap` | internal/app/scheduler.go:184-222 | no two terms of a node live together, each runs under a fence the store granted, never under an unconfirmed one |
| `SchedulerSafety.ReleaseFollowsExit` | internal/app/scheduler.go:226-250 | while a term lives, no release of its fence is asked for or can still commit |
| `SchedulerLateCalls.LateCallSplitsExactlyWhenExposed` | internal/store/coordination.go:72-147 | from any state of any run, a claim, renewal or release that takes effect after its caller left can be followed by steps to two live leaders if and only if it is no claim, there is another node, and its owner leads under that fence, or will on hearing the store's answer, past what the statement leaves in the row |
| `SchedulerLateCalls.LateRenewalSplitsLeadership` | internal/app/scheduler.go:295-325 | a run in which an abandoned confirmation that ran late leaves two live leaders |
| `SchedulerLateCalls.LateReleaseSplitsLeadership` | internal/app/scheduler.go:226-250 | a run in which a late release hits the same fence granted again after its first claim rolled back, and leaves two live leaders |
| `SchedulerLoop.LeadershipLoop.constructor` | internal/app/scheduler.go:169-188 | a node starts with no term, no fence and no leadership |
| `SchedulerLoop.LeadershipLoop.Drop` | internal/app/scheduler.go:189-195 | dropping leadership cancels the term and leaves it draining |
| `SchedulerLoop.LeadershipLoop.TermDraining` | internal/app/scheduler.go:199-210 | a term is forgotten exactly when it has exited |
| `SchedulerLoop.LeadershipLoop.Start` | internal/app/scheduler.go:212-222 | a new term under the current fence with the lease's deadline |
| `SchedulerLoop.LeadershipLoop.Renewed` | internal/app/scheduler.go:273-286 | an error or a lost lease drops leadership, a held one moves the deadline |
| `SchedulerLoop.LeadershipLoop.Confirm` | internal/app/scheduler.go:295-310 | confirmation of a provisional claim: keep it, give it up, or start the term |
| `SchedulerLoop.LeadershipLoop.ClaimAnswered` | internal/app/scheduler.go:311-325 | a claimed fence stays provisional until its answer says it is held |
| `SchedulerLoop.LeadershipLoop.Acquire` | internal/app/scheduler.go:292-326 | the calls made and the state reached equal the protocol's acquisition |
| `SchedulerLoop.LeadershipLoop.Beat` | internal/app/scheduler.go:251-326 | one heartbeat equals the protocol's heartbeat: the same store calls in the same order and the same state |
| `SchedulerLoop.LeadershipLoop.Stop` | internal/app/scheduler.go:226-250 | the lease is released exactly when a fence is held and the term is gone |
| `SchedulerLoop.LeadershipLoop.Run` | internal/app/scheduler.go:224-334 | any number of heartbeats, with terms exiting before and within them, equals the protocol's |
| `SchedulerLoop.ReelectedExactlyWhenExited` | internal/app/scheduler.go:287-326 | a node that lost its leadership is elected by a granted claim if and only if its last term has exited, and then starts a new term under the new fence |
| `SchedulerLoop.DrainingBlocksElection` | internal/app/scheduler.go:199-210 | while a term drains, no number of heartbeats starts another one |
| `Ledger.ValidateManifest` | internal/adapter/adapter.go:317-344 | accepts exactly the manifests whose names are valid and differ when upper-cased |
| `Ledger.IndexLedger` | internal/adapter/ledger.go:18-27 | refuses exactly a ledger with a malformed row; otherwise the last row of each key wins |
| `Ledger.ValidLedgerReindexes` | internal/adapter/ledger.go:18-27 | a valid ledger read back in any row order is accepted and gives that ledger |
| `Ledger.DesiredRows` | internal/adapter/ledger.go:58-83 | equals the sorted rows of sentinels and manifest |
| `Ledger.DesiredKeysAreDistinct` | internal/adapter/ledger.go:58-83 | for a validated manifest no two desired rows claim one name |
| `Ledger.DesiredStartsWithSentinels` | internal/adapter/ledger.go:69-81 | both management sentinels come before every key |
| `Ledger.Undesired` | internal/adapter/ledger.go:129-175 | splits the undesired rows exactly into reservations and prunes, each once and in order, sentinels last |
| `SyncConvergence.PrefixKeepsFinal` | internal/app/adapter_fake_dev.go:173-286 | stopping after any step of a name leaves it bound for the same end, which a full pass reaches |
| `SyncConvergence.CrashConvergence` | internal/app/adapter_fake_dev.go:155-288 | any number of interrupted syncs followed by one that succeeds ends in the same ledger and provider store as one uninterrupted sync: desired names hold their value and are owned, undesired held names are gone, all others untouched |
| `SyncConvergence.WritesOnlyHeldNames` | internal/app/adapter_fake_dev.go:184-244 | whenever the provider is written, the ledger durably holds the name, and a name it only reserved was absent |
| `SyncConvergence.CompletionsAreValid` | internal/adapter/ledger.go:29-50 | every completion a sync journals is one the journal accepts |
| `SyncConvergence.HappenIsSafe` | internal/store/adapter_runtime.go:543-773 | after any stop and any tampering every ledger row still indexes without error |
| `SyncConvergence.ForeignNamesSurvive` | internal/app/adapter_fake_dev.go:191-203 | over every history of syncs, teardowns and crashes a present name the ledger does not own keeps its value |
| `SyncSentinels.OrdinaryKeepsBracket` | internal/app/adapter_fake_dev.go:170-259 | a sync that desires its sentinels first, stopped anywhere, holds a key only with both sentinels present |
| `SyncSentinels.TeardownKeepsBracket` | internal/adapter/ledger.go:158-175 | so does a teardown stopped anywhere, if every held key is pruned before every held sentinel |
| `SyncSentinels.LateRowLosesItsSentinel` | internal/adapter/ledger.go:161-169 | the point at which a teardown is left without a sentinel when a held key sorts behind it |
| `SyncSentinels.TeardownIsBracketedExactlyWhen` | internal/adapter/ledger.go:158-175 | teardown is bracketed at every stop if and only if it starts bracketed and no held key that looks like a sentinel sorts behind a held one |
| `SyncSentinels.SentinelsBracketManagedKeys` | internal/app/adapter_fake_dev.go:151-154 | from an empty ledger, over any history of stopped syncs and teardowns, every stop is bracketed if and only if every teardown starts with its held keys in order |
| `SyncSentinels.PlainHistoryIsOrdered` | internal/adapter/ledger.go:158-175 | histories that never desire a key ending like a sentinel are such histories |
| `SyncSentinels.ManifestGivesOrdinaryWork` | internal/adapter/ledger.go:58-83 | a validated manifest desires its sentinels first, and without sentinel-like names nothing else ends like one |
| `SyncSentinels.ManifestIsBracketedExactlyWhen` | internal/adapter/ledger.go:58-175 | after a complete first sync of a validated manifest, teardown is bracketed at every stop if and only if no key of the manifest ends like a sentinel and sorts behind the secret one |
| `SyncSentinels.LookalikeEscapes` | internal/adapter/adapter.go:317-344 | the validated manifest of one variable `A_MANAGED_BY_HIKYO`: synced in full into an empty target, its teardown has a stop that holds the key without both sentinels |
| `FakeModule.Target.Step` | internal/store/adapter_runtime.go:543-773 | one durable step: applied exactly when the target still answers |
| `FakeModule.Target.SyncRow` | internal/app/adapter_fake_dev.go:173-259 | one desired row takes exactly its steps up to where the target stops, refuses exactly a foreign name, and reports creation or update |
| `FakeModule.Target.SyncRows` | internal/app/adapter_fake_dev.go:173-259 | all desired rows: the exact first part of the script, the ending, and the rows reported |
| `FakeModule.Target.ReleaseReservations` | internal/app/adapter_fake_dev.go:260-266 | releases undesired reservations in order, up to where the target stops |
| `FakeModule.Target.PruneAll` | internal/app/adapter_fake_dev.go:267-286 | prunes undesired held names in order and reports exactly the finished ones |
| `FakeModule.Target.Clear` | internal/app/adapter_fake_dev.go:260-287 | both together complete the script, or stop inside it |
| `FakeModule.Target.Admit` | internal/app/adapter_fake_dev.go:162-168 | admits exactly a valid manifest with a valid ledger, and indexes it to what is durable |
| `FakeModule.Target.Sync` | internal/app/adapter_fake_dev.go:155-288 | rejects exactly an invalid manifest or ledger without any change; otherwise the durable state is the script of its work stopped at the budget, with the exact ending and report |
| `FakeModule.RetrySkipsDeliveredNames` | internal/adapter/outbox.go:255-267 | what a stopped sync reported is delivered, so a retry of the same rows may skip it and convergence still applies |
| `Planning.PlanChanges` | internal/adapter/ledger.go:101-127 | one change per desired row and one deletion per row that is to go, sorted |
| `Planning.Plan` | internal/app/adapter_fake_dev.go:127-149 | refuses exactly what Sync rejects; otherwise plans the desired rows against ledger and provider |
| `Planning.PlanAgreesWithSync` | internal/adapter/ledger.go:101-147 | a sync is refused if and only if a name the plan cannot see is taken (a variable, or one not in upper case) or the plan shows a conflict on a name not merely marked missing; otherwise it reports a permutation of the plan with unknown and conflict read as create, and deletes exactly the prunes |
| `Planning.PlanForetellsSync` | internal/app/adapter_fake_dev.go:127-288 | for a validated manifest, what Plan returned decides the ending and the report of an uninterrupted Sync of the same request, up to variables it cannot see |
| `Planning.SyncKeepsUpperNames` | internal/app/adapter_fake_dev.go:184-282 | a sync stopped anywhere leaves only upper-case names at the provider |
| `Planning.HiddenVariableSurprises` | internal/adapter/ledger.go:109-121 | for every validated manifest: a variable of it that somebody else holds refuses the sync while the plan shows no conflict |
| `Planning.HiddenVariableExample` | internal/adapter/ledger.go:109-121 | the same for the variable A of a one-key manifest |
| `Planning.MissingSecretSurprises` | internal/adapter/ledger.go:109-121 | for every validated manifest: a held secret of it marked missing and yet present is planned as a conflict while the sync goes through |
| `Planning.MissingSecretExample` | internal/adapter/ledger.go:109-121 | the same for the secret A of a one-key manifest |
| `Outbox.RetryDelay` | internal/adapter/outbox.go:144-156 | the doubling loop yields min(30 s * 2^(attempt-1), 1 h), halved and jittered below it |
| `Outbox.RetryDue` | internal/adapter/outbox.go:158-170 | due in (now, now + 1 h]; a future provider deadline is honoured up to the cap |
| `Outbox.Remember` | internal/adapter/outbox.go:278-289 | merges reported changes into the acknowledgements, each name once |
| `Outbox.Worker.SettleError` | internal/adapter/outbox.go:192-198 | exactly one settlement: failure for the stage's terminal errors, otherwise a retry within the cap |
| `Outbox.Worker.WaitOut` | internal/adapter/outbox.go:274-293 | another round only once the named time inside the lease has come |
| `Outbox.Worker.RunActivation` | internal/adapter/outbox.go:199-241 | an activation job is settled exactly once and as its last round went: activated if and only if that round succeeded; every earlier round failed and was waited out within the lease |
| `Outbox.Worker.RunSync` | internal/adapter/outbox.go:242-310 | a sync job is settled exactly once, succeeds exactly at the revision of its last, successful call, and every earlier call was waited out; a call is handed every name reported so far under its own revision and nothing reported under another |
| `Outbox.Worker.RunOnce` | internal/adapter/outbox.go:172-311 | a claimed job is settled exactly once and as its last round demands, an unclaimed one never |
| `SyncJob.CallSync` | internal/adapter/outbox.go:254-267 | one call of a job does to the target what a sync does that may skip the loader's names and the job's acknowledgements |
| `SyncJob.CallsSkipOnlyDelivered` | internal/adapter/outbox.go:254-289 | over all calls of a job, also across revisions, no call skips a name that does not hold what it desires |
| `SyncJob.SuccessMeansConverged` | internal/adapter/outbox.go:242-270 | a job settled as succeeded leaves each desired row of the settled revision delivered and no other row in the ledger, and the target where one uninterrupted sync from the first call of that revision on would have left it |
| `UpgradeRecord.ChildIsSafe` | internal/upgradegate/gate.go:432-493 | however far a launched migration child gets, the record and the schemas stay consistent and only move forward into its hop |
| `UpgradeRecord.ChildEnds` | internal/upgradegate/gate.go:355-378 | a child that runs to its end applies its hop if and only if the record is open for it |
| `UpgradeRecord.ResumedChildIsSafe` | internal/upgradegate/gate.go:432-493 | however far a child resumed inside a half-written hop gets, it stays in its hop and only moves forward, with the exact schemas and begun migrations after each step |
| `UpgradeRecord.ResumedChildEnds` | internal/upgradegate/gate.go:432-493 | a child resumed inside a half-written hop applies it by beginning its migrations once more, so each hop was begun once if and only if nothing of this one had been |
| `UpgradeRecord.MoveIsSafe` | internal/store/upgrade/storage.go:310-339 | a record moves to health or to a required restore only by legal transitions, and a healthy one never |
| `UpgradeApply.AlignmentCountsSchemas` | internal/app/automatic_apply.go:174-205 | what each journal phase says about the schemas in place, each hop migrated at most once and in route order, and complete only over a healthy last hop with maintenance off |
| `UpgradeApply.Host.Disposition` | internal/app/automatic_apply.go:235-277 | decides to migrate only when nothing of the hop is written, and to skip only when its schema is in place |
| `UpgradeApply.Host.Migrate` | internal/app/automatic_apply.go:95-97 | however far the child gets, the database stays consistent; success means it ran to its end |
| `UpgradeApply.Host.StartCandidate` | internal/app/automatic_apply.go:129-133 | the candidate may record health or a required restore, and nothing else |
| `UpgradeApply.Host.MigrateHop` | internal/app/automatic_apply.go:90-114 | intent before the child, schema-applied only over the confirmed record |
| `UpgradeApply.Host.RecordHealthFailure` | internal/app/automatic_apply.go:288-320 | ends in an error with the journal blocked or unchanged, and never reverses a healthy record |
| `UpgradeApply.Host.CheckHop` | internal/app/automatic_apply.go:115-149 | hop-healthy is written only over a healthy record of the hop |
| `UpgradeApply.Host.ApplyHop` | internal/app/automatic_apply.go:75-150 | one hop either ends healthy and recorded or leaves journal and database aligned; it cannot end well from a closed record |
| `UpgradeApply.Host.Reconcile` | internal/app/automatic_apply.go:54-73 | a run starts only from a journal position the route allows, over the database state that position claims |
| `UpgradeApply.Host.Apply` | internal/app/automatic_apply.go:43-172 | journal and database stay aligned however a run ends, an error before completion ends with the fence, restore-required and complete are never left, and a run can complete exactly from a recoverable state and does when nothing fails |
| `UpgradeApply.Host.Retry` | internal/app/automatic_apply.go:54-150 | over any number of stopped runs the alignment holds and nothing goes back; completion means every hop was migrated once and the last is healthy |
| `Routes.ShortestRoute` | internal/upgradecompat/plan.go:269-309 | a route with the fewest hops, and among those the one that goes to the earlier release wherever they part, or the certainty that none has at most 32 hops |
| `Routes.ExtensionIsLeast` | internal/upgradecompat/plan.go:287-307 | the walk in front, extended to a node not seen before, comes before every other walk of that length in the order that breaks ties |
| `Routes.WalkMeetsFrontier` | internal/upgradecompat/plan.go:287-307 | a walk stays among finished nodes, no deeper than its steps, up to where it leaves through the frontier |
| `RouteDiscovery.Plan` | internal/upgradecompat/plan.go:114-309 | the same for the loaded part of the graph, refusing while a bridge's target is missing |
| `RouteDiscovery.RecordDepths` | internal/app/automatic_release.go:148-152 | the exact depths after a round |
| `RouteDiscovery.First` | internal/app/automatic_release.go:153-175 | the first reference in discovery order |
| `RouteDiscovery.DepthsNeverOverstate` | internal/app/automatic_release.go:136-152 | no recorded depth exceeds the true distance to the target |
| `RouteDiscovery.NothingUnknownIsShorter` | internal/app/automatic_release.go:176-182 | when every unknown release is at least as deep as the plan is long, no route in the whole graph is shorter |
| `RouteDiscovery.DiscoveryIsExact` | internal/app/automatic_release.go:176-182 | under the same condition the plan is the very route that planning in the whole graph would give, ties included |
| `RouteDiscovery.NothingUnknownMeansNoRoute` | internal/app/automatic_release.go:183-188 | with nothing unknown left, a failed plan means the whole graph has no route of admissible length |
| `RouteDiscovery.RouteStaysInRange` | internal/app/automatic_release.go:140-147 | pruning by sequence drops no release of any route |
| `RouteDiscovery.CompleteExecutables` | internal/app/automatic_release.go:217-229 | every step of the route gets its executable, or one could not be fetched |
| `RouteDiscovery.Judge` | internal/app/automatic_release.go:105-198 | what one round decides: a route that stands, the certainty that there is none, or the next release to fetch |
| `RouteDiscovery.Discover` | internal/app/automatic_release.go:79-213 | a fresh operation gets the route that planning in the whole graph would give though only part of it was loaded, a resumed one exactly its recorded route; no route means there is none; recorded depths never overstate |
| `SlidingWindow.Compact` | internal/admission/admission.go:502-508 | keeps exactly the hits inside the window, in order |
| `SlidingWindow.WaitIsExact` | internal/admission/admission.go:509-514 | without new hits every attempt before the wait is over is refused and every later one admitted, also with more inherited hits than the allowance |
| `SlidingWindow.HeaderNamesFirstAdmittedSecond` | internal/admission/admission.go:119-124 | the header never undercuts the wait: it names the first whole second, between 1 and 60, at which the window admits again |
| `SlidingWindow.WindowShowsCharged` | internal/admission/admission.go:501-518 | compaction never changes what a later attempt counts |
| `SlidingWindow.ExpiredHitsDecideNothing` | internal/admission/admission.go:522-553 | dropping an expired window changes no decision of any later sequence of attempts |
| `SlidingWindow.ForgettingAdmitsNoLess` | internal/admission/admission.go:522-553 | after any number of later attempts a forgotten subject has been admitted at least as often as a remembered one, its n-th time no later |
| `SlidingWindow.ForgivesExactlyWhenExpired` | internal/admission/admission.go:522-553 | forgetting a window never turns the admission of any later attempt, after any later history, into a refusal if and only if the window has expired, which is the sweep's own test |
| `SlidingWindow.ForgettingCanRefuseLater` | internal/admission/admission.go:544-547 | an input for the other direction: one hit forgotten, then two attempts, the second refused though it would have been admitted |
| `SlidingWindow.AtMostAllowancePerMinute` | internal/admission/admission.go:483-520 | over every history no half-open minute holds more hits than the allowance, unless all of them were inherited |
| `Limiter.MakeRoom` | internal/admission/admission.go:525-553 | one sweep drops exactly the expired entries, or the oldest live one from a full table |
| `Limiter.ForgettingOnlyForgives` | internal/admission/admission.go:522-553 | making room changes no later decision when something had expired; otherwise whoever it forgets is admitted at least as often over every later sequence of attempts |
| `Limiter.SweepForgivesExactlyWhen` | internal/admission/admission.go:525-553 | a sweep takes no later admission from anybody if and only if the table was below its bound or something had expired |
| `Limiter.AllowIn` | internal/admission/admission.go:488-520 | the exact new window and wait, everybody else's window kept up to eviction, the table within its bound |
| `LimiterHistory.SparedIsAlone` | internal/admission/admission.go:488-553 | over every history of one table, among any other subjects and the sweeps they cause, a subject never forgotten while live is let in exactly as if it had come alone |
| `LimiterHistory.SparedIsBounded` | internal/admission/admission.go:483-553 | so no half-open minute of such a history lets it in more often than the allowance, unless all those hits were inherited |
| `LimiterHistory.NobodyIsWorseOff` | internal/admission/admission.go:488-553 | over every history of one table, however often sweeps forget it, a subject is let in at least as often as by a window of its own, its n-th time no later |
| `LimiterHistory.KeptIsWindow` | internal/admission/admission.go:499-519 | the window a table holds for a subject never dropped is the compacted window of that subject's own attempts |
| `LimiterHistory.RoomSparesAll` | internal/admission/admission.go:525-553 | nobody is forgotten while live as long as each attempt finds the table below its bound or something expired |
| `Limiter.Derive` | internal/admission/admission.go:242-256 | refuses exactly a budget that cannot hold one verification; otherwise the largest concurrency up to 8 that fits with its headroom |
| `Limiter.Limiter.VerificationsFitBudget` | internal/admission/admission.go:235-283 | in every reachable state what runs at once fits the budget with its headroom |
| `Limiter.Limiter.AllowIP` | internal/admission/admission.go:476-481 | charges the source's window and leaves every other counter alone |
| `Limiter.Limiter.AllowDiscovery` | internal/admission/admission.go:435-448 | the same for the discovery window and its own allowance |
| `Limiter.Limiter.AllowIssuerRefresh` | internal/admission/admission.go:465-472 | the same for an issuer's refreshes |
| `Limiter.Limiter.Enqueue` | internal/admission/admission.go:408-416 | at most 16 callers wait |
| `Limiter.Limiter.Acquire` | internal/admission/admission.go:399-402 | a waiting caller takes a free slot; free and held slots add up |
| `Limiter.Limiter.GiveUp` | internal/admission/admission.go:403-405 | a canceled caller leaves the queue and takes nothing |
| `Limiter.Limiter.Release` | internal/admission/admission.go:401-402 | a slot is returned once, however often its caller releases |
| `Limiter.CountFailure` | internal/admission/admission.go:661-734 | advances one account within the table's bound, forgetting elapsed accounts first and then the one whose delay ends soonest |
| `Limiter.CountSession` | internal/admission/live_sessions.go:27-45 | remembers a session within the table's bound, forgetting the oldest |
| `Limiter.Limiter.NoteFailure` | internal/admission/admission.go:660-677 | reports the crossing of the threshold exactly at the sixth failure |
| `Limiter.Limiter.NoteSuccess` | internal/admission/admission.go:697-700 | resets exactly that account |
| `Limiter.Limiter.NoteLiveSession` | internal/admission/live_sessions.go:27-45 | touches only the session table, within its bound |
| `Limiter.Limiter.ForgetSession` | internal/admission/live_sessions.go:47-54 | forgets exactly that session |
| `Limiter.CloneWindows` | internal/admission/inherit.go:69-75 | a copy equal to the original |
| `Limiter.Limiter.InheritCounters` | internal/admission/inherit.go:27-75 | an unused, quiet candidate takes over every counter and the shared store of a quiet predecessor; the same limiter, an operation under way, used counters or another store refuse it, in that order, and change nothing |
| `SharedCounters.FixedWindow.Allow` | internal/admission/admission.go:313-333 | charges every attempt of a named subject to that subject alone, admits by its window's count, waits in (0, 60 s] for the next window, and fails closed |
| `SharedCounters.WindowAdmitsAllowance` | internal/admission/admission.go:319-331 | over every history one aligned window admits no more than the allowance |
| `SharedCounters.AtMostTwicePerMinute` | internal/admission/admission.go:306-333 | over every history no half-open minute admits more than twice the allowance |
| `SharedCounters.BackoffCurve` | internal/admission/admission.go:579-587 | past five failures the delay is min(2^(failures-6), 60) seconds; the bounded shift never shows |
| `SharedCounters.BackendsAgree` | internal/admission/admission.go:589-677 | over every history of failures and successes the stored deadline and the derived delay hold an account off equally long |
| `GenerationSwap.StepKeepsInv` | internal/app/owner_runtime.go:80-351 | every step keeps: only the current generation is active, candidates have graphs of their own, counters are carried |
| `GenerationSwap.AtMostOneIsActive` | internal/app/owner_runtime.go:286-292 | in every run at most one generation has requests or workers |
| `GenerationSwap.InstallReplacesDrained` | internal/app/owner_runtime.go:319-335 | a graph is installed only over fully drained generations and serves with every counter recorded so far |
| `GenerationSwap.FailureResumes` | internal/app/owner_runtime.go:293-318 | every failure after the drain resumes the old graph with admission reopened and nothing lost |
| `GenerationSwap.CountersAreNeverLost` | internal/admission/inherit.go:17-26 | whichever graph serves, its limiter holds every hit ever counted |
| `GenerationSwap.SupersededStaysOut` | internal/app/owner_runtime.go:246-250 | a candidate whose predecessor was replaced or resumed is never activated again |
| `GenerationSwap.DiscardedStaysOut` | internal/app/owner_runtime.go:198-223 | a prepared activation that was closed is never begun, and never becomes used |
| `OwnerRuntime.Runtime.Admit` | internal/app/owner_runtime.go:80-91 | a request is admitted to the current generation exactly outside swaps and shutdown |
| `OwnerRuntime.Runtime.Enter` | internal/app/owner_runtime.go:214-253 | which prepared activations are done already, refused (closed, too late, after shutdown or superseded), or begun |
| `OwnerRuntime.Runtime.Close` | internal/app/owner_runtime.go:198-212 | closing a prepared activation is the protocol's discard and nothing else |
| `OwnerRuntime.Runtime.Activate` | internal/app/owner_runtime.go:214-337 | the exact outcomes of an activation: already in force, refused, abandoned, blocked behind an undrained graph, resumed or installed, each a run of the protocol |
| `OwnerRuntime.Runtime.Decide` | internal/app/owner_runtime.go:293-351 | after the drain, either the candidate is installed or the old graph is resumed and the candidate is out |
| `AuditExport.LinesExtend` | internal/auditexport/consume.go:37-47 | behind complete lines, more bytes are just more lines |
| `AuditExport.AcceptedBodiesArePrefixFree` | internal/auditexport/consume.go:51-97 | no accepted body is a proper prefix of another |
| `AuditExport.Consume` | internal/auditexport/consume.go:24-97 | accepts only complete bodies, and all of them when staging works; then the staged bytes are exactly the event lines in order and the receipt counts them |

## Left out

- Real provider clients, HTTP, TLS, listeners, file staging and process control: I/O around libraries.
- Cryptography, backups, signatures and evidence checks of an upgrade: digests and identities are opaque, and a route's digest stands for the whole route, so the field-by-field comparison in `validateAutomaticPending` becomes one comparison of route, hop and length.
- The fake provider's special credentials and its AWS peer: test fixtures.
- Ledger rows in state `released`, conflict artifacts, audit rows and provider-write leases of the adapter journal: they do not influence the modelled steps.
- FakeModule.Target.Step: custody locks, pending conflicts and the row limit of the adapter journal are not modelled; a journal that refuses for one of them has stopped answering.
- FakeModule.Target.Sync: the provider's two name maps are one map keyed by surface and upper-case name; the list of conflicts it returns is represented by its ending only.
- SyncConvergence.CrashConvergence: stated without other writers at the provider and without a foreign desired name, which is when the source promises it; foreign names are covered by ForeignNamesSurvive.
- Outbox.Worker.RunOnce: contexts and deadlines are an answer of the environment ("the wait was canceled"); the bounded settlement context and the one-hour alert are not modelled; the loader's own list of completed effects is part of the loader's answer.
- UpgradeApply.Host.Apply: the migration child does not outlive its parent, the installation is not restored or invalidated from outside between runs, and BackupPreparing and recovery operations are not modelled.
- UpgradeRecord.ChildIsSafe: stated for the children the host starts; a child resumed inside a half-written hop has its own statements, ResumedChildIsSafe and ResumedChildEnds.
- SyncJob.SuccessMeansConverged: nobody else writes the target during the job, and what the loader calls completed is delivered.
- Routes.ShortestRoute: the tie break is stated for graphs in which no two releases share a sequence; the planner refuses others.
- RouteDiscovery.Plan: manifest, schema and policy comparisons of an edge and the bound on the number of edges are not modelled; an edge is given as usable.
- RouteDiscovery.Discover: the bundle holds exactly the releases fetched so far; which executable bytes belong to a release is not modelled.
- Limiter.AllowIn: hits are values, so the sharing of one backing slice between the old and the compacted window is not modelled.
- Limiter.Limiter.InheritCounters: a lifecycle lock is a flag that says an operation is under way, a backend is compared by identity, and uninitialised limiters are not modelled.
- GenerationSwap.StepKeepsInv: endpoints, connections and certificates are left out; only requests, workers, values and counters take part in the swap.
- AuditExport.Consume: JSON decoding and UTF-8 validation of one line are a parameter.
- Grant evaluation in `internal/authz`, the event schema and refusal counters of `internal/audit`, and the comparison of published OpenAPI documents in `api`: each decides one request or one document and keeps no state between calls.
- Delivery formats, name patterns and origin canonicalisation of the other adapters: they rest on URL, JSON and pattern libraries that are not part of this model.
