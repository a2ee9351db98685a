# Proofs about the orchestrator's delivery, capacity, gate and export logic

This project models four parts of the orchestrator and proves what they promise
over every input, every run and every interleaving. `dafny verify dfyconfig.toml`
checks all of it.

**Outbox relay and SSE fan-out** (`RelayProtocol`, `RelaySafety`, `OutboxRelay`,
`RelayLiveness`, `FeedLiveness`, `SseBroker`, `Delivery`). The relay is a step
machine in which a failure or a restart may fall between any two external effects,
and the relay thread is a class whose passes are proved to be runs of it and to
leave what the two tables and the failing operation determine. The broker's methods
are proved against the same bounded-queue function that the composed machine
uses, in which clients connect, read and disconnect at any time.

**Provider capacity** (`ProviderCapacity`, `CapacityProtocol`, `ProbeSafety`,
`ProbeLimits`, `OperatorClears`, `Admission`, `Recovery`, `AgentAdmission`). The
outage window is a fold over a failure history. Circuits, the half-open probe,
running attempts and the clock form a step machine, one transaction a step; the
repository and the admission service are classes proved to perform those steps.

**Verification gate and contract repair** (`PyText`, `PathNames`, `PathLaws`,
`GitListing`, `Verification`, `VerdictReasons`, `GateRuns`, `AgentFeedback`,
`CommandText`, `ContractRepair`, `RepairExactness`, `RepairProposal`). The checks
are loops proved against per-path reasons, the verdict and each reason in it are
characterised exactly, and whole runs of accepted stages are followed through the
change lists git gives. Repair works on real command strings.

**Export pipeline** (`Telemetry`, `Grouping`, `Correlation`, `Bundle`,
`BundleConservation`, `UsageScope`, `UsageMetrics`, `ExportTotals`, `Percentiles`,
`Durations`). The loops over dictionaries of lists are proved against bucket
functions, and conservation, partition and order laws are proved about those.

## What turned out not to hold as stated

Each of these is kept as the code has it, with the condition under which it does
hold proved beside it.

- The half-open probe is single-flight only if the stale bound is at least the
  attempt timeout *and* every recorded wait is longer than the timeout; otherwise
  an attempt from before the outage ends during the probe and its release, which
  names no holder, frees it. With both bounds it holds in every run in which
  operators clear no row under probe (`SingleFlightIffTimely`).
- The operator's retry deletes the row its block names without looking at it.
  Between opening and resolving a block the row can be reopened and probed, and
  then, with per-model pools, no timing bound keeps single flight
  (`ClearBreaksFlight`); endpoint-wide accounts keep it (`AnyClearsFlightIff`).
- An endpoint-wide pool is counted across models but compared with the cap of
  the model being started, so a model's own cap can be exceeded when a
  pool mate has a larger one (`OwnCapIffLargest`).
- The exporter never finds a provider-wide circuit: rows store `*` while
  references carry `_provider_wide` (`ExporterFindsIff`).
- One undecodable outbox payload stops the relay for good at the last whole
  batch before it (`StuckAt`, `DrainsIffDecodable`).
- The agent feed is read only behind the outbox half of a pass, so such a row stops
  the feed as well, however much of it decodes (`FeedDrainsIff`).
- A declared check inside a byproduct directory is pinned for its own task but
  not protected from a later authoring stage (`PinnedSurvivesIff`).
- The scopes `/` and `././` match no ordinary path although `./` matches all,
  and matching is not transitive through a whole-tree spelling (`MatchesAllIff`,
  `WholeTreeBreaksTransitivity`).
- Command repair replaces a repeated token twice when the token occurs inside its
  own match (`RepeatedTokenCorrupts`), and also inside other words' tokens
  (`InsideTokenCorrupts`). For one mistyped token these are exactly the cases in
  which it fails (`SoleTokenwiseIff`); for several, `Apart` is a sufficient
  condition (`RepairIsTokenwise`).
- The exemption of pinned files opens no hole, but the change list does. Git quotes
  a name that holds a blank, a quote, a backslash, a control or a non-ASCII
  character, and the listing keeps the quotes, so the entry no longer has a
  configuration name (`ConfigurationNeverWrittenIff`). A rename is listed under its
  new name only, so a configuration file that is not itself a pinned check can be
  renamed away (`ConfigurationStaysIff`).
- Command repair strips dots and slashes before it looks a token up, so a correct
  command naming a tracked dotfile is repaired to itself on every pass
  (`DotfileRepairsForEver`, `RepairFixpointIff`).
- A refusal longer than 500 characters is cut before its reasons are read back
  (`CutReadsBackIff`).
- Scope repair widens only a contract that declared some allowed scope; an empty
  list means unrestricted, and the first entry narrows it (`ScopeRepairWidensIff`).
- Telemetry correlated with a run that is not listed is left out of the bundle
  while the totals still count it (`TotalsMatchIff`).
- `outage_start`'s first paragraph (provider_capacity.py:101-102) speaks of the
  scope's own ceiling; the code, and the model, use the longest ceiling.

## Model

| member | source | states |
|---|---|---|
| `RelaySafety.StepKeeps` | backend/praxis_orchestrator/api/outbox_relay.py:43-86 | Every step - append, begin, publish, mark, commit, agent-feed select and send, finish, failure anywhere, restart - keeps the invariant tying the stream, the marks and the cursor to the two tables. |
| `RelaySafety.DedupIsOutboxPrefix` | backend/praxis_orchestrator/api/outbox_relay.py:31-64 | In every run from the empty system, keeping the first occurrence of each event id in the published stream gives a prefix of the outbox in id order, each event with its row's kind, id and payload, and every row marked delivered is in that prefix. |
| `RelaySafety.DedupIsFeedPrefix` | backend/praxis_orchestrator/api/outbox_relay.py:66-86 | The same for the agent feed, although a restart or a failed half re-reads it: the deduplicated stream is a prefix of the feed, each event with its row's id and payload, and reaches every row the cursor has passed. |
| `RelaySafety.RepeatsBounded` | backend/praxis_orchestrator/api/outbox_relay.py:43-64 | Repeated outbox publications number at most the batch size times the number of passes that failed or were killed. |
| `OutboxRelay.Relayer.RelayOnce` | backend/praxis_orchestrator/api/outbox_relay.py:43-86 | With a fault injected at any one database or broker operation, or none, the pass is a run of the protocol, counts as failed exactly when it raised, and leaves exactly what the selected rows, the selected feed and the operation that raised determine: what was published stays published, marks are kept only if the commit was reached, and the cursor moves only if every event went out. |
| `OutboxRelay.LeftIsOutcome` | backend/praxis_orchestrator/api/outbox_relay.py:36-86 | The same on the two tables: behind d delivered rows and c passed events, the pass publishes the next batch in order up to the first undecodable row or the operation that raised, marks all of that batch or nothing, then sends the next batch of the feed likewise; the cursor becomes the id of the last event of a feed that went out whole, and stays where it was otherwise. |
| `OutboxRelay.Relayer.TailFeed` | backend/praxis_orchestrator/api/outbox_relay.py:66-86 | The agent half is a run of the protocol after the commit: it publishes the selected feed in order up to the first undecodable event or the operation that raised, and the cursor moves to the largest selected id exactly if all of it went out. |
| `OutboxRelay.Relayer.InsertRow` | backend/praxis_orchestrator/api/outbox_relay.py:31-34 | An application transaction adds an undelivered row behind all others exactly if its id is positive and larger than every id, and its event id is new. |
| `OutboxRelay.Relayer.RunOutboxRelay` | backend/praxis_orchestrator/api/outbox_relay.py:89-108 | Any number of polling passes, with any faults and any rows arriving between them, is one protocol run with the cursor carried between passes; without faults the two tables, the cursor and the stream are those of one round after the other: the rows accepted, then a clean pass. |
| `OutboxRelay.QuietRounds` | backend/praxis_orchestrator/api/outbox_relay.py:89-108 | Without arrivals those rounds are the repeated clean passes that the results on draining speak of, for the outbox and for the agent cursor. |
| `RelayLiveness.ReachableIsTable` | backend/praxis_orchestrator/api/outbox_relay.py:31-34 | In every reachable state the outbox is a run of delivered rows followed by undelivered ones, in id order: the premise of the results on draining. |
| `RelayLiveness.OnePass` | backend/praxis_orchestrator/api/outbox_relay.py:51-64 | A clean pass delivers the whole next batch if all of it decodes and marks nothing otherwise. |
| `RelayLiveness.DrainsInCeil` | backend/praxis_orchestrator/api/outbox_relay.py:43-64 | n decodable undelivered rows are drained after k clean passes if and only if ceil(n / batch) <= k, for every batch >= 1. |
| `RelayLiveness.StuckAt` | backend/praxis_orchestrator/api/outbox_relay.py:52-54 | A first undecodable row pins the relay for ever at the last whole batch in front of it. |
| `RelayLiveness.WholeBatches` | backend/praxis_orchestrator/api/outbox_relay.py:31-34 | Where it is pinned, in closed form: min(n, bad / batch) whole batches after n passes. |
| `RelayLiveness.DrainsIffDecodable` | backend/praxis_orchestrator/api/outbox_relay.py:43-64 | The relay ever drains if and only if every undelivered payload decodes. |
| `FeedLiveness.ReachableFeed` | backend/praxis_orchestrator/api/outbox_relay.py:36-40 | In every reachable state the agent events are in id order and the cursor separates those passed from those ahead: the premise of the results on the feed. |
| `FeedLiveness.RestartRereads` | backend/praxis_orchestrator/api/outbox_relay.py:89-101 | After a restart the cursor has passed nothing, whatever the old process had sent. |
| `FeedLiveness.FeedDrainsInCeil` | backend/praxis_orchestrator/api/outbox_relay.py:66-86 | n - c decodable events ahead of the cursor have all been passed after k clean passes if and only if ceil((n - c) / batch) of these passes got through their outbox half. |
| `FeedLiveness.FeedDrainsIff` | backend/praxis_orchestrator/api/outbox_relay.py:43-86 | The feed is ever through if and only if all that is left of it decodes and the outbox lets enough passes through: all its undelivered rows decode, or the whole batches in front of the first that does not are as many as the feed needs. |
| `SseBroker.ClientQueue.PutNowait` | backend/praxis_orchestrator/api/sse.py:78-85 | A queue below 200 takes the event at its end; a full one is unchanged and refuses the newest. |
| `SseBroker.ClientQueue.Get` | backend/praxis_orchestrator/api/routers/events.py:29-41 | The consumer takes the oldest queued event and leaves the rest in order. |
| `SseBroker.Broker.BindLoop` | backend/praxis_orchestrator/api/sse.py:38-40 | A bound, running loop is what publishers hop onto from then on. |
| `SseBroker.Broker.Register` | backend/praxis_orchestrator/api/sse.py:42-48 | Adds one new, empty queue and no other. |
| `SseBroker.Broker.Unregister` | backend/praxis_orchestrator/api/sse.py:50-53 | Removes exactly that queue; an unknown one is ignored. |
| `SseBroker.Broker.Publish` | backend/praxis_orchestrator/api/sse.py:59-76 | Off a running loop the event joins the end of the callback FIFO and no queue changes; on it, or with no loop, every queue is offered the event at once. |
| `SseBroker.Broker.Broadcast` | backend/praxis_orchestrator/api/sse.py:78-85 | Every registered queue is offered the event exactly once, whatever the order of the client set. |
| `SseBroker.Broker.RunCallbacks` | backend/praxis_orchestrator/api/sse.py:72-76 | The loop empties the FIFO oldest first, so each queue receives the scheduled events in publication order. |
| `SseBroker.FullQueueDropsNewest` | backend/praxis_orchestrator/api/sse.py:78-85 | A burst leaves the queue with what it had plus exactly the oldest events that fit in 200. |
| `Delivery.ClientsStep` | backend/praxis_orchestrator/api/sse.py:42-85 | Every step of relay and broker together keeps, for every client, the relation between its queue, what it consumed and what was broadcast to it. |
| `Delivery.EveryClientInOrder` | backend/praxis_orchestrator/api/sse.py:42-85 | For any client in any run: at most 200 queued; consumed plus queued is an in-order part of what was broadcast since it registered, all of it exactly if the queue never overflowed; and the relay's share of that is a contiguous stretch of the stream. |
| `Delivery.SentIsBroadcast` | backend/praxis_orchestrator/api/sse.py:59-85 | While a client stays connected it is sent exactly what is broadcast, on-loop events included, in order. |
| `Delivery.OneAction` | backend/praxis_orchestrator/api/sse.py:42-85 | One action, client by client: registering, unregistering or a restart decides who is connected, a broadcast reaches everyone connected, and a read takes the oldest queued event and nothing else. |
| `Delivery.ViewIsSeenPrefix` | backend/praxis_orchestrator/api/sse.py:59-85 | A client present from the start without overflow has, deduplicated, a prefix of the deduplicated stream, and all of it once the callbacks have run. |
| `Delivery.ClientSeesOutboxPrefix` | backend/praxis_orchestrator/api/outbox_relay.py:51-64 | A client registered before the first publication whose queue never filled sees exactly a prefix of the outbox, each row once and in id order; with no callback pending it has every row marked delivered. |
| `ProviderCapacity.WindowIsLastStretch` | backend/praxis_orchestrator/app/provider_capacity.py:92-128 | Folding the failures of any history gives the first failure of the last stretch without a clear or a gap longer than the larger ceiling, and escalates exactly when that stretch is older than the scope's ceiling. |
| `ProviderCapacity.LastStretchExists` | backend/praxis_orchestrator/app/provider_capacity.py:92-128 | Every history that ends in a failure has such a stretch, so the fold is always described. |
| `ProviderCapacity.EscalatesIff` | backend/praxis_orchestrator/app/provider_capacity.py:89-128 | Escalation after any history holds if and only if a last unbroken stretch older than the ceiling exists. |
| `ProviderCapacity.CeilingIsScoped` | backend/praxis_orchestrator/app/provider_capacity.py:82-90 | A daily-quota failure escalates exactly when its stretch is older than the daily-quota ceiling, any other exactly when it is older than the outage ceiling. |
| `ProviderCapacity.GapDecides` | backend/praxis_orchestrator/app/provider_capacity.py:92-113 | One more failure starts a new outage exactly when the gap since the last retry time exceeds both ceilings, and keeps the window otherwise. |
| `ProviderCapacity.FreshNeverEscalates` | backend/praxis_orchestrator/app/provider_capacity.py:98-105 | A fresh or reset window never escalates at once. |
| `ProviderCapacity.LegitimateWaitContinues` | backend/praxis_orchestrator/app/provider_capacity.py:106-113 | A wait up to any scope's ceiling past the retry time never resets the window. |
| `ProviderCapacity.EveryScopeEscalates` | backend/praxis_orchestrator/app/provider_capacity.py:82-90 | Escalation can be reached for every scope. |
| `ProviderCapacity.FindMaxInflight` | backend/praxis_orchestrator/app/provider_capacity.py:166-185 | A positive model cap is the result whatever the others are, then a positive provider cap, then a positive default, else 8. |
| `ProviderCapacity.RoundTripIff` | backend/praxis_orchestrator/app/provider_capacity.py:287-300 | Parsing a built reference returns its key if and only if runtime and provider id hold no slash and the model is not literally the reserved token; model ids may hold slashes. |
| `ProviderCapacity.ParseReads` | backend/praxis_orchestrator/app/provider_capacity.py:296-300 | What stands before the first slash of a prefixed reference is the runtime, up to the second the provider, and all the rest the model, the reserved token meaning none. |
| `ProviderCapacity.RefsDistinct` | backend/praxis_orchestrator/app/provider_capacity.py:291-293 | Distinct well-named keys have distinct references. |
| `ProviderCapacity.ParsedRefRebuilds` | backend/praxis_orchestrator/app/provider_capacity.py:296-300 | Every prefixed reference that parses is the one built from the key it parses to. |
| `ProviderCapacity.ExporterFindsIff` | backend/scripts/export_plan_runs.py:797-815 | The exporter's own parser finds a reference's row if and only if the circuit belongs to one model: a provider-wide circuit is stored under another token than its reference carries. |
| `AgentAdmission.ExecutionRecords.CountInflightAttempts` | backend/praxis_orchestrator/infra/db/execution_record_repository.py:353-364 | Counts the running rows of the key, all models when the key is provider-wide. |
| `AgentAdmission.ExecutionRecords.TryClaimCircuitProbe` | backend/praxis_orchestrator/infra/db/execution_record_repository.py:567-598 | Test and set: wins exactly if the row exists and its probe is free or stale, writes only then, and a second claim at the same moment loses. |
| `AgentAdmission.ExecutionRecords.ReleaseCircuitProbe` | backend/praxis_orchestrator/infra/db/execution_record_repository.py:600-613 | Frees the probe of the named circuit whoever holds it, and nothing else. |
| `AgentAdmission.ExecutionRecords.UpsertRuntimeCircuit` | backend/praxis_orchestrator/infra/db/execution_record_repository.py:528-565 | Replaces the one row, its probe included. |
| `AgentAdmission.ExecutionRecords.ClearRuntimeCircuit` | backend/praxis_orchestrator/infra/db/execution_record_repository.py:615-626 | Deletes exactly that row. |
| `AgentAdmission.Service.StartAttempt` | backend/praxis_orchestrator/app/handlers/agent_admission.py:215-303 | Answers not-ready exactly when the running rows - of the whole account behind one endpoint, of the model otherwise - have reached the cap, or the gating circuit is unlatched and not passable, and then changes nothing; pauses exactly when that circuit is latched, and then opens a block naming it; otherwise starts, and is the protocol's start step. |
| `AgentAdmission.Service.RecordFailure` | backend/praxis_orchestrator/app/handlers/agent_admission.py:305-412 | A capacity failure other than request concurrency rewrites one circuit with the folded window - the account's for a quota or an endpoint-wide pool, else the model's - leaves every other row alone and, if it latches, opens a block naming it; every other failure, whatever its wait, takes the probe from both circuits and changes nothing else. |
| `AgentAdmission.Service.RetryTask` | backend/praxis_orchestrator/app/use_cases/operator_commands.py:77-96 | The operator's retry resolves one block and deletes the row it names, in whatever state that row is by then. |
| `AgentAdmission.Service.Finish` | backend/praxis_orchestrator/app/handlers/agent_admission.py:415-437 | A success deletes the model's and the provider-wide circuit, leaves every other row, every block and every other attempt as they were, and ends the attempt. |
| `ProbeSafety.StepKeeps` | backend/praxis_orchestrator/app/execution_records.py:197-222 | Under timely bounds every step, an operator's clear of a row that no live attempt is probing included, keeps: live probers are the recorded holders, and nobody else is live in a prober's pool. |
| `ProbeSafety.OthersUntouched` | backend/praxis_orchestrator/app/execution_records.py:216-218 | In such a state the end of an attempt, whose release names no holder, never takes another live attempt's probe. |
| `ProbeSafety.TimelyIsSafe` | backend/praxis_orchestrator/app/provider_capacity.py:64-70 | If attempts end within a bound no larger than the stale bound and every recorded wait is longer than it, then in every state reached without clearing a row under probe each circuit has at most one live prober, and no end of an attempt takes a probe whose row records another live holder. |
| `ProbeLimits.ShortStaleBoundUnsafe` | backend/praxis_orchestrator/app/provider_capacity.py:64-70 | With a stale bound below the attempt timeout there is a run with two live probes of one circuit. |
| `ProbeLimits.ShortWaitUnsafe` | backend/praxis_orchestrator/app/handlers/agent_admission.py:400-411 | With a recorded wait no longer than the attempt timeout, a straggler's holder-less release yields two live probes. |
| `ProbeLimits.SingleFlightIffTimely` | backend/praxis_orchestrator/app/execution_records.py:197-218 | While operators clear no row under probe, and for settings under which a pool can hold two attempts, single flight holds in all runs if and only if both timing bounds hold. |
| `OperatorClears.LatchedClearsAreCareful` | backend/praxis_orchestrator/app/use_cases/operator_commands.py:77-96 | In every run, a row that is still latched when the operator's retry deletes it is not under probe. |
| `OperatorClears.ClearBreaksFlight` | backend/praxis_orchestrator/app/use_cases/operator_commands.py:96-96 | With per-model pools the unguarded delete breaks single flight whatever the timing bounds: a circuit latches, two blocks name it, the first clears it, it is reopened and probed, the second clears it again, a sibling probes the model's circuit, and the first prober's end releases that. |
| `OperatorClears.EndpointWideIsSafe` | backend/praxis_orchestrator/app/use_cases/operator_commands.py:96-96 | An endpoint-wide account keeps one live prober under timely bounds, and no probe is taken, whatever blocks operators resolve and when. |
| `OperatorClears.AnyClearsFlightIff` | backend/praxis_orchestrator/app/use_cases/operator_commands.py:77-96 | With blocks resolved at any moment, single flight on an account holds in all runs if and only if its pool is endpoint-wide and both timing bounds hold. |
| `Recovery.CrashedProbeRecovers` | backend/praxis_orchestrator/infra/db/execution_record_repository.py:567-598 | Whatever else is live, once the clock has passed the retry time and the stale bound of the gating unlatched row, the next runner within the cap gets in. |
| `Recovery.SuccessReopens` | backend/praxis_orchestrator/app/handlers/agent_admission.py:415-437 | Right after a success no circuit gates its spec, whatever was open or latched before, and any spec of the account without a row of its own model is admitted exactly if its pool has room. |
| `Recovery.StaleProbeIsClaimable` | backend/praxis_orchestrator/infra/db/execution_record_repository.py:567-598 | After any run that neither claimed nor rewrote an unlatched row and outlasted its retry time and stale bound, the row is passable or gone, whatever else is live. |
| `Recovery.EverySpecIsAdmittedAgain` | backend/praxis_orchestrator/app/handlers/agent_admission.py:215-303 | From every state whose gating circuit, if any, is not latched, some run without operator or crash admits the spec, for every configuration and catalog and any set of live, crashed and probing attempts. |
| `Admission.NeverOverLargestCap` | backend/praxis_orchestrator/app/handlers/agent_admission.py:215-234 | In every run the in-flight count of a pool is zero or within the cap of some model sharing the pool. |
| `Admission.RowsWithinCap` | backend/praxis_orchestrator/app/handlers/agent_admission.py:215-234 | The same over rows: in every run an endpoint-wide account has no running row, or no more, whatever their models, than the cap of some model of the account; any other pool has none, or no more rows of the model than the model's own cap. |
| `Admission.CapFollowsCatalog` | backend/praxis_orchestrator/app/handlers/agent_admission.py:226-232 | The cap is the model row's if positive, else the provider row's if positive, else the configured default if positive, else 8; without a provider row it is the default. |
| `Admission.CrashHoldsSlot` | backend/praxis_orchestrator/infra/db/execution_record_repository.py:353-364 | A crashed attempt goes on counting against its pool until it is reclaimed, and then no longer. |
| `Admission.OwnCapIffLargest` | backend/praxis_orchestrator/app/handlers/agent_admission.py:226-232 | A pool stays within one model's own cap in every run if and only if no model sharing it has a larger one. |
| `Admission.PerModelNeverOverCap` | backend/praxis_orchestrator/app/handlers/agent_admission.py:226-232 | With per-model pools the resolved cap is never exceeded. |
| `ProviderCapacity.BuildPolicy` | backend/praxis_orchestrator/infra/policies/provider_capacity_factory.py:37-64 | Whatever is configured, the policy's global cap is positive; the two ceilings and the stale bound are the configured ones, else 6 hours, 26 hours and 15 minutes. |
| `Admission.IdlePoolAdmits` | backend/praxis_orchestrator/app/handlers/agent_admission.py:109-134 | For every configuration, catalog and state, an idle pool admits with no circuit in the way, and with one exactly when that circuit is passable. |
| `PathNames.MatchesScope` | backend/praxis_orchestrator/app/verification.py:92-104 | The two stripping loops and the comparison decide the scope relation for every pair of strings. |
| `PathNames.MatchesIsSegmentPrefix` | backend/praxis_orchestrator/app/verification.py:97-104 | Outside the whole-tree spellings a scope matches if and only if its normalised segments are a prefix of the path's. |
| `PathNames.MatchesTransitive` | backend/praxis_orchestrator/app/verification.py:92-104 | Matching is transitive through every middle scope that is not a whole-tree spelling. |
| `PathNames.WholeTreeBreaksTransitivity` | backend/praxis_orchestrator/app/verification.py:94-96 | Through a whole-tree spelling it is not: a concrete path and two scopes. |
| `PathNames.MatchesAllIff` | backend/praxis_orchestrator/app/verification.py:94-96 | Only the three whole-tree spellings, a backslash for a slash allowed, match every path; "/" and "././" do not. |
| `PathNames.CheckIsNotWholeTree` | backend/praxis_orchestrator/app/verification.py:143-152 | No whole-tree spelling counts as a check path. |
| `PathNames.SortedSetCanonical` | backend/praxis_orchestrator/app/verification.py:211-223 | Sorting and de-duplicating a change list forgets its order and repetitions, and nothing else. |
| `PathNames.BeforeIff` | backend/praxis_orchestrator/app/verification.py:211-216 | The order of the sorted list is by code points: a proper prefix first, else by the first character that differs. |
| `PathLaws.BackslashIsSlash` | backend/praxis_orchestrator/app/verification.py:92-152 | A backslash separates like a slash, in a path, in a scope and in a check's name. |
| `PathLaws.TrailingSlash` | backend/praxis_orchestrator/app/verification.py:97-104 | Away from the whole-tree spellings a slash behind a scope or a path that does not end in a dot makes no difference to what matches. |
| `PathLaws.LeadingSlash` | backend/praxis_orchestrator/app/verification.py:97-104 | Nor does a slash in front of one that does not open with `./`. |
| `PathLaws.PosixCollapses` | backend/praxis_orchestrator/app/verification.py:211-223 | An empty or dot segment behind other text changes neither the path's POSIX form nor its name. |
| `PathLaws.PosixKeeps` | backend/praxis_orchestrator/app/verification.py:211-223 | A relative path without such segments, `..` included, is its own POSIX form. |
| `PathLaws.NameIsLast` | backend/praxis_orchestrator/app/verification.py:211-223 | A path's name is its last segment. |
| `PathLaws.CheckPathIff` | backend/praxis_orchestrator/app/verification.py:143-152 | A path is a check exactly when it lies under a `tests` segment, or its last name opens with `test_` or is one of three; trailing slashes and backslashes make no difference. |
| `PathLaws.ByproductIff` | backend/praxis_orchestrator/app/verification.py:127-140 | A path is a byproduct exactly when one of its segments is a generated directory or package metadata, or its last name ends in .pyc or .pyo or opens with .coverage. |
| `Verification.CheckProtected` | backend/praxis_orchestrator/app/verification.py:182-208 | Reports, in pinned order, each missing path, each changed hash, and a bypass marker only in changed files. |
| `Verification.CheckConfigUntouched` | backend/praxis_orchestrator/app/verification.py:211-223 | Reports exactly the non-exempt changed paths with a configuration name, sorted, each once. |
| `Verification.CheckDeclaredScope` | backend/praxis_orchestrator/app/verification.py:226-249 | Reports, per non-exempt changed path in sorted order, a forbidden scope and then a missing allowed scope. |
| `Verification.ValidateCandidate` | backend/praxis_orchestrator/app/verification.py:257-274 | Joins the four checks in order; accepts exactly the acceptable candidates. |
| `Verification.ValidateAuthoring` | backend/praxis_orchestrator/app/verification.py:277-296 | Accepts exactly if every existing check is intact and no unpinned configuration path changed. |
| `Verification.AcceptedIff` | backend/praxis_orchestrator/app/verification.py:182-274 | Accepted if and only if the bundle is frozen and fits id and revision, every pinned file is present with its hash, and every changed path that is not pinned has no configuration name, lies in no forbidden scope and, if any is declared, in an allowed one. |
| `Verification.AuthoringAcceptedIff` | backend/praxis_orchestrator/app/verification.py:277-296 | The same for the authoring stage. |
| `Verification.VerdictIgnoresListing` | backend/praxis_orchestrator/app/verification.py:257-274 | Verdict, reasons and their order depend only on which paths changed. |
| `Verification.DistinctKeeps` | backend/praxis_orchestrator/app/verification.py:252-254 | The combined verdict keeps each reason once, first reason first, and invents none. |
| `VerdictReasons.CandidateVerdictSays` | backend/praxis_orchestrator/app/verification.py:182-274 | For every path and in the gate's own words: missing exactly if it is pinned and not in the tree, changed exactly if it is there with another hash, a bypass marker exactly if besides its text holds one, a configuration name, a forbidden or an undeclared scope exactly if it is changed, not pinned and so named or placed, and a wrong bundle exactly if it is not frozen for this task and revision. |
| `VerdictReasons.AuthoringVerdictSays` | backend/praxis_orchestrator/app/verification.py:277-296 | The same for the authoring verdict, about the checks that were there before. |
| `VerdictReasons.VerdictOrder` | backend/praxis_orchestrator/app/verification.py:257-274 | The reasons come bundle first, then pinned files, then configuration, then scope. |
| `GateRuns.PinnedChecksSurvive` | backend/praxis_orchestrator/app/verification.py:257-296 | Over any sequence of accepted authoring and implementation stages every check ever pinned that the snapshot can see still has the hash it was first pinned with. |
| `GateRuns.PinsAre` | backend/praxis_orchestrator/app/handlers/execution_handler.py:713-762 | Authoring pins the checks that were there and, with the content they have now, the author's files if one of them is new, else the checks the contract declares. |
| `GateRuns.SnapshottedIff` | backend/praxis_orchestrator/app/test_identity.py:144-159 | The snapshot takes exactly the checks none of whose segments is generated, compiled or a coverage file. |
| `GitListing.PlainEntries` | backend/praxis_orchestrator/infra/runtime/verification_executor.py:42-60 | A name without blank, quote, backslash, control or non-ASCII character is listed as it is, by the status and by the diff. |
| `GitListing.QuotedEntryEnds` | backend/praxis_orchestrator/infra/runtime/verification_executor.py:49-53 | Any other name is listed by the status under an entry that ends in a double quote, an arrow inside the name included. |
| `GateRuns.ConfigurationNeverWritten` | backend/praxis_orchestrator/app/verification.py:211-223 | Over any such sequence no configuration-named file with a plain name outside the byproduct directories is added or changed: the exemption of pinned paths opens no hole. |
| `GateRuns.ConfigurationNeverWrittenIff` | backend/praxis_orchestrator/infra/runtime/verification_executor.py:42-70 | A configuration-named path is added or changed in no run if and only if git prints it unquoted and it lies in no byproduct directory; the failing run is an implementation stage whose listed entry ends in a quote. |
| `GateRuns.CheckConfigurationStays` | backend/praxis_orchestrator/app/verification.py:211-223 | A configuration file with a plain name that the snapshot takes for a check keeps its place and content in every run. |
| `GateRuns.ConfigurationStaysIff` | backend/praxis_orchestrator/infra/runtime/verification_executor.py:42-70 | A configuration-named path keeps its file in every run if and only if git prints it unquoted and the snapshot takes it for a check; any other can be renamed to a new check, or appear, without its name being listed. |
| `GateRuns.PinnedSurvivesIff` | backend/praxis_orchestrator/app/test_identity.py:123-159 | A pinned check keeps its hash in every run if and only if the snapshot can see it; one inside a byproduct directory may be replaced by a later authoring stage. |
| `AgentFeedback.RejectionsAreActionable` | backend/praxis_orchestrator/app/agent_feedback.py:35-68 | Every rejection the implementation gate can emit, over all trees, contracts and bundles, is recognised once joined with "; ", and still after the cut to 500 characters. |
| `AgentFeedback.LedRejectionsAreActionable` | backend/praxis_orchestrator/app/handlers/execution_handler.py:663-668 | The refusals that the authoring stage and the re-check after a command write with a lead-in are recognised by it, whatever reasons follow and wherever the message is cut. |
| `AgentFeedback.ActionableIff` | backend/praxis_orchestrator/app/agent_feedback.py:59-68 | A failure is acted on if and only if its text, behind any blanks, opens with one of the sixteen prefixes; an absent or blank text never is. |
| `AgentFeedback.SplitInvertsJoinIff` | backend/praxis_orchestrator/app/agent_feedback.py:71-73 | Splitting a joined text returns exactly its reasons if and only if no reason is empty, blank at an edge or holds the separator. |
| `AgentFeedback.CutReadsBackIff` | backend/praxis_orchestrator/app/ports.py:203-218 | A failure carries the first 500 characters: splitting those returns exactly the reasons if and only if each is separable and the joined text fits. |
| `AgentFeedback.SeparableIffPath` | backend/praxis_orchestrator/app/verification.py:182-249 | A gate reason meets that condition exactly when its path is non-empty, does not end in a blank and holds no separator. |
| `CommandText.ReplaceLine` | backend/praxis_orchestrator/app/contract_repair.py:88-94 | Replacing a blank-free token over a whole command line is replacing it in each word, blanks untouched. |
| `CommandText.ParseRender` | backend/praxis_orchestrator/app/contract_repair.py:79-81 | Splitting a rendered line gives its words and blanks back. |
| `CommandText.RenderParse` | backend/praxis_orchestrator/app/contract_repair.py:79-81 | Rendering the split of any command gives the command back. |
| `CommandText.ReplaceQuoted` | backend/praxis_orchestrator/app/contract_repair.py:82-94 | A replacement acts inside a word's surrounding quotes and keeps them. |
| `ContractRepair.RepairCommands` | backend/praxis_orchestrator/app/contract_repair.py:71-98 | The nested loops compute the repaired commands and their notes; nothing is proposed when there are no notes. |
| `ContractRepair.RebuildCommand` | backend/praxis_orchestrator/app/contract_repair.py:78-96 | One command's loop of string replacements and notes. |
| `ContractRepair.FixIff` | backend/praxis_orchestrator/app/contract_repair.py:63-87 | Which words are repaired, on their characters: the unquoted token opens with no dash, holds no shell symbol, has a slash or a dot, is no version number, and stripped of dots and slashes is neither tracked nor the directory of a tracked file. |
| `ContractRepair.NotesAre` | backend/praxis_orchestrator/app/contract_repair.py:78-96 | One note for each such word, saying what it was and what it becomes. |
| `ContractRepair.RebuildLine` | backend/praxis_orchestrator/app/contract_repair.py:88-94 | Whatever the tokens, the repeated replacement acts on each word by itself, provided the matches used are blank-free and have no quote at an edge. |
| `ContractRepair.RepairIsTokenwise` | backend/praxis_orchestrator/app/contract_repair.py:71-98 | If the matches used are clean and no token to be replaced occurs inside a different token or another word's replacement, repair is the token-by-token map: same blanks, same quotes, each mistyped token its match, nothing else touched. A token may repeat. |
| `RepairExactness.SoleTokenwiseIff` | backend/praxis_orchestrator/app/contract_repair.py:78-96 | For a command with one mistyped token and a clean match, repair is the token-by-token map if and only if the token is its own match, or no other token contains it and it does not repeat or does not occur inside the match. |
| `RepairExactness.ReplaceMoves` | backend/praxis_orchestrator/app/contract_repair.py:88-94 | Replacing a token by a different text moves every text that contains it the same way, by length or code-point order, and leaves every other alone, so no further replacement of it restores the text. |
| `ContractRepair.RepairFixpointIff` | backend/praxis_orchestrator/app/contract_repair.py:71-98 | For such commands a second pass over the repaired ones has nothing to note if and only if no match used would itself be repaired. |
| `ContractRepair.CommandRepairFixpoint` | backend/praxis_orchestrator/app/contract_repair.py:71-98 | In particular it has nothing to note when the matches used are tracked paths with no dot or slash at either end. |
| `ContractRepair.DotfileRepairsForEver` | backend/praxis_orchestrator/app/contract_repair.py:82-94 | A correct command that names a tracked dotfile, which the stripping hides, is repaired to itself and noted on every pass. |
| `RepairExactness.RepeatedTokenCorrupts` | backend/praxis_orchestrator/app/contract_repair.py:88-94 | A whole command on which it fails: a repeated token that occurs inside its own match is replaced twice over. |
| `RepairExactness.InsideTokenCorrupts` | backend/praxis_orchestrator/app/contract_repair.py:88-94 | Another: a mistyped token inside another word's token, which needs no repair, is replaced there too. |
| `RepairProposal.ProposeRepair` | backend/praxis_orchestrator/app/contract_repair.py:131-155 | Proposes only on a contract-shaped reason with tracked files, and then exactly the command and scope repairs that have something to say. |
| `RepairProposal.ProposesIff` | backend/praxis_orchestrator/app/contract_repair.py:131-155 | Something is proposed if and only if there are tracked files, some stripped reason opens with one of the four contract-shaped texts, and a command or the scope can be repaired. |
| `RepairProposal.RepairScopeIff` | backend/praxis_orchestrator/app/contract_repair.py:101-128 | A scope is proposed if and only if no allowed entry is a check path and some tracked top-level directory is one; the new entry is the least such directory, behind the entries that were there. |
| `RepairProposal.NewEntryIsWritable` | backend/praxis_orchestrator/app/contract_repair.py:101-128 | Scope repair only appends one entry, a tracked top-level directory that the authoring stage may write. |
| `RepairProposal.ScopeRepairFixpoint` | backend/praxis_orchestrator/app/contract_repair.py:101-128 | After one scope repair a second proposes none. |
| `RepairProposal.ScopeRepairWidensIff` | backend/praxis_orchestrator/app/verification.py:226-249 | The scope reasons after a repair are among those before it for every change set and exemption if and only if the contract declared some allowed scope. |
| `RepairProposal.ProposalFixpointIff` | backend/praxis_orchestrator/app/contract_repair.py:131-155 | Applied once, the whole proposal leaves nothing to propose for the same failure if and only if no match used would itself be repaired. |
| `RepairProposal.ProposalFixpoint` | backend/praxis_orchestrator/app/contract_repair.py:131-155 | In particular when the matches used are tracked paths with no dot or slash at either end. |
| `Grouping.GroupBy` | backend/scripts/export_plan_runs.py:882-884 | The dictionary of lists holds, per key, exactly the rows with that key in their order, and no empty list. |
| `Grouping.BucketConcat` | backend/scripts/export_plan_runs.py:882-884 | Grouping a concatenation concatenates the groups: order inside a group is row order. |
| `Grouping.ListingConservesIff` | backend/scripts/export_plan_runs.py:1160-1169 | Writing out the groups of a list of keys is a permutation of the rows if and only if exactly one listed key selects each row. |
| `Grouping.Regroups` | backend/scripts/export_plan_runs.py:1160-1169 | Grouping what was written out gives each once-listed group back, order included. |
| `Correlation.IndexAttempts` | backend/scripts/export_plan_runs.py:525-535 | The two indexes map each attempt id to its last row's run, and each goal, task and number to the set of its runs. |
| `Correlation.LastAttemptWins` | backend/scripts/export_plan_runs.py:525-535 | Of several attempts with one id the last one read gives the run. |
| `Correlation.PlaceEvent` | backend/scripts/export_plan_runs.py:540-561 | The chain of tests on the indexes decides the placement that the tables define. |
| `Correlation.CorrelateTelemetry` | backend/scripts/export_plan_runs.py:520-574 | The correlated lists and the unassigned list are the events placed in each run and in none, in event order. |
| `Correlation.PlacementIsEvidenced` | backend/scripts/export_plan_runs.py:540-561 | Each recorded rule is the one that applied: listed run, named attempt, all matching attempts in one run, two matching attempts in different runs, or no matching attempt. |
| `Correlation.EvidenceDecides` | backend/scripts/export_plan_runs.py:540-561 | With distinct attempt ids a placement is the exporter's if and only if it is backed by that evidence. |
| `Correlation.PlacementIgnoresOrder` | backend/scripts/export_plan_runs.py:520-574 | With distinct attempt ids the placement does not depend on the order of the attempts. |
| `Bundle.ExportPlan` | backend/scripts/export_plan_runs.py:882-900 | Each run is enriched with its own attempts, telemetry and counts; what is left is the unassigned list. |
| `Bundle.RunCounts` | backend/scripts/export_plan_runs.py:882-900 | On the tables: a run's attempts are the rows with its id, its retries all of them but the first, and its telemetry the events placed in it. |
| `Bundle.BundleRecords` | backend/scripts/export_plan_runs.py:1118-1170 | The run, attempt and telemetry files hold, plan after plan and run after run, the rows of the report, the unassigned events last. |
| `BundleConservation.TelemetryConservedIff` | backend/scripts/export_plan_runs.py:1160-1169 | The telemetry file is a permutation of a plan's events if and only if every assigned event's run is listed exactly once. |
| `BundleConservation.AttemptsConservedIff` | backend/scripts/export_plan_runs.py:1160-1169 | The attempts file is a permutation of the attempts if and only if every attempt's run is listed exactly once. |
| `BundleConservation.ConservesIff` | backend/scripts/export_plan_runs.py:520-574 | Given distinct attempt ids, no set of events is lost or repeated if and only if run ids are distinct and every attempt points at a listed run. |
| `BundleConservation.CountShowsLoss` | backend/scripts/export_plan_runs.py:1062-1073 | With distinct run ids the telemetry file never exceeds the reported total, and equals it exactly when nothing is missing. |
| `BundleConservation.TotalsMatchIff` | backend/scripts/export_plan_runs.py:1062-1073 | Over a whole export the run and attempt files match the totals always, the telemetry file if and only if every plan's events are conserved. |
| `BundleConservation.BundleConserves` | backend/scripts/export_plan_runs.py:1118-1170 | The bundle of a whole export is a permutation of all plans' exported events when each plan's are conserved. |
| `BundleConservation.FileRegroups` | backend/scripts/export_plan_runs.py:1160-1169 | Reading the flat files back by run gives each run's own telemetry and attempts, order kept. |
| `UsageScope.TallyConcat` | backend/scripts/export_plan_runs.py:442-468 | Metrics of a concatenation are the merged metrics of its parts. |
| `UsageScope.MergeAssociates` | backend/scripts/export_plan_runs.py:425-439 | Merging scopes is associative, absent token totals and coverage keys included. |
| `UsageScope.MergeEmpty` | backend/scripts/export_plan_runs.py:425-439 | The initial scope is neutral for every scope that has its five coverage keys. |
| `UsageMetrics.Metrics` | backend/scripts/export_plan_runs.py:442-468 | The loop's planner, child and combined scopes are the tallies of the events without a task, with one, and of all; planner and child sessions are the numbers of events of kind `model.usage` with an object for payload and without, or with, a task. |
| `UsageMetrics.OnlyUsageCounts` | backend/scripts/export_plan_runs.py:450-463 | An event of another kind, or without an object for payload, changes no field wherever it stands in the list; any other adds one session. |
| `UsageMetrics.CoverageIs` | backend/scripts/export_plan_runs.py:460-463 | Each coverage key holds the number of usage events with that quality, an absent or empty one counting as legacy_unknown, and `observations` one for every session. |
| `UsageMetrics.TallyIgnoresOrder` | backend/scripts/export_plan_runs.py:442-468 | Metrics depend on which events there are, not on their order. |
| `UsageMetrics.PartitionAddsUp` | backend/scripts/export_plan_runs.py:442-468 | Merging the metrics over any partition of the events gives the metrics of all of them. |
| `UsageMetrics.CombinedIsPlannerPlusChild` | backend/scripts/export_plan_runs.py:453-468 | Combined equals planner plus child in every field. |
| `UsageMetrics.AbsentIffUnreported` | backend/scripts/export_plan_runs.py:464-468 | A token total is absent if and only if no event reported it, and otherwise the sum of the reports. |
| `UsageMetrics.TallyMeans` | backend/scripts/export_plan_runs.py:455-463 | Sessions are the counted events, calls their summed calls, and each coverage key its events of that quality, with one more per event for the observations key. |
| `UsageMetrics.QualitiesAddUp` | backend/scripts/export_plan_runs.py:460-463 | When every event has one of the four known qualities they add up to the observations and to the sessions. |
| `UsageMetrics.UsageComparisons` | backend/scripts/export_plan_runs.py:228-255 | One row per provider and model a counted event reports, holding the combined scope of those events. |
| `UsageMetrics.GroupsAddBack` | backend/scripts/export_plan_runs.py:228-255 | The provider and model rows, in any order, merge back to the combined scope of all events. |
| `ExportTotals.PlanMeetsIff` | backend/scripts/export_plan_runs.py:882-902 | With distinct run ids a plan's bundled events count no more sessions than its metrics, and as many exactly when every usage event assigned to a run was assigned to a listed one; then all counters agree. |
| `ExportTotals.ComparisonsMeetMetricsIff` | backend/scripts/export_plan_runs.py:170-255 | The comparison rows, built from the report's events, merge to the plans' combined metrics, built from all events, if and only if every usage event assigned to a run was assigned to a listed one; conservation is enough. |
| `Percentiles.SortedSorts` | backend/scripts/export_plan_runs.py:118-118 | The sorted values are ordered and a permutation of the sample. |
| `Percentiles.PercentileIgnoresOrder` | backend/scripts/export_plan_runs.py:115-125 | Percentiles depend on the sample as a multiset only. |
| `Percentiles.AtMonotone` | backend/scripts/export_plan_runs.py:121-125 | The interpolated value never falls as the rank grows, within a segment or across its ends. |
| `Percentiles.PercentileMonotone` | backend/scripts/export_plan_runs.py:115-125 | A percentile lies between the rounded minimum and maximum and is monotone in the fraction, for any order-preserving rounding. |
| `Percentiles.PercentileHitsValues` | backend/scripts/export_plan_runs.py:121-125 | At the fraction k/(n-1) the percentile is the k-th smallest value. |
| `Percentiles.MedianIs` | backend/scripts/export_plan_runs.py:121-125 | p50 is the middle value of an odd sample and the mean of the two middle values of an even one. |
| `Percentiles.StraightWithinSegment` | backend/scripts/export_plan_runs.py:121-125 | Between two neighbouring ranks the value follows a straight line. |
| `Durations.SummaryIsOrdered` | backend/scripts/export_plan_runs.py:128-146 | With at least one measurable row, min <= p50 <= p95 <= max with the mean between the ends, nothing below zero's rounding, and the two counts add up to the rows. |
| `Durations.SummaryIs` | backend/scripts/export_plan_runs.py:128-146 | On the sorted durations: minimum and maximum are the ends, the mean is their sum by their number, p50 the median, and p95 of 20j + 1 values the one with 19j before it. |
| `Durations.SummaryOfOne` | backend/scripts/export_plan_runs.py:107-146 | For one row all five statistics are the time from its start to its completion, and zero where they are the wrong way round. |
| `Durations.MeansPool` | backend/scripts/export_plan_runs.py:128-146 | In two lists together each mean weighs as much as it has measurable rows. |
| `Durations.SummaryOfNothing` | backend/scripts/export_plan_runs.py:128-146 | Every statistic is absent exactly when no row can be measured. |

## Left out

- Admission.NeverOverLargestCap: the count and the row it leads to are one atomic step, as inside the handler's single transaction; two databases or a broken lock are not modelled.
- ContractRepair.RepairIsTokenwise: with several mistyped tokens the condition is sufficient, not necessary, because one replacement can undo what another did; `SoleTokenwiseIff` is exact for one.
- GateRuns.ConfigurationNeverWritten: speaks of the files git records; a file git ignores, or hides behind an index flag, is never listed and is not in the modelled tree.
- GateRuns.ConfigurationStaysIff: the change list is taken from git's default settings (quoting of non-ASCII names, rename detection); other settings are not modelled.
- GateRuns.PinnedSurvivesIff: an authoring stage is judged once, on its final tree; the earlier verdict before its commands run only refuses more.
- AgentAdmission.Service.RecordFailure: the wait of a capacity failure is taken as given, no shorter than the parameter `minWait`; the backoff curve that computes it is not modelled.
- AgentAdmission.Service.RetryTask: which task a block belongs to is not modelled, only the circuit it names; every start that meets a latched circuit may open one.
- Percentiles.PercentileMonotone: fractions from 0 to 1, as both callers pass; other fractions are not modelled.
- Verification.CheckProtected: a file is a hash and an optional text; hashing, symbolic links and unreadable files are not modelled.
- Recovery.EverySpecIsAdmittedAgain: shows that an admitting run exists, not that a scheduler takes it; the schedule that reclaims dead attempts is not modelled.
- RelaySafety.DedupIsOutboxPrefix: the outbox and agent-event tables only grow; deleting a plan, which cascades to its rows in both, is not modelled.
- Durations.SummaryIsOrdered: arithmetic is over the reals and rounding is any order-preserving function; binary floating point is not modelled.
- Specs with an empty provider or model id, which bypass admission and circuits.
- `RoutingPolicy`, `select_spec`, the backoff curve and failure counters kept for telemetry.
- Blocks, messages and events raised beside a latched circuit.
- The polling delay of the relay, SQL, JSON decoding, thread and event-loop internals: an ordered table with a delivered flag, a decodable flag, and a FIFO of callbacks.
- The ten fields of an agent event's body: one payload text.
- Close matching by similarity ratio: any choice at all, with what is assumed of a match stated where it is used. The notes' wording in a repair's summary is left out, and digits in a token are the ASCII ones.
- Repeated `strip` arguments, `Path` and `split` are modelled on strings of characters, not on file systems.
- The agent half of `_metrics`, summaries, insights, catalog, planning operations, domain events and chat rows of the export: copied or counted row by row.
- The sorted order of comparison rows, success rates and status counts.
- Numbers in payloads are integers; text that `int()` would have to parse is not modelled.
