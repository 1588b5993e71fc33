# Rostra client store: a verified model

The client database of Rostra is a transactional event store. On top of it sit a bounded
retention engine, which keeps the payloads of other people's posts within byte ceilings, and a
direct-message component. This project models the parts of `rostra-client-db` in which many
operations share one invariant, and proves what holds after every operation, in every run.

A redb write transaction is one atomic step over maps and sets. A refused transaction leaves the
tables unchanged. Straight-line reducers are functions from the tables before to the tables after or
an error, loops are methods, and the classes (`Store`, `Arbiter`, `Pressure`, `Gate`, `Ledger`,
`DeviceTables`, `Receiver`, `DirectMessages`, `VoteStore`, `Fetcher`) hold the state that their
methods commit or leave alone. The wall clock, cooperative deadlines, arrivals, index mutations by other
transactions and the order in which operations interleave are chosen freely by the environment.

## What is proved

**Payload accounting and collection** (`PayloadTables`, `PayloadLifecycle`, `PayloadAccounting`,
`PayloadBracket`, `PayloadBracketProofs`, `PayloadRoom`, `PayloadRebuild`, `PayloadCollect`,
`PayloadStore`).
The rebuild runs a few rows at a time while ingestion continues. At every moment the stored totals
are the sums over exactly the rows the cursor has covered; when it reaches Ready they are the true
totals. A covered Processed event always has stored bytes of its signed length. Collection removes
only nominated, unreferenced, unprotected bytes, and no such bytes are ever forgotten. Events the
cursor has not covered are different, because the store trusts bytes it does not read in two places.
An empty envelope is Processed at once, whatever is stored under the hash it names; and content is
accepted without being stored when its hash already has bytes. An empty envelope that names the hash of
a non-empty payload therefore breaks the rule, directly or through the honest content that follows.
`EnvelopeStoredIff` and `ContentStoredIff` state exactly when each step breaks it,
`EmptyEnvelopeCounterexample` and `SharedEmptyCounterexample` show it, and no other operation can.
Once the event is covered, the bracket refuses the step instead. `PayloadRoom` states when
transactions must be accepted. What envelopes, content and prunes do is stated of the tables alone, and
a deletion is permanent over every run, also when it arrives before the event it deletes.

**Ranked preemption and general pressure** (`RetentionScan`, `PayloadDemand`, `PayloadArbiter`,
`PayloadArbiterRun`, `PayloadPressure`). A resumable frontier is only advice, yet every victim is the
smallest-key eligible row of its scope, as if the whole index had been scanned from its start. A
demand's victim ranks strictly below it and comes from its own author when that author is over its
ceiling. Over every run one plan evicts at a time. Every evaluation of a scope's pressure is logged with
the total and the revisions it saw; by that log pressure obeys hysteresis over whole runs, and the
database is pruned only when every accounted author, last visited at the present revisions, is done at
that very moment or had that visit cut off by the deadline.

**Forecast** (`PrefixEviction`, `PayloadDryRun`). A complete projection is determined by the
snapshot: the victims of each author and of the database are minimal lowest-key prefixes, distinct,
and their bytes plus the remaining ones are the total.

**Admission** (`AdmissionCapacity`, `AdmissionGate`, `AdmissionLedger`). Retained plus reserved
bytes stay within both ceilings over every run; the shared buffer counters equal the live guards;
a late drop never disturbs a newer lease.

**Direct messages** (`DyadicCover`, `RankedTop`, `DeviceIndex`, `DeviceQuery`, `TrialDecryption`,
`DmHistory`). The dyadic interval index answers a point query exactly once, with at most 128 blocks
per interval; bucketed newest-first merging gives the same destinations as filtering and sorting
every device; a device is what its latest announcement says, unless it was ever retired; a ciphertext
is given up only after every key that stayed live has been tried; unread counts read from counters are
the true ones.

**Votes and the fetch schedule** (`SocialVotes`, `FetchSchedule`). Vote sums do not depend on the
order or repetition of deliveries. A completion moves a schedule row strictly forward, so that of all
completions that observed one value at most one takes effect. In every run the schedule holds exactly
one row for each Missing event, at the time its state names, and none for any other event.

`Wrappers`, `Sums` and `OrderedKeys` hold the shared datatypes, sums over tables and range seeks.
`dafny verify dfyconfig.toml` checks the whole project.

## Model

Source paths are relative to the repository root.

| member | source | states |
|---|---|---|
| `PayloadLifecycle.EnvelopeReduces` | crates/rostra-client-db/src/tx_ops.rs:203-425 | Envelope reduction keeps reference counts and per-author usage equal to what the event states say, and changes no event or hash outside the captured ones |
| `PayloadLifecycle.ContentReduces` | crates/rostra-client-db/src/lib.rs:1334-1530 | The same for the reduction of received content, valid or invalid |
| `PayloadLifecycle.QuotaReduces` | crates/rostra-client-db/src/quota_pruning.rs:77-198 | The same for a quota prune, which adds its immutable decision row |
| `PayloadLifecycle.EnvelopeMeans` | crates/rostra-client-db/src/tx_ops.rs:203-425 | What an envelope does, said of the tables alone: a new event starts Deleted if its deletion was noted, otherwise Pruned if a quota decision or its length says so, Missing if it has a payload, and without a state if it is empty; a signed deletion makes a known parent of the same author Deleted and is noted for a parent that has not arrived; a known event that is too long is Pruned; stored bytes change only by the empty payload, and every other event and note is unchanged |
| `PayloadLifecycle.ContentMeans` | crates/rostra-client-db/src/lib.rs:1334-1530 | Content of a Missing event below the length limit gives it its bytes and no state, or marks it Invalid; under any other condition nothing changes |
| `PayloadLifecycle.QuotaMeans` | crates/rostra-client-db/src/quota_pruning.rs:77-198 | A prune records its decision, turns an event whose payload is Missing or Processed into Pruned, and changes no other event, note or stored bytes |
| `PayloadLifecycle.EnvelopeProcesses` | crates/rostra-client-db/src/tx_ops.rs:374-420 | An envelope becomes Processed on arrival exactly when it is new, empty, not deleted and not pruned; no other event becomes Processed and stored bytes are kept |
| `PayloadLifecycle.EnvelopeStoredIff` | crates/rostra-client-db/src/tx_ops.rs:402-409 | Insertion leaves every Processed event with bytes of its signed length if and only if it is not a trusted empty envelope naming the hash of stored non-empty bytes |
| `PayloadLifecycle.ContentStoredIff` | crates/rostra-client-db/src/lib.rs:1443-1453 | Accepting content leaves every Processed event with bytes of its signed length if and only if bytes already stored under its hash, which the store keeps unread, have that length |
| `PayloadLifecycle.QuotaStored` | crates/rostra-client-db/src/quota_pruning.rs:77-198 | A prune never takes bytes from a Processed event |
| `PayloadStore.EmptyEnvelopeCounterexample` | crates/rostra-client-db/src/tx_ops.rs:402-409 | A concrete store and empty envelope for which insertion breaks that rule |
| `PayloadStore.SharedEmptyCounterexample` | crates/rostra-client-db/src/lib.rs:1443-1453 | The same envelope before the content: insertion keeps the rule, and the honest content that follows breaks it |
| `PayloadAccounting.AddCounts` | crates/rostra-client-db/src/payload_accounting.rs:321-371 | Adding one event's contribution turns totals exact for a set into totals exact for the set with that event |
| `PayloadAccounting.AddOverflows` | crates/rostra-client-db/src/payload_accounting.rs:321-371 | Adding fails only when an exact total or count does not fit 64 bits |
| `PayloadAccounting.WithdrawSucceeds` | crates/rostra-client-db/src/payload_accounting.rs:321-371 | Withdrawing a counted contribution never underflows |
| `PayloadAccounting.ReplaceCounts` | crates/rostra-client-db/src/payload_accounting.rs:414-440 | Withdrawing the old and adding the new contribution is exact for the changed event |
| `PayloadBracket.BeforeCaptures` | crates/rostra-client-db/src/payload_accounting.rs:289-319 | The capture lists every event and hash the reducer may change, each once, with its value before |
| `PayloadBracket.FinishPayload` | crates/rostra-client-db/src/payload_accounting.rs:414-475 | The two loops after a reducer compute the specified deltas in order |
| `PayloadBracketProofs.BracketExact` | crates/rostra-client-db/src/payload_accounting.rs:414-475 | After any reducer that touches only captured rows, the totals are again the sums over exactly the covered rows, at every rebuild stage |
| `PayloadBracketProofs.BracketRefuses` | crates/rostra-client-db/src/payload_accounting.rs:414-475 | The bracket refuses only on counter overflow or on a covered Processed event whose stored bytes have another length |
| `PayloadRoom.BracketAccepts` | crates/rostra-client-db/src/payload_accounting.rs:414-475 | While events, signed lengths and stored bytes fit 64 bits, the bracket accepts if and only if no captured and covered Processed event was left with bytes of another length |
| `PayloadRoom.EnvelopeAccepted` | crates/rostra-client-db/src/tx_ops.rs:203-425 | With room for one more event the reduction of an envelope never fails |
| `PayloadRoom.ContentAccepted` | crates/rostra-client-db/src/lib.rs:1334-1530 | With room the reduction of content never fails |
| `PayloadRoom.ReleaseAccepted` | crates/rostra-client-db/src/tx_ops.rs:1098-1118 | A deletion, prune or invalidation of a known event is never refused |
| `PayloadBracketProofs.BracketKeepsBytes` | crates/rostra-client-db/src/payload_accounting.rs:222-261 | No accepted reducer strands a covered Processed event without its bytes |
| `PayloadBracketProofs.BracketQueues` | crates/rostra-client-db/src/payload_accounting.rs:456-471 | A final release of bytes with quota provenance is requeued; nothing without provenance is queued |
| `PayloadBracketProofs.ReadyValid` | crates/rostra-client-db/src/payload_accounting.rs:373-412 | With exact totals no validation of a count or usage row fails |
| `PayloadBracketProofs.BracketDetects` | crates/rostra-client-db/src/payload_accounting.rs:373-412 | The other direction: at Ready no bracket is accepted while a captured count or usage row disagrees with the recorded totals |
| `PayloadRebuild.VisitExact` | crates/rostra-client-db/src/payload_accounting.rs:522-652 | One visited row extends the covered prefix by exactly that row |
| `PayloadRebuild.AdvanceExact` | crates/rostra-client-db/src/payload_accounting.rs:522-652 | Leaving a stage at the end of its table keeps totals exact |
| `PayloadRebuild.VisitRefuses` | crates/rostra-client-db/src/payload_accounting.rs:522-652 | The rebuild stops only on a total that does not fit 64 bits or on a mis-stored Processed event ahead of the cursor |
| `PayloadRebuild.Rebuild` | crates/rostra-client-db/src/payload_accounting.rs:522-652 | A bounded call ends, by remaining stages and then remaining visits; what it reports as visited is the number of rows its cursor newly passed, the limit unless it reached Ready; totals stay exact over the covered prefix, and it fails only for the two stated reasons |
| `PayloadCollect.CollectKeeps` | crates/rostra-client-db/src/payload_accounting.rs:713-758 | Visiting a nomination at Ready keeps the whole store invariant, removes only unreferenced unprotected bytes within the allowance, and reports exactly the bytes removed |
| `PayloadCollect.CollectSucceeds` | crates/rostra-client-db/src/payload_accounting.rs:713-758 | At Ready a queued nomination is never refused |
| `PayloadCollect.CollectStep` | crates/rostra-client-db/src/payload_accounting.rs:713-758 | One step settles the first nomination after the cursor: bytes that nothing references and no history protects leave within the allowance, larger ones stay nominated, blocked nominations are consumed; it is refused exactly when accounting is not Ready |
| `PayloadCollect.NominateKeeps` | crates/rostra-client-db/src/payload_accounting.rs:130-138 | A nomination keeps provenance, queue and recovery consistent |
| `PayloadCollect.RebuildNominations` | crates/rostra-client-db/src/payload_accounting.rs:157-211 | The resumable scan of quota decisions nominates exactly the hashes of the decisions it passes, passes the limit unless it has finished, ends with provenance for every decision, and fails only on an inconsistent decision row |
| `PayloadStore.FreshValid` | crates/rostra-client-db/src/payload_accounting.rs:71-80 | Accounting may be discarded and restarted over any consistent tables |
| `PayloadStore.ReducerKeeps` | crates/rostra-client-db/src/payload_accounting.rs:289-475 | One bracketed reducer keeps the whole store invariant |
| `PayloadStore.ReadyExact` | crates/rostra-client-db/src/payload_accounting.rs:481-497 | At Ready logical bytes, per-author bytes, unique stored bytes, reference counts and replay protection are the true ones |
| `PayloadStore.ReadyMeans` | crates/rostra-client-db/src/payload_accounting.rs:481-497 | The same said of the tables alone: each total is the sum of the lengths of the events that hold payloads, each count the number of events using the hash, the stored bytes are those of the store table, and every Processed event has bytes of its length |
| `PayloadStore.Bracket` | crates/rostra-client-db/src/process_event_ops.rs:39-51 | A reducer between capture and finish keeps the invariant or is rolled back; with room it is rolled back exactly when captured bytes had, or covered bytes would have, a wrong length |
| `PayloadStore.QuotaTransaction` | crates/rostra-client-db/src/quota_pruning.rs:77-198 | Prune, decision row, nomination and bracket keep the invariant in one transaction |
| `PayloadStore.Store.Envelope` | crates/rostra-client-db/src/process_event_ops.rs:39-51 | Receiving an envelope has exactly the effect above, deletions included; it keeps the invariant and the stage, and a refusal changes nothing; with room it is refused exactly when captured bytes have a wrong length or a covered empty envelope names non-empty stored bytes |
| `PayloadStore.Store.Content` | crates/rostra-client-db/src/lib.rs:1324-1334 | Receiving content has exactly the effect above and keeps the invariant; with room it is refused exactly when it does not match its envelope, admission pauses its materialization, captured bytes have a wrong length, or covered bytes it would rely on do |
| `PayloadStore.Store.Quota` | crates/rostra-client-db/src/quota_pruning.rs:77-198 | A quota prune happens only at Ready on an eligible event not yet pruned, has exactly the effect above and leaves provenance; with room every such event is pruned |
| `PayloadStore.Store.Rebuild` | crates/rostra-client-db/src/payload_accounting.rs:522-652 | A rebuild call keeps the invariant, passes the limit of rows unless it reaches Ready, and fails only without room or on a mis-stored Processed event ahead of the cursor |
| `PayloadStore.Store.Nominations` | crates/rostra-client-db/src/payload_accounting.rs:157-211 | A recovery call keeps the invariant, nominates exactly what it passes, and fails only on an inconsistent decision row |
| `PayloadStore.Store.Collect` | crates/rostra-client-db/src/payload_accounting.rs:713-758 | At Ready the next nomination is settled: its bytes leave exactly when unreferenced, unprotected and within the allowance, and every Processed event keeps its own |
| `PayloadStore.Store.Run` | crates/rostra-client-db/src/payload_accounting.rs:222-758 | Every run of ingestion, pruning, rebuild, recovery and collection is a sequence of transitions with the stated outcomes, and the invariant holds in each of its states; when empty envelopes name the empty payload, every Processed event has its bytes in each of them |
| `PayloadStore.HonestStates` | crates/rostra-client-db/src/tx_ops.rs:402-409 | The same for any sequence of transitions: if no empty envelope names a non-empty payload, every Processed event has bytes of its signed length after every operation |
| `PayloadStore.DeletionTakes` | crates/rostra-client-db/src/tx_ops.rs:272-354 | After a signed deletion its parent is gone: Deleted if known, otherwise noted |
| `PayloadStore.DeletedForever` | crates/rostra-client-db/src/tx_ops.rs:224-354 | What one author deleted stays gone after every further operation of any kind: if it arrives later it is Deleted, and neither content, nor a prune, nor any other envelope brings it back |
| `RetentionScan.PrepareSound` | crates/rostra-client-db/src/payload_demand_scan.rs:55-65 | After preparation a remembered frontier is sound for the current revision, scope and time |
| `RetentionScan.NextRow` | crates/rostra-client-db/src/payload_demand_scan.rs:29-53 | The seek returns the first row of the scope after the frontier |
| `RetentionScan.MutationKeepsSound` | crates/rostra-client-db/src/payload_demand_scan.rs:55-77 | Whatever an index mutation does, every remembered frontier stays sound |
| `RetentionScan.FrontierMinimum` | crates/rostra-client-db/src/payload_demand_scan.rs:29-77 | The next current row after a sound frontier is the smallest-key payload, of the author or of the database, whose time has come |
| `RetentionScan.FrontierExhausted` | crates/rostra-client-db/src/payload_demand_scan.rs:29-77 | An exhausted frontier has no eligible row below its bound |
| `RetentionScan.FrontierBlocked` | crates/rostra-client-db/src/payload_demand_scan.rs:29-77 | A byte-blocked frontier stands on the true minimum, of exactly the remembered size |
| `RetentionScan.SkipSound` | crates/rostra-client-db/src/payload_demand.rs:482-610 | Skipping a row that is not current, with its retry time, keeps the frontier sound |
| `PayloadDemand.ScanPlan` | crates/rostra-client-db/src/payload_demand.rs:457-610 | A victim is the eligible minimum of the pressed scope and ranks strictly below the demand; a rejection means the demand ranks strictly below every row, the scope minimum is eligible, retained bytes alone leave no room and no plan is active; a pass means nothing lower is eligible or the first victim exceeds the allowance; a stop means the row limit or the deadline; rows visited without a decision move the frontier on |
| `PayloadDemand.FitsAsAdmission` | crates/rostra-client-db/src/payload_admission.rs:232-281 | For totals that are the sums over the processed events and all other leases, a demand fits exactly when admission would not pause it, and is relieved in its author exactly when admission names that author |
| `PayloadArbiter.IntentUsage` | crates/rostra-client-db/src/payload_demand_state.rs:65-70 | Counters are the number of demands and the sum of their lengths |
| `PayloadArbiter.EarliestExpiry` | crates/rostra-client-db/src/payload_demand.rs:450-455 | The retry bound is the first expiry |
| `PayloadArbiter.Order` | crates/rostra-client-db/src/payload_demand.rs:417-422 | Plans are served once each, highest rank first |
| `PayloadArbiter.Arbiter.Register` | crates/rostra-client-db/src/payload_demand.rs:205-291 | Registration succeeds exactly at a ready index for a missing, unleased event that exceeds a ceiling and is already registered or has intent room, a deadline and an identity within 64 bits; a duplicate keeps its identity and deadline, a new demand gets a fresh identity and a deadline thirty seconds later |
| `PayloadArbiter.Arbiter.DropOwner` | crates/rostra-client-db/src/payload_demand.rs:64-77 | The owner's own demand and its plan leave; an obsolete owner's drop never cancels a later demand for the same event |
| `PayloadArbiter.Arbiter.Complete` | crates/rostra-client-db/src/payload_demand_state.rs:53-56 | Completed events lose their demands and nothing else changes |
| `PayloadArbiter.Arbiter.Attach` | crates/rostra-client-db/src/payload_account.rs:185-199 | A new attachment forgets every demand without reusing identities |
| `PayloadArbiter.Arbiter.FirstFit` | crates/rostra-client-db/src/payload_demand.rs:423-438 | The demand reported as fitting is the highest-ranked one that fits; only a passed deadline ends the search early |
| `PayloadArbiter.Arbiter.Serve` | crates/rostra-client-db/src/payload_demand.rs:457-621 | The demand that evicts or is rejected could not be preceded: every higher-ranked one had no reachable victim; without a victim nothing changes before the returned time; a bounded step within its deadline passed every plan and met an oversized minimum; a step to be continued moved a frontier on |
| `PayloadArbiter.Arbiter.Preempt` | crates/rostra-client-db/src/payload_demand.rs:337-621 | One step evicts one justified victim and publishes its plan, rejects one justified demand, or leaves the index unchanged; the victim is taken from the demand's author when that author would exceed its ceiling, and from the whole database only otherwise; it is idle only when no demand is live and not ready exactly for the stated reasons; of the demands it forgets exactly the expired ones and, when it looks at the plans, the completed and leased ones |
| `PayloadArbiter.VictimRelieves` | crates/rostra-client-db/src/payload_demand.rs:423-610 | Of an eviction, in terms of the recorded rows and sums: if the author's retained and reserved bytes with the demand exceed its ceiling, the victim is that author's and none of its eligible rows has a smaller key; otherwise the database sum exceeds its ceiling and no eligible row at all has a smaller key; the victim ranks below the demand and fits the allowance |
| `PayloadArbiterRun.EvictingHeld` | crates/rostra-client-db/src/payload_demand.rs:384-422 | In every sequence of transitions a plan that has evicted is the active one for as long as it is registered |
| `PayloadArbiterRun.Exclusive` | crates/rostra-client-db/src/payload_demand.rs:384-422 | In every sequence of registrations, drops, completions, reattachments, index mutations and preemption steps: after a plan has evicted, every later step at which its exact demand is alive evicts for that plan or not at all, and rejects nothing |
| `PayloadArbiterRun.Run` | crates/rostra-client-db/src/payload_demand.rs:205-621 | The arbiter turns any operations into such a sequence, from its state before to its state after, each step with the meaning of its operation; one plan evicts at a time |
| `PayloadPressure.VisitLatches` | crates/rostra-client-db/src/payload_pressure.rs:346-405 | A visit triggers exactly when afterwards, in this epoch, the scope has been seen above its ceiling and at every later visit above ninety percent of it |
| `PayloadPressure.Select` | crates/rostra-client-db/src/payload_pressure.rs:408-477 | A selected victim is the eligible minimum of its scope and fits the allowance; an eligible oversized minimum is never bypassed; within the deadline a scope is blocked only when it has nothing eligible or such a minimum, and otherwise the frontier moves by one row |
| `PayloadPressure.SettleAuthor` | crates/rostra-client-db/src/payload_pressure.rs:481-510 | Finishing an author extends the pass by exactly that author |
| `PayloadPressure.SettledNow` | crates/rostra-client-db/src/payload_pressure.rs:241-266 | What the pass learned at an author's last visit still holds now, until a revision, retry time or clock step resets it |
| `PayloadPressure.Pressure.Reconcile` | crates/rostra-client-db/src/payload_pressure.rs:241-266 | A pass survives exactly at unchanged revisions, before its retry time, with a clock that did not step back; otherwise the cursor starts over |
| `PayloadPressure.Pressure.NextScope` | crates/rostra-client-db/src/payload_pressure.rs:268-289 | Authors are visited in key order, and the database exactly after the last one |
| `PayloadPressure.Pressure.VisitAuthor` | crates/rostra-client-db/src/payload_pressure.rs:346-510 | An author is pruned only above its low mark after its latch was set in this epoch; its turn ends when it is not under pressure, has no victim it could take, or the deadline passed; otherwise its frontier moves by one row |
| `PayloadPressure.Pressure.VisitDatabase` | crates/rostra-client-db/src/payload_pressure.rs:346-526 | The same for the whole database, pruned only when every accounted author is done |
| `PayloadPressure.Pressure.Turn` | crates/rostra-client-db/src/payload_pressure.rs:205-236 | One turn drops a pass that no longer holds, ends the author pass, or logs exactly one visit, to the scope whose turn it is and with its true total, and prunes at most one justified victim of that scope |
| `PayloadPressure.Pressure.Step` | crates/rostra-client-db/src/payload_pressure.rs:175-236 | A prune is of the eligible minimum, in a scope that is above its low mark and was logged above its high mark in this epoch; for the database, every accounted author was last visited at the present revisions and now needs no eviction, has nothing eligible or only a minimum above that visit's allowance, unless the deadline cut that visit off |
| `PrefixEviction.ProgressStep` | crates/rostra-client-db/src/payload_dry_run.rs:427-459 | Considering one more candidate keeps the removals a minimal prefix |
| `PrefixEviction.MinimalPrefixUnique` | crates/rostra-client-db/src/payload_dry_run.rs:427-459 | The description of a minimal prefix determines the victims |
| `PayloadDryRun.Gather` | crates/rostra-client-db/src/payload_dry_run.rs:326-400 | A gathered snapshot has exact per-author and total bytes and exactly the evictable candidates; every limit and every error is reported only when the headers really exceed or violate it |
| `PayloadDryRun.CandidatesExact` | crates/rostra-client-db/src/payload_dry_run.rs:360-399 | Exactly the evictable payloads are candidates |
| `PayloadDryRun.RankSorts` | crates/rostra-client-db/src/payload_dry_run.rs:407-409 | Ranking orders by key and keeps every candidate |
| `PayloadDryRun.RemoveFunded` | crates/rostra-client-db/src/payload_dry_run.rs:453-456 | No subtraction of a projection underflows |
| `PayloadDryRun.AuthorPass` | crates/rostra-client-db/src/payload_dry_run.rs:427-459 | Every triggered author gives up a minimal lowest-key prefix of its candidates |
| `PayloadDryRun.GlobalPass` | crates/rostra-client-db/src/payload_dry_run.rs:427-467 | The database gives up a minimal lowest-key prefix of what the authors left |
| `PayloadDryRun.Project` | crates/rostra-client-db/src/payload_dry_run.rs:404-475 | Victim plus remaining bytes are the total, remaining bytes are at least the protected ones, and both unmet results are the true ones |
| `PayloadDryRun.UnmetAuthorStripped` | crates/rostra-client-db/src/payload_dry_run.rs:468-475 | An unmet author has no eligible payload left |
| `PayloadDryRun.UnmetGlobalStripped` | crates/rostra-client-db/src/payload_dry_run.rs:460-466 | An unmet database has no eligible payload left, so only protected bytes remain |
| `PayloadDryRun.ProjectionDetermined` | crates/rostra-client-db/src/payload_dry_run.rs:404-475 | Two projections of one snapshot are equal |
| `PayloadDryRun.VictimsDistinct` | crates/rostra-client-db/src/payload_dry_run.rs:427-459 | No payload is projected twice |
| `PayloadDryRun.TakeSnapshot` | crates/rostra-client-db/src/payload_dry_run.rs:283-482 | A report is complete only when the stored total agrees with the headers, and then carries the determined projection with distinct victims; an incomplete or failed report has a real reason |
| `AdmissionCapacity.LowWater` | crates/rostra-client-db/src/payload_admission_config.rs:83-85 | The low mark is the floor of ninety percent |
| `AdmissionCapacity.CheckCapacity` | crates/rostra-client-db/src/payload_admission.rs:232-281 | The summing loop decides capacity as the sums over all other leases do |
| `AdmissionCapacity.CommitTotals` | crates/rostra-client-db/src/payload_admission.rs:349-384 | A reservation that turns into retained bytes is counted once |
| `AdmissionCapacity.AttachKeeps` | crates/rostra-client-db/src/payload_account.rs:185-199 | Reattachment ends every lease and keeps both ceilings |
| `AdmissionCapacity.StepKeeps` | crates/rostra-client-db/src/payload_admission.rs:187-384 | Every atomic step keeps both ceilings |
| `AdmissionCapacity.RunKeeps` | crates/rostra-client-db/src/payload_admission.rs:187-384 | Over every run, totals within the ceilings stay within them, for the database and every author |
| `AdmissionCapacity.StaleDropHarmless` | crates/rostra-client-db/src/payload_reservation.rs:134-155 | After any run, reattachments included, dropping a lease identity that was stale before it changes nothing |
| `AdmissionGate.Gate.Pauses` | crates/rostra-client-db/src/payload_admission.rs:232-281 | The check over running totals pauses exactly for the reason the true sums give, and always before accounting is ready |
| `AdmissionGate.Gate.Arrive` | crates/rostra-client-db/src/tx_ops.rs:374-401 | A payload not known yet becomes missing; a known or finished one changes nothing |
| `AdmissionGate.Gate.Reserve` | crates/rostra-client-db/src/payload_admission.rs:187-230 | A lease is granted exactly when the event is missing, unleased, a slot is free and both ceilings allow it; its identity is new, the only change is that lease, and a refusal names the first check that failed |
| `AdmissionGate.Gate.Materialize` | crates/rostra-client-db/src/payload_admission.rs:355-373 | Leased bytes are committed exactly when the lease is current and capacity still allows it; the payload then counts as retained and no longer as missing, and its lease stays |
| `AdmissionGate.Gate.MaterializeInline` | crates/rostra-client-db/src/payload_admission.rs:374-383 | Unleased bytes are committed, through a lease of their own, exactly when they can be leased and a buffer is granted; otherwise only an identity is spent |
| `AdmissionGate.Gate.CommitHook` | crates/rostra-client-db/src/payload_admission.rs:529-560 | The lease of a payload that is no longer missing is removed, and the lease of one still missing stays; nothing else changes |
| `AdmissionGate.Gate.Reattach` | crates/rostra-client-db/src/payload_account.rs:185-199 | No lease remains; totals, missing payloads and identities stay |
| `AdmissionGate.Gate.Finish` | crates/rostra-client-db/src/tx_ops.rs:477-532 | Deletion, pruning and invalidation take the payload out of the missing and the retained ones for good and keep running totals exact |
| `AdmissionLedger.TransferCharge` | crates/rostra-client-db/src/payload_allocation.rs:90-118 | Moving a charge between guards changes neither the count nor the sum |
| `AdmissionLedger.Ledger.Charge` | crates/rostra-client-db/src/payload_reservation.rs:166-195 | A charge is granted exactly when a slot and the byte budget allow it |
| `AdmissionLedger.Ledger.Release` | crates/rostra-client-db/src/payload_reservation.rs:197-205 | Releasing a live guard never underflows the counters |
| `AdmissionLedger.Ledger.Lease` | crates/rostra-client-db/src/payload_admission.rs:187-230 | Lease identities are never reused |
| `AdmissionLedger.Ledger.ReserveAllocation` | crates/rostra-client-db/src/payload_allocation.rs:34-57 | Provisional capacity is charged before bytes are read; a disabled ledger charges nothing |
| `AdmissionLedger.Ledger.Attach` | crates/rostra-client-db/src/payload_account.rs:136-201 | Attachment is exclusive until the attached database is dropped, ends logical leases and keeps outstanding buffer charges and lease identities |
| `AdmissionLedger.ReservationOwner.TryAcquireBuffer` | crates/rostra-client-db/src/payload_reservation.rs:166-195 | A buffer is granted exactly to the current owner within the limits |
| `AdmissionLedger.ReservationOwner.Drop` | crates/rostra-client-db/src/payload_reservation.rs:134-155 | A drop removes its own lease only; every lease with another identity stays |
| `AdmissionLedger.PayloadBuffer.Drop` | crates/rostra-client-db/src/payload_reservation.rs:197-205 | Dropping a buffer releases exactly its charge |
| `AdmissionLedger.PayloadAllocation.TryGrow` | crates/rostra-client-db/src/payload_allocation.rs:62-88 | Growth extends the charge first and is refused exactly beyond the byte budget; leases, identities and the attachment stay |
| `AdmissionLedger.PayloadAllocation.BindToReservation` | crates/rostra-client-db/src/payload_allocation.rs:90-118 | Binding hands the whole charge over, with no second slot and no uncharged moment; leases, identities and the attachment stay |
| `AdmissionLedger.PayloadAllocation.Drop` | crates/rostra-client-db/src/payload_allocation.rs:121-131 | An armed allocation releases its charge once and leaves leases, identities and the attachment alone |
| `DyadicCover.IntervalPrefixes` | crates/rostra-client-db/src/dm_index.rs:18-30 | The loop computes the recursive cover and ends |
| `DyadicCover.CoverTiles` | crates/rostra-client-db/src/dm_index.rs:18-30 | Blocks are aligned, adjacent and together exactly the interval |
| `DyadicCover.TilesOnce` | crates/rostra-client-db/src/dm_index.rs:18-30 | Every point of the interval is in exactly one block, and no other point is |
| `DyadicCover.BlockOfPoint` | crates/rostra-client-db/src/dm_index.rs:32-41 | An aligned block is exactly the set of points whose higher bits agree |
| `DyadicCover.PointQuery` | crates/rostra-client-db/src/dm_index.rs:18-41 | For all 64-bit start, end and now, exactly one point prefix is in the cover when start <= now < end, and none otherwise |
| `DyadicCover.CoverSize` | crates/rostra-client-db/src/dm_index.rs:18-30 | A cover has at most 128 blocks, of powers that strictly rise and then strictly fall |
| `RankedTop.TopUnique` | crates/rostra-client-db/src/dm.rs:214-260 | The newest n of a set are one list |
| `RankedTop.InsertTop` | crates/rostra-client-db/src/dm.rs:245-256 | Push, sort and truncate keep the newest n of one more row |
| `DeviceIndex.IndexDevice` | crates/rostra-client-db/src/dm_index.rs:44-67 | Exactly the rows of one device state are inserted or removed |
| `DeviceIndex.ReplaceIndexed` | crates/rostra-client-db/src/dm.rs:318-328 | Remove-then-insert keeps the index exactly that of the device table |
| `DeviceIndex.IndexedUnique` | crates/rostra-client-db/src/dm_index.rs:69-78 | The maintained index and a rebuilt one are equal |
| `DeviceIndex.DeviceTables.Announce` | crates/rostra-client-db/src/dm.rs:310-342 | After every announcement each device is what was heard about it: retired if any retirement was heard, otherwise at the announcement of greatest (time, event); a retirement of the own device retires the installation, other devices are unchanged, and the index stays exact |
| `DeviceIndex.ApplySays` | crates/rostra-dm/src/device.rs:16-30 | One announcement keeps that meaning, whatever the order: a retirement is permanent, a later announcement replaces, an earlier one is ignored |
| `DeviceIndex.DeviceTables.AnnounceAll` | crates/rostra-dm/src/device.rs:16-30 | The same after any sequence of announcements |
| `DeviceIndex.DevicesConverge` | crates/rostra-dm/src/device.rs:16-30 | Two tables that heard the same announcements are equal, in any order and with any repetition |
| `DeviceIndex.DeviceTables.RebuildIndex` | crates/rostra-client-db/src/dm_index.rs:69-78 | A rebuild restores the exact index from any state |
| `DeviceQuery.BucketSound` | crates/rostra-client-db/src/dm.rs:214-260 | A bucket of a point prefix holds only devices eligible now, each at one depth only |
| `DeviceQuery.BucketComplete` | crates/rostra-client-db/src/dm.rs:214-260 | Every eligible device is in some bucket |
| `DeviceQuery.BucketDone` | crates/rostra-client-db/src/dm.rs:217-257 | The newest slots-plus-one rows of a bucket stand for the whole bucket, also when one is excluded |
| `DeviceQuery.Candidates` | crates/rostra-client-db/src/dm.rs:214-260 | Merging 65 truncated buckets gives exactly the newest eligible devices other than the excluded one |
| `DeviceQuery.Spillover` | crates/rostra-client-db/src/dm.rs:270-280 | The 4+4 rule fills min(8, R+S) slots with at least min(4, own) for each side |
| `DeviceQuery.Destinations` | crates/rostra-client-db/src/dm.rs:193-305 | A permit exists exactly when the sender is not retired and the recipient has an eligible device; it lists the newest of each side within the spillover shares, and its window is exactly the time in which every chosen key is usable |
| `TrialDecryption.TakeAfter` | crates/rostra-client-db/src/dm_receive.rs:250-262 | A batch is exactly the next keys after the cursor; it ends the range exactly when nothing follows |
| `TrialDecryption.TrackedBatch` | crates/rostra-client-db/src/dm_receive.rs:250-276 | A failed batch extends the trials in order, without repetition |
| `TrialDecryption.Receiver.Expire` | crates/rostra-client-db/src/dm.rs:159-175 | Exactly the keys past their deadline are purged |
| `TrialDecryption.Receiver.Service` | crates/rostra-client-db/src/dm_receive.rs:187-276 | No key is used at or after its deadline; each key is tried at most once per queued message; a message leaves the queue as exhausted exactly when its batch holds no key for it and no key follows, and then every key live since queueing was tried in vain; progress is a full batch beyond the cursor; nothing but the first queued message is touched |
| `TrialDecryption.Receiver.TryBatch` | crates/rostra-client-db/src/dm_receive.rs:250-276 | A message is opened exactly when the next batch of keys holds one for it, and exhausted exactly when it does not and the keys end |
| `DmHistory.StoreKeeps` | crates/rostra-client-db/src/dm_receive.rs:87-157 | A new, repeated or conflicting message keeps sequences 1..n and every counter exact |
| `DmHistory.ArriveSucceeds` | crates/rostra-client-db/src/dm_receive.rs:131-154 | An arrival is refused exactly when the sequence space is used up |
| `DmHistory.UnreadExact` | crates/rostra-client-db/src/dm_view.rs:117-157 | The count from two counters is min(limit, unread messages), for one peer or all |
| `DmHistory.MarkKeeps` | crates/rostra-client-db/src/dm_view.rs:167-202 | A marker is refused exactly when nothing arrived under its sequence, and is never counted twice |
| `DmHistory.MarkAll` | crates/rostra-client-db/src/dm_view.rs:159-205 | A batch of markers is set as a whole and each new one counted once |
| `DmHistory.CountFits` | crates/rostra-client-db/src/dm_migration.rs:160-169 | No counter of the rebuild can overflow |
| `DmHistory.RebuildHistoryIndex` | crates/rostra-client-db/src/dm_migration.rs:110-173 | From any restored history, sequences and read counters, a rebuild yields exact tables and changes no number already given; it fails exactly when every 64-bit sequence is in use |
| `DmHistory.RebuildReproduces` | crates/rostra-client-db/src/dm_migration.rs:110-173 | On consistent tables a rebuild reproduces every row and count |
| `DmHistory.DirectMessages.Store` | crates/rostra-client-db/src/dm_receive.rs:87-157 | A first delivery to this account takes sequence n+1 and is refused exactly when no sequence is left; a repetition numbers nothing; a delivery whose recipient or text differs only flags the conflict |
| `DmHistory.DirectMessages.MarkRead` | crates/rostra-client-db/src/dm_view.rs:159-205 | The first hundred sequences are marked, all or none |
| `DmHistory.DirectMessages.UnreadCount` | crates/rostra-client-db/src/dm_view.rs:117-157 | In every reachable state the count is exact up to the limit |
| `DmHistory.DirectMessages.Rebuild` | crates/rostra-client-db/src/dm_migration.rs:110-173 | Rebuilding in place changes no message, sequence, marker or count, and fails exactly when every sequence is in use |
| `SocialVotes.AdjustedSum` | crates/rostra-client-db/src/news.rs:128-157 | Short of saturation the adjustments move every target by the change of its contribution, also between two targets of one slot |
| `SocialVotes.ApplyAdjustments` | crates/rostra-client-db/src/news.rs:139-157 | The loop applies the adjustments in order |
| `SocialVotes.TallyBounded` | crates/rostra-client-db/src/news.rs:139-157 | No sum exceeds the number of winners, so fewer than 2^63 slots never saturate |
| `SocialVotes.DeliveredExact` | crates/rostra-client-db/src/news.rs:99-168 | A winning vote keeps every full target's sum equal to the scores of the winners pointing at it |
| `SocialVotes.LatestCounts` | crates/rostra-client-db/src/news.rs:99-168 | A vote published after all others of its slot counts for its target as one up, nothing, or one down, on top of the other slots |
| `SocialVotes.AppliedFit` | crates/rostra-client-db/src/news.rs:139-157 | Saturating adjustments keep every sum a signed 64-bit integer |
| `SocialVotes.PreviousValid` | crates/rostra-client-db/src/news.rs:63-80 | The projection of a stored winner is always present and filed under its own slot |
| `SocialVotes.WinnersChange` | crates/rostra-client-db/src/tx_ops.rs:958-985 | The latest insert keeps, per slot, a delivered vote such that no competing one has a later time, or the same time and a greater event |
| `SocialVotes.WinnersConverge` | crates/rostra-client-db/src/tx_ops.rs:958-985 | The same set of votes elects the same winners, in any order and with any repetition |
| `SocialVotes.StoresConverge` | crates/rostra-client-db/src/news.rs:99-168 | Two stores that received the same votes show the same sums, which are the sums over the winners |
| `SocialVotes.VoteStore.Deliver` | crates/rostra-client-db/src/process_event_content_ops.rs:578-600 | Every delivery, counted, stale or malformed, keeps each slot at its latest competing vote and sums exact |
| `SocialVotes.VoteStore.DeliverAll` | crates/rostra-client-db/src/process_event_content_ops.rs:578-665 | The same over any sequence of deliveries |
| `FetchSchedule.PeekRows` | crates/rostra-client-db/src/events_content_missing_ops.rs:86-144 | Peeking ends, removes only invalid rows ahead of every kept one, and returns the least valid row or finds that there is none |
| `FetchSchedule.MovedSound` | crates/rostra-client-db/src/events_content_missing_ops.rs:29-63 | A completion that takes effect keeps the schedule exact and spends a later value than any spent before for its event |
| `FetchSchedule.SpentNeverTakes` | crates/rostra-client-db/src/events_content_missing_ops.rs:160-231 | A spent value never takes effect again |
| `FetchSchedule.ScheduledSame` | crates/rostra-client-db/src/payload_admission.rs:510-527 | Restoring a row changes nothing, because no reachable state lacks one |
| `FetchSchedule.InsertedSound` | crates/rostra-client-db/src/tx_ops.rs:388-401 | The row that insertion omits for stored bytes is restored before the transaction ends |
| `FetchSchedule.OneRow` | crates/rostra-client-db/src/events_content_missing_ops.rs:86-131 | Every Missing event has exactly one row, the one its state names, and no other event has any |
| `FetchSchedule.Fetcher.Insert` | crates/rostra-client-db/src/process_event_ops.rs:39-51 | A received header leaves its Missing event scheduled, or pruned when its payload is too long; a header already known changes nothing |
| `FetchSchedule.Fetcher.Deliver` | crates/rostra-client-db/src/lib.rs:1353-1500 | Content takes effect exactly when it passes verification, is not too long, its event is Missing and admission does not pause it, and ends both the state and the row; absent bytes never pass for a Missing event |
| `FetchSchedule.Fetcher.Defer` | crates/rostra-client-db/src/events_content_missing_ops.rs:29-63 | A deferral takes effect exactly for the current value and a strictly later time, without counting an attempt |
| `FetchSchedule.Fetcher.RecordFailure` | crates/rostra-client-db/src/events_content_missing_ops.rs:160-231 | A failure takes effect exactly for the current value and a strictly later time, counting one attempt up to 65535 |
| `FetchSchedule.Fetcher.Peek` | crates/rostra-client-db/src/events_content_missing_ops.rs:86-144 | In every reachable state peeking removes nothing, returns the least scheduled Missing event, and finds none only when nothing is Missing |
| `FetchSchedule.Fetcher.Run` | crates/rostra-client-db/src/events_content_missing_ops.rs:29-231 | A run is the composition of its operations' effects; afterwards the schedule is exactly the current rows of the Missing events, and the values used up for one event strictly increase |
| `FetchSchedule.SpentForever` | crates/rostra-client-db/src/events_content_missing_ops.rs:160-231 | After any further run a value once used up never takes effect again |

## Left out

- Signatures, content hashing, frame validation and age encryption: abstract; a key opens a message or does not, and received bytes have the hash and length they were verified for.
- redb and bincode encoding, table dumps, file opening and compaction: tables are maps, sets and ordered seeks.
- tokio tasks, notifications, watch and broadcast channels: atomic steps in any order.
- Total migration, stash adoption and legacy record decoding (`migration_ops.rs`), except the rebuild of the message history index.
- The retention key formula, grace configuration and the promotion of index rows: a row carries its key and the time from which it is eligible; every mutation raises the revision first.
- Byte strings (event identifiers, hashes, authors, keys) are naturals with the same order; shortened identifiers are modelled where two full ones may share one.
- `u64` widths: written out where the code checks them; lengths that a 32-bit field bounds are naturals.
- Data-usage buckets other than current bytes, follow and unfollow reduction, posts, replies and reactions: they do not enter these invariants.
- `last_vote_time` and news ranks: they depend on the order of delivery.
- The conversation index, history pages and the device view: straightforward range reads.
- Sending: `dm_commit_outgoing` and re-enrolment; generation of epoch keys is an arbitrary new key.
- Demand and pressure read retained and reserved totals as inputs of a step; that those inputs are exact is proved separately for accounting and admission.
- The pacing of dry-run attempts and the explanatory fields of a victim.
- Pressure revision: the ledger counts it without the saturation at the 64-bit maximum; the pressure worker models that maximum.
- Whether admission has room for received content is an input of `Store.Content` and `Fetcher.Deliver`; `AdmissionGate` models that decision.
- Storing the body of an opened message is `DirectMessages.Store`; its refusal, which aborts the receiving transaction, is not part of `Receiver.Service`.
- TrialDecryption.Receiver.AddKey: accepts any key and deadline; the policy that decides when to generate one is not modelled.
- DmHistory.DirectMessages.Rebuild: assumes at most 2^64 - 1 retained messages, the number of distinct 64-bit sequences.
