# Syncflux replication engine: a verified model

Syncflux keeps a slave InfluxDB server equal to a master. A monitor samples the health of each
server; a supervisor notices when the slave goes down and comes back, and then copies the missed
time range from master to slave. A copy cuts its range into windows, newest first, reads every
measurement of a window on a pool of workers, writes the points in batches with retries, and runs
each window that had errors again at a tenth of the window size.

This project models that engine and proves what it keeps:

- nothing is lost in silence: exactly which instants are safe, whatever calls fail;
- the order in which the workers take their steps makes no difference;
- retried, partly applied writes leave the slave as one write would;
- the supervisor keeps its states in order; exactly which outages a recovery answers, each by one;
  and exactly when that recovery covers the outage;
- end to end, what the master held of an outage is on the slave when the state is OK again, and
  stays there, or was reported, but for the last fraction of a second of the range and the multiples
  of a tenth of the chunk from there;
- exactly when one copy of a run loses, unreported, what an earlier one stored;
- what is selected, what the schema phase creates and what the data phase writes agree.

`dafny verify dfyconfig.toml` checks everything.

## How it is built

| module | models |
|---|---|
| `GoTime`, `Wrappers` | Go's truncating division, `time.Unix`, `UnixNano` with int64 wrap-around |
| `Store` | a server's points: a map from database, policy, measurement, tags and time to fields, with upserting writes |
| `Faults` | the failures of a run: which calls report an error, and which points of a failed write were stored all the same |
| `Retry`, `Client` | `try.Do`; reading, splitting, writing |
| `WorkerPool` | the jobs of one window as atomic steps (a query attempt, a counter, a write attempt) on a bounded number of workers |
| `Windows` | the arithmetic of windows and of recovery windows |
| `SyncEngine` | `Sync`, `SyncDBRP` and their reports |
| `CopyTheorems`, `CopyExact` | what a copy promises, and exactly when |
| `Schema` | `GetSchema`, `ReplicateSchema` and the slave's databases and policies |
| `Supervisor` | monitors, checks and status readers interleaved at their locks |
| `Records` | what a check records and the status shows |
| `Outages` | which outages a recovery answers, and runs that fall short |
| `Replication` | the replication loops and what becomes of every point of every copy |
| `Overwriting` | exactly when a later copy of a run makes it lose a point |
| `Cluster` | a recovery, and a check that starts one |
| `EndToEnd` | whole runs with the slave's data |

Code that changes things step by step is a method on a class or with a loop, and is proved equal to
a function; the theorems are about the functions. Time is in integer nanoseconds. A failure pattern
is a finite map from calls to what they stored, so "for every failure pattern" is "for every map".

## What the proofs found

- A recovery re-reads a failed window in `chunk/10` steps truncated to whole seconds. When those do
  not cover the window, points in the gap are dropped without appearing in any bad chunk. For
  chunks of `c` whole seconds nothing off the whole seconds is lost exactly when
  `c / 10 >= c % 10` (integer division): every chunk under 10 s loses points, and so do 15 s chunks
  (`CopyExact.SafeWholeSeconds`, `CopyExact.FifteenSecondChunks`).
- The windows of a chunk that is not whole seconds are narrower than the chunk they are counted by,
  so a range is not always read back to its start: one nanosecond short of a chunk is enough
  (`Windows.ReachExact`, `Windows.ShortReach`).
- Windows are open at both ends, so instants on an edge are never copied; after a failure this
  extends to multiples of `chunk/10` from the end of the range (`CopyExact.SafeInstantsTenths`). The
  last fraction of a second of a range is not read either: the safe instants of a range are given by
  `CopyExact.SafeInstantsOfRange`, and `CopyExact.FractionalEnd` is a range that loses a point so.
- The margin before the last good sample covers an outage in every run exactly when the check that
  sees the slave down comes at most one check interval after the last one that saw it up
  (`Supervisor.CoverageExact`). A long recovery delays the next check beyond that, and then a failed
  sample can fall before the next recovery's range (`Outages.LongRecoveryFallsShort`).
- A slave that is down when the supervisor starts leaves the cluster "OK" with a slave that is not
  OK until a check first sees it up, and nothing else does (`Supervisor.SupervisorSound`). That outage is not answered by a recovery
  (`Outages.StartDownUnanswered`): of the readings that find the slave up after one had found it
  down, exactly those are answered before which it had once been read up
  (`Outages.AnsweredIfSeenUp`).
- No check ever runs in state RECOVERING, so that case of the switch is dead
  (`Supervisor.SupervisorSound`).
- The sample configuration says a failing query is repeated at least `rw-max-retries` times
  (conf/sample.syncflux.toml:110-115). That many calls are made exactly when the setting is ten at
  most; with eleven or more only ten are (`Retry.AtLeastExact`, `Retry.TenOfMore`). A setting below
  one still makes one call (`Retry.RetryBudget`).
- When a copy maps several databases to one, as -newdb can, a later one can write over a point of an
  earlier one, unreported (`Overwriting.RenamedToOne`). That can happen exactly when the later one
  may read the instant and has, for the same series and time, another value of one of the point's
  fields (`Overwriting.ReplicationExact`).
- A failed sample between two checks that both find the slave up is answered by no recovery
  (`Outages.BlipUnanswered`): a recovery comes exactly when a check had found it down in between
  (`Outages.MissedAnswered`).
- A database whose default policy does not pass the policy filter is skipped as a whole, and
  policies that do not pass it are still created on the slave (`Schema.SelectionExact`,
  `Schema.FilteredPoliciesStay`).
- The chunk list of a report begins with one nil per window, because the slice is made with a length
  and then appended to; after a recovery the report's totals are still those of the first pass.

## Assumptions

- A read gives the complete rows of its window or an error; the client's write passes over nil
  points; a write that reports an error has stored some of the points of its batch, perhaps all.
- The master does not change during a recovery or a copy, holds one point per series and time, and its points have
  at least one field and an int64 timestamp. Between recoveries it may change. Nothing else writes
  to the slave.
- Commands on the slave's schema fail only because of what exists there.
- `HACluster.CheckInterval` is `min-sync-interval`, as the cluster is built.
- `time.Now` and pings are parameters. The clock does not go backwards.

## Model

| member | source | states |
|---|---|---|
| `GoTime.TimestampRoundTrip` | pkg/agent/client.go:312-316 | for every int64, negative ones included, taking a timestamp apart and building a time from it denotes the same instant, and converting back gives the same number in spite of wrap-around |
| `Store.PutMeans` | pkg/agent/client.go:541-558 | a write of one point sets its fields in its cell, keeps the other fields there, and leaves every other cell |
| `Store.PartialThenWhole` | pkg/agent/client.go:541-558 | storing any points of a batch first, in any order and number, is absorbed by storing the batch |
| `Store.MergedKeeps` | pkg/agent/client.go:541-558 | a stored point stays stored while points with unique series and time are merged in |
| `Retry.Do` | pkg/agent/try/try.go:15-30 | stops at the first call that succeeds or asks to stop, and otherwise after exactly ten calls with the retry-limit error |
| `Retry.RetryBudget` | pkg/agent/client.go:363-377 | with the agent's callback: at most min(max(r, 1), 10) calls, exactly that many when none of them succeeds; no error exactly when one in that budget does, the limit error exactly when r is over ten and none does |
| `Retry.AtLeastExact` | conf/sample.syncflux.toml:110-115 | a query that fails for good gets at least r calls, whatever its errors, exactly when r is ten at most |
| `Retry.TenOfMore` | pkg/agent/try/try.go:24-27 | for every setting above ten, a query that always fails is called ten times |
| `Client.SelectExact` | pkg/agent/sync.go:162 | a query returns exactly the rows of its database, policy and measurement strictly inside its range |
| `Client.SelectCounts` | pkg/agent/sync.go:162 | and each as often as it is stored |
| `Client.RowsUnchanged` | pkg/agent/client.go:395-478 | every point a server can hold goes through the row loop unchanged, none dropped or added |
| `Client.RowsKept` | pkg/agent/client.go:425-478 | of any rows with int64 timestamps the loop drops exactly those without fields |
| `Client.ReadDB` | pkg/agent/client.go:329-485 | fails exactly when no query attempt in the budget succeeds, and then returns no points; otherwise the points of the rows and their number |
| `Client.BpSplit` | pkg/agent/client.go:494-529 | in-bounds slices, giving the padded sub-batches of the split |
| `Client.SplitLossless` | pkg/agent/client.go:494-529 | the sub-batches without padding are the original points in order, none is over the limit, and their number is known, also when the limit divides the length; from the limit on, every one has exactly as many slots as the limit, the points first |
| `Client.SplitPiece` | pkg/agent/client.go:506-526 | the i-th sub-batch holds the points from i times the limit on, up to the limit or the last |
| `Client.WriteRetried` | pkg/agent/client.go:542-552 | the retry loop on one sub-batch: the calls and result of `Do`, and the slave as the specification of attempts says |
| `Client.RetriedOnce` | pkg/agent/client.go:542-552 | attempts on one sub-batch succeed exactly when one within the budget does, and then the slave is as after one write |
| `Client.AttemptMeans` | pkg/agent/client.go:544 | a failed call may leave any points of its batch behind, a call without an error all of them |
| `Client.RefusedStores` | pkg/agent/client.go:542-556 | a sub-batch that is never accepted leaves behind what its attempts stored |
| `Client.WriteDB` | pkg/agent/client.go:531-559 | the write of all sub-batches, giving up at the first that fails |
| `Client.WriteOnce` | pkg/agent/client.go:531-559 | a write without error leaves the slave as a single upsert of all points; it happens exactly when each sub-batch is accepted within its budget |
| `Client.WriteStopsAtFailure` | pkg/agent/client.go:541-556 | after a failed write every sub-batch before the failing one is stored, that one in part at most, and none after it |
| `WorkerPool.RunJob` | pkg/agent/sync.go:159-180 | the submitted closure alone equals the completion of its steps |
| `WorkerPool.NextCompletes` | pkg/agent/sync.go:159-180 | each atomic step of a job takes its share of the effect and leaves exactly the rest |
| `WorkerPool.JobMeaning` | pkg/agent/sync.go:163-179 | a job adds at most one error; no answer counts one read error and writes nothing; an answer counts all its points, and one write error exactly when a sub-batch is never accepted |
| `WorkerPool.PoolInvStep` | pkg/agent/sync.go:141-183 | every step of every worker keeps the pool's invariant and brings the end of the window nearer |
| `WorkerPool.NoDeadlock` | pkg/agent/sync.go:183 | while a job is unfinished some worker can take a step |
| `WorkerPool.ScheduleKeepsInv` | pkg/agent/sync.go:141-183 | every schedule keeps the invariant and is no longer than the steps there were |
| `WorkerPool.ScheduleIndependence` | pkg/agent/sync.go:141-183 | every interleaving that ends the window leaves the same slave contents, read errors, write errors and points as the jobs one after the other |
| `WorkerPool.AtMostWorkers` | pkg/agent/sync.go:141 | in every schedule no more jobs are active than num-workers, or one if that is less |
| `WorkerPool.WorkersAllBusy` | pkg/agent/sync.go:141-159 | and that many, or all there are, can be reading at once |
| `WorkerPool.StopWait` | pkg/agent/sync.go:183 | waiting ends, with that result, whichever worker moves next |
| `Windows.WindowPartition` | pkg/agent/sync.go:140-146 | each instant of the planned range lies in exactly one window, or in none exactly when its distance from the end is a multiple of the window |
| `Windows.PlanReach` | pkg/agent/sync.go:118-128 | uncapped, the oldest edge is before the start by less than a chunk and a second; capped, it is back past the maximum retention |
| `Windows.PlanStops` | pkg/agent/sync.go:118-146 | for any chunk the windows go no further back than the maximum retention and a chunk, nor than the length of the range and a chunk |
| `Windows.RecoveryStops` | pkg/agent/sync.go:221-226 | the recovery of a window goes no further back than the maximum retention and a tenth of the chunk, nor than the window and that tenth |
| `Windows.ReachExact` | pkg/agent/sync.go:118-146 | every range is cut into windows that reach back past its start or past the maximum retention exactly with chunks of whole seconds |
| `Windows.ShortReach` | pkg/agent/sync.go:118-146 | for every other chunk, a range one nanosecond shorter than the chunk is not read back to its start |
| `Windows.FullCopyReach` | pkg/agent/client.go:24-31 | a full copy reaches back past the policy's duration or the maximum retention, whichever is less, and past the maximum retention for a policy that keeps data for ever |
| `Windows.FullRange` | pkg/agent/client.go:24-31 | the range ends now and starts the policy's duration before, or the maximum retention for a policy that keeps data for ever |
| `Windows.FullCopyStops` | pkg/agent/client.go:24-31 | a full copy reads no further back than that, or the maximum retention if less, a chunk and a second |
| `Windows.RecoveryRefines` | pkg/agent/sync.go:221-229 | with whole tens of seconds a failed window is re-read in eleven: ten that tile it and one next to it on the older side |
| `Windows.CoveredTenths` | pkg/agent/sync.go:215-232 | with whole tens of seconds an instant of the plan is in a window and in a window of its recovery exactly when its distance from the end is no multiple of a tenth of the chunk |
| `Windows.RecoveryReaches` | pkg/agent/sync.go:118-128 | for any chunk, every instant off the whole seconds is so covered exactly when the recovery windows together are as wide as the window |
| `Windows.WholeSecondChunks` | pkg/agent/sync.go:120-128 | for chunks of c whole seconds that is c / 10 >= c % 10 |
| `SyncEngine.RWErrors` | pkg/agent/sync.go:85-93 | the sums of read and of write errors, and their sum |
| `SyncEngine.SyncWindow` | pkg/agent/sync.go:154-183 | one window equals its jobs in order, whatever the schedule |
| `SyncEngine.SyncChunks` | pkg/agent/sync.go:140-204 | the window loop with the slices it fills: nil slots then reports, bad chunks, point total |
| `SyncEngine.Sync` | pkg/agent/sync.go:95-213 | one pass and its report, with the names and the range as given; without a schema no report and no change |
| `SyncEngine.RecoverChunk` | pkg/agent/sync.go:221-228 | one bad chunk again at a tenth of the chunk, its still bad chunks appended |
| `SyncEngine.SyncDBRP` | pkg/agent/sync.go:215-232 | a pass and its recoveries: the slave is the outcome's, bad chunks are those of the recoveries, all else in the report is of the first pass |
| `SyncEngine.PassReports` | pkg/agent/sync.go:186-199 | one report a window, numbered from one, with the window's own edges |
| `CopyTheorems.WindowSound` | pkg/agent/sync.go:154-183 | a window only merges eligible master points of that window into the slave |
| `CopyTheorems.WindowComplete` | pkg/agent/sync.go:154-202 | a window without errors leaves every eligible point in it on the slave |
| `CopyTheorems.NoSilentLoss` | pkg/agent/sync.go:215-232 | for every failure pattern, slave and master: an eligible point at a covered instant ends on the slave or in the window of a final bad chunk |
| `CopyExact.SafeInstants` | pkg/agent/sync.go:215-232 | that no copy ever loses a point stamped t in silence holds exactly when t is covered |
| `CopyExact.SafeInstantsTenths` | pkg/agent/sync.go:118-229 | with whole tens of seconds and retention for one chunk: exactly when the distance from the end is no multiple of chunk/10 |
| `CopyExact.SafeInstantsOfRange` | pkg/agent/sync.go:118-229 | of a range within the retention, chunks as before: the safe instants are exactly those before its last whole second whose distance from it is no multiple of chunk/10 |
| `CopyExact.FractionalEnd` | pkg/agent/sync.go:145 | a range that ends at 10.5 s and a point stamped 10.2 s that it loses |
| `CopyExact.CopySkips` | pkg/agent/sync.go:140-229 | a cell at an instant in no window of the plan or of a recovery does not change |
| `CopyExact.SafeChunks` | pkg/agent/sync.go:118-229 | for any chunk, every instant of the plan off the whole seconds is safe exactly when the recovery windows are as wide as the window |
| `CopyExact.SafeWholeSeconds` | pkg/agent/sync.go:118-229 | for chunks of c whole seconds: exactly when c / 10 >= c % 10 |
| `CopyExact.FifteenSecondChunks` | pkg/agent/sync.go:226 | a concrete plan with 15 s chunks and an instant at which a copy can lose a point |
| `CopyExact.CopySound` | pkg/agent/sync.go:215-232 | the slave ends as it was with a subset of the master's eligible points of the range, and of the recovery's extra stretch, merged in unchanged |
| `CopyExact.OldestReadTenths` | pkg/agent/sync.go:221-229 | that stretch is a tenth of a window with whole tens of seconds |
| `CopyExact.CopyFrame` | pkg/agent/sync.go:140-229 | cells of another database, policy or measurement, or outside that range, do not change |
| `CopyExact.FinalBadSpan` | pkg/agent/sync.go:219-229 | every chunk still bad lies within a window that failed in the first pass and the stretch its recovery adds |
| `CopyExact.BadInOrder` | pkg/agent/sync.go:198-202 | bad chunks are exactly the reports with errors, newest first, each once |
| `CopyExact.RWErrorsAreAll` | pkg/agent/sync.go:85-93 | the errors on the bad chunks are all the errors of the pass |
| `CopyExact.WindowBooks` | pkg/agent/sync.go:165-196 | a window counts the measurements not read, those read but not stored, and the points of all that were read, stored or not |
| `CopyExact.ReportBooks` | pkg/agent/sync.go:186-196 | each field of a window's report: number, total, edges, measurements not read, those read but not stored, points read |
| `CopyExact.ReportMeans` | pkg/agent/sync.go:103-112 | each field of a pass's report: names and range as given, total points the sum of the points read in all windows, one nil a window and then the windows' reports, the bad ones those with errors; and what RWErrors adds up on it is the measurements not read and those read but not stored |
| `CopyExact.FinalBadOrder` | pkg/agent/sync.go:220-229 | with whole tens of seconds the chunks still bad at the end come newest first |
| `CopyExact.CapFrame` | pkg/agent/sync.go:118-229 | a copy changes no cell stamped further back than the maximum retention, or the range, a chunk and the tenth a recovery may add |
| `Schema.FillMeasurements` | pkg/agent/hacluster.go:136-149 | the measurements kept for one policy |
| `Schema.FillPolicies` | pkg/agent/hacluster.go:116-151 | the loop over a database's policies, its default, and when it fails |
| `Schema.GetSchema` | pkg/agent/hacluster.go:75-162 | the loops against the schema they select |
| `Schema.SelectionExact` | pkg/agent/hacluster.go:94-158 | the submitted (database, policy, measurement) triples are exactly those passing all three filters in databases with a default policy that passes the policy filter |
| `Schema.PatternsExact` | pkg/agent/hacluster.go:94-158 | the same written out for three patterns |
| `Schema.UnfilteredExact` | pkg/agent/hacluster.go:94-158 | and without filters |
| `Schema.SchemaInOrder` | pkg/agent/hacluster.go:94-158 | the selected databases come in the master's order |
| `Schema.DefaultIsLast` | pkg/agent/hacluster.go:116-125 | of several default policies that pass the filter the last gives the default's name |
| `Schema.SchemaFails` | pkg/agent/hacluster.go:85-134 | exactly when getting the schema fails: which bad filter, met by what |
| `Schema.FilteredPoliciesStay` | pkg/agent/hacluster.go:118-158 | a selected database keeps all its policies with their names, durations, replicas and shard durations, those failing the filter without measurements; its default is a default policy that passes |
| `Schema.SlaveServer.CreateDB` | pkg/agent/client.go:84-108 | creates a missing database with its policy, of the given duration, replicas and shard duration, as default; "_internal" is passed over without error |
| `Schema.SlaveServer.CreateRP` | pkg/agent/client.go:110-133 | creates a missing policy with those settings on an existing database, as default if asked |
| `Schema.SlaveServer.SetDefaultRP` | pkg/agent/client.go:135-156 | makes an existing policy the default |
| `Schema.SlaveServer.ReplicateDatabase` | pkg/agent/hacluster.go:167-208 | the commands for one database, errors passed over |
| `Schema.SlaveServer.ReplicateSchema` | pkg/agent/hacluster.go:165-211 | the commands for the whole schema |
| `Schema.SchemaFeedsData` | pkg/agent/hacluster.go:165-224 | every target of the data phase exists after the schema phase exactly when no target database is "_internal" or the slave has that one |
| `Schema.SchemaDefaults` | pkg/agent/hacluster.go:185-199 | with distinct target names each target's default is the new default policy |
| `Schema.SchemaCopiesSettings` | pkg/agent/hacluster.go:169-206 | a target database that was not there, with distinct names, ends with exactly the source's policies, renamed, each with its duration, replicas and shard duration |
| `Schema.DefaultIsFirst` | pkg/agent/hacluster.go:171-177 | of several default policies the first gives the settings |
| `Schema.CatalogToSlave` | pkg/agent/agent.go:180-199 | from catalog to slave: every policy of a selected database is on a slave that had not the target database, under its new name, with the master's duration, replicas and shard duration, and the new default is the default |
| `Schema.SelectedSchemaIsReady` | pkg/agent/agent.go:180-199 | the same for what GetSchema selects, renamed by -newdb and -newrp |
| `Supervisor.InfluxMonitor.SetStatError` | pkg/agent/influxmonitor.go:26-31 | only the verdict changes; the last good instant stays |
| `Supervisor.InfluxMonitor.SetStatOK` | pkg/agent/influxmonitor.go:33-40 | verdict, instant, version and ping duration |
| `Supervisor.InfluxMonitor.GetState` | pkg/agent/influxmonitor.go:42-46 | verdict, last good instant and time since |
| `Supervisor.InfluxMonitor.GetStat` | pkg/agent/influxmonitor.go:152-161 | one sample: verdict and last good instant, and with a good ping its duration and version |
| `Supervisor.StepInv` | pkg/agent/hacluster.go:266-390 | every sample, reading, commit and end of a recovery keeps the invariant that ties the cluster's fields and recoveries to the log of what happened |
| `Supervisor.SupervisorSound` | pkg/agent/hacluster.go:264-390 | in every run: CHECK_SLAVE_DOWN means the slave is not OK, RECOVERING that it is; OK with a slave not OK exactly until a check has first seen it up; no check in RECOVERING; the counter is the number of recoveries that are over |
| `Supervisor.StatusCycle` | pkg/agent/hacluster.go:58-72 | what readers see only moves OK, CHECK_SLAVE_DOWN, RECOVERING, OK, and the counter moves with the last of these |
| `Records.CheckRecords` | pkg/agent/hacluster.go:282-368 | in every run a check that reads the slave up, or down for the first time, records both readings; down again, the master's alone; down before it was ever up, nothing |
| `Records.ReadingsAreSamples` | pkg/agent/influxmonitor.go:26-46 | a reading is the last sample of its own monitor, with the time since it was last good |
| `Records.RecoveryRecords` | pkg/agent/hacluster.go:328-341 | the end of a recovery sets state OK, counts it, records how long it took, and nothing else |
| `Records.StatusAfterCheck` | pkg/agent/hacluster.go:58-72 | after a check that reads the slave up the status shows what was read of master and slave |
| `Supervisor.OutageCovered` | pkg/agent/hacluster.go:282-342 | each recovery's range runs from a check interval before the last good sample that preceded the first bad reading up to the last good sample, and holds every failed sample of an outage noticed in time |
| `Supervisor.SpacedRunCovered` | pkg/agent/hacluster.go:372-390 | in runs whose readings are at most a check interval apart every recovery holds every failed sample of its outage |
| `Supervisor.CoverageExact` | pkg/agent/hacluster.go:310-321 | coverage in every run of an outage last seen up at one instant and first seen down at another holds exactly when they are at most a check interval apart |
| `Outages.StepMatches` | pkg/agent/hacluster.go:266-390 | every event keeps recoveries and ended outages in one-to-one order |
| `Outages.OutagesAnswered` | pkg/agent/hacluster.go:283-342 | in every run a reading that has been acted on is answered by a recovery exactly when it finds the slave up after an outage that began after it was once read up, and by one only |
| `Outages.AnsweredIfSeenUp` | pkg/agent/hacluster.go:355-377 | of the readings that find the slave up after one had found it down, exactly those are answered before which it had once been read up |
| `Outages.StartDownUnanswered` | pkg/agent/hacluster.go:364-377 | a run whose slave is down at the start and comes up: no recovery, state OK |
| `Outages.MissedAnswered` | pkg/agent/hacluster.go:282-363 | of the readings that find the slave up when it had been read up before, exactly those are answered before which a reading had found it down |
| `Outages.BlipUnanswered` | pkg/agent/hacluster.go:355-363 | a run with a failed sample between two good readings: no recovery |
| `Outages.LongRecoveryFallsShort` | pkg/agent/hacluster.go:310-342 | a run whose recovery takes longer than the check interval: a sample that fails meanwhile lies before the next recovery's range |
| `Replication.ReplicateData` | pkg/agent/hacluster.go:213-234 | the loops over databases and policies against the list of copies they make |
| `Replication.ReplicateDataFull` | pkg/agent/hacluster.go:236-256 | the same, each policy over its own range |
| `Replication.SchemaPhaseFeedsDataPhase` | pkg/agent/agent.go:176-204 | every target that a copy's data phase writes to, of a given range or full, exists after its schema phase exactly when the new database name is not "_internal", the slave has it, or nothing was selected |
| `Replication.ReplicationAccounts` | pkg/agent/hacluster.go:213-224 | each copy's eligible points at covered instants are, at the end of all copies, in a bad chunk of their own copy or on the slave, each field with its own value or that of a later copy which may read the instant and has a point of the same series, time and target |
| `Replication.KeptIsHeld` | pkg/agent/hacluster.go:213-224 | when no later copy that may read the instant disagrees with it on a field, the point is there as it is |
| `Overwriting.ReplicationExact` | pkg/agent/hacluster.go:213-256 | for all failures and slaves such a point is on the slave at the end or in a bad chunk of its own, exactly when no later copy conflicts with it: none that may read the instant has, for the same target, series and time, another value of one of its fields |
| `Overwriting.OneRangeExact` | pkg/agent/hacluster.go:213-224 | when all copies have one range: exactly when no later one has such a point |
| `Overwriting.FullCopyExact` | pkg/agent/hacluster.go:236-256 | the same of the points of a full copy |
| `Overwriting.RenamedToOne` | pkg/agent/agent.go:157-161 | two databases copied to one new name, and a point of the first that is lost |
| `Replication.UnitMeans` | pkg/agent/hacluster.go:216-245 | each copy of either data phase, field by field: source, target under the new names, measurements, and the range as given or of the policy's own duration |
| `Replication.UnitsInOrder` | pkg/agent/hacluster.go:214-215 | the copies come in the order of the databases, and of the policies of each |
| `Replication.JobsExact` | pkg/agent/hacluster.go:213-245 | the jobs that either data phase submits, whatever the new names, are exactly the triples that pass the filters |
| `Replication.ReplicationKeeps` | pkg/agent/hacluster.go:213-224 | a later replication to targets named as their sources keeps on the slave what the master still has |
| `Replication.FullCopyAccounts` | pkg/agent/hacluster.go:236-256 | in a full copy every selected point stamped within the policy's duration and the maximum retention, up to the last whole second and off the tenths, is so accounted for |
| `Windows.RangeInPlan` | pkg/agent/sync.go:118-146 | every instant within the range and the maximum retention, up to the last whole second, lies in the planned windows |
| `Cluster.RecoveryAccounts` | pkg/agent/hacluster.go:329-333 | for any chunk, a point the refreshed schema knows of, at an instant in a window and in a window of its recovery, is on the slave when the recovery is over or in a bad chunk of its own copy |
| `Cluster.RangeInRecovery` | pkg/agent/sync.go:118-229 | with whole tens of seconds and retention for one chunk, those are all instants within the range and the maximum retention, before the last whole second and off the tenths |
| `Cluster.RecoveryLosesNothing` | pkg/agent/hacluster.go:329-341 | the same of every row of the master at once |
| `EndToEnd.RecoveryKeeps` | pkg/agent/hacluster.go:329-341 | a recovery keeps on the slave what the master still has |
| `EndToEnd.StaysSafe` | pkg/agent/hacluster.go:329-341 | once accounted for, a point the master keeps stays so through every later recovery |
| `EndToEnd.EndToEnd` | pkg/agent/hacluster.go:264-390 | in every run and for every pattern of failures, each outage that ends is answered by exactly one recovery, over whenever none is running; every such point is then on the slave and stays through every later recovery, or is in a bad chunk that recovery reported. With whole tens of seconds the instants include all since its range's start, or since the first failed sample of an outage noticed in time, within the retention, before the last whole second and off the tenths |
| `Cluster.HACluster.GetStatus` | pkg/agent/hacluster.go:58-72 | a copy of the fields with the names of master and slave |
| `Cluster.HACluster.constructor` | pkg/agent/agent.go:116-127 | the cluster as it is built: OK, both servers up |
| `Cluster.HACluster.StartSupervisor` | pkg/agent/hacluster.go:376-377 | the first reading is taken over as it is |
| `Cluster.HACluster.BeginCheck` | pkg/agent/hacluster.go:282-368 | the switch: which fields change in each case, and the range to recover |
| `Cluster.HACluster.EndRecovery` | pkg/agent/hacluster.go:337-341 | back to OK, one more recovery |
| `Cluster.HACluster.RunRecovery` | pkg/agent/hacluster.go:331-333 | schema refreshed without filters and data of the range replicated |
| `Cluster.HACluster.CheckCluster` | pkg/agent/hacluster.go:266-370 | a whole check: the transition, the recovery it starts, and that the recovery loses no point of the master in silence |

## Left out

- The web interface, sessions and JSON output; of these only the status reader is modelled.
- Building, pinging and swapping InfluxDB clients, and the text of InfluxQL commands: calls that succeed or fail.
- The field-type switch and the field maps of `GetFields`: field values pass through unread. Unparsable timestamps are skipped by the source and do not occur in the model.
- Clocks, tickers and sleeps: instants are parameters, and how far checks are apart is stated where it matters.
- Saturation of durations and rounding of `Seconds()`: integers are unbounded except in the timestamp round trip.
- The order in which a pool starts its jobs: any order is allowed, so the results hold for the pool's own.
- Transient failures of schema commands, and changes of the master or other writers to the slave during a copy.
- What the master's failure does: the source records it and does nothing else. A master that cannot list its databases gives an empty catalog.
- Flags, configuration, logging, packaging, and the wait for both servers at start.
- SyncEngine.Sync: asks for a positive chunk and a window count that is not negative; otherwise the source panics in a division or in making a slice.
- SyncEngine.SyncDBRP: asks for at least ten nanoseconds of chunk, below which a recovery divides by zero, and leaves out the missing schema, on which the source panics; error texts, times taken and server names of reports are not modelled.
- Client.BpSplit: asks for a positive limit, because zero is a division by zero in the source.
- Windows.PlanReach: for chunks of whole seconds, because with any other the statement is false (`Windows.ReachExact`).
- Windows.FullCopyReach: for chunks of whole seconds, for the same reason.
- Supervisor.SupervisorSound: a run begins after the supervisor's first reading; a reader before it sees the fields of a new cluster.
- EndToEnd.EndToEnd: the refreshed catalog must know the point's database, policy and measurement, which the source does not ensure, and name each once; policies of a database are distinct with one default, as a server keeps them. An outage that has not ended, or whose end no check has acted on yet, has no recovery to speak of.
- Cluster.HACluster.CheckCluster: asks that the range of the recovery is not so far backwards that making the report slice panics; `Supervisor.OutageCovered` shows that no run gives one.
