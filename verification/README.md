# Monstack, modelled in Dafny

Monstack collects metrics with an agent on each host, stores them in a backend, lists hosts, raises alerts and
deletes old rows; a command-line tool writes the `.env` file its containers are started with. This project models
the parts whose correctness spans several functions, or several things happening at once, and proves what they promise.

| area | files |
|---|---|
| alert engine: step system over interleaved passes, its invariant, where logs begin, one undisturbed pass, the class itself, witnesses | `AlertModel`, `AlertMachine`, `AlertSafety`, `AlertOrigins`, `AlertRetention`, `AlertPass`, `AlertCalls`, `AlertsCron`, `AlertQuiet`, `AlertWitness` |
| retention | `Retention` |
| hosts list: what one reply means, the cache under concurrency, the service classes | `HostsModel`, `HostsCache`, `Backend` |
| sending: retry loop, its composition with the transactional ingest over a lossy network, and with the adaptive limit | `Transport`, `Delivery`, `AgentLoop` |
| agent: CPU and network rates, process selection, sampler, encoder, adaptive batch limit, and the schedule of snapshots that drives it | `Rates`, `Procs`, `Sampler`, `Encoder`, `BatchLimit`, `Schedule` |
| text: lines, `.env` parser and printer, the overlay for `docker compose`, `/proc/<pid>/stat` | `Text`, `EnvFile`, `ComposeEnv`, `StatLine` |
| paging and buckets | `RowStore`, `Paging`, `PagingWalks`, `PagingEnds`, `PagingHistory`, `Buckets` |
| shared | `Prelude` (rows that satisfy a condition), `Division` |

Code that works by assignment is a class or a method here, proved equal to a function of its inputs or of the old
state; the properties are then proved of that function, or of the step system that uses it.
`dafny verify dfyconfig.toml` checks everything.

## Results

**Alerts.** A (rule, host) pair has no stored state: every pass recovers it from the newest row of an event log. In every
run that interleaves cron ticks, suspended and throwing passes, ingests, retention, rule edits and cascading deletes, the
surviving events of a pair never repeat a status (`AlertsAlternate`). This rests on the `isRunning` flag: from a state
with two passes under way the log does repeat (`OverlappingPassesRepeat`).

That a log opens with `firing` is false once retention runs: it may consist of one `resolved`
(`RetentionMayLeaveResolvedFirst`). When it holds is settled exactly, for each pair, by what is known before each step
(`StepOpens`): a retention run keeps it if and only if it deletes all of the pair's events or an even number of them
(`RetainOpens`), and all through a run it holds if and only if no retention run deletes an odd number and leaves some,
and no `resolved` is written into an emptied log (`RunOpens`). The second can happen only when retention empties the log
of a pair that a pass under way still holds at `firing` (`RetainKeepsOpens`, `LogsOpenWithFiring`), and from such states
it does happen (`EmptiedThenResolved`, `EmptiedThenJudged`).

No event is ever written for an operator other than `>`, `<` and `==` (`OnlyKnownOperatorsAlert`), although the web form
offers `gt` and others. An undisturbed pass leaves "the last status is `firing`" equal to the condition for exactly the
pairs it evaluates (`PassSettles`, `EvaluatedPairs`, `Engine.CheckAlerts`), with the condition spelled out for each
operator and metric (`ThresholdIsSaid`, `HostDownIsSaid`), a second call has nothing to say
(`CheckTwice`), and the step system, left alone, does the same (`QuietRun`). A call whose database access throws has
logged the beginning of what it would have logged, and leaves the flag clear.

**Hosts.** A reply reflects every write committed 5 s before its call, in every interleaving (`RepliesAreFresh`).
Read-after-ingest is false under interleaving: a `findAll` under way can write an older list back. A later call sees
a given write in every run if and only if nothing older is cached or about to be (`ReadAfterWriteHolds`,
`ReadAfterWriteFails`), and such a state is reached (`IngestDuringFindAllIsAtRisk`).

**Agent.** A nil return of `SendIngest` means the sample is stored; it is never stored more than `retries` times, and
always whole (`SendStores`, `NilStores`, `RunDelivers`). In every run the batch limit is the configured number halved
once for each 413 since the last success (`LimitIsHalved`, and `AgentLoop.SendAll` in terms of the server's answers),
which decides each tick (`AcceptedExactly`). It converges
(`ConvergesWithin`, `EnoughRefusals`) unless ticks without processes come in between, and they do: two ticks closer
together than the process interval never both take a snapshot (`NoTwoInARow`), so a success between snapshots undoes
the halving (`ScheduleInterleaves`). With the default 10 s and 30 s exactly every third tick takes one, and a server that
does not admit all of it refuses it for ever (`StarvedForever`). The process report is the true top n
(`SelectionIsTopN`) and cutting it commutes with selecting (`EncodingCommutesWithSelection`); with repeated pids it does
so exactly when none repeats among the first k ranked, or none of the next is new (`TruncationExactly`). Reported process I/O is the lifetime
total over one interval, not the delta the documentation names (`ReportedIOIsLifetime`); `LifetimeEqualsDelta` says
exactly when the two agree.

**Text.** Parsing inverts printing for `.env` files and stat lines, in each case exactly when a condition on the input
holds (`PrintThenParse`, `GeneratedReadsBack`, `NameRecovered`, `ParseInvertsPrint`, `PanicsExactly`).

**Paging.** A walk over pages returns the window it started on, while agents send and retention runs
(`ProcessWalkStaysWhole`, `MetricWalkIsSnapshot`). The process list's fallback breaks this promise exactly when the
history has more rows than one page (`WalkKeepsPromise`). A walk over the metrics, while samples arrive and retention
runs, returns a stretch of the history without gaps. When it ends, nothing that its last request finds is missing if
that request still finds the last row returned; if it does not, the walk ended early and all of it is missing
(`MetricWalkUnderChanges`, and for one page `RetentionUnderWalk`). Five-minute averages
are the count-weighted one-minute averages (`CoarseRefinesFine`).

## Model

| member | source | states |
|---|---|---|
| AlertModel.KeyInjective | backend/src/alerts/alerts-cron.service.ts:97-101 | the string key of the status map tells pairs apart when rule ids hold no colon |
| AlertModel.KeyCollision | backend/src/alerts/alerts-cron.service.ts:99 | with a colon in a rule id two pairs share a key |
| AlertModel.SnapshotIsLast | backend/src/alerts/alerts-cron.service.ts:83-102 | for every pair of a queried rule, the map built from the newest rows holds the status of the last event of that pair's log, and nothing for a pair without events |
| AlertModel.JobsDistinct | backend/src/alerts/alerts-cron.service.ts:53-59 | the nested loops visit no (rule, host) pair twice |
| AlertSafety.StepKeepsInv | backend/src/alerts/alerts-cron.service.ts:24-59 | every step of every kind keeps the invariant: at most one pass and the flag tells, each snapshot still true for the pairs to come, every log alternating |
| AlertSafety.RetentionShrinks | backend/src/metrics/retention.service.ts:56-59 | deleting by age removes only a prefix of each pair's log |
| AlertSafety.CascadeShrinks | backend/prisma/schema.prisma:92-93 | deleting a rule or host empties a pair's log or leaves it alone |
| AlertSafety.AlertsAlternate | backend/src/alerts/alerts-cron.service.ts:24-202 | in every run from a fresh start the surviving events of any pair are ordered by time and never repeat a status |
| AlertOrigins.OnlyKnownOperatorsAlert | backend/src/alerts/alerts-cron.service.ts:153-177 | in every run each stored event belongs to a rule that still exists and is `host_down`, or names a known metric and one of `>`, `<`, `==` |
| AlertRetention.RetainOpens | backend/src/metrics/retention.service.ts:56-59 | in every state of the invariant, a pair's log opens with `firing` after a retention run iff all its events were older than the cutoff, or the parity of the older ones fits how it opened before |
| AlertRetention.StepOpens | backend/src/alerts/alerts-cron.service.ts:115-135 | for every step of every kind: whether the log opens with `firing` afterwards, from what is known before |
| AlertRetention.RunOpens | backend/src/alerts/alerts-cron.service.ts:24-202 | all through a run a log opens with `firing` iff no retention run cuts it at an odd place and no `resolved` is written into it when empty |
| AlertRetention.RetainKeepsOpens | backend/src/metrics/retention.service.ts:56-59 | a retention run keeps the invariant behind this iff it cuts no log at an odd place and empties none that a pass under way holds at `firing` |
| AlertRetention.LogsOpenWithFiring | backend/src/alerts/alerts-cron.service.ts:115-135 | in every run whose retention runs are harmless in this sense each non-empty log opens with `firing` |
| AlertRetention.NoRetentionIsHarmless | backend/src/alerts/alerts-cron.service.ts:115-135 | a run without retention is such a run |
| AlertRetention.EmptiedThenResolved | backend/src/alerts/alerts-cron.service.ts:125-134 | a log emptied while a pass is about to write `resolved` for it becomes that one event |
| AlertRetention.EmptiedThenJudged | backend/src/alerts/alerts-cron.service.ts:192-201 | the same when the pass has come to the pair, holds `firing` for it and finds that its rule no longer holds |
| AlertPass.PassSettles | backend/src/alerts/alerts-cron.service.ts:104-204 | after an undisturbed pass the last status is `firing` iff the rule holds, for each pair evaluated; a skipped pair's log is unchanged; at most one event a pair |
| AlertPass.PassLeavesOthers | backend/src/alerts/alerts-cron.service.ts:53-59 | a pair the pass does not visit keeps its log |
| AlertPass.PassKeepsAlternating | backend/src/alerts/alerts-cron.service.ts:170-202 | a pass later than what is logged leaves each log alternating |
| AlertPass.SecondPassSilent | backend/src/alerts/alerts-cron.service.ts:35-60 | a second pass over the same data at the same time appends nothing |
| AlertPass.WalkRun | backend/src/alerts/alerts-cron.service.ts:53-59 | the step system, run without interleaving, appends exactly the events of the undisturbed pass and ends the pass |
| AlertsCron.FetchLatestMetricsByHost | backend/src/alerts/alerts-cron.service.ts:62-81 | the loop builds the map of the newest row of each host, with its keys in the order of the rows |
| AlertsCron.FetchLatestEvents | backend/src/alerts/alerts-cron.service.ts:83-102 | the loop builds the map from `rule:host` to status |
| AlertsCron.EvaluatedPairs | backend/src/alerts/alerts-cron.service.ts:104-168 | which pairs a pass judges: a `host_down` rule's existing host; for a threshold rule with a known metric its host, or every host if it names none, that has metrics; no other |
| AlertsCron.PassStorable | backend/src/alerts/alerts-cron.service.ts:116-134 | with consistent tables every event of the pass meets its foreign keys |
| AlertsCron.PassConsistent | backend/src/alerts/alerts-cron.service.ts:35-60 | a pass keeps the tables consistent, so the next pass can rely on them |
| AlertsCron.Engine.constructor | backend/src/alerts/alerts-cron.service.ts:13-20 | no pass is under way at the start |
| AlertsCron.Engine.CheckAlerts | backend/src/alerts/alerts-cron.service.ts:22-33 | does nothing while the flag is set; otherwise appends the pass's events, or the first of them when a database call throws, clears the flag either way, settles every pair unless one threw, and leaves consistent tables consistent; the last event of a pair then says `firing` iff what its rule asks for is so, operator by operator and column by column (`RulesSay`) |
| AlertsCron.ThresholdIsSaid | backend/src/alerts/alerts-cron.service.ts:153-202 | after a settled pass an enabled threshold rule and the newest row of a host it covers: the last event says `firing` iff the CPU share, the disk share, or used over total memory times 100 (0 for a total of 0) is above, below or equal to the threshold, for `>`, `<`, `==` in turn, and never for another operator |
| AlertsCron.HostDownIsSaid | backend/src/alerts/alerts-cron.service.ts:104-136 | after a settled pass, for an enabled `host_down` rule of an existing host: the last event says `firing` iff lastSeenAt, or 0 for none, is more than 60 000 ms ago |
| AlertsCron.Engine.CheckAlertsImpl | backend/src/alerts/alerts-cron.service.ts:35-60 | the queries and the two loops append, in order, the events of all pairs judged on the one snapshot; it throws iff the throwing call is one of its calls |
| AlertsCron.Engine.Query | backend/src/alerts/alerts-cron.service.ts:36-51 | the maps of the answers, with the metrics query only if a rule needs it and the events query only if there are rules |
| AlertsCron.Engine.CheckRules | backend/src/alerts/alerts-cron.service.ts:53-59 | the outer loop: the calls and events of all rules, up to the call that throws |
| AlertsCron.Engine.CheckHostDown | backend/src/alerts/alerts-cron.service.ts:104-136 | one `host_down` rule: one read, and the event its host calls for; none without a host id or row |
| AlertsCron.Engine.CheckThreshold | backend/src/alerts/alerts-cron.service.ts:138-204 | one threshold rule: the events of its host or of all hosts with metrics, up to the call that throws; none without a threshold |
| AlertsCron.LoggedStaysConsistent | backend/src/alerts/alerts-cron.service.ts:28-32 | a pass later than what is logged keeps the tables consistent even if it throws half-way |
| AlertQuiet.CheckTwice | backend/src/alerts/alerts-cron.service.ts:24-60 | two calls in a row on the same data and clock leave what the first one leaves |
| AlertQuiet.StartRun | backend/src/alerts/alerts-cron.service.ts:35-51 | the step system's queries, for any tables and rules, lead to the loops over all jobs with the snapshot of the answers |
| AlertQuiet.QuietRun | backend/src/alerts/alerts-cron.service.ts:24-60 | from a tick to the end of the pass, left alone, the step system does what CheckAlerts does |
| AlertsCron.EvaluateThreshold | backend/src/alerts/alerts-cron.service.ts:149-202 | which status, if any, the inner loop logs for one host |
| AlertWitness.OverlappingPassesRepeat | backend/src/alerts/alerts-cron.service.ts:24-25 | two passes under way, each in good order alone, log `firing` twice in a row |
| AlertWitness.RetentionMayLeaveResolvedFirst | backend/src/metrics/retention.service.ts:56-59 | a run from a fresh start after which a log consists of one `resolved` |
| Retention.Service.RunRetention | backend/src/metrics/retention.service.ts:26-37 | does nothing while a run is under way; otherwise trims the tables whose deletion succeeded, and clears the flag whether or not one threw |
| Retention.Service.Cleanup | backend/src/metrics/retention.service.ts:39-63 | the three deletions in order, each with its own cutoff; after an exception the later tables are untouched |
| Retention.KeptWhileYoung | backend/src/metrics/retention.service.ts:10-63 | of the metrics, process rows and events a run keeps exactly those no older than the days set for that table, or 30, 14 and 90 for no number or zero, a day being 86 400 000 ms; a table an interrupted run did not reach keeps all |
| Retention.RunsCompose | backend/src/metrics/retention.service.ts:56-59 | two runs leave what the later cutoff alone leaves |
| Retention.RetentionKeepsAlternating | backend/src/metrics/retention.service.ts:56-59 | a run keeps every alert log alternating |
| HostsModel.ReplyMeaning | backend/src/hosts/hosts.service.ts:30-65 | a reply lists exactly the hosts of the wanted kind, each once and newest first, each with its row; online iff last seen at most 30 000 ms ago; `onlineOnly` true or false lists those hosts and only those; the newest metric of 300 000 ms, missing only if there is none (below 1000 active hosts) |
| HostsCache.StepKeepsInv | backend/src/hosts/hosts.service.ts:24-71 | every step keeps: each call and the cache entry hold answers of committed versions no older than their captured time allows |
| HostsCache.RepliesAreFresh | backend/src/hosts/hosts.service.ts:20-71 | in every interleaving a reply is the list of committed versions and reflects each write committed 5 s or more before its call; a filtered reply each write before its call |
| HostsCache.ShownOnlineIsNotDown | backend/src/hosts/hosts.service.ts:33-50 | if lastSeenAt never goes back, a host shown online was seen within 35 s of the call, so `host_down` is false for it and the 120 s health count includes it |
| HostsCache.ReadAfterWriteHolds | backend/src/hosts/hosts.service.ts:26-28 | once no older list is cached or about to be, every findAll started later sees the write, in every run |
| HostsCache.ReadAfterWriteFails | backend/src/hosts/hosts.service.ts:67-69 | otherwise a run exists in which a findAll started later misses it |
| HostsCache.IngestDuringFindAllIsAtRisk | backend/src/ingest/ingest.service.ts:65-70 | an ingest that commits and invalidates between the two queries of a findAll reaches such a state |
| Backend.HostsService.InvalidateCache | backend/src/hosts/hosts.service.ts:20-22 | the cache is empty |
| Backend.HostsService.FindAll | backend/src/hosts/hosts.service.ts:24-71 | a hit returns the cached list and changes nothing; a miss returns the reply of the two answers, which shows each stored host by the 30 000 ms rule, and caches it for 5 000 ms, unless filtered |
| Backend.IngestService.Ingest | backend/src/ingest/ingest.service.ts:17-71 | all rows of the batch and lastSeenAt, or nothing; every column of the stored rows, and the host's fields, in terms of the request's; the cache is cleared exactly on success; each error case |
| Backend.IngestedRecords | backend/src/ingest/ingest.service.ts:25-68 | storing a batch adds one metrics row and one row a process in order, each column equal to the request's, both byte rates in their own places, and changes of the hosts only this one's lastSeenAt and, if given, URL |
| Backend.IngestThenList | backend/src/hosts/hosts.service.ts:24-71 | without interleaving the list after an ingest is the uncached one; it shows the host with its new lastSeenAt, online iff the sample's time is at most 30 000 ms ago |
| Transport.Client.New | agent/internal/transport/transport.go:29-35 | retries and timeout are positive whatever was asked for |
| Transport.Client.SendIngest | agent/internal/transport/transport.go:76-109 | at most `retries` requests; another one only after a network error or a status outside 200-299 and 400-499; nil iff the last is 2xx, too large iff it is 413, a client error with its status for any other 4xx, else the last outcome; the sleeps are 1 s, then doubled each time up to 30 s; with retries <= 0 it would return nil unsent; with a URL no request can be built from, an error unsent |
| Transport.PausesArePowers | agent/internal/transport/transport.go:77-85 | the i-th sleep is min(2^i, 30) s, and so all of them at most 30 s for each retry |
| Transport.AttemptsUnique | agent/internal/transport/transport.go:78-108 | these promises leave one possible number of requests |
| Transport.NilMeansSuccess | agent/internal/transport/transport.go:95-97 | nil iff a 2xx comes within the budget after retryable outcomes only |
| AgentLoop.SendAll | agent/internal/service/service.go:51-71 | in every run of batches through the retry loop the limit left is max(1, n / 2^r), with r the batches whose last answer was 413 since the last one whose answer was 2xx |
| AgentLoop.SameRefusals | agent/internal/service/service.go:58-71 | what the loop counts as refusals are exactly the answers 413 since the last 2xx |
| Delivery.SendStores | agent/internal/transport/transport.go:76-109 | one SendIngest leaves the batch in the store c times, whole each time, c at most the retries |
| Delivery.NilStores | agent/internal/transport/transport.go:95-97 | at least once on a nil return |
| Delivery.RunDelivers | agent/internal/transport/transport.go:76-109 | over a whole run, with sends of other hosts and retention runs in between, each sample is stored at most `retries` times, until retention deletes it at least once if its send returned nil, and afterwards not at all |
| Delivery.LastSeenAtMost | backend/src/ingest/ingest.service.ts:59-68 | lastSeenAt never passes the newest sample sent |
| Delivery.LastSeenNeverDecreases | backend/src/ingest/ingest.service.ts:59-68 | at every event of such a run lastSeenAt of the host does not go back |
| Rates.CPUPercent | agent/internal/collectors/cpu.go:73-89 | for arbitrary counters, overflowing or not, the result is between 0 and 100 |
| Rates.ClampNeverFires | agent/internal/collectors/cpu.go:84-87 | for growing counters that do not overflow the clamp never cuts |
| Rates.PercentMeaning | agent/internal/collectors/cpu.go:43-89 | without overflow, whichever counters grow or go back: the growth of the eight busy counters over that of all ten, in percent and at most 100; zero if either did not grow |
| Rates.PercentagesConserveBusyTicks | agent/internal/collectors/cpu.go:73-89 | over a run the percentages, weighted by elapsed ticks, add up to all busy ticks exactly, busy being user, nice, system, irq, softirq, steal, guest and guestNice |
| Rates.NetMeaning | agent/internal/collectors/net.go:60-71 | each rate times the interval falls short of the bytes counted by less than one interval; zero for a counter that went back or an interval not positive |
| Rates.RatesConserveBytes | agent/internal/collectors/net.go:60-71 | over a run of n intervals of d seconds, d times the reported rates falls short of the bytes counted by 0 to n(d - 1) |
| Procs.TopNIndices | agent/internal/procs/procs.go:178-221 | the first n of the scores ranked by the sort, repeated pids left out |
| Procs.SortRanks | agent/internal/procs/procs.go:204 | any descending sort ranks each process exactly once, best first |
| Procs.EnrichProcRaw | agent/internal/procs/procs.go:163-176 | in the array, exactly the chosen entries get their I/O counters and command line |
| Procs.BuildProcInfoFromIndices | agent/internal/procs/procs.go:223-267 | one line a chosen process, from its entry and its baseline |
| Procs.TopNByCPUAndRSS | agent/internal/procs/procs.go:269-273 | the report on the ranked snapshot as it was before enrichment |
| Procs.InfoKeepsScore | agent/internal/procs/procs.go:232-239 | the reported CPU and memory give the score the process was chosen by |
| Procs.ScoreMeaning | agent/internal/procs/procs.go:190-203 | the score is CPU percent plus a hundredth of the resident MiB; the percentage times the interval is the growth of utime plus stime, or zero for an unknown process or ticks that did not grow |
| Procs.InfoDescribes | agent/internal/procs/procs.go:223-267 | a line says of its process its pid and state, 255 characters of its name and of its command line, or the name where that is empty, its CPU share, memory, and I/O rates against the baseline |
| Procs.LinesDescribe | agent/internal/procs/procs.go:269-273 | each line of a report, for any ranking and repeated pids too, describes one process of the snapshot in this sense |
| Procs.SelectionIsTopN | agent/internal/procs/procs.go:178-273 | for distinct pids: min(n, len) distinct processes in non-increasing score, none left out scoring higher |
| Procs.ReportedPidsDistinct | agent/internal/procs/procs.go:210-219 | with repeated pids no pid is reported twice |
| Procs.TruncationExactly | agent/internal/procs/procs.go:205-220 | with repeated pids, cutting the top n to k is the top k iff no pid repeats among the first k ranked, or none of the next up to n is new |
| Procs.TruncationCommutes | agent/internal/encoder/encoder.go:106-108 | cutting the top n to k is the top k, same order |
| Encoder.EncodeBatch | agent/internal/encoder/encoder.go:41-70 | every process of the sample, in order, field by field, under the given host and the sample's time and metrics |
| Encoder.EncodeBatchMaxProcs | agent/internal/encoder/encoder.go:101-110 | the first processes, as many as a positive limit allows, else all, each field by field |
| Encoder.EncodingCommutesWithSelection | agent/internal/encoder/encoder.go:101-110 | encoding the top n at limit k sends what sampling the top k would |
| Sampling.CollectAllLite | agent/internal/procs/procs.go:136-161 | the readable numeric entries in order, with no I/O counters and the name as command |
| Sampling.ListedSnoc | agent/internal/procs/procs.go:136-161 | each further entry adds one process, field by field, behind the others iff its name is a number and its stat could be read |
| Sampling.ByPidEntries | agent/internal/procs/procs.go:288-290 | the baseline holds each pid of the snapshot, with an entry of that pid, and nothing else |
| Sampling.ByPidLast | agent/internal/procs/procs.go:288-290 | and that entry is the last one of the pid |
| Sampling.TopN | agent/internal/procs/procs.go:282-293 | the new baseline is the snapshot before enrichment and so holds no I/O; the report is that of the ranked snapshot |
| Sampling.Sampler.constructor | agent/internal/sampler/sampler.go:43-45 | nothing carried over yet |
| Sampling.Sampler.Sample | agent/internal/sampler/sampler.go:47-110 | what the sample holds and what is carried to the next, on every error path; no baseline ever holds I/O |
| Sampling.ReportedIOIsLifetime | agent/internal/procs/procs.go:240-250 | the I/O rate reported for a known pid is its lifetime total over the interval, for an unknown one zero |
| Sampling.LifetimeEqualsDelta | docs/os-metrics.md:37 | it equals the documented delta iff the earlier total fits in the remainder the truncation drops |
| Sampling.IdleProcessReportsTraffic | agent/internal/procs/procs.go:287-291 | a process idle since its last 3000 bytes is reported at 100 bytes per second |
| BatchLimit.Service.Turn | agent/internal/service/service.go:43-72 | one tick: the limit used and the limit stored, for every outcome |
| BatchLimit.Service.Run | agent/internal/service/service.go:36-75 | the whole loop: each tick's limit is the one the ticks before it left |
| BatchLimit.LimitInRange | agent/internal/service/service.go:48-71 | for a configured number from 1 to 2^31-1 the limit stays between 1 and that number |
| BatchLimit.HalvedByRefusals | agent/internal/service/service.go:58-69 | with no success in between, j refusals among any ticks divide the limit by 2^j, not below 1 |
| BatchLimit.FreshHalving | agent/internal/service/service.go:58-71 | after a start or success, j refusals in a row leave max(1, n / 2^j) |
| BatchLimit.LimitIsHalved | agent/internal/service/service.go:48-71 | in every run the limit is max(1, n / 2^r), with r the refusals since the last accepted tick |
| BatchLimit.AcceptedExactly | agent/internal/service/service.go:48-71 | a server that takes up to k processes accepts a tick iff min(max(1, n / 2^r), its processes) <= k |
| BatchLimit.EnoughRefusals | agent/internal/service/service.go:58-71 | once r >= j and n <= k 2^j the next tick is accepted, whatever failed in other ways in between |
| BatchLimit.ConvergesWithin | agent/internal/service/service.go:48-71 | against a server that takes batches of up to k, one of any j + 1 ticks in a row is accepted as soon as n <= k 2^j |
| BatchLimit.ProcesslessTicksUndoHalving | agent/internal/service/service.go:71 | if an accepted tick without processes comes before each snapshot, every snapshot is sent at the full limit |
| Schedule.SampleAll | agent/internal/sampler/sampler.go:98-114 | over any number of calls: which take a process snapshot, what the others hold, and that no baseline ever holds I/O |
| Schedule.SnapshotIOIsLifetime | agent/internal/procs/procs.go:282-293 | every I/O rate of every snapshot of such a run is a lifetime total over the interval, or zero |
| Schedule.NoTwoInARow | agent/internal/sampler/sampler.go:112-114 | two calls less than the process interval apart do not both take a snapshot |
| Schedule.ScheduleInterleaves | agent/internal/service/service.go:43-71 | with such ticks, the halving is undone before every snapshot iff the tick before each snapshot gets through |
| Schedule.EveryThirdTick | agent/internal/sampler/sampler.go:112-137 | with ticks 10 s apart plus jitter and a process interval of 30 s exactly every third tick takes a snapshot |
| Schedule.StarvedForever | agent/internal/service/service.go:71 | on a busy host with these defaults, for ever: each tick between snapshots is accepted, and each snapshot iff the server admits all of it |
| Text.JoinLines | monstack-cli/internal/docker/docker.go:59-69 | joining the lines of any text with newlines gives it back |
| Text.LinesJoin | monstack-cli/internal/docker/docker.go:59-69 | splitting undoes joining, so this is the only split into lines |
| EnvFile.ParseEnv | monstack-cli/internal/envfile/envfile.go:83-103 | the index loop reads each line, cut at its first `=`, later lines winning |
| EnvFile.ParsedWellFormed | monstack-cli/internal/envfile/envfile.go:83-103 | whatever the file, parsed keys are non-empty and without `=`, and nothing holds a newline |
| EnvFile.Generate | monstack-cli/internal/envfile/envfile.go:13-73 | writes, in some order of the map, exactly the non-empty merged entries; with one-line arguments the file reads back with each entry as the rules say, and each drawn secret decodes to the drawn bytes |
| EnvFile.HexEncode | monstack-cli/internal/envfile/envfile.go:75-81 | two digits a byte, 0-9 and a-f, that decode digit by digit to the bytes |
| EnvFile.MergedWrote | monstack-cli/internal/envfile/envfile.go:29-48 | what each of the five entries becomes, written out, and that no other changes |
| EnvFile.DrawsShow | monstack-cli/internal/envfile/envfile.go:75-81 | two runs that draw different bytes for a secret write files that read back with different secrets |
| EnvFile.Print | monstack-cli/internal/envfile/envfile.go:50-72 | each non-empty entry on one line, once, in any iteration order |
| EnvFile.PrintThenParse | monstack-cli/internal/envfile/envfile.go:50-103 | parsing the printed text gives the non-empty entries back iff they are well-formed |
| EnvFile.ExistingKept | monstack-cli/internal/envfile/envfile.go:29-48 | without overwrite a non-empty entry is kept, except the admin password when one is given |
| EnvFile.AlwaysSet | monstack-cli/internal/envfile/envfile.go:29-48 | the two secrets, AUTH_ENABLED and DATABASE_URL end up non-empty, and given values win where they may |
| EnvFile.GeneratedReadsBack | monstack-cli/internal/envfile/envfile.go:13-103 | the written file reads back as the merged entries iff no argument that was used holds a newline |
| EnvFile.IdleRun | monstack-cli/internal/envfile/envfile.go:13-73 | a run with no arguments changes nothing iff the four entries are there and none is empty |
| EnvFile.SecondRunChangesNothing | monstack-cli/internal/envfile/envfile.go:13-73 | a run with no arguments after any run with one-line arguments changes nothing |
| ComposeEnv.SplitLines | monstack-cli/internal/docker/docker.go:59-69 | the loop computes the lines; joined they give the text, and none holds a newline |
| ComposeEnv.Overlay | monstack-cli/internal/docker/docker.go:40-55 | the nested loops append every line with a `=` behind the inherited environment |
| ComposeEnv.OverlayReadsAsParsed | monstack-cli/internal/docker/docker.go:40-55 | with the last entry winning, every non-empty key reads as the `.env` parser reads it, all others as inherited |
| ComposeEnv.GeneratedReachesCompose | monstack-cli/internal/docker/docker.go:40-55 | what Generate wrote is what a lookup in the environment of the `docker compose` process returns |
| StatLine.ParseDec | agent/internal/procs/procs.go:42-50 | a printed number reads back iff it fits in 64 bits |
| StatLine.FieldsOfSpaced | agent/internal/procs/procs.go:37 | splitting at white space gives any words back, whatever the gaps |
| StatLine.PanicsExactly | agent/internal/procs/procs.go:31-37 | a slice is out of bounds iff the line ends in `)` and holds a `(` |
| StatLine.NameRecovered | agent/internal/procs/procs.go:31-36 | any command name comes back iff no `)` stands behind it |
| StatLine.ParseInvertsPrint | agent/internal/procs/procs.go:30-52 | for any name, any gaps and at least 22 fields, all values come back iff each counter fits in 64 bits |
| StatLine.KernelLineParses | agent/internal/procs/procs.go:30-52 | a line as the kernel prints it, one blank before each field of printable ASCII and a newline behind, gives back the name, state and counters up to 2^64 - 1 |
| Paging.FindProcesses | backend/src/processes/processes.service.ts:8-59 | the page of the window behind the cursor, or of the history when a first bounded window is empty; every row is of this host and from `from` to `to`, or only of this host in that case; a first page without a next cursor holds all of them |
| Paging.FindMetrics | backend/src/metrics/metrics.service.ts:32-64 | the page of the window for a limit forced to 1..10000 (5000 if none is given), every row of this host and within both bounds, or at most that many buckets |
| PagingWalks.ProcessWalkStaysWhole | backend/src/processes/processes.service.ts:15-41 | while rows are added and aged out and hosts deleted, a walk returns rows of its first window in order, once each, and all that stayed; enough requests end it |
| PagingWalks.RequestsMeaning | backend/src/processes/processes.service.ts:39-41 | enough is the ceiling of rows over limit, at least one |
| PagingEnds.MetricWalkIsWindow | backend/src/metrics/metrics.service.ts:46-62 | on an unchanged table a walk ends and returns the window exactly, for every limit: a row is returned iff it is of this host and within both bounds |
| PagingEnds.FallbackWalk | backend/src/processes/processes.service.ts:31-37 | with an empty bounded window the walk returns only the first `limit` rows of the history |
| PagingEnds.WalkKeepsPromise | backend/src/processes/processes.service.ts:15-41 | the walk returns the window, or the history for an empty one, iff no fallback was needed or the history fits on a page |
| PagingEnds.ProcessWalkRows | backend/src/processes/processes.service.ts:15-41 | a row is returned iff it is of this host and within the bounds given; if the table has none such, rows of the host only, at most `limit`, and all of them if fewer |
| PagingEnds.MetricWalkIsSnapshot | backend/src/metrics/metrics.service.ts:46-62 | while samples arrive, a walk that ends has returned the whole window as the last request it made found it |
| PagingEnds.RetentionUnderWalk | backend/src/metrics/metrics.service.ts:55-58 | after a retention run the next page is unchanged iff the cursor row survived; otherwise it is empty and the walk ends |
| PagingHistory.MetricWalkUnderChanges | backend/src/metrics/metrics.service.ts:46-62 | while samples arrive, retention runs and hosts are deleted, a walk returns a stretch of the window's history in order, once each, from the oldest row first found; when it ends, all that the last request it made finds has been returned if that request still finds the last row returned, and none of it otherwise |
| Buckets.BucketFloors | backend/src/metrics/metrics.service.ts:73-78 | the calendar formula is the multiple of 60 or 300 s at or below the instant |
| Buckets.BucketUnique | backend/src/metrics/metrics.service.ts:78 | no other aligned bucket holds the instant |
| Buckets.MinuteWithinFive | backend/src/metrics/metrics.service.ts:78 | a one-minute bucket lies within the five-minute bucket of its rows |
| Buckets.NoRowTwice | backend/src/metrics/metrics.service.ts:88-95 | answers are aligned and strictly increasing and no instant lies in two |
| Buckets.EveryRowHeld | backend/src/metrics/metrics.service.ts:88-95 | every row of the window lies in a bucket of the answer iff LIMIT does not cut |
| Buckets.AverageMeaning | backend/src/metrics/metrics.service.ts:73-95 | each bucket of an answer averages, column by column, exactly the rows of the host within the bounds whose time lies in its 60 000 or 300 000 ms |
| Buckets.BucketsConserve | backend/src/metrics/metrics.service.ts:79-92 | counts times averages over all buckets add up to the window |
| Buckets.CoarseRefinesFine | backend/src/metrics/metrics.service.ts:73-95 | count times average of a five-minute bucket is what its one-minute buckets add up to |

## Left out

- Rates.PercentagesConserveBusyTicks: percentages are reals; floating-point rounding is not modelled, here and in every score and average.
- Rates.CPUPercent: follows the code, which counts every non-idle field and guest time as well; docs/os-metrics.md:7 names user, nice and system only.
- Procs.SelectionIsTopN: the sort is any function that sorts in descending order, as sort.Slice leaves ties open; it is one fixed function for both sides of the truncation law.
- HostsCache.ReadAfterWriteFails: asks for one possible answer to the metrics query, which any store with finitely many rows has.
- AlertSafety.AlertsAlternate: assumes one backend process, ids that are never reused, and a cron tick strictly later than all before it; with a clock that goes back the order of a log is not defined by its times.
- AlertWitness.OverlappingPassesRepeat: the two passes are a given state, as the flag keeps every run from reaching it.
- AlertPass.PassSettles: the condition and the timestamp of its event use one reading of the clock, where the code reads it twice in a row.
- HostsCache.ShownOnlineIsNotDown: that lastSeenAt never goes back is assumed there and proved for one agent's increasing samples in Delivery.
- Delivery.RunDelivers: the sends of different agents come one after the other, each with all its requests; requests may be lost, refused, or handled with the answer lost, but none is handled after the client gave up on it.
- Paging.FindProcesses: rows of one timestamp are taken in one fixed order; the queries order by time alone, and the cursor's page starts right behind the cursor row in that order.
- Paging.FindMetrics: a limit that does not parse as a number is not modelled; the database then refuses the query.
- PagingEnds.MetricWalkIsSnapshot: new rows are added behind all others of their host, as one agent's samples arrive in order of time.
- PagingHistory.MetricWalkUnderChanges: rows of the host arrive in order of time, and ids are never reused.
- Schedule.StarvedForever: the calls of Sample are 10 to 15 s apart; a send that retries for longer than that delays the next tick.
- AlertsCron.Engine.CheckAlerts: an event whose rule or host was deleted in between, and the query answers of a changing database, appear in the step system only.
- Buckets.CoarseRefinesFine: for the float columns; the two bigint columns are rounded by the database after averaging.
- EnvFile.Generate: failing to write the file or to draw random bytes is not modelled; random bytes are an argument.
- Sampling.Sampler.Sample: memory, load and disk figures are read values, not computed from their files; a panic in the stat parser is not carried into the sampler.
- Backend.IngestService.Ingest: validation by the request DTO and the database's own integer ranges are not modelled; a fractional byte rate is a server error.
- Retention.Service.RunRetention: parseInt is not modelled, the day counts are its results.
- HTTP, TLS, gzip, JSON and the internals of the ORM and the database: a request outcome is a datatype, a query is its stated answer.
- Reading `/proc/stat` and `/proc/net/dev`, clocks, jitter and signals: counters and times are arguments.
- Authentication, guards, the agent's command server and configuration loading: each is settled by one branch; positive intervals and process counts (agent/internal/config/config.go:99-107) are taken as given where a theorem needs them.
- Web pages, terminal interfaces, container launching and shell scripts: user interface and foreign calls.
- Cron scheduling and rate limiting: a tick is a step that may come at any time.
