# Verified model of gapi-server's concurrent core

This project models the parts of gapi-server whose correctness depends on
order, time or interleaving, and proves their properties for all inputs and all
runs: the batched etcd lock, the cron job manager with its recorder and job
table, login lockout and refresh-token rotation, the load balancers, the
discovery cache, the execution history pages, and the captcha ledger.
`dafny verify dfyconfig.toml` checks everything.

| file | what it holds |
|---|---|
| `Basics.dfy` | optional values, word bounds, facts about set sizes |
| `Lexicographic.dfy` | the byte order of keys; sorting and its uniqueness |
| `LockStore.dfy` | what a mutex needs of etcd; how keys become paths |
| `LockProtocol.dfy` | any number of lock clients, interleaved round trip by round trip, with faults and crashes |
| `Locker.dfy` | `LockBatch`, `Unlock` and `rollback` as objects over an etcd that others use at the same time |
| `LockMerge.dfy` | several clients running the code of `Locker.dfy` at once: their traces merge into one run of `LockProtocol.dfy` |
| `CronManager.dfy` | one scheduler instance: entry table, entry map, cancel map; the `JobManager` object |
| `CronSystem.dfy` | several instances, every handler run interleaved step by step, one shared execution table and etcd |
| `CronCompleteness.dfy` | exactly when the cancel map of an instance can be relied on for a skip or delay job |
| `JobTable.dfy` | the job definition table, `Start`, the enable and disable requests |
| `SharedTable.dfy` | several instances over one job table: when flags and schedules agree everywhere |
| `ExecutionLog.dfy` | recording one execution; pages of the history |
| `Auth.dfy` | login lockout, token rotation, the `AuthService` object |
| `Balancer.dfy` | round robin with its 64-bit counter, weighted random |
| `Discovery.dfy` | grouping, the cache object, and the cache against a changing store |
| `Captcha.dfy` | the captcha ledger and the `CaptchaService` object |
| `CaptchaOverlap.dfy` | captcha attempts that overlap: read, delete and verdict as separate steps |

How the model is built: objects whose methods update their fields are classes;
their methods are proved against functions of the old state, and the same
functions are the steps of the transition systems about which the results over
whole runs are proved. The lock client goes one step further: its methods carry
a trace, and `Traced` says that everything they did to the store is a sequence
of steps that `LockProtocol` allows one of its clients, faults included; and the
traces of any number of clients merge into one run of `LockProtocol`.
Readings of the clock, random draws, fresh ids, the outcome of a password
comparison, the success of each Redis operation and the replies of etcd are
parameters, so every result holds for all of them.

Where a property of the code holds only under a condition, the condition is
exact: `CompleteIff` and `EnableIsSafeIff` (a job is put back into the schedule
of a ticking clock only when no run of its removed entry is pending),
`ReusableIff` (an accepted refresh token can be accepted again exactly when its
successor is minted in the second it was minted in), `LogoutExact` and
`JudgedIff` (what a failed delete leaves behind), `NeverOlderIff` (no prefix is
watched twice), `AlwaysBalancedIff` (the list length divides 2^64),
`WeightedShareIff` (the sum of the weights fits in an int), `EnableAgreement`
(the scheduler exists and the interval parses), `AllAgreeIff` and `OneCallIff`
(every instance has done what was asked for last), `ReloadMirrorsIff` (no service
loses its last instance or lives under two prefixes), `TwoTokensIff` (both
attempts read before any delete), and the total of `ListExecutions` (the wrapped offset is
not negative, or the history is empty or fills a page).
`DisorderlyRunHidesHandler`, `SameSecondReuse`, `OneJobWithoutScheduler` and
`OverlapGivesTwoTokens` are concrete runs that fail.
`SameSecondReuse` also differs from the repository's documentation, which says
that a refresh token is invalid once used (`README.md:178`): the code reissues
the same string when the rotation falls into the second in which the token was
minted.

## Model

| member | source | states |
|---|---|---|
| Lexicographic.SortedUnique | pkg/etcd/lock.go:102-104 | the sorted copy of the key list is determined by the list: two ascending arrangements of the same keys are equal |
| Lexicographic.LeqMeans | pkg/etcd/lock.go:102-104 | the order of keys is byte by byte: the smaller one ends first, or is smaller where the two first differ |
| LockPaths.PathKeepsOrder | pkg/etcd/lock.go:58-63 | under one prefix two full paths are ordered exactly as their keys are |
| LockPaths.SamePathIff | pkg/etcd/lock.go:58-63 | every path lies under /gapi/lock/, and two paths are equal exactly when prefix, slash and key spell the same text |
| LockPaths.NamespacesSeparate | pkg/etcd/lock.go:58-63 | under prefixes without a slash equal paths have equal prefixes and equal keys |
| LockPaths.UnprefixedMeets | pkg/etcd/lock.go:58-63 | a key without a prefix gives a path of a prefix exactly when it spells out that prefix, a slash and the key |
| LockPaths.NamespacesDisjoint | pkg/etcd/lock.go:58-63 | two different prefixes without a slash have no path in common, whatever the keys |
| LockPaths.LockOrderAscends | pkg/etcd/lock.go:102-104 | the loop locks the paths in ascending order, and exactly the requested ones, duplicates included |
| LockProtocol.StepFrame | pkg/etcd/lock.go:96-178 | no step of one client adds, removes or reorders a key of another session, or moves another client |
| LockProtocol.MutualExclusion | pkg/etcd/lock.go:84-87 | in every reachable state, with any faults and crashes, no two clients with live leases have acquired the same path |
| LockProtocol.AllOrNothing | pkg/etcd/lock.go:86-151 | a client that holds its batch owns exactly the set of requested paths; a client that is done has no key left |
| LockProtocol.NoWaitCycle | pkg/etcd/lock.go:86 | no reachable state has a cycle of clients each waiting for the next |
| LockProtocol.DeadlockFree | pkg/etcd/lock.go:86 | as long as some client is not done, some client can take a step that needs no fault |
| LockProtocol.RunsAreBounded | pkg/etcd/lock.go:96-178 | every run, faults included, is at most as long as the acquire and release steps its clients have left |
| LockProtocol.MaximalRunEndsEmpty | pkg/etcd/lock.go:153-178 | a run that cannot go on has finished every client and left the store empty |
| LockProtocol.EveryBatchCompletes | pkg/etcd/lock.go:58-151 | both results for arbitrary batches with arbitrary prefixes and duplicate keys |
| LockProtocol.DifferentPrefixesNeverWait | pkg/etcd/lock.go:40-43 | in no run does a batch wait for one under another prefix without a slash |
| LockProtocol.NoOvertaking | pkg/etcd/lock.go:135-142 | over every run in which a client only waits for a path: the sessions in front of it only get fewer, only they are granted the path, and so at most as many clients go first as were in front of it |
| LockProtocol.OthersQueueUp | pkg/etcd/lock.go:121-148 | while a client does nothing the others leave its keys alone, and every key they add is younger than all that were there: what the lock client relies on between two round trips |
| Locker.NotOvertaken | pkg/etcd/lock.go:121-148 | whatever other sessions do between two round trips, a path that is owned stays owned |
| Locker.LeadsOn | pkg/etcd/lock.go:96-187 | a trace of round trips and allowed protocol steps stays one when the next one is added |
| Locker.Etcd.Request | pkg/etcd/lock.go:125-142 | asking for a mutex gives the session a key on that path and disturbs nothing it owns; on an error the key may or may not be there and the client is on its way out; a session whose lease has ended gets an error |
| Locker.Etcd.Delete | pkg/etcd/lock.go:127-143 | taking back a mutex that was not acquired removes the session's key on that path and no other; on an error it may still be there |
| Locker.Etcd.TryLock | pkg/etcd/lock.go:127-134 | success means the path is owned, a refusal means that another session was on it and that the key is gone again, any other error that a round trip was answered with one, and without faults and contention it succeeds |
| Locker.Etcd.Await | pkg/etcd/lock.go:135-142 | a wait ends with the path owned, the lease alive and nothing owned before lost; or, after a round trip that was answered with an error or found the lease ended, or at the end of the caller's context, with an error and the key taken back |
| Locker.Etcd.Lock | pkg/etcd/lock.go:135-142 | success means the path is owned by a session that is alive, and everything owned before still is; a timeout needs the end of the caller's context; any other failure needs a round trip that was answered with an error or found the lease ended; however many others are in front |
| Locker.Etcd.Acquire | pkg/etcd/lock.go:127-143 | the same for the mode of the call: only try mode reports a refusal, only blocking mode a timeout; the client of the protocol is one path further, or on its way out |
| Locker.Etcd.Unlock | pkg/etcd/lock.go:168-171 | releasing a mutex removes the session's key on that path and no other; on an error it may still be there |
| Locker.Etcd.CloseSession | pkg/etcd/lock.go:173-175 | a successful revocation leaves the session without keys and the client done |
| Locker.FirstErrorMeans | pkg/etcd/lock.go:163-178 | the error returned is that of the first failed operation, and there is none exactly when all succeeded |
| Locker.LockResult.ReleaseMutexes | pkg/etcd/lock.go:167-172 | every mutex is tried once, last acquired first, also after failures; the first error is kept |
| Locker.LockResult.Unlock | pkg/etcd/lock.go:163-178 | the first call tries every mutex once in reverse order even after failures, then revokes the session, and returns the first error of that sequence; every later call returns nothing and changes nothing; all it does is a run of the protocol's client from holding to done, or to lost if the revocation failed |
| Locker.LockResult.Rollback | pkg/etcd/lock.go:180-187 | everything acquired so far is released in reverse order and the session is revoked, also when nothing was acquired |
| Locker.AcquireAll | pkg/etcd/lock.go:121-148 | either all paths are acquired, or exactly the ones acquired before the failure are released in reverse order, at every failure point and in both modes; which errors need which cause |
| Locker.AcquireNext | pkg/etcd/lock.go:126-147 | one turn of the loop: the next path is acquired too, or what was acquired so far is released in reverse order and the session revoked |
| Locker.LockBatch | pkg/etcd/lock.go:96-151 | all or nothing: success gives a session that is alive at the last round trip and owns the path /gapi/lock/prefix/key (or /gapi/lock/key without a prefix) of every key and no other; an error leaves the session without keys once it is closed or its lease has ended; in blocking mode a timeout needs the end of the caller's context, and any other error a round trip that was answered with one or found the lease ended; other sessions hold only what they themselves made of the store; all it does is a sequence of steps that the protocol allows one client, from acquiring the first path to holding, done or lost |
| Locker.NamespacesNeverContend | pkg/etcd/lock.go:40-43 | if all other sessions lock under other prefixes without a slash, nothing is ever in the way of the call |
| LockMerge.ServedIsOrdered | pkg/etcd/lock.go:96-151 | replies that show one protocol run at successive moments are in the order of revisions that the lock client relies on |
| LockMerge.TracesMerge | pkg/etcd/lock.go:96-187 | in whatever order the round trips of several clients are served, with faults and ended leases, their traces merge into one run of the protocol |
| LockMerge.BatchesMerge | pkg/etcd/lock.go:96-187 | the same for any number of calls of LockBatch with arbitrary keys and prefixes, followed or not by Unlock: each client ends where its trace ends, with the keys it believes to have |
| LockMerge.HeldBatchesAreDisjoint | pkg/etcd/lock.go:84-87 | no two calls of LockBatch that have returned their results hold a path in common |
| LockMerge.NoCodeDeadlock | pkg/etcd/lock.go:86 | no number of calls of LockBatch ever wait for each other in a circle |
| CronState.DisableEnable | internal/cronjob/manager.go:136-160 | disabling and enabling again leaves the same jobs scheduled, this one under a fresh entry |
| CronManager.JobManager.RegisterJob | internal/cronjob/manager.go:174-188 | a job whose interval parses gets a new cron entry and the map points to it; otherwise, and also when there is no scheduler and the call panics, nothing changes |
| CronManager.JobManager.EnableJob | internal/cronjob/manager.go:136-149 | unknown jobs are reported, scheduled jobs are left alone, others are registered, which panics without a scheduler; each answer by its condition on the job list, the entry map and the interval of the first job of that name |
| CronManager.JobManager.DisableJob | internal/cronjob/manager.go:151-168 | the entry goes from table and map; the current cancel function is called exactly when that is asked for and there is one |
| CronManager.JobManager.Stop | internal/cronjob/manager.go:86-99 | the clock is halted and exactly the contexts named in the cancel map are cancelled, in whatever order the map is walked |
| CronManager.JobManager.TriggerManual | internal/cronjob/manager.go:115-134 | unknown exactly when no job has the name; refused as running exactly when not forced, in the cancel map and not allowed to run concurrently |
| CronManager.JobManager.RegisterCancel | internal/cronjob/manager.go:195-197 | from now on a disable with cancellation reaches this run and an unforced trigger of a job that may not overlap is refused; triggers of other jobs are judged as before |
| CronManager.JobManager.LeaveHandler | internal/cronjob/manager.go:198-203 | from now on no trigger of that name is refused as running and a disable with cancellation cancels nobody, whoever had written the entry |
| CronSystem.StepInv | internal/cronjob/manager.go:190-289 | every step of every handler, request and scheduler tick keeps the invariant on leases, rows, statuses and cancel maps |
| CronSystem.OneHolderPerName | internal/cronjob/manager.go:205-216 | over any number of instances at most one scheduled run of a name is at work with its lease alive, because its key is the oldest on the path of the job |
| CronSystem.MutualExclusion | internal/cronjob/locker_adapter.go:18-24 | as long as nobody at work loses its lease, no two scheduled runs of one name execute at the same time, on any instances |
| CronSystem.LockPathInjective | internal/cronjob/locker_adapter.go:18-24 | a job locks the path /gapi/lock/cron/ followed by its name; different jobs have different paths |
| CronSystem.LocksAreSeparate | internal/cronjob/locker_adapter.go:18-24 | in every reachable state whoever has a key on the path of a job is a scheduled run of that job |
| CronSystem.StepOwners | internal/cronjob/manager.go:205-212 | whoever is first on a path stays first through every step of the system, until its own key goes |
| CronSystem.WindUpOrder | internal/cronjob/manager.go:198-212 | in every mode and interleaving a handler lets go of its lock before it cancels its own context, and does that before it drops its map entry |
| CronSystem.RefusedWritesNothing | internal/cronjob/manager.go:205-211 | an activation that does not get the lock never writes an execution row |
| CronSystem.CancelMapSound | internal/cronjob/manager.go:193-203 | in every mode each entry of the cancel map cancels a live handler of that job, and a name without a live handler is absent |
| CronSystem.LedgerBalances | internal/cronjob/manager.go:229-276 | rows in status running and runs that have opened a row correspond one to one |
| CronSystem.RunningRowsCountExecutions | internal/service/cron_job.go:66-90 | with recorder writes succeeding, as many rows are in status running as executions are in flight |
| CronSystem.StepKeepsFinished | internal/dal/cron_job.go:71-79 | a step changes an existing row only by finishing a running one |
| CronSystem.FinishedOnce | internal/cronjob/manager.go:115-134 | a row is finished as soon as its run no longer executes, never changes afterwards, and a manually triggered one does not end cancelled even if its request ends first, because its context is detached |
| CronSystem.RowTellsOutcome | internal/cronjob/manager.go:240-276 | in every run a finished row was written by one Finish step of its run: panicked exactly when the job panicked, aborted exactly when it did not and the run's cancel function had been called, otherwise failed or successful as the job returned an error or not |
| CronSystem.TurnedAwayIff | internal/cronjob/manager.go:218-226 | an activation ends unserved exactly when its job skips and its entry is busy; one whose job delays waits until the entry is free; all others are let in |
| CronSystem.NoTickAfterStop | internal/cronjob/manager.go:86-93 | in no run does the clock of an instance tick after that instance was stopped |
| CronSystem.CancelledOnlyWhenAsked | internal/cronjob/manager.go:86-100 | in every run the context of a handler is cancelled only by the handler's own end, by a stop, or by a disable that asks for it |
| CronCompleteness.CancelMapComplete | internal/cronjob/manager.go:115-168 | for a skip or delay job, in orderly runs: its name is in the map exactly when a handler of it is live, there is at most one, an unforced trigger is refused exactly then, disabling with cancellation or stopping reaches it, and a handler that holds the lock is still in the map |
| CronCompleteness.StepOneInside | internal/cronjob/manager.go:218-226 | in every run the wrapper of a cron entry lets in one run at a time |
| CronCompleteness.PutBackHides | internal/cronjob/manager.go:136-149 | from every well kept state in which a job is put back while a run of its removed entry is pending, a live handler can become impossible to find |
| CronCompleteness.RunWellKept | internal/cronjob/manager.go:174-227 | every run, disorderly ones too, keeps entry numbers and wrappers well |
| CronCompleteness.ReachablePutBackHides | internal/cronjob/manager.go:136-149 | so the handler can be hidden from every reachable state of that kind |
| CronCompleteness.EnableIsSafeIff | internal/cronjob/manager.go:136-149 | enabling a job keeps its map entry reliable, however things go on, exactly when it does not put the job back while a run of its removed entry is pending |
| CronCompleteness.CompleteIff | internal/cronjob/manager.go:115-168 | for all runs: from no point on can the map become incomplete without a further enable, if and only if no enable on the way put the job back while a run of its removed entry was pending |
| CronCompleteness.ReachableDisableEnableHides | internal/cronjob/manager.go:136-168 | disabling and enabling at once is enough, from every reachable state in which the job is scheduled and a run of it is pending |
| CronCompleteness.DisorderlyRunHidesHandler | internal/cronjob/manager.go:136-149 | a concrete such run, after which an unforced trigger of a running skip job is let through |
| JobTable.SyncKeepsRows | internal/dal/cron_job.go:23-38 | synchronisation leaves flag, last run and last status of existing rows and all unrelated and deleted rows alone |
| JobTable.SyncOneRowPerName | internal/dal/cron_job.go:23-38 | after synchronisation there is one live row per name and every job has one |
| JobTable.SyncWrites | internal/dal/cron_job.go:23-38 | the row of every job has the job's interval and no description; a new row has the default flag and no last run; no row goes |
| JobTable.SyncIdempotent | internal/service/cron_job.go:32-44 | synchronising twice is synchronising once, duplicate job names included |
| JobTable.StartAgrees | internal/cronjob/manager.go:50-84 | after a start with distinct names the scheduled jobs are exactly the enabled ones and the entry map is a bijection |
| JobTable.StartedInstancesAreInitial | internal/cronjob/manager.go:50-84 | started instances are an initial state of the system of interleaved runs |
| JobTable.EnableAgreement | internal/handler/v1/cron_job.go:92-108 | an enable request keeps schedule and flags in agreement exactly when the job is unknown, scheduled already, or can be added: there is a scheduler and the interval is valid |
| JobTable.DisabledStartAgreesIff | internal/cronjob/manager.go:50-54 | after a start that the configuration disables, the empty schedule agrees with the flags exactly when they are all off |
| JobTable.EnableWithoutScheduler | internal/cronjob/manager.go:174-179 | then every request to enable a known job sets the flag, panics in the scheduler and breaks the agreement, whatever its interval |
| JobTable.OneJobWithoutScheduler | internal/cronjob/manager.go:174-179 | one such input |
| JobTable.DisableAgreement | internal/handler/v1/cron_job.go:121-142 | a disable request keeps schedule and flags in agreement, for known and unknown names |
| JobTable.AgreementHolds | internal/handler/v1/cron_job.go:92-142 | with distinct names and valid intervals the agreement holds after every run of requests and finished executions |
| JobTable.CronJobService.SyncJobDefinitions | internal/service/cron_job.go:32-44 | the loop has the effect described by the table function |
| JobTable.CronJobService.SetEnabled | internal/dal/cron_job.go:50-54 | a job that has a row is enabled afterwards exactly as asked; no other job's flag, no other column and no other row changes |
| JobTable.CronJobService.IsJobEnabled | internal/service/cron_job.go:46-56 | the flag of the job's row; a job without a row counts as enabled |
| JobTable.CronJobService.UpdateLastRun | internal/dal/cron_job.go:56-64 | the live row of that name gets the outcome; no job's flag and no other row changes |
| JobTable.Start | internal/cronjob/manager.go:50-84 | success registers every enabled job; it fails exactly when an enabled job has an invalid interval; a disabled scheduler leaves everything untouched |
| JobTable.CronJobHandler.Enable | internal/handler/v1/cron_job.go:92-108 | flag first, then schedule; which error is reported, also when the scheduler does not exist and only the flag changes; there is none exactly when the job is known and scheduled afterwards |
| JobTable.CronJobHandler.Disable | internal/handler/v1/cron_job.go:121-142 | flag first, then schedule: the job is gone from the entry map, and its run is cancelled exactly when that is asked for |
| SharedTable.FlagIsWanted | internal/handler/v1/cron_job.go:92-142 | after any run of requests to any instances the flag of a job is what the last request about it asked for |
| SharedTable.ScheduleIsDone | internal/cronjob/manager.go:136-168 | and the schedule of an instance is what the last request that it served itself asked for, as far as it was able |
| SharedTable.AllAgreeIff | internal/handler/v1/cron_job.go:92-142 | flags and schedules agree on every instance exactly when for each job each instance has done what the last request of all asked for |
| SharedTable.OneCallIff | internal/handler/v1/cron_job.go:92-142 | one request keeps several instances in agreement exactly when it is about no known job, asks for what is so already, or is served by the only instance, which is able to do it |
| ExecutionLog.NewestFirstMembers | internal/dal/cron_job.go:81-85 | the history of a job is its rows that are not deleted, and no others |
| ExecutionLog.NewestFirstDescends | internal/dal/cron_job.go:81-85 | it is in strictly descending order of ids |
| ExecutionLog.FindByPage | internal/dal/query/sys_cron_job_execution.gen.go:399-412 | the total is the full count unless the offset is negative and the first page is neither empty nor full |
| ExecutionLog.ListExecutions | internal/service/cron_job.go:118-131 | with an offset that fits in an int the total is the full count and the rows are those from (page - 1) * size on, at most size many, a page below 1 counting as 1, a size below 1 or above 100 as 20; exactly when the total is right otherwise |
| ExecutionLog.PagesPartition | internal/service/cron_job.go:118-131 | as many pages as the total asks for concatenate to the whole history, and the page after them is empty |
| ExecutionLog.Recorder.RecordStart | internal/service/cron_job.go:66-78 | one running row with a fresh positive id, or id 0 and no row when the write fails |
| ExecutionLog.Recorder.RecordEnd | internal/dal/cron_job.go:71-79 | the row of that id, one at most, gets status and error; no other column and no other row changes |
| ExecutionLog.Recorder.ExecuteWithRecording | internal/cronjob/manager.go:229-289 | an execution adds exactly one row, or none without a start record; the status is panicked exactly after a panic, aborted exactly when the context was cancelled without one, failed and successful exactly as the job returned otherwise; the last run of the job is updated with that status as text in every case |
| Auth.LockoutInvariant | internal/service/auth.go:127-145 | the stored counter equals the failures evaluated since the last success, and from the fifth on the lock reaches 30 minutes beyond the last failure |
| Auth.LockoutSpan | internal/service/auth.go:22-27 | n > 5 evaluated failures in a row span at least (n - 5) * 30 minutes from the fifth to the last |
| Auth.LockedOut | internal/service/auth.go:127-145 | in every run, after a failure that is at least the fifth since the last success no attempt succeeds that reads the clock less than 1,800,000,000,000 ns after that failure was written, right password or not: an enabled account answers locked, another one disabled |
| Auth.FailureStep | internal/service/auth.go:127-145 | what counts as a failure since the last success, by enabled flag, lock end and password |
| Auth.LockoutBoundIsSharp | internal/service/auth.go:127-141 | that bound is attained for every n |
| Auth.CounterStaysSmall | internal/dal/model/sys_user.gen.go:27 | the 32-bit counter cannot overflow within a hundred thousand years |
| Auth.AcceptedOnce | internal/service/auth.go:161-184 | in any run on a clock that does not go back, a token whose rotation mints in a later second than the token's own is never accepted again |
| Auth.ReusableIff | internal/service/auth.go:161-184 | a run that ends with an accepted token can go on to accept it again if and only if its successor was minted in the second the token carries |
| Auth.DistinctSecondsSuffice | internal/service/auth.go:161-184 | if no two tokens of a user are minted in one second, every token is accepted at most once, whatever the clock does |
| Auth.OneAcceptable | internal/dal/token.go:17-27 | at any moment at most one refresh token of a user is acceptable |
| Auth.StoredUntilExpiry | internal/dal/token.go:17-23 | a stored token is accepted exactly until the configured number of seconds after the second it was minted in; the slots of other users stay |
| Auth.AcceptedUntilExpiry | internal/dal/token.go:17-23 | the same over runs, as long as no later login, rotation or logout of the user comes |
| Auth.NothingAfterLogout | internal/service/auth.go:186-190 | after a logout whose delete succeeds no refresh token of the user is accepted until the next login |
| Auth.LogoutExact | internal/service/auth.go:186-190 | a token is acceptable after a logout if and only if it was before and the delete failed |
| Auth.SameSecondSameToken | pkg/jwt/jwt.go:69-83 | two refresh tokens of a user are the same string exactly when minted in the same second |
| Auth.SameSecondReuse | internal/service/auth.go:161-184 | a run within one second in which a token is accepted twice |
| Auth.AuthService.Login | internal/service/auth.go:113-159 | logged in exactly when the account exists, is enabled, has no lock end or one that has passed, the password matches and the token can be stored; disabled, locked and invalid by the same fields; only the account of that address changes, as the lock rules say; only a success mints and stores a token; a failed store of the token is an error after the row was updated |
| Auth.AuthService.RefreshToken | internal/service/auth.go:161-184 | accepted exactly when the token parses, is alive, is the stored one and the new one can be stored; then the slot holds the new token, otherwise nothing changes |
| Auth.AuthService.Logout | internal/service/auth.go:186-190 | afterwards a token is acceptable at any time exactly if it was and belongs to another user or the delete failed |
| Balancer.RoundRobinBalancer.Pick | pkg/etcd/balancer.go:20-26 | the position before the increment modulo the length; the counter wraps at 2^64; an empty list consumes no tick |
| Balancer.FreeCountExact | pkg/etcd/balancer.go:24-25 | how often each position is picked in a window of any length |
| Balancer.RoundRobinFair | pkg/etcd/balancer.go:20-26 | without a wrap any two positions are picked equally often up to one, and k rounds pick each exactly k times |
| Balancer.AlwaysBalancedIff | pkg/etcd/balancer.go:17-25 | windows from every counter value are balanced, across the wrap too, exactly when the length divides 2^64 |
| Balancer.TotalWeight | pkg/etcd/balancer.go:43-50 | the bound of the draw is the sum of the positive weights plus one for every other instance, in 64-bit arithmetic, and that positive sum itself when it fits |
| Balancer.PrefixSumMeans | pkg/etcd/balancer.go:43-60 | the sums that the draw is compared with add up the weights of the instances so far, those not positive counting as one |
| Balancer.PickWeighted | pkg/etcd/balancer.go:39-63 | the picked position is the one whose prefix sums enclose the draw and the fallback return is not reached; the draw panics exactly when the sum has overflowed to zero or below |
| Balancer.SelectsOne | pkg/etcd/balancer.go:51-61 | every draw below the total selects one position and no other |
| Balancer.WeightedShare | pkg/etcd/balancer.go:51-61 | of the draws below the sum exactly instances[i].weight select position i, or one if that weight is not positive |
| Balancer.WeightedShareIff | pkg/etcd/balancer.go:43-61 | when a draw is possible, every position gets its weight's share of the possible draws, one for a weight that is not positive, if and only if the sum fits in an int |
| Discovery.GroupingIsStable | pkg/etcd/discovery.go:78-85 | the group of a service is its decodable instances in stored order, and a service without any has no group |
| Discovery.GroupHolds | pkg/etcd/discovery.go:78-85 | a group holds, in stored order, the values that decode to an instance with the service's name, each once, and no others |
| Discovery.SizesAddUp | pkg/etcd/discovery.go:78-85 | the group sizes add up to the number of decodable values |
| Discovery.DiscoveryCache.Group | pkg/etcd/discovery.go:78-85 | the loop computes the grouping and leaves no empty group |
| Discovery.DiscoveryCache.LoadPrefix | pkg/etcd/discovery.go:72-93 | a successful read replaces the groups of that prefix only, a failed one changes nothing |
| Discovery.DiscoveryCache.AnnounceService | pkg/etcd/discovery.go:140-143 | every listener is told once, in the order of registration |
| Discovery.DiscoveryCache.Announce | pkg/etcd/discovery.go:139-144 | every service of the new groups is announced once to every listener, in some order of the services |
| Discovery.BroadcastAt | pkg/etcd/discovery.go:139-144 | the announcements are services times listeners many; each service in turn is told to each listener in turn, once, with the instances of its group |
| Discovery.DiscoveryCache.ReloadPrefix | pkg/etcd/discovery.go:115-147 | the same replacement, followed by the announcements; a failed read does neither |
| Discovery.DiscoveryCache.OnChange | pkg/etcd/discovery.go:176-180 | every announcement from now on goes to this listener too, after all the earlier ones |
| Discovery.DiscoveryCache.GetInstances | pkg/etcd/discovery.go:149-157 | all cached instances of the service over all prefixes, as a multiset, in whatever order the map is walked |
| Discovery.PoolHolds | pkg/etcd/discovery.go:149-157 | these are the instances cached under some prefix for the service, and what two prefixes hold adds up |
| Discovery.DiscoveryCache.MergeInto | pkg/etcd/discovery.go:169-171 | every group of one prefix is appended to the result |
| Discovery.DiscoveryCache.GetAllServices | pkg/etcd/discovery.go:164-174 | for every service the same multiset as GetInstances, with keys exactly the services that have instances |
| Discovery.HeardBroadcast | pkg/etcd/discovery.go:139-144 | what one reload announces replaces exactly the announced services in a listener's copy |
| Discovery.ReloadMirrorsIff | pkg/etcd/discovery.go:115-147 | a listener that keeps a copy of what it is told stays equal to GetAllServices over a reload exactly when no service lost its last instance under the prefix and no announced service has instances under another one |
| DiscoveryProtocol.CacheFollowsStore | pkg/etcd/discovery.go:53-137 | with distinct prefixes, during the start and after it, each cached prefix is the stable grouping of one version of the store and never goes back to an older one |
| DiscoveryProtocol.NeverOlderIff | pkg/etcd/discovery.go:53-68 | the cache can never go back if and only if no prefix is watched twice; the failing run overlaps two reloads after a complete start |
| DiscoveryProtocol.UnderHolds | pkg/etcd/discovery.go:72-80 | what a prefix sees of the store are the entries whose key begins with it, each once and in order |
| Captcha.LedgerCounts | internal/service/captcha.go:65-81 | consumed tokens <= issued tokens <= burned challenges + failed deletes, and burned <= generated challenges, after every run; without failed deletes the four are in order |
| Captcha.OneAttempt | internal/service/captcha.go:66-78 | the first attempt on a live challenge whose delete succeeds, right or wrong, makes every later one expired, for each of the three kinds |
| Captcha.JudgedIff | internal/service/captcha.go:66-78 | an attempt is judged if and only if the challenge was generated less than three minutes ago and the delete of every earlier judged attempt failed |
| Captcha.OneTokenPerChallenge | internal/service/captcha.go:103-129 | a second token for a challenge needs a failed delete at every earlier one |
| Captcha.FailedDeleteRepeats | internal/service/captcha.go:72-80 | after a failed delete the same right response within the three minutes gives a second token |
| Captcha.NoTokenWhenLate | internal/service/captcha.go:17-20 | no token is issued for an unknown challenge, or three minutes or more after the challenge was generated |
| Captcha.IssuedIff | internal/service/captcha.go:65-81 | over runs an attempt gets a token if and only if its challenge was generated less than three minutes ago with an answer that the response fits, no earlier attempt removed the answer, and a token could be stored |
| Captcha.AcceptedIff | internal/dal/captcha.go:119-133 | over runs a token would be accepted if and only if an attempt got it less than five minutes ago and nobody consumed it |
| Captcha.TokenWasEarned | internal/service/captcha.go:65-174 | whoever uses a token has an attempt behind it, less than five minutes old, whose response passes the geometric test with padding 5 (slide, rotate) or 15 (every dot of a click) against the answer generated for the challenge less than three minutes before |
| Captcha.ConsumedOnce | internal/dal/captcha.go:123-133 | in any order of consumers a token is consumed at most once, and only after it was issued |
| CaptchaOverlap.ReadIff | internal/service/captcha.go:66-74 | when attempts overlap, an attempt is judged exactly when it read the challenge within three minutes and before any delete on it succeeded; nothing later matters, its own delete included |
| CaptchaOverlap.TwoTokensIff | internal/service/captcha.go:65-81 | two attempts on one challenge both have a token exactly when both read it in that time and both were judged right with a token that could be stored |
| CaptchaOverlap.NoTokenAfterDelete | internal/service/captcha.go:66-74 | an attempt that reads after a delete that succeeded gets no token |
| CaptchaOverlap.OverlapGivesTwoTokens | internal/service/captcha.go:65-81 | a run in which every delete succeeds and one challenge gives two tokens |
| Captcha.CaptchaService.GenerateSlide | internal/service/captcha.go:44-63 | the answer is held under the id for three minutes; when drawing or storing fails there is no challenge |
| Captcha.CaptchaService.GenerateClick | internal/service/captcha.go:83-101 | the same for a click challenge |
| Captcha.CaptchaService.GenerateRotate | internal/service/captcha.go:131-149 | the same for a rotate challenge |
| Captcha.CaptchaService.IssueToken | internal/service/captcha.go:176-183 | the token is held for 300 seconds; a failed store issues none |
| Captcha.CaptchaService.DeleteSlideAnswer | internal/dal/captcha.go:54-56 | the answer is gone and the challenge burned, or the delete failed and everything is as before; all other keys stay |
| Captcha.CaptchaService.DeleteClickAnswer | internal/dal/captcha.go:83-85 | the same for a click challenge |
| Captcha.CaptchaService.DeleteRotateAnswer | internal/dal/captcha.go:113-115 | the same for a rotate challenge |
| Captcha.CaptchaService.ValidateSlide | internal/service/captcha.go:65-81 | expired exactly without a live stored answer; otherwise invalid exactly when geometry.slide fails against it with padding 5; otherwise a token for 300 seconds if it can be stored; the answer is deleted unless expired or that fails |
| Captcha.CaptchaService.ValidateClick | internal/service/captcha.go:103-129 | the same for a list of dots: invalid exactly when their number differs or some geometry.click against the dot of that index fails with padding 15 |
| Captcha.CaptchaService.CheckDots | internal/service/captcha.go:114-126 | right exactly when there are as many dots as targets and each dot hits the target of its index with padding 15 |
| Captcha.CaptchaService.ValidateRotate | internal/service/captcha.go:151-167 | the same for an angle: invalid exactly when geometry.rotate fails against the stored angle with padding 5 |
| Captcha.CaptchaService.ValidateCaptchaToken | internal/dal/captcha.go:123-133 | succeeds exactly when the token is held and alive, and removes it |

## Left out

- CronSystem.MutualExclusion: speaks of runs in which nobody at work loses its lease; a lease that ends under a working handler is covered by CronSystem.OneHolderPerName alone.
- JobTable.AgreementHolds: is about one instance after a successful start; SharedTable.AllAgreeIff has several, and the start that the configuration disables.
- etcd, Redis, the database, robfig/cron, bcrypt and JWT signing are not part of this model beyond small contracts: a key with a creation revision per path and session, keys with an expiry, a table of rows, one handler at a time per skip or delay entry, a given result of the password comparison, and tokens that are their claims.
- Two mutexes conflict when their paths are equal; that etcd's mutex also looks at keys below a path that extends another one is not modelled.
- A round trip of the lock client is one atomic step of the store, as is the request of a mutex; the session keep-alive is not modelled, only its loss, which a client notices at its next round trip.
- In LockMerge what a client does within one round trip comes before any other client's next move.
- In the cron system asking for a lock, learning its outcome and giving it back are one step each; their round trips are those of the lock protocol.
- Overlapping calls of `EnableJob`, of `Login` or of `RefreshToken` on the same key: they read and then write without a lock, and are taken as atomic here.
- Failures of database reads and of user-row writes; failures of the recorder's final writes; a Redis write that takes effect although it reports an error.
- The sorting algorithm of the standard library; its result is determined by SortedUnique.
- The uniform `RandomBalancer`, access tokens, password hashing, registration and e-mail activation, permissions, tours.
- Changes to the store between the first load of a prefix and the start of its watch; no convergence is claimed.
- HTTP binding and response codes, middleware, i18n, logging, e-mail, images, configuration, wiring, other generated queries, migrations.
- The order in which `Start` and `Stop` log and the shutdown timeout; `updated_at`, `started_at`, `ended_at` and description texts other than their reset on synchronisation.
- The loop of the discovery's `Start` is a part of the transition system, not a method.
