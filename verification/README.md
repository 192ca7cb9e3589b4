# Verified model of Patroni for openGauss

Patroni elects one primary among the nodes of a database cluster through a leased key in a shared store, hands
synchronous replication over safely, fences a primary that stalls, and keeps local copies of shared state. This project
models those parts in Dafny and proves what they are relied on for.

| file | what it models |
|---|---|
| `SyncFailover.dfy`, `SyncSafety.dfy`, `SyncExactness.dfy`, `SyncProcess.dfy` | synchronous replication and failover: a transition system of all nodes, the store and the network; its safety over all runs; exactly when it is safe; `process_sync_replication` as a method on it |
| `PickStandby.dfy` | the choice of synchronous standbys |
| `KvStore.dfy`, `Lease.dfy`, `LeaseStore.dfy` | the replicated key-value store with time to live, the leader lease in time, and that the lease is a log of the store |
| `Election.dfy` | the health check of the leader race |
| `Interlock.dfy` | `CriticalTask` between the HA thread and the worker that promotes or restarts |
| `Watchdog.dfy` | activation, keepalive and fencing |
| `Rewind.dfy` | whether a node has diverged from the master |
| `Slots.dfy` | reconciliation of replication slots |
| `KvCache.dfy`, `Streaming.dfy`, `Utf8.dfy` | the etcd cache and the reader of its event stream, from the bytes on |
| `Conninfo.dfy`, `RecoveryParam.dfy` | connection strings and recovery parameters, written and read |
| `Timeouts.dfy`, `Retry.dfy` | time budgets and retries, over the real numbers |

## Assumptions

The synchronous failover model states its assumptions as the fields of `Env`, and `SafeExactly` proves that no
acknowledged commit is lost if and only if they hold. Fixed in the model are: a standby reported as `sync` holds all
acknowledged commits and is configured (unless `*` is); a former primary stops when its key is lost; the health check
and the acquisition of the key are one step. What a node loads may lag behind the commands of others, not behind its own.
`Lease.dfy` has one clock for all nodes, and a node's commands are applied in the order of issue.

Input from outside (answers of databases, of the store and of member APIs, clocks, jitter, the outcome of commands)
appears as parameters that are universally quantified, failures included.

## Where the code falls short

- Synchronous mode can lose an acknowledged commit in six ways, each with a run in `SyncExactness.dfy`: `*` in strict
  mode; a command applied after its client gave up; a missing index on the sync key; `_update_leader` re-creating a key
  that is gone without a health check (image/patroni_openGauss/patroni/dcs/raft.py:374-378); a lock lost before the
  cluster is loaded (image/patroni_openGauss/patroni/ha.py:977-990), or before the failover command is issued
  (image/patroni_openGauss/patroni/postgresql/__init__.py:843-869).
- The docstring of `CriticalTask.cancel` says that it returns True if the task has already run; the code returns False
  then, and its callers rely on that (image/patroni_openGauss/patroni/async_executor.py:30-37). The model follows the
  code.
- `_expire` does not compare the index, so an entry written again alike within one tick is removed.
- A late echo of an own write brings a deleted key back into `KVCache`.
- `KVCache` compares the leader's cache entry, a dictionary, with the name of the node, so a new position of the leader
  wakes the leader too (image/patroni_openGauss/patroni/dcs/etcd3.py:428).
- A chunk of a response that begins within a UTF-8 character ends the reading with an exception.
- A slot that was ignored and is not any more stays on the server until the slots are loaded again.
- A replica on a timeline that the master's history does not list is told that it needs no rewind, and an empty history
  raises an exception because the loop variable is logged.
- A former primary whose log ends before the switch point is rewound although its log is a prefix.
- A replica that is ahead on an old timeline blocks the leader race while the timeline check is on.
- A wanted logical slot is taken for created when the server has one of the same name for another database or plugin.
- `format_dsn` does not escape whitespace other than the plain space, and an empty value swallows the next parameter.

## Model

| member | source | states |
|---|---|---|
| `SyncSafety.AcknowledgedSurvive` | image/patroni_openGauss/patroni/ha.py:464-516 | safety over whole runs: in every reachable state, after any crashes, failovers, timed-out writes and failed compare-and-sets, the running primary holds every commit that was acknowledged to a client (without strict mode, under the stated ordering assumptions) |
| `SyncSafety.PublishedAreConfigured` | image/patroni_openGauss/patroni/ha.py:464-516 | the invariant of the docstring, in every reachable state and in strict mode too: each standby published in the store by the running primary is one that every commit of it waits for |
| `SyncSafety.RunKeeps` | image/patroni_openGauss/patroni/ha.py:604-660 | the inductive invariant behind both (shape of every pending, planned and possible write of the sync key; who holds the acknowledged commits) is kept by every enabled step of every node |
| `SyncSafety.ShapeStep` | image/patroni_openGauss/patroni/ha.py:464-516 | one step of anybody keeps the invariant that relates the published standbys to the configured names, in all phases of the HA loop |
| `SyncSafety.HeldStep` | image/patroni_openGauss/patroni/ha.py:795-838 | one step of anybody keeps that every node that may come to lead next holds every acknowledged commit |
| `SyncExactness.SafeExactly` | image/patroni_openGauss/patroni/ha.py:464-516 | synchronous mode loses no acknowledged commit in any run if and only if it is not strict and five ordering conditions hold: snapshots see the node's own earlier commands, the sync key has an index, a renewal re-creates a missing key only for the last holder, the winner of a race still holds the key when it loads the cluster, and a promotion is completed only while the node holds the key |
| `SyncExactness.StrictLoses` | image/patroni_openGauss/patroni/ha.py:489-491 | a run that loses a commit in strict mode: under `*` a standby is reported as synchronous although a later commit was confirmed by another one |
| `SyncExactness.StaleReadLoses` | image/patroni_openGauss/patroni/dcs/raft.py:142-168 | a run that loses a commit when a command whose client had given up is applied after the next snapshot |
| `SyncExactness.MissingIndexLoses` | image/patroni_openGauss/patroni/dcs/raft.py:134-137 | a run that loses a commit when the sync key has no index, so that its compare-and-set always succeeds |
| `SyncExactness.LateRenewalLoses` | image/patroni_openGauss/patroni/dcs/raft.py:374-378 | a run that loses a commit when a renewal that finds the key gone takes it without a health check |
| `SyncExactness.LateLoadLoses` | image/patroni_openGauss/patroni/ha.py:977-990 | a run that loses a commit when the lock is lost between its acquisition and the load of the cluster |
| `SyncExactness.LatePromotionLoses` | image/patroni_openGauss/patroni/postgresql/__init__.py:843-869 | a run that loses a commit when the key is lost between the clearing of the sync key and the failover command, which does not look at it again |
| `SyncProcess.Cluster.ProcessSyncReplication` | image/patroni_openGauss/patroni/ha.py:464-516 | statement by statement, with arbitrary steps of everybody else in between: the answers of the queries, reads and writes determine the outcome, each if and only if; which names are configured and what stays published for each; nothing is lost and published standbys are configured at the end |
| `SyncProcess.Cluster.Replace` | image/patroni_openGauss/patroni/ha.py:475-516 | the same from the first write on |
| `SyncProcess.Cluster.PublishAllowed` | image/patroni_openGauss/patroni/ha.py:495-516 | the part after the names are assigned: Assigned if and only if the standbys reported last are none or the common ones, Stopped if and only if the second query or the reread has no answer, NotPublished if and only if another leader is seen, the index no longer fits or the write times out, and else exactly the reported standbys are published |
| `SyncProcess.QuietPublishes` | image/patroni_openGauss/patroni/ha.py:475-516 | undisturbed, a primary that leads the sync key publishes exactly the standbys that the first query reports, if they are not what is left already |
| `SyncProcess.QuietWaits` | image/patroni_openGauss/patroni/ha.py:495-516 | and when none is reported yet, exactly those that the second query reports, after the names are assigned |
| `SyncFailover.FaultsHappen` | image/patroni_openGauss/patroni/ha.py:464-516 | in every state nodes may crash, leave the loop and lose the key, with these effects |
| `SyncFailover.LateWritesHappen` | image/patroni_openGauss/patroni/dcs/raft.py:142-182 | a write whose client gave up may be lost, or applied if its index still fits |
| `SyncFailover.CommitsHappen` | image/patroni_openGauss/patroni/ha.py:464-473 | commits are written and copied |
| `SyncFailover.AcknowledgedExactly` | image/patroni_openGauss/patroni/ha.py:464-473 | a commit is acknowledged exactly if the primary and all configured standbys have it (with `*`, some other node) |
| `SyncFailover.KeyIsTaken` | image/patroni_openGauss/patroni/ha.py:827-833 | who may take a free key, and that its last holder may renew it |
| `SyncProcess.Cluster.Settled` | image/patroni_openGauss/patroni/ha.py:464-473 | every state between two statements satisfies both safety properties |
| `SyncProcess.ForeignUndisturbed` | image/patroni_openGauss/patroni/ha.py:464-516 | no step of another node or of the environment changes a node's configured names, the phase of its HA loop, or a sync key that stays the node's own |
| `PickStandby.PickSynchronousStandby` | image/patroni_openGauss/patroni/postgresql/__init__.py:993-1039 | the candidates are the first nearby replicas of members that do not refuse, the second list those of them that are in sync; the reference position is the maximum |
| `PickStandby.MaxLsn` | image/patroni_openGauss/patroni/postgresql/__init__.py:1029 | the position returned is one of the replicas' and none is larger |
| `PickStandby.Select` | image/patroni_openGauss/patroni/postgresql/__init__.py:1031-1039 | the loop with its early exit selects the specified prefix of the nearby replicas |
| `PickStandby.ReplicasExactly` | image/patroni_openGauss/patroni/postgresql/__init__.py:1023-1027 | the replicas are the walsenders whose application name is that of a member, the last of that name, who does not refuse |
| `PickStandby.ReplicasInOrder` | image/patroni_openGauss/patroni/postgresql/__init__.py:1020-1027 | they keep the order of the query |
| `PickStandby.SelectedExactly` | image/patroni_openGauss/patroni/postgresql/__init__.py:1031-1037 | the selected ones are within the lag, no more than asked for, and if fewer, all that are |
| `PickStandby.AllowedArePicked` | image/patroni_openGauss/patroni/postgresql/__init__.py:1031-1039 | the standbys allowed to promote are among the picked ones and are reported as in sync; no more are picked than asked for |
| `PickStandby.NearbyPrefix` | image/patroni_openGauss/patroni/postgresql/__init__.py:1031-1037 | stopping early only cuts off a tail |
| `PickStandby.SynchronousPreferred` | image/patroni_openGauss/patroni/postgresql/__init__.py:993-1004 | a replica that is not synchronous is picked only if every synchronous one that is near is picked |
| `PickStandby.StableChoice` | image/patroni_openGauss/patroni/postgresql/__init__.py:993-1004 | with enough synchronous replicas nearby exactly those are picked, so that the choice is stable |
| `KvStore.KVStoreTTL.ApplyCommand` | image/patroni_openGauss/patroni/dcs/raft.py:169-225 | a set, delete or expire command changes the whole store and answers exactly as the command semantics over the log say |
| `KvStore.KVStoreTTL.PopAll` | image/patroni_openGauss/patroni/dcs/raft.py:195-205 | a recursive delete removes exactly the keys with the prefix |
| `KvStore.SetExactly` | image/patroni_openGauss/patroni/dcs/raft.py:134-182 | a set succeeds if and only if its conditions hold; then the entry is what it carries, with the next position and the time of creation of the entry that it replaces |
| `KvStore.DeleteExactly` | image/patroni_openGauss/patroni/dcs/raft.py:200-210 | a delete removes the key if and only if its conditions hold and the key is there |
| `KvStore.DeleteAllExactly` | image/patroni_openGauss/patroni/dcs/raft.py:202-205 | a recursive delete removes exactly the keys with the prefix |
| `KvStore.KVStoreTTL.Prepare` | image/patroni_openGauss/patroni/dcs/raft.py:184-193 | the local check and the value that is sent: denied on the local copy, or a command that carries the times |
| `KvStore.KVStoreTTL.ExpireKeys` | image/patroni_openGauss/patroni/dcs/raft.py:227-236 | a tick requests the expiry of exactly the overdue entries that have not been requested, once each, with their values, and remembers these and no others |
| `KvStore.IndexIsPosition` | image/patroni_openGauss/patroni/dcs/raft.py:170-182 | after every log the index of an entry is the position of the command that wrote it |
| `KvStore.CompareAndSetExact` | image/patroni_openGauss/patroni/dcs/raft.py:134-182 | a write with prevIndex i succeeds exactly when the stored entry was written at log position i |
| `KvStore.LaterWrite` | image/patroni_openGauss/patroni/dcs/raft.py:170-182 | what is written after a log has a later position than all that the log wrote |
| `KvStore.OneWriterWins` | image/patroni_openGauss/patroni/dcs/raft.py:134-182 | of two writers that read the same index at most one succeeds, whatever is applied between them |
| `KvStore.LeaderStep` | image/patroni_openGauss/patroni/dcs/raft.py:374-401 | one command leaves the leader key alone, gives a free key to somebody, or frees it rightfully |
| `KvStore.NoDirectHandover` | image/patroni_openGauss/patroni/dcs/raft.py:374-401 | over every log the leader key never passes from one node to another without being free in between, and it becomes free only by its holder's release or after its time was over |
| `KvStore.ExpireExact` | image/patroni_openGauss/patroni/dcs/raft.py:217-225 | an expiry removes the entry if and only if its value and times are still those that were seen, else it changes nothing |
| `KvStore.RewrittenAlike` | image/patroni_openGauss/patroni/dcs/raft.py:217-225 | the index is not compared: an entry that was written again with the same value and times is removed |
| `Lease.RunKeeps` | image/patroni_openGauss/patroni/ha.py:122-168 | invariant of all timed runs with late, repeated and lost commands, and with renewals that go on as acquisitions within the same call: who owns the key and until when, and what commands may still arrive |
| `Lease.LeaderOwnsLease` | image/patroni_openGauss/patroni/ha.py:122-168 | a node that answers True from is_leader owns the key in the store, or lives on the time that its last successful call took |
| `Lease.LeadersOverlapBriefly` | image/patroni_openGauss/patroni/ha.py:122-168 | two nodes that both answer True overlap for no longer than the last successful call of one of them took |
| `Lease.LeadsExactly` | image/patroni_openGauss/patroni/ha.py:122-168 | over all runs a node answers True from is_leader if and only if its last ended call was granted, it has not given up or stepped down since, and less than the ttl has passed since that call ended |
| `Lease.GrantedExactly` | image/patroni_openGauss/patroni/ha.py:147-168 | over all runs a call may end as granted if and only if one of its commands has succeeded in the store |
| `Lease.AcquireMakesLeader` | image/patroni_openGauss/patroni/ha.py:147-168 | an undisturbed acquisition of a free key, or renewal of the own one, makes the node the leader |
| `LeaseStore.CommandApplied` | image/patroni_openGauss/patroni/dcs/raft.py:374-401 | each command of the lease model does to the leader key what the command of the store does, and is answered so |
| `LeaseStore.ExpiryApplied` | image/patroni_openGauss/patroni/dcs/raft.py:217-236 | an expiry that was requested in time is the expiry of the lease model, or changes nothing |
| `LeaseStore.RunIsLog` | image/patroni_openGauss/patroni/dcs/raft.py:374-401 | every run of the lease model is a log of leader commands of the store, whose leader entry is the model's key |
| `LeaseStore.OneLeaderInStore` | image/patroni_openGauss/patroni/ha.py:122-168 | of two nodes that both answer True one is not the holder in that store, and has outlived its lease by less than its last successful call took |
| `Lease.RetryCommand` | image/patroni_openGauss/patroni/dcs/raft.py:142-168 | retry answers True only for a granted attempt, ends within its timeout plus one second, and gives up only for the stated reasons |
| `Interlock.CriticalTask.Cancel` | image/patroni_openGauss/patroni/async_executor.py:30-37 | cancel answers False exactly when there is a result, and else marks the task |
| `Interlock.Threads.CancelAction` | image/patroni_openGauss/patroni/ha.py:1227-1244 | the cancelling step on the task objects; if it wins, no failover command has been issued and nothing started is running, and else the result is the postmaster that runs |
| `Interlock.Threads.PromoteGate` | image/patroni_openGauss/patroni/postgresql/__init__.py:847-854 | the locked section of promote on the task object is the step of the transition system |
| `Interlock.Threads.StartGate` | image/patroni_openGauss/patroni/postgresql/__init__.py:489-500 | the same for the locked section of start |
| `Interlock.Threads.Finish` | image/patroni_openGauss/patroni/async_executor.py:101-106 | the same for the reset at the end of run |
| `Interlock.RunKeeps` | image/patroni_openGauss/patroni/async_executor.py:87-108 | invariant of all interleavings of the HA thread and the worker under the executor's and the task's lock |
| `Interlock.PromoteInterlock` | image/patroni_openGauss/patroni/postgresql/__init__.py:843-863 | once cancel has answered True, that promotion never issues the failover command; it is issued at most once |
| `Interlock.OneSideWins` | image/patroni_openGauss/patroni/async_executor.py:23-43 | after both the gate and a cancel exactly one side has won, and the fields of the task say which |
| `Interlock.WorkerWins` | image/patroni_openGauss/patroni/postgresql/__init__.py:848-860 | in every run a promotion past its gate that nobody has cancelled is completed with the answer of the pre_promote script, and goes on to the failover command exactly if that is True |
| `Interlock.PromotionPasses` | image/patroni_openGauss/patroni/postgresql/__init__.py:848-854 | what the gate of a promotion does, cancelled or not |
| `Interlock.RestartStarts` | image/patroni_openGauss/patroni/postgresql/__init__.py:489-500 | the gate of a restart starts a postmaster, as the result of the task, unless it is cancelled or the start fails |
| `Interlock.StartedRuns` | image/patroni_openGauss/patroni/postgresql/__init__.py:489-500 | in every run a started postmaster runs, as the result, until cancel has been called in vain |
| `Interlock.PromotionHappens` | image/patroni_openGauss/patroni/postgresql/__init__.py:843-860 | a run in which the failover command is issued |
| `Interlock.CancelHappens` | image/patroni_openGauss/patroni/ha.py:1227-1233 | a run in which a promotion is cancelled in time |
| `Interlock.RestartHappens` | image/patroni_openGauss/patroni/ha.py:1235-1243 | a run in which a restart starts a postmaster, and one in which the canceller gets it and terminates it |
| `Interlock.NoResetWhileBusy` | image/patroni_openGauss/patroni/async_executor.py:87-108 | no step takes back a cancellation while the action is busy |
| `Interlock.RestartInterlock` | image/patroni_openGauss/patroni/postgresql/__init__.py:489-500 | once a restart is cancelled, no postmaster that it started is left running |
| `Interlock.CancellerSeesPostmaster` | image/patroni_openGauss/patroni/ha.py:1236-1244 | when cancel answers False, the result of the task is the very postmaster that runs; when it answers True, none does |
| `Watchdog.Watchdog.Activate` | image/patroni_openGauss/patroni/watchdog/base.py:117-184 | when a device runs, with which timeout, and when the answer is True, in terms of the configuration and of what the device does |
| `Watchdog.AliveExactly` | image/patroni_openGauss/patroni/watchdog/base.py:202-205 | the time line beat by beat |
| `Watchdog.LastPingIs` | image/patroni_openGauss/patroni/watchdog/base.py:202-205 | the last ping is that of the last beat that has one |
| `Watchdog.NoPing` | image/patroni_openGauss/patroni/watchdog/base.py:117-124 | and the activation without one |
| `Watchdog.PingFollowsStamp` | image/patroni_openGauss/patroni/watchdog/base.py:202-205 | the device is never fed later than the margin after the last lease stamp |
| `Watchdog.ResetBeforeExpiry` | image/patroni_openGauss/patroni/watchdog/base.py:126-167 | fencing: with prompt keepalives the host of a stalled primary is reset no later than its leader key expires |
| `Watchdog.HalfTtlAlwaysFences` | image/patroni_openGauss/patroni/watchdog/base.py:69-74 | with safety_margin -1 the same for keepalives of any delay |
| `Watchdog.Watchdog.Keepalive` | image/patroni_openGauss/patroni/watchdog/base.py:202-206 | an active device that accepts it is fed now; all else stays |
| `Watchdog.Watchdog.Lead` | image/patroni_openGauss/patroni/ha.py:153-168 | over a whole term of a primary: when activate answered True in mode required, the device's own clock runs out no later than the key, under either kind of margin |
| `Watchdog.DelayAllowedExactly` | image/patroni_openGauss/patroni/watchdog/base.py:69-78 | with another margin and the full timeout, a primary is fenced after each of its beats if and only if the activation and all keepalives come within the margin |
| `KvCache.KVCache.Set` | image/patroni_openGauss/patroni/dcs/etcd3.py:383-390 | a write enters the cache exactly if it is newer, or the same revision and to be overwritten; the answer says whether it was newer |
| `KvCache.KVCache.Remove` | image/patroni_openGauss/patroni/dcs/etcd3.py:392-398 | a deletion takes effect exactly if it is newer; the answer is also True for a missing key |
| `KvCache.KVCache.ProcessEvent` | image/patroni_openGauss/patroni/dcs/etcd3.py:408-429 | the cache after an event, and exactly which events wake the HA loop, for each of the three keys |
| `KvCache.KVCache.Follow` | image/patroni_openGauss/patroni/dcs/etcd3.py:431-478 | the snapshot and all events of the stream end up in the cache, and exactly the events that change one of the three keys wake the HA loop |
| `KvCache.FollowsServer` | image/patroni_openGauss/patroni/dcs/etcd3.py:459-470 | replaying the stream from the snapshot's own revision on, the cache equals the server's map at every change processed |
| `KvCache.ServerHolds` | image/patroni_openGauss/patroni/dcs/etcd3.py:408-429 | the server's map holds under each key what its last change left |
| `KvCache.HighestWins` | image/patroni_openGauss/patroni/dcs/etcd3.py:383-390 | for keys never deleted any interleaving of events and echoes ends with the highest revision delivered and its value |
| `KvCache.HighestIsMax` | image/patroni_openGauss/patroni/dcs/etcd3.py:383-390 | that revision is the maximum over the deliveries |
| `KvCache.SameDeliveriesSameNode` | image/patroni_openGauss/patroni/dcs/etcd3.py:383-398 | two orders of the same deliveries leave the same node |
| `KvCache.LateEchoExactly` | image/patroni_openGauss/patroni/dcs/etcd3.py:383-398 | one delivery leaves the cache right if and only if it is not an old write after a newer deletion |
| `Streaming.IterResponseObjects` | image/patroni_openGauss/patroni/utils.py:380-398 | an exception is raised exactly if a chunk does not decode by itself, and for every way of cutting the messages are those of the whole text before that chunk, if at each message the decoder is not changed by what follows |
| `Streaming.ObjectsCutStable` | image/patroni_openGauss/patroni/utils.py:382-398 | a text whose messages all begin with a brace is such a text for a decoder that is stable on objects only, as one that accepts bare numbers is |
| `Streaming.SelfDelimitingCutStable` | image/patroni_openGauss/patroni/utils.py:382-398 | and every text is for a decoder that is stable on all |
| `Streaming.ReadStream` | image/patroni_openGauss/patroni/utils.py:380-398 | a stream of well-formed bytes with a text of objects gives the messages of its whole text, or is broken off, exactly if a chunk begins within a character |
| `Streaming.JoinedDecodes` | image/patroni_openGauss/patroni/utils.py:384-386 | chunks that decode by themselves join to bytes that decode to the text of all |
| `Streaming.ReadThroughExactly` | image/patroni_openGauss/patroni/utils.py:384-386 | all chunks of well-formed bytes decode if and only if none begins within a character |
| `Utf8.DecodesExactly` | image/patroni_openGauss/patroni/utils.py:385 | bytes decode to a text if and only if they are its encoding |
| `Utf8.CutExactly` | image/patroni_openGauss/patroni/utils.py:385 | bytes that decode can be cut in front of every byte that is no continuation, and nowhere else |
| `Utf8.Examples` | image/patroni_openGauss/patroni/utils.py:385 | the examples of section 7 of RFC 3629 |
| `Streaming.DecodeChunk` | image/patroni_openGauss/patroni/utils.py:389-398 | the inner loop yields the messages of a chunk and keeps the rest, for every decoder |
| `Streaming.WrittenIsRead` | image/patroni_openGauss/patroni/utils.py:380-398 | messages written with any whitespace between them are read, all of them, in order |
| `Streaming.SkipExactly` | image/patroni_openGauss/patroni/utils.py:389-397 | exactly leading spaces, tabs and line ends are skipped |
| `Streaming.ReadOn` | image/patroni_openGauss/patroni/utils.py:380-398 | reading a text and then its rest with more appended is reading it all |
| `Streaming.CutsMatter` | image/patroni_openGauss/patroni/utils.py:389-398 | a decoder that appended text does change gives messages that depend on the cuts |
| `Conninfo.ReadParamValue` | image/patroni_openGauss/patroni/postgresql/config.py:65-82 | the index loop returns the value and the position of the specified reader, for quoted and unquoted values and for missing ends |
| `Conninfo.ConninfoParse` | image/patroni_openGauss/patroni/postgresql/config.py:85-109 | the parser terminates on every text, since every round advances, and returns the specified map or None |
| `Conninfo.ParseRendered` | image/patroni_openGauss/patroni/postgresql/config.py:485-503 | clean values, with any quotes and backslashes, are read back |
| `Conninfo.ParseTokens` | image/patroni_openGauss/patroni/postgresql/config.py:65-109 | whatever is read from a written text is not empty and has no whitespace but the plain space |
| `Conninfo.ReadsBackExactly` | image/patroni_openGauss/patroni/postgresql/config.py:485-503 | a written list of parameters is read back if and only if every value is not empty and has no whitespace but the plain space |
| `Conninfo.FormatDsnReadsBack` | image/patroni_openGauss/patroni/postgresql/config.py:485-503 | the same for format_dsn: parsing its text gives the map of the emitted keywords, if and only if their values are so |
| `Conninfo.EmittedExactly` | image/patroni_openGauss/patroni/postgresql/config.py:485-503 | the map of the emitted keywords, key by key: database name, user, password or password file, and the rest |
| `Conninfo.ParsePieces` | image/patroni_openGauss/patroni/postgresql/config.py:65-109 | parameters with any spaces around them and around the sign, in quotes or not, are read, and the text behind them as if it stood alone |
| `Conninfo.FaultyRefused` | image/patroni_openGauss/patroni/postgresql/config.py:94-106 | a text without a name, a sign or a value, or with a quote that does not end, is refused |
| `Conninfo.ParsesExactlyPieces` | image/patroni_openGauss/patroni/postgresql/config.py:85-109 | both together: what is made of parameters is accepted with its map, and refused with a fault behind them |
| `Conninfo.SpacesExactly` | image/patroni_openGauss/patroni/postgresql/config.py:73 | which code points are spaces |
| `Conninfo.EmptyValueLost` | image/patroni_openGauss/patroni/postgresql/config.py:485-503 | two parameters, the first with an empty value, that are not read back |
| `Conninfo.TabLost` | image/patroni_openGauss/patroni/postgresql/config.py:499-500 | a value with a tab in it is never read back |
| `RecoveryParam.ReadRecoveryParamValue` | image/patroni_openGauss/patroni/postgresql/config.py:163-217 | the loop with its else branch and the unquoted branch accept and return what the specified reader does |
| `RecoveryParam.ReadsBackExactly` | image/patroni_openGauss/patroni/postgresql/config.py:163-255 | for every value, the written value is read back if and only if only spaces, or a comment that touches it or follows a plain space, stand behind it |
| `RecoveryParam.WrittenReadsBack` | image/patroni_openGauss/patroni/postgresql/config.py:250-255 | what write_param writes is read back, for every value |
| `RecoveryParam.BackslashesReadBack` | image/patroni_openGauss/patroni/postgresql/config.py:189-211 | a backslash in quotes stands for the character behind it |
| `RecoveryParam.UnterminatedRejected` | image/patroni_openGauss/patroni/postgresql/config.py:186-212 | a quoted text that does not end has no value |
| `RecoveryParam.BareReadsBackExactly` | image/patroni_openGauss/patroni/postgresql/config.py:213-217 | a text without quotes stands for itself if and only if it is not empty and has no space, backslash, comment or leading quote |
| `RecoveryParam.ClosesExactly` | image/patroni_openGauss/patroni/postgresql/config.py:156-160 | the check of what follows a closing quote accepts exactly spaces and such comments |
| `Election.IsHealthiestOf` | image/patroni_openGauss/patroni/ha.py:694-726 | the loop with its early exits answers True exactly if the node neither lags nor is behind, and no member asked makes it yield |
| `Election.PickRivals` | image/patroni_openGauss/patroni/ha.py:827-837 | the members by name, restricted to those that take part in synchronous mode |
| `Election.RivalsExactly` | image/patroni_openGauss/patroni/ha.py:828-838 | a member is a rival if and only if it is an entry that no later one of its name replaces, and takes part |
| `Election.HealthiestExactly` | image/patroni_openGauss/patroni/ha.py:694-838 | the whole decision in terms of the entries and the answers |
| `Election.IsHealthiestNode` | image/patroni_openGauss/patroni/ha.py:795-838 | the method answers True if and only if the node is the running leader, or may race, is neither too far behind nor on an old timeline, and no entry that counts makes it yield |
| `Election.WinnersExactly` | image/patroni_openGauss/patroni/ha.py:694-726 | on one truthful snapshot without a live master a node wins if and only if it is an eligible qualified candidate that nobody who answers is ahead of (but for the former leader in synchronous mode) |
| `Election.MasterHolds` | image/patroni_openGauss/patroni/ha.py:714-718 | while a master answers, no replica wins |
| `Election.WinnersAreLevel` | image/patroni_openGauss/patroni/ha.py:719-725 | two winners that answer have the same position, but for the former leader in synchronous mode |
| `Election.RaceHasWinner` | image/patroni_openGauss/patroni/ha.py:694-726 | among the nodes that answer somebody wins if and only if somebody qualified is foremost |
| `Election.LagDecides` | image/patroni_openGauss/patroni/ha.py:685-701 | without the timeline check somebody wins if and only if somebody is within the allowed lag |
| `Election.OldTimelineStalls` | image/patroni_openGauss/patroni/ha.py:703-708 | with the timeline check a node that is ahead on an old timeline stops the race |
| `Rewind.RewindState.SearchHistory` | image/patroni_openGauss/patroni/postgresql/rewind.py:202-218 | the loop with its early break decides what the specified search does |
| `Rewind.RewindState.CheckTimelineAndLsn` | image/patroni_openGauss/patroni/postgresql/rewind.py:173-220 | every way out without a decision leaves the state, so that the check is made again; an empty history raises |
| `Rewind.RewindState.NeededAndPossible` | image/patroni_openGauss/patroni/postgresql/rewind.py:222-225 | the check is made in state CHECK only, and the answer is its verdict |
| `Rewind.RewindState.TriggerCheckDivergedLsn` | image/patroni_openGauss/patroni/postgresql/rewind.py:58-60 | a check is scheduled unless a rewind is needed already |
| `Rewind.ScanFindsListed` | image/patroni_openGauss/patroni/postgresql/rewind.py:204-217 | on a history in order the search that gives up early finds what a search of the whole finds |
| `Rewind.ScanExactly` | image/patroni_openGauss/patroni/postgresql/rewind.py:204-217 | on any history the search finds the line of the timeline that only earlier timelines precede |
| `Rewind.JudgeExactly` | image/patroni_openGauss/patroni/postgresql/rewind.py:173-220 | when the state stays, when an exception is raised, and when a rewind is needed, in terms of what is known |
| `Rewind.PrefixUpToSwitch` | image/patroni_openGauss/patroni/postgresql/rewind.py:204-217 | a log whose timeline the master has left is a prefix of the master's, timeline by timeline, exactly up to where it left |
| `Rewind.PrefixExactly` | image/patroni_openGauss/patroni/postgresql/rewind.py:204-210 | when a log is a prefix of the master's, read off the two histories, also if nothing is written on its last timelines |
| `Rewind.ReplicaJudgedExactly` | image/patroni_openGauss/patroni/postgresql/rewind.py:173-220 | every replica is told to rewind if and only if its log is no prefix of the master's, and this is so exactly when the master has been on its timeline, or its timeline is earlier and the master has all of the log, or later and the master has not |
| `Rewind.ReplicaWithOwnJudgedExactly` | image/patroni_openGauss/patroni/postgresql/rewind.py:173-220 | with something replayed on its last timeline: exactly when the master has been on it or it is later |
| `Rewind.UnknownTimelineMissed` | image/patroni_openGauss/patroni/postgresql/rewind.py:204-220 | a diverged replica on a timeline that is not listed is told that it needs no rewind |
| `Rewind.FormerPrimaryJudgedExactly` | image/patroni_openGauss/patroni/postgresql/rewind.py:173-220 | the judgement on a former primary on any timeline is right, on one that the master has been on, exactly if its log reaches the point where the master left it, and else as for a replica |
| `Rewind.ListedFormerPrimary` | image/patroni_openGauss/patroni/postgresql/rewind.py:211-215 | on a listed timeline it is told to rewind exactly unless its checkpoint record ends at the switch point |
| `Rewind.ShortLogRewound` | image/patroni_openGauss/patroni/postgresql/rewind.py:211-215 | a former primary whose log is a prefix and falls short of the switch point is rewound |
| `Rewind.UnreadableCheckpointRewinds` | image/patroni_openGauss/patroni/postgresql/rewind.py:73-109 | when the end of the checkpoint record is not found, a former primary is told to rewind |
| `Slots.SlotsHandler.SyncReplicationSlots` | image/patroni_openGauss/patroni/postgresql/slots.py:50-106 | the three loops in any order of names, with commands that fail before or after they take effect: the server's new slots name by name, the new copy, and whether a reload is scheduled; after an exception a reload is, and no name has got anything else; it is a step of the runs; a settled call sends the server no command |
| `Slots.SlotsHandler.LoadReplicationSlots` | image/patroni_openGauss/patroni/postgresql/slots.py:24-34 | the copy is what the server has when a load is scheduled |
| `Slots.SlotsHandler.DropOld` | image/patroni_openGauss/patroni/postgresql/slots.py:57-61 | the first loop leaves every unwanted slot as specified |
| `Slots.SlotsHandler.WantAll` | image/patroni_openGauss/patroni/postgresql/slots.py:65-86 | the second loop leaves every wanted slot created, kept, or cleared and waiting for its database |
| `Slots.SlotsHandler.CreateAllLogical` | image/patroni_openGauss/patroni/postgresql/slots.py:88-102 | the third loop creates all that wait, one connection a database |
| `Slots.IgnoredExactly` | image/patroni_openGauss/patroni/postgresql/slots.py:36-42 | a slot is ignored if and only if some matcher has its name or none, and every attribute that it gives is the slot's |
| `Slots.IgnoredSurvives` | image/patroni_openGauss/patroni/postgresql/slots.py:56-61 | an ignored slot that is not wanted survives a complete call, and one that the copy has and that is not ignored goes unless it is active |
| `Slots.UnwantedExactly` | image/patroni_openGauss/patroni/postgresql/slots.py:56-61 | whatever the copy is: which unwanted slots go |
| `Slots.WantedExactly` | image/patroni_openGauss/patroni/postgresql/slots.py:65-102 | whatever the copy is: which wanted slots are kept, replaced and created |
| `Slots.FailsExactly` | image/patroni_openGauss/patroni/postgresql/slots.py:56-103 | whatever the copy is: when a reload is scheduled |
| `Slots.FreshReachesGoal` | image/patroni_openGauss/patroni/postgresql/slots.py:50-106 | from a fresh copy, a call that reports no failure leaves exactly the wanted slots and the ignored ones |
| `Slots.FreshSucceedsExactly` | image/patroni_openGauss/patroni/postgresql/slots.py:50-106 | and it reports none if and only if nothing that must go is active and no create raises an exception |
| `Slots.SettledDoesNothing` | image/patroni_openGauss/patroni/postgresql/slots.py:50-106 | with the wanted slots of the last call no name needs a command, and nothing changes |
| `Slots.AgreementKeptExactly` | image/patroni_openGauss/patroni/postgresql/slots.py:75-103 | a call without failure keeps the copy in agreement with the server if and only if no wanted logical slot that is not in the copy exists with another database or plugin |
| `Slots.CollisionGoesUnnoticed` | image/patroni_openGauss/patroni/postgresql/slots.py:93-98 | such a slot, which the call takes for created |
| `Slots.OthersIgnoredExactly` | image/patroni_openGauss/patroni/postgresql/slots.py:36-61 | after a call without failure all slots that are not wanted are ignored ones, if and only if no slot that the copy has forgotten has ceased to be ignored |
| `Slots.ExposedStays` | image/patroni_openGauss/patroni/postgresql/slots.py:58-61 | such a slot, which the call leaves on the server |
| `Slots.FinishedIsSound` | image/patroni_openGauss/patroni/postgresql/slots.py:50-106 | both together: a call without failure keeps copy and server matching if and only if neither happens; matchers that stay the same rule out the second |
| `Slots.RunsAreSound` | image/patroni_openGauss/patroni/postgresql/slots.py:50-106 | over every run of calls, failing or not, and of clients that come and go: when no reload is scheduled, the server has all slots of the copy, and others only if they are ignored |
| `Timeouts.CalculateTimeouts` | image/patroni_openGauss/patroni/dcs/etcd.py:108-133 | a budget of a second or more gives the best plan; a shorter one gives no node, and no nodes give none |
| `Timeouts.BestPlanIsOne` | image/patroni_openGauss/patroni/dcs/etcd.py:108-114 | the best plan is unique |
| `Timeouts.PlanSpends` | image/patroni_openGauss/patroni/dcs/etcd.py:108-114 | it uses min(n, floor(T)) nodes and leaves every try a second |
| `Timeouts.Caps` | image/patroni_openGauss/patroni/dcs/etcd.py:110-131 | how often a node may be tried |
| `Timeouts.BudgetIs` | image/patroni_openGauss/patroni/dcs/etcd.py:115 | no timeout, or one of zero, means the read timeout |
| `Retry.Retry.Call` | image/patroni_openGauss/patroni/utils.py:320-348 | all calls but the last are retryable, are within the tries and leave time for the sleep; the last one ends the matter, and the answer is its value, its error, or which limit was reached |
| `Retry.Retry.AfterFailure` | image/patroni_openGauss/patroni/utils.py:335-348 | what follows one retryable exception |
| `Retry.RetriesBounded` | image/patroni_openGauss/patroni/utils.py:335-340 | at most max_tries retries, and "too many" only if all calls failed |
| `Retry.DelaysGrow` | image/patroni_openGauss/patroni/utils.py:313-314 | the base delay after k retries is min(delay x backoff^k, max_delay) |
| `Retry.RetriesBeforeDeadline` | image/patroni_openGauss/patroni/utils.py:341-347 | every retry begins before the deadline and the sleeps together are shorter than it |
| `Retry.DeadlineEnds` | image/patroni_openGauss/patroni/utils.py:341-347 | with a deadline and sleeps of some least length the call ends, whatever fails |
| `Retry.PolicyEnds` | image/patroni_openGauss/patroni/utils.py:320-348 | delays that are positive and do not shrink are such sleeps |
| `Retry.TimeAddsUp` | image/patroni_openGauss/patroni/utils.py:330-348 | time goes by in calls and sleeps and nowhere else |
| `Retry.SleepExactly` | image/patroni_openGauss/patroni/utils.py:341 | a sleep is what the exception says, or else the base delay and the jitter |

## Left out

- SyncSafety.AcknowledgedSurvive: covers automatic failover with synchronous mode on; manual failover, pause mode, standby clusters and switching the mode off are not steps of the system.
- Lease.RetryCommand: has a timeout, as the configured one always is; without one `retry` may go on for ever. A shutdown of the node during a call is left out.
- KvStore.KVStoreTTL.ApplyCommand: deleting a missing key without conditions raises an error in the code; here it is an answer of its own.
- KvStore.KVStoreTTL.ExpireKeys: the callbacks that clear requested expiries are left out.
- Watchdog.ResetBeforeExpiry: the configuration does not change between activation and reset; keepalive with a changed configuration is left out.
- RecoveryParam.WrittenReadsBack: is about the text of the value; newlines inside a value, which the reader of the file would take for the end of the line, are left out.
- Election.WinnersExactly: all nodes see the same state at one time; answers that are outdated or differ between nodes are left out.
- Slots.SlotsHandler.SyncReplicationSlots: a slot that becomes active between the query's condition and the drop is left out.
- Retry.Retry.Call: a call with unlimited tries and no deadline may go on for ever; the method asks for an attempt that would end it. The rounding of max_jitter in copies is left out.
- Timeouts.CalculateTimeouts: real numbers in place of floating point.
- HTTP, sockets, the client libraries of the stores, subprocesses, signals, and the consensus protocol below the log.
- Writing of files; in this fork `write_postgresql_conf` returns early when the base file exists, so setting the synchronous names is modelled as an atomic change.
- `AsyncExecutor.cancel`, forced reinitialisation, cloning, `take_leader`, restarts of Patroni itself on a live primary.
- The computation of the wanted replication slots from the cluster state.
- URI connection strings and the defaults that `parse_dsn` adds.
- The Kubernetes, Consul, ZooKeeper and Exhibitor back ends, the REST API, `patronictl`, validators and logging.
