/** The key of the lease model is the leader key of the replicated store: every step on it is a command of the store. */
module LeaseStore {
  import opened Wrappers
  import Lease
  import KvStore

  /** The entry of the leader key says who owns it and since when, and expires a ttl later. */
  predicate Represents(kv: KvStore.Store, leader: KvStore.Key, s: Lease.State) {
    match KvStore.Get(kv, leader)
    case None => s.key.None?
    case Some(e) => s.key == Some(Lease.Entry(e.value, e.updated)) && e.expire == Some(e.updated + s.ttl)
  }

  /** attempt_to_acquire_leader, _update_leader and _delete_leader of n; `created` is from its copy of the store. */
  function StoreCommand(leader: KvStore.Key, n: Lease.Name, c: Lease.Command, ttl: real, created: real): KvStore.Command
  {
    var own := KvStore.Conditions(None, Some(n), 0);
    match c
    case Release => KvStore.Delete(leader, own)
    case Write(put) =>
      KvStore.Set(leader, n, put.stamp, created, Some(put.stamp + ttl),
                  if put.renewal then own else KvStore.Conditions(Some(false), None, 0))
  }

  /** A command that is applied does to the leader key what the lease model says, and is answered so. */
  lemma CommandApplied(kv: KvStore.Store, leader: KvStore.Key, s: Lease.State, n: Lease.Name, c: Lease.Command,
                       created: real)
    requires Represents(kv, leader, s)
    ensures
      var (kv', answer) := KvStore.Apply(kv, StoreCommand(leader, n, c, s.ttl, created));
      Represents(kv', leader, Lease.ApplyCommand(s, n, c)) && (answer.Granted? <==> Lease.Succeeds(s, n, c))
  {}

  /** An expiry requested in time for an entry that was overdue is the step Expire, or changes nothing of the key. */
  lemma ExpiryApplied(kv: KvStore.Store, leader: KvStore.Key, s: Lease.State, seen: KvStore.Entry, at: real)
    requires Represents(kv, leader, s) && KvStore.Overdue(seen, at) && at <= s.now
    ensures
      var kv' := KvStore.Apply(kv, KvStore.Expire(leader, seen)).0;
      || Represents(kv', leader, s)
      || (Lease.Enabled(s, Lease.Expire) && Represents(kv', leader, Lease.Apply(s, Lease.Expire)))
  {}

  /** Commands for other keys leave it alone. */
  lemma OthersApplied(kv: KvStore.Store, leader: KvStore.Key, s: Lease.State, cmd: KvStore.Command)
    requires Represents(kv, leader, s) && (if cmd.DeleteAll? then !(cmd.prefix <= leader) else cmd.key != leader)
    ensures Represents(KvStore.Apply(kv, cmd).0, leader, s)
  {}

  /** The store command of a step of the lease model, if it has one. */
  function CommandOf(kv: KvStore.Store, leader: KvStore.Key, s: Lease.State, step: Lease.Step): Option<KvStore.Command>
    requires Represents(kv, leader, s) && Lease.Enabled(s, step)
  {
    match step
    case ApplyNext(n) => Some(StoreCommand(leader, n, Lease.At(s, n).queue[0], s.ttl, 0.0))
    case Expire => Some(KvStore.Expire(leader, kv.data[leader]))
    case _ => None
  }

  lemma StepApplied(kv: KvStore.Store, leader: KvStore.Key, s: Lease.State, step: Lease.Step)
    requires Represents(kv, leader, s) && Lease.Enabled(s, step)
    ensures
      var cmd := CommandOf(kv, leader, s, step);
      && Represents(if cmd.Some? then KvStore.Apply(kv, cmd.value).0 else kv, leader, Lease.Apply(s, step))
      && (cmd.Some? ==> KvStore.LeaderCommand(leader, cmd.value, s.now))
  {
    if step.ApplyNext? {
      var node := Lease.At(s, step.n);
      CommandApplied(kv, leader, Lease.With(s, step.n, node.(queue := node.queue[1..])), step.n, node.queue[0], 0.0);
    }
  }

  lemma Append(log: seq<KvStore.Command>, at: seq<real>, leader: KvStore.Key, cmd: KvStore.Command, now: real)
    requires KvStore.LeaderLog(leader, log, at) && KvStore.LeaderCommand(leader, cmd, now)
    ensures KvStore.LeaderLog(leader, log + [cmd], at + [now])
    ensures KvStore.Replay(log + [cmd]) == KvStore.Apply(KvStore.Replay(log), cmd).0
  {
    assert (log + [cmd])[..|log|] == log;
  }

  /** Every run of the lease model is a log of leader commands of the store. */
  lemma {:induction false} RunIsLog(leader: KvStore.Key, s0: Lease.State, steps: seq<Lease.Step>)
    returns (log: seq<KvStore.Command>, at: seq<real>)
    requires Lease.Init(s0) && Lease.Run(s0, steps).Some?
    ensures KvStore.LeaderLog(leader, log, at)
    ensures Represents(KvStore.Replay(log), leader, Lease.Run(s0, steps).value)
  {
    if steps == [] {
      log, at := [], [];
    } else {
      var before := Lease.Run(s0, steps[..|steps| - 1]).value;
      var step := steps[|steps| - 1];
      log, at := RunIsLog(leader, s0, steps[..|steps| - 1]);
      StepApplied(KvStore.Replay(log), leader, before, step);
      var cmd := CommandOf(KvStore.Replay(log), leader, before, step);
      if cmd.Some? {
        Append(log, at, leader, cmd.value, before.now);
        log, at := log + [cmd.value], at + [before.now];
      }
    }
  }

  /** Of two nodes that both lead, one is not the store's holder, and has outlived its lease only just. */
  lemma OneLeaderInStore(leader: KvStore.Key, s0: Lease.State, steps: seq<Lease.Step>, a: Lease.Name, b: Lease.Name)
    returns (log: seq<KvStore.Command>, at: seq<real>, late: Lease.Name)
    requires Lease.Init(s0) && Lease.Run(s0, steps).Some? && a != b
    requires Lease.IsLeader(Lease.Run(s0, steps).value, a) && Lease.IsLeader(Lease.Run(s0, steps).value, b)
    ensures KvStore.LeaderLog(leader, log, at) && (late == a || late == b)
    ensures KvStore.Holder(KvStore.Replay(log), leader) != Some(late)
    ensures
      var s := Lease.Run(s0, steps).value;
      Represents(KvStore.Replay(log), leader, s) &&
      Lease.LeaseEnd(s, late) <= s.now < Lease.LeaseEnd(s, late) + Lease.At(s, late).took
  {
    log, at := RunIsLog(leader, s0, steps);
    var key := Lease.Run(s0, steps).value.key;
    late := if key.Some? && key.value.owner == a then b else a;
    Lease.LeaderOwnsLease(s0, steps, late);
  }
}
