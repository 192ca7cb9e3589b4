/**
  Synchronous replication and failover, as a transition system.

  Every node runs the HA loop of patroni/ha.py against one shared store.  A step is one store command, one
  change of synchronous_standby_names or one event of the environment, so a crash or the loss of the leader key
  can fall between any two of them.  `Env` says which assumptions a run may rely on; the module SyncSafety shows
  which of them the code needs.
 */
module SyncFailover {
  import opened Wrappers

  type Name = string
  type Commit = nat

  /** The value of synchronous_standby_names: every listed node has to confirm, or ('*') any one node. */
  datatype StandbyNames = Listed(standbys: set<Name>) | Anyone

  /** The nodes that certainly confirm each commit. */
  function Required(names: StandbyNames): set<Name> {
    match names
    case Listed(standbys) => standbys
    case Anyone => {}
  }

  /** The sync key: its modification index (0: there is no such key), the leader and the published standbys. */
  datatype SyncKey = SyncKey(index: nat, leader: Option<Name>, members: set<Name>)

  /** What load_cluster_from_dcs saw of the store. */
  datatype View = View(sync: SyncKey)

  function Current(view: View): set<Name> {
    if view.sync.leader.Some? then view.sync.members else {}
  }

  /** write_sync_state(self, members, index) */
  datatype SyncWrite = SyncWrite(members: set<Name>, index: nat)

  /** A command is answered, or the client gives up on it and it may still be applied later. */
  datatype Answer = Answered | TimedOut

  /** Where the HA loop of a node stands. */
  datatype Phase =
    | Idle
    | Acquired                                                        // won the leader race
    | Loaded(view: View)                                              // start of a cycle, view says we lead
    | Confirmed(view: View)                                           // key acquired or renewed
    | Picked(view: View, picked: set<Name>, allow: set<Name>)         // first pick_synchronous_standby
    | Narrowed(picked: set<Name>, allow: set<Name>, common: set<Name>) // only common standbys published
    | Waiting(common: set<Name>)                                      // names assigned, none allowed yet
    | Offering(allow: set<Name>, common: set<Name>)                   // names assigned, some allowed
    | Offer(allow: set<Name>, index: nat)                             // sync key read again
    | Cleared                                                         // enforce_master_role wrote (self, None)
    | Promotable                                                      // names reset, promote may run

  datatype Env = Env(
    strict: bool,       // synchronous_mode_strict
    freshReads: bool,   // a snapshot sees the effect of every command its node issued before
    indexed: bool,      // the sync key exists, so its index is a real one
    soleRenewal: bool,  // a renewal that re-creates a missing key does so before any other node led
    promptLoad: bool,   // a node that acquired the key still holds it when it loads the cluster
    promptPromotion: bool)  // a promotion is completed only while its node holds the key

  datatype State = State(
    holder: Option<Name>,             // leader key
    last: Option<Name>,               // the last node that held it
    sync: SyncKey,
    position: nat,                    // log position of the store
    primary: Option<Name>,            // the node that accepts writes
    acked: set<Commit>,
    wal: map<Name, set<Commit>>,
    names: map<Name, StandbyNames>,
    phase: map<Name, Phase>,
    pending: map<Name, SyncWrite>)    // commands given up on, still to be applied or dropped

  function Wal(s: State, n: Name): set<Commit> { if n in s.wal then s.wal[n] else {} }

  function Names(s: State, n: Name): StandbyNames { if n in s.names then s.names[n] else Listed({}) }

  function PhaseOf(s: State, n: Name): Phase { if n in s.phase then s.phase[n] else Idle }

  function At(s: State, n: Name, p: Phase): State { s.(phase := s.phase[n := p]) }

  /** prevIndex is compared only when it is not zero. */
  predicate CasOk(s: State, w: SyncWrite) { w.index == 0 || w.index == s.sync.index }

  function CasWrite(s: State, n: Name, w: SyncWrite): State {
    if CasOk(s, w)
    then s.(sync := SyncKey(s.position + 1, Some(n), w.members), position := s.position + 1)
    else s
  }

  datatype Action =
    | Acquire(n: Name)
    | LoadAfterAcquire(n: Name, seen: SyncKey)
    | Load(n: Name, seen: SyncKey)
    | Renew(n: Name)
    | ClearSync(n: Name, answer: Answer)
    | ResetNames(n: Name)
    | Promote(n: Name)
    | Pick(n: Name, picked: set<Name>, allow: set<Name>)
    | Narrow(n: Name, answer: Answer)
    | Assign(n: Name)
    | PickAgain(n: Name, allow: set<Name>)
    | Reread(n: Name, seen: SyncKey)
    | Publish(n: Name, answer: Answer)
    | Abandon(n: Name)
    | ApplyPending(n: Name)
    | DropPending(n: Name)
    | LoseKey
    | Crash(n: Name)
    | Write(c: Commit)
    | Replicate(from: Name, to: Name, c: Commit)
    | Rewind(n: Name)
    | Acknowledge(c: Commit)

  /** What pg_stat_replication may call 'sync': a standby that holds every commit acknowledged so far and, unless
      '*' is configured, is one of the configured names. */
  predicate Reported(s: State, p: Name, allow: set<Name>) {
    && (forall a <- allow :: s.acked <= Wal(s, a))
    && (Names(s, p).Listed? ==> allow <= Names(s, p).standbys)
  }

  /** When the primary confirms commit c to its client. */
  predicate Confirmable(s: State, p: Name, c: Commit) {
    match Names(s, p)
    case Listed(standbys) => forall m <- standbys :: c in Wal(s, m)
    case Anyone => exists m <- s.wal :: m != p && c in Wal(s, m)
  }

  /**
    What n's copy of the store may show of the sync key: it may lag behind the commands of others, but not behind n's
    own, so that a key which n wrote last is shown as it is.
   */
  predicate Shown(s: State, n: Name, seen: SyncKey) {
    seen == s.sync || (0 < seen.index < s.sync.index && s.sync.leader != Some(n))
  }

  predicate Enabled(env: Env, s: State, a: Action) {
    match a
    case Acquire(n) =>
      // is_healthiest_node: after the first leader only it and the published standbys take part
      && PhaseOf(s, n).Idle? && s.holder.None?
      && (s.sync.leader.Some? ==> n == s.sync.leader.value || n in s.sync.members)
    case LoadAfterAcquire(n, seen) =>
      && Shown(s, n, seen) && PhaseOf(s, n).Acquired? && (env.freshReads ==> n !in s.pending)
      && (env.promptLoad ==> s.holder == Some(n))
    case Load(n, seen) =>
      // the copy shows n as the holder, which need no longer be true
      Shown(s, n, seen) && PhaseOf(s, n).Idle? && (env.freshReads ==> n !in s.pending)
    case Renew(n) =>
      && PhaseOf(s, n).Loaded?
      && (s.holder == Some(n) || (s.holder.None? && (env.soleRenewal ==> s.last == Some(n))))
    case ClearSync(n, _) =>
      PhaseOf(s, n).Confirmed? && s.primary != Some(n) && n !in s.pending
    case ResetNames(n) => PhaseOf(s, n).Cleared?
    case Promote(n) => PhaseOf(s, n).Promotable? && (env.promptPromotion ==> s.holder == Some(n))
    case Pick(n, picked, allow) =>
      && PhaseOf(s, n).Confirmed? && s.primary == Some(n)
      && allow <= picked && Reported(s, n, allow)
      && picked != Current(PhaseOf(s, n).view)
    case Narrow(n, _) =>
      && PhaseOf(s, n).Picked?
      && (Current(PhaseOf(s, n).view) * PhaseOf(s, n).allow == Current(PhaseOf(s, n).view) || n !in s.pending)
    case Assign(n) => PhaseOf(s, n).Narrowed?
    case PickAgain(n, allow) =>
      PhaseOf(s, n).Waiting? && s.primary == Some(n) && Reported(s, n, allow)
    case Reread(n, seen) =>
      && Shown(s, n, seen) && PhaseOf(s, n).Offering? && PhaseOf(s, n).allow != {}
      && PhaseOf(s, n).allow != PhaseOf(s, n).common
    case Publish(n, _) => PhaseOf(s, n).Offer? && n !in s.pending
    case Abandon(n) => true
    case ApplyPending(n) => n in s.pending
    case DropPending(n) => n in s.pending
    case LoseKey => s.holder.Some?
    case Crash(n) => true
    case Write(c) => s.primary.Some?
    case Replicate(from, to, c) => c in Wal(s, from)
    case Rewind(n) => s.primary.Some? && s.primary != Some(n)
    case Acknowledge(c) =>
      s.primary.Some? && c in Wal(s, s.primary.value) && Confirmable(s, s.primary.value, c)
  }

  /** The state after write_sync_state: `granted` when it answered True, Idle when it answered False. */
  function Written(s: State, n: Name, w: SyncWrite, answer: Answer, granted: Phase): State {
    if answer.TimedOut? then At(s, n, Idle).(pending := s.pending[n := w])
    else if CasOk(s, w) then At(CasWrite(s, n, w), n, granted)
    else At(s, n, Idle)
  }

  function Apply(env: Env, s: State, a: Action): State
    requires Enabled(env, s, a)
  {
    match a
    case Acquire(n) => At(s, n, Acquired).(holder := Some(n), last := Some(n), position := s.position + 1)
    case LoadAfterAcquire(n, seen) => At(s, n, Confirmed(View(seen)))
    case Load(n, seen) => At(s, n, Loaded(View(seen)))
    case Renew(n) =>
      At(s, n, Confirmed(PhaseOf(s, n).view)).(holder := Some(n), last := Some(n), position := s.position + 1)
    case ClearSync(n, answer) =>
      Written(s, n, SyncWrite({}, PhaseOf(s, n).view.sync.index), answer, Cleared)
    case ResetNames(n) =>
      At(s, n, Promotable).(names := s.names[n := if env.strict then Anyone else Listed({})])
    case Promote(n) => At(s, n, Idle).(primary := Some(n))
    case Pick(n, picked, allow) => At(s, n, Picked(PhaseOf(s, n).view, picked, allow))
    case Narrow(n, answer) =>
      var Picked(view, picked, allow) := PhaseOf(s, n);
      var common := Current(view) * allow;
      if common == Current(view) then At(s, n, Narrowed(picked, allow, common))
      else Written(s, n, SyncWrite(common, view.sync.index), answer, Narrowed(picked, allow, common))
    case Assign(n) =>
      var Narrowed(picked, allow, common) := PhaseOf(s, n);
      var names := if env.strict && picked == {} then Anyone else Listed(picked);
      At(s, n, if picked != {} && allow == {} then Waiting(common) else Offering(allow, common))
        .(names := s.names[n := names])
    case PickAgain(n, allow) => At(s, n, Offering(allow, PhaseOf(s, n).common))
    case Reread(n, seen) =>
      if seen.leader.Some? && seen.leader != Some(n) then At(s, n, Idle)
      else At(s, n, Offer(PhaseOf(s, n).allow, seen.index))
    case Publish(n, answer) =>
      Written(s, n, SyncWrite(PhaseOf(s, n).allow, PhaseOf(s, n).index), answer, Idle)
    case Abandon(n) => At(s, n, Idle)
    case ApplyPending(n) => CasWrite(s, n, s.pending[n]).(pending := s.pending - {n})
    case DropPending(n) => s.(pending := s.pending - {n})
    case LoseKey => s.(holder := None, primary := None, position := s.position + 1)
    case Crash(n) => At(s, n, Idle).(primary := if s.primary == Some(n) then None else s.primary)
    case Write(c) => s.(wal := s.wal[s.primary.value := Wal(s, s.primary.value) + {c}])
    case Replicate(_, to, c) => s.(wal := s.wal[to := Wal(s, to) + {c}])
    case Rewind(n) => s.(wal := s.wal[n := Wal(s, s.primary.value)])
    case Acknowledge(c) => s.(acked := s.acked + {c})
  }

  /** Nobody leads, nothing is acknowledged, the sync key (if there is one) names no leader. */
  predicate Init(env: Env, s: State) {
    && s.holder.None? && s.last.None? && s.primary.None? && s.acked == {}
    && s.sync.leader.None? && s.sync.members == {} && s.sync.index <= s.position
    && (s.sync.index > 0 <==> env.indexed)
    && s.names == map[] && s.phase == map[] && s.pending == map[]
  }

  /** The state a run ends in, when each of its steps was enabled. */
  function Run(env: Env, s: State, steps: seq<Action>): Option<State>
    decreases |steps|, 0
  {
    if steps == [] then Some(s) else RunOn(env, s, steps[..|steps| - 1], steps[|steps| - 1])
  }

  /** One more step after a run. */
  function RunOn(env: Env, s: State, steps: seq<Action>, a: Action): Option<State>
    decreases |steps|, 1
  {
    var before := Run(env, s, steps);
    if before.Some? && Enabled(env, before.value, a) then Some(Apply(env, before.value, a)) else None
  }

  ghost predicate Reachable(env: Env, s: State) {
    exists s0, steps {:trigger Run(env, s0, steps)} :: Init(env, s0) && Run(env, s0, steps) == Some(s)
  }

  /** A run can be continued by any enabled step. */
  lemma Extend(env: Env, s: State, a: Action)
    requires Reachable(env, s) && Enabled(env, s, a)
    ensures Reachable(env, Apply(env, s, a))
  {
    var s0, steps :| Init(env, s0) && Run(env, s0, steps) == Some(s);
    var longer := steps + [a];
    assert longer[..|longer| - 1] == steps;
    assert RunOn(env, s0, steps, a) == Some(Apply(env, s, a));
    assert Run(env, s0, longer) == Some(Apply(env, s, a));
  }

  /** What may go wrong may do so at any time. */
  lemma FaultsHappen(env: Env, s: State, n: Name)
    ensures Enabled(env, s, Crash(n)) && PhaseOf(Apply(env, s, Crash(n)), n).Idle?
    ensures Apply(env, s, Crash(n)).primary == if s.primary == Some(n) then None else s.primary
    ensures Enabled(env, s, Abandon(n)) && PhaseOf(Apply(env, s, Abandon(n)), n).Idle?
    ensures s.holder.Some? ==>
      Enabled(env, s, LoseKey) && Apply(env, s, LoseKey).holder.None? && Apply(env, s, LoseKey).primary.None?
  {}

  /** A write that its client gave up on may be lost or applied. */
  lemma LateWritesHappen(env: Env, s: State, n: Name)
    requires n in s.pending
    ensures Enabled(env, s, DropPending(n)) && Apply(env, s, DropPending(n)).sync == s.sync
    ensures Enabled(env, s, ApplyPending(n))
    ensures
      var w := s.pending[n];
      Apply(env, s, ApplyPending(n)).sync ==
        if w.index == 0 || w.index == s.sync.index then SyncKey(s.position + 1, Some(n), w.members) else s.sync
  {}

  /** Commits are written and spread. */
  lemma CommitsHappen(env: Env, s: State, p: Name, n: Name, c: Commit)
    requires s.primary == Some(p)
    ensures Enabled(env, s, Write(c)) && c in Wal(Apply(env, s, Write(c)), p)
    ensures c in Wal(s, p) ==> Enabled(env, s, Replicate(p, n, c)) && c in Wal(Apply(env, s, Replicate(p, n, c)), n)
    ensures n != p ==> Enabled(env, s, Rewind(n)) && Wal(Apply(env, s, Rewind(n)), n) == Wal(s, p)
  {}

  /** And acknowledged, when the primary and those that it waits for have them. */
  lemma AcknowledgedExactly(env: Env, s: State, p: Name, c: Commit)
    requires s.primary == Some(p)
    ensures Enabled(env, s, Acknowledge(c)) <==>
      c in Wal(s, p) &&
      match Names(s, p)
      case Listed(standbys) => forall m <- standbys :: c in Wal(s, m)
      case Anyone => exists m <- s.wal :: m != p && c in Wal(s, m)
    ensures Enabled(env, s, Acknowledge(c)) ==> Apply(env, s, Acknowledge(c)).acked == s.acked + {c}
  {}

  /** A node takes a free key when nobody leads the sync key or it takes part, and renews the key that it held last. */
  lemma KeyIsTaken(env: Env, s: State, n: Name)
    ensures Enabled(env, s, Acquire(n)) <==>
      PhaseOf(s, n).Idle? && s.holder.None? && (s.sync.leader.Some? ==> s.sync.leader == Some(n) || n in s.sync.members)
    ensures PhaseOf(s, n).Loaded? && (s.holder == Some(n) || (s.holder.None? && s.last == Some(n))) ==>
      Enabled(env, s, Renew(n)) && Apply(env, s, Renew(n)).holder == Some(n)
    ensures Enabled(env, s, Acquire(n)) ==>
      Apply(env, s, Acquire(n)).holder == Some(n) && PhaseOf(Apply(env, s, Acquire(n)), n).Acquired?
  {}

  /** The running primary holds every acknowledged commit. */
  predicate NothingLost(s: State) {
    s.primary.Some? ==> s.acked <= Wal(s, s.primary.value)
  }

  /** Every standby that the running primary has published is one that each commit waits for. */
  predicate PublishedConfigured(s: State) {
    s.primary.Some? ==>
      s.sync.leader == s.primary && s.sync.members <= Required(Names(s, s.primary.value))
  }
}
