/**
  What every run of SyncFailover keeps.  `Shape` is about who may write the sync key and what it publishes;
  `Held` is about which nodes hold the acknowledged commits.
 */
module SyncSafety {
  import opened Wrappers
  import opened SyncFailover

  /** The assumptions about timing and about the store. */
  predicate Ordered(env: Env) {
    env.freshReads && env.indexed && env.soleRenewal && env.promptLoad && env.promptPromotion
  }

  /** n holds the key and has already made itself the leader of the sync key. */
  predicate Installed(s: State, n: Name) {
    s.holder == Some(n) && (s.primary == Some(n) || PhaseOf(s, n).Cleared? || PhaseOf(s, n).Promotable?)
  }

  predicate Leads(s: State, n: Name) { s.sync.leader == Some(n) }

  /** If the compare-and-set of w would succeed now, nobody else is installed and w publishes configured names. */
  predicate WriteShape(s: State, n: Name, w: SyncWrite) {
    && 0 < w.index <= s.position
    && (w.index == s.sync.index ==>
      && (s.holder.Some? && s.holder.value != n ==> !Installed(s, s.holder.value))
      && (s.primary == Some(n) ==> w.members <= Required(Names(s, n))))
  }

  /** The view of n is current for as long as n leads the sync key. */
  predicate ViewShape(s: State, n: Name, view: View) {
    && 0 < view.sync.index <= s.position
    && (Leads(s, n) ==> view.sync == s.sync)
  }

  predicate PhaseShape(s: State, n: Name) {
    match PhaseOf(s, n)
    case Idle => true
    case Acquired => true
    case Loaded(view) => n !in s.pending && ViewShape(s, n, view)
    case Confirmed(view) =>
      n !in s.pending && ViewShape(s, n, view) && WriteShape(s, n, SyncWrite({}, view.sync.index))
    case Picked(view, picked, allow) =>
      && n !in s.pending && ViewShape(s, n, view) && allow <= picked
      && WriteShape(s, n, SyncWrite(Current(view) * allow, view.sync.index))
      && (view.sync.index == s.sync.index ==> Leads(s, n))
    case Narrowed(picked, allow, common) =>
      n !in s.pending && allow <= picked && (Leads(s, n) ==> s.sync.members <= allow)
    case Waiting(common) => n !in s.pending && Names(s, n).Listed?
    case Offering(allow, common) =>
      n !in s.pending && (Leads(s, n) && s.primary == Some(n) ==> allow <= Required(Names(s, n)))
    case Offer(allow, index) =>
      n !in s.pending && WriteShape(s, n, SyncWrite(allow, index))
    case Cleared => n !in s.pending && (s.holder == Some(n) ==> Leads(s, n) && s.sync.members == {})
    case Promotable => n !in s.pending && (s.holder == Some(n) ==> Leads(s, n) && s.sync.members == {})
  }

  ghost predicate Shape(s: State) {
    && 0 < s.sync.index <= s.position
    && (s.sync.leader.None? ==> s.sync.members == {})
    && (s.holder.Some? ==> s.last == s.holder)
    && (s.primary.Some? ==> s.holder == s.primary)
    && PublishedConfigured(s)
    && (forall n :: PhaseShape(s, n))
    && (forall n <- s.pending :: WriteShape(s, n, s.pending[n]))
  }

  lemma ShapeInit(env: Env, s: State)
    requires Init(env, s) && env.indexed
    ensures Shape(s)
  {}

  /** Only n's own phase, names and pending command differ. */
  ghost predicate SameOthers(s: State, t: State, n: Name) {
    && (forall m | m != n :: PhaseOf(t, m) == PhaseOf(s, m) && Names(t, m) == Names(s, m))
    && (forall m <- t.pending | m != n :: m in s.pending && t.pending[m] == s.pending[m])
    && (forall m | m != n :: (t.primary == Some(m) ==> s.primary == Some(m)) &&
                             (t.holder == Some(m) ==> s.holder == Some(m)))
  }

  /** A step of n that leaves the sync key alone and does not install n keeps the shape of every other node. */
  lemma FrameShape(s: State, t: State, n: Name)
    requires Shape(s) && SameOthers(s, t, n)
    requires t.sync == s.sync && t.position >= s.position && (Installed(t, n) ==> Installed(s, n))
    ensures forall m <- t.pending | m != n :: WriteShape(t, m, t.pending[m])
    ensures forall m | m != n :: PhaseShape(t, m)
  {
    forall m | m != n
      ensures PhaseShape(t, m)
    {
      assert PhaseShape(s, m);
    }
  }

  /** A step of n that only moves its HA loop on. */
  lemma MoveShape(s: State, n: Name, p: Phase)
    requires Shape(s) && PhaseShape(At(s, n, p), n) && (Installed(At(s, n, p), n) ==> Installed(s, n))
    ensures Shape(At(s, n, p))
  {
    FrameShape(s, At(s, n, p), n);
  }

  /** A compare-and-set of n that WriteShape covers keeps the shape of every other node. */
  lemma CasShape(s: State, n: Name, w: SyncWrite, t: State)
    requires Shape(s) && WriteShape(s, n, w) && CasOk(s, w) && SameOthers(s, t, n)
    requires t.sync == SyncKey(s.position + 1, Some(n), w.members) && t.position == s.position + 1
    requires t.primary == s.primary && t.holder == s.holder && Names(t, n) == Names(s, n)
    ensures PublishedConfigured(t)
    ensures forall m <- t.pending | m != n :: WriteShape(t, m, t.pending[m])
    ensures forall m | m != n :: PhaseShape(t, m)
  {
    forall m | m != n
      ensures PhaseShape(t, m)
    {
      assert PhaseShape(s, m);
    }
  }

  /** write_sync_state, whatever its answer. */
  lemma WrittenShape(s: State, n: Name, w: SyncWrite, answer: Answer, granted: Phase)
    requires Shape(s) && WriteShape(s, n, w) && n !in s.pending
    requires CasOk(s, w) ==> PhaseShape(At(CasWrite(s, n, w), n, granted), n)
    ensures Shape(Written(s, n, w, answer, granted))
  {
    var t := Written(s, n, w, answer, granted);
    if answer.Answered? && CasOk(s, w) {
      CasShape(s, n, w, t);
    } else {
      FrameShape(s, t, n);
    }
  }

  /** A command its client gave up on is applied or dropped. */
  lemma ShapePending(env: Env, s: State, a: Action)
    requires Ordered(env) && Shape(s) && Enabled(env, s, a) && (a.ApplyPending? || a.DropPending?)
    ensures Shape(Apply(env, s, a))
  {
    var t := Apply(env, s, a);
    assert PhaseShape(s, a.n);
    if a.ApplyPending? && CasOk(s, s.pending[a.n]) {
      CasShape(s, a.n, s.pending[a.n], t);
    } else {
      FrameShape(s, t, a.n);
    }
  }

  /** A node crashes or loses the key. */
  lemma ShapeStop(env: Env, s: State, a: Action)
    requires Ordered(env) && Shape(s) && Enabled(env, s, a) && (a.LoseKey? || a.Crash?)
    ensures Shape(Apply(env, s, a))
  {
    var n := if a.LoseKey? then s.holder.value else a.n;
    assert PhaseShape(s, n);
    FrameShape(s, Apply(env, s, a), n);
  }

  /** The shape does not depend on the commits. */
  lemma ShapeData(s: State, wal: map<Name, set<Commit>>, acked: set<Commit>)
    requires Shape(s)
    ensures Shape(s.(wal := wal, acked := acked))
  {
    var t := s.(wal := wal, acked := acked);
    forall n
      ensures PhaseShape(t, n)
    {
      assert PhaseShape(s, n);
    }
  }

  /** A node takes the key, or takes it again. */
  lemma ShapeTake(env: Env, s: State, a: Action)
    requires Ordered(env) && Shape(s) && Enabled(env, s, a) && (a.Acquire? || a.Renew?)
    ensures Shape(Apply(env, s, a))
  {
    assert PhaseShape(s, a.n);
    FrameShape(s, Apply(env, s, a), a.n);
  }

  /** A node loads the cluster, resets its names or is promoted. */
  lemma ShapeLocal(env: Env, s: State, a: Action)
    requires Ordered(env) && Shape(s) && Enabled(env, s, a)
    requires a.LoadAfterAcquire? || a.Load? || a.ResetNames? || a.Promote?
    ensures Shape(Apply(env, s, a))
  {
    assert PhaseShape(s, a.n);
    if a.Load? || a.LoadAfterAcquire? {
      MoveShape(s, a.n, PhaseOf(Apply(env, s, a), a.n));
    } else {
      FrameShape(s, Apply(env, s, a), a.n);
    }
  }

  /** enforce_master_role writes (n, None). */
  lemma ShapeClear(env: Env, s: State, n: Name, answer: Answer)
    requires Ordered(env) && Shape(s) && Enabled(env, s, ClearSync(n, answer))
    ensures Shape(Apply(env, s, ClearSync(n, answer)))
  {
    assert PhaseShape(s, n);
    WrittenShape(s, n, SyncWrite({}, PhaseOf(s, n).view.sync.index), answer, Cleared);
  }

  /** The first write of process_sync_replication, or none when nothing is to be withdrawn. */
  lemma ShapeNarrow(env: Env, s: State, n: Name, answer: Answer)
    requires Ordered(env) && Shape(s) && Enabled(env, s, Narrow(n, answer))
    ensures Shape(Apply(env, s, Narrow(n, answer)))
  {
    assert PhaseShape(s, n);
    var Picked(view, picked, allow) := PhaseOf(s, n);
    var common := Current(view) * allow;
    if common == Current(view) {
      MoveShape(s, n, Narrowed(picked, allow, common));
    } else {
      WrittenShape(s, n, SyncWrite(common, view.sync.index), answer, Narrowed(picked, allow, common));
    }
  }

  /** The second write of process_sync_replication. */
  lemma ShapePublish(env: Env, s: State, n: Name, answer: Answer)
    requires Ordered(env) && Shape(s) && Enabled(env, s, Publish(n, answer))
    ensures Shape(Apply(env, s, Publish(n, answer)))
  {
    assert PhaseShape(s, n);
    WrittenShape(s, n, SyncWrite(PhaseOf(s, n).allow, PhaseOf(s, n).index), answer, Idle);
  }

  /** set_synchronous_standby(picked) */
  lemma ShapeAssign(env: Env, s: State, n: Name)
    requires Ordered(env) && Shape(s) && Enabled(env, s, Assign(n))
    ensures Shape(Apply(env, s, Assign(n)))
  {
    assert PhaseShape(s, n);
    FrameShape(s, Apply(env, s, Assign(n)), n);
  }

  /** pick_synchronous_standby */
  lemma ShapePick(env: Env, s: State, a: Action)
    requires Ordered(env) && Shape(s) && Enabled(env, s, a) && (a.Pick? || a.PickAgain?)
    ensures Shape(Apply(env, s, a))
  {
    assert PhaseShape(s, a.n);
    MoveShape(s, a.n, PhaseOf(Apply(env, s, a), a.n));
  }

  /** The second get_cluster */
  lemma ShapeReread(env: Env, s: State, n: Name, seen: SyncKey)
    requires Ordered(env) && Shape(s) && Enabled(env, s, Reread(n, seen))
    ensures Shape(Apply(env, s, Reread(n, seen)))
  {
    assert PhaseShape(s, n) && (s.holder.Some? ==> PhaseShape(s, s.holder.value));
    if seen.leader.Some? && seen.leader != Some(n) {
      MoveShape(s, n, Idle);
    } else {
      MoveShape(s, n, Offer(PhaseOf(s, n).allow, seen.index));
    }
  }

  /** A commit is written, copied or acknowledged. */
  lemma ShapeCommit(env: Env, s: State, a: Action)
    requires Shape(s) && Enabled(env, s, a) && (a.Write? || a.Replicate? || a.Rewind? || a.Acknowledge?)
    ensures Shape(Apply(env, s, a))
  {
    ShapeData(s, Apply(env, s, a).wal, Apply(env, s, a).acked);
  }

  /** A statement of process_sync_replication. */
  lemma ShapeProcess(env: Env, s: State, a: Action)
    requires Ordered(env) && Shape(s) && Enabled(env, s, a)
    requires a.Narrow? || a.Publish? || a.Pick? || a.PickAgain? || a.Assign? || a.Reread?
    ensures Shape(Apply(env, s, a))
  {
    match a
    case Narrow(n, answer) => ShapeNarrow(env, s, n, answer);
    case Publish(n, answer) => ShapePublish(env, s, n, answer);
    case Pick(_, _, _) => ShapePick(env, s, a);
    case PickAgain(_, _) => ShapePick(env, s, a);
    case Assign(n) => ShapeAssign(env, s, n);
    case Reread(n, seen) => ShapeReread(env, s, n, seen);
  }

  lemma ShapeStep(env: Env, s: State, a: Action)
    requires Ordered(env) && Shape(s) && Enabled(env, s, a)
    ensures Shape(Apply(env, s, a))
  {
    if a.Narrow? || a.Publish? || a.Pick? || a.PickAgain? || a.Assign? || a.Reread? {
      ShapeProcess(env, s, a);
    } else if a.Write? || a.Replicate? || a.Rewind? || a.Acknowledge? {
      ShapeCommit(env, s, a);
    } else {
      match a
      case ApplyPending(_) => ShapePending(env, s, a);
      case DropPending(_) => ShapePending(env, s, a);
      case LoseKey => ShapeStop(env, s, a);
      case Crash(_) => ShapeStop(env, s, a);
      case Abandon(n) => MoveShape(s, n, Idle);
      case ClearSync(n, answer) => ShapeClear(env, s, n, answer);
      case Acquire(_) => ShapeTake(env, s, a);
      case Renew(_) => ShapeTake(env, s, a);
      case _ => ShapeLocal(env, s, a);
    }
  }

  /** The nodes of `set` hold every acknowledged commit. */
  predicate AllHold(s: State, nodes: set<Name>) {
    forall m <- nodes :: s.acked <= Wal(s, m)
  }

  /** If the compare-and-set of w would succeed now, n and every node it publishes hold every acknowledged commit. */
  predicate WriteHeld(s: State, n: Name, w: SyncWrite) {
    w.index == s.sync.index ==> AllHold(s, w.members + {n})
  }

  /** The standbys that n is about to publish hold every acknowledged commit and keep confirming new ones. */
  predicate AllowHeld(s: State, n: Name, allow: set<Name>) {
    Leads(s, n) ==> AllHold(s, allow) && (s.primary == Some(n) ==> allow <= Required(Names(s, n)))
  }

  predicate PhaseHeld(s: State, n: Name) {
    match PhaseOf(s, n)
    case Confirmed(view) => WriteHeld(s, n, SyncWrite({}, view.sync.index))
    case Picked(view, picked, allow) =>
      AllowHeld(s, n, allow) && WriteHeld(s, n, SyncWrite(Current(view) * allow, view.sync.index))
    case Narrowed(picked, allow, common) => AllowHeld(s, n, allow)
    case Offering(allow, common) => AllowHeld(s, n, allow)
    case Offer(allow, index) => WriteHeld(s, n, SyncWrite(allow, index))
    case _ => true
  }

  /** Without '*', every node that may come to lead next holds every acknowledged commit. */
  ghost predicate Held(s: State) {
    && (s.sync.leader.None? ==> s.acked == {})
    && (s.sync.leader.Some? ==> AllHold(s, s.sync.members + {s.sync.leader.value}))
    && (s.last.Some? ==> AllHold(s, {s.last.value}))
    && (forall n :: Names(s, n).Listed? && PhaseHeld(s, n))
    && (forall n <- s.pending :: WriteHeld(s, n, s.pending[n]))
  }

  lemma HeldInit(env: Env, s: State)
    requires Init(env, s)
    ensures Held(s)
  {}

  /** A step of n that leaves the sync key and the commits alone keeps what holds of every other node. */
  lemma FrameHeld(s: State, t: State, n: Name)
    requires Held(s) && SameOthers(s, t, n)
    requires t.sync == s.sync && t.acked == s.acked && t.wal == s.wal
    ensures forall m <- t.pending | m != n :: WriteHeld(t, m, t.pending[m])
    ensures forall m | m != n :: Names(t, m).Listed? && PhaseHeld(t, m)
  {
    forall m | m != n
      ensures PhaseHeld(t, m)
    {
      assert PhaseHeld(s, m);
    }
  }

  /** A step of n that only moves its HA loop on. */
  lemma MoveHeld(s: State, n: Name, p: Phase)
    requires Held(s) && PhaseHeld(At(s, n, p), n)
    ensures Held(At(s, n, p))
  {
    assert Names(s, n).Listed?;
    FrameHeld(s, At(s, n, p), n);
  }

  /** A compare-and-set of n keeps what holds of every other node. */
  lemma CasHeld(s: State, n: Name, w: SyncWrite, t: State)
    requires Shape(s) && Held(s) && WriteShape(s, n, w) && WriteHeld(s, n, w) && CasOk(s, w) && SameOthers(s, t, n)
    requires t.sync == SyncKey(s.position + 1, Some(n), w.members) && t.acked == s.acked && t.wal == s.wal
    ensures AllHold(t, t.sync.members + {n})
    ensures forall m <- t.pending | m != n :: WriteHeld(t, m, t.pending[m])
    ensures forall m | m != n :: Names(t, m).Listed? && PhaseHeld(t, m)
  {
    forall m | m != n
      ensures PhaseHeld(t, m)
    {
      assert PhaseShape(s, m) && PhaseHeld(s, m);
    }
  }

  lemma HeldAfterCas(s: State, n: Name, w: SyncWrite, t: State)
    requires Shape(s) && Held(s) && WriteShape(s, n, w) && WriteHeld(s, n, w) && CasOk(s, w) && SameOthers(s, t, n)
    requires t.sync == SyncKey(s.position + 1, Some(n), w.members) && t.acked == s.acked && t.wal == s.wal
    requires t.last == s.last && n !in t.pending && Names(t, n) == Names(s, n) && PhaseHeld(t, n)
    ensures Held(t)
  {
    CasHeld(s, n, w, t);
    assert Names(s, n).Listed?;
  }

  lemma WrittenHeld(s: State, n: Name, w: SyncWrite, answer: Answer, granted: Phase)
    requires Shape(s) && Held(s) && WriteShape(s, n, w) && WriteHeld(s, n, w) && n !in s.pending
    requires CasOk(s, w) ==> PhaseHeld(At(CasWrite(s, n, w), n, granted), n)
    ensures Held(Written(s, n, w, answer, granted))
  {
    var t := Written(s, n, w, answer, granted);
    if answer.Answered? && CasOk(s, w) {
      HeldAfterCas(s, n, w, t);
    } else {
      HeldUnwritten(s, n, w, t);
    }
  }

  /** The write is refused, or given up. */
  lemma HeldUnwritten(s: State, n: Name, w: SyncWrite, t: State)
    requires Held(s) && WriteHeld(s, n, w) && n !in s.pending
    requires t == At(s, n, Idle) || t == At(s, n, Idle).(pending := s.pending[n := w])
    ensures Held(t)
  {
    assert Names(s, n).Listed? && Names(t, n) == Names(s, n);
    FrameHeld(s, t, n);
  }

  /** Commits spread; a node that held every acknowledged commit still does. */
  lemma HeldSpread(s: State, wal: map<Name, set<Commit>>)
    requires Held(s)
    requires forall n :: s.acked <= Wal(s, n) ==> s.acked <= Wal(s.(wal := wal), n)
    ensures Held(s.(wal := wal))
  {
    var t := s.(wal := wal);
    forall n
      ensures Names(t, n).Listed? && PhaseHeld(t, n)
    {
      assert Names(s, n).Listed? && PhaseHeld(s, n);
    }
  }

  /** A commit is acknowledged: every node that may lead next holds it. */
  lemma HeldAcknowledge(env: Env, s: State, c: Commit)
    requires Shape(s) && Held(s) && Enabled(env, s, Acknowledge(c))
    ensures Held(Apply(env, s, Acknowledge(c)))
  {
    var t := Apply(env, s, Acknowledge(c));
    var p := s.primary.value;
    assert Names(s, p).Listed? && PublishedConfigured(s);
    forall n
      ensures Names(t, n).Listed? && PhaseHeld(t, n)
    {
      assert PhaseShape(s, n) && Names(s, n).Listed? && PhaseHeld(s, n);
    }
  }

  /** A command its client gave up on is applied after all. */
  lemma HeldApplied(env: Env, s: State, n: Name)
    requires Ordered(env) && Shape(s) && Held(s) && Enabled(env, s, ApplyPending(n))
    ensures Held(Apply(env, s, ApplyPending(n)))
  {
    var t := Apply(env, s, ApplyPending(n));
    assert PhaseShape(s, n);
    if CasOk(s, s.pending[n]) {
      HeldAfterCas(s, n, s.pending[n], t);
    } else {
      HeldDropped(env, s, n);
    }
  }

  /** A command its client gave up on is lost. */
  lemma HeldDropped(env: Env, s: State, n: Name)
    requires Held(s) && Enabled(env, s, DropPending(n))
    ensures Held(Apply(env, s, DropPending(n)))
  {
    assert Names(s, n).Listed? && PhaseHeld(s, n);
    FrameHeld(s, Apply(env, s, DropPending(n)), n);
  }

  /** A node crashes or loses the key. */
  lemma HeldStop(env: Env, s: State, a: Action)
    requires Held(s) && Enabled(env, s, a) && (a.LoseKey? || a.Crash?)
    ensures Held(Apply(env, s, a))
  {
    var t := Apply(env, s, a);
    var n := if a.LoseKey? then s.holder.value else a.n;
    assert PhaseHeld(s, n) && Names(s, n).Listed?;
    assert SameOthers(s, t, n);
    FrameHeld(s, t, n);
  }

  /** A node takes the key, or takes it again. */
  lemma HeldTake(env: Env, s: State, a: Action)
    requires Ordered(env) && Shape(s) && Held(s) && Enabled(env, s, a) && (a.Acquire? || a.Renew?)
    ensures Held(Apply(env, s, a))
  {
    assert PhaseShape(s, a.n) && Names(s, a.n).Listed?;
    FrameHeld(s, Apply(env, s, a), a.n);
  }

  /** A node loads the cluster, resets its names or is promoted. */
  lemma HeldLocal(env: Env, s: State, a: Action)
    requires Ordered(env) && !env.strict && Shape(s) && Held(s) && Enabled(env, s, a)
    requires a.LoadAfterAcquire? || a.Load? || a.ResetNames? || a.Promote?
    ensures Held(Apply(env, s, a))
  {
    if a.Load? || a.LoadAfterAcquire? {
      MoveHeld(s, a.n, PhaseOf(Apply(env, s, a), a.n));
    } else {
      assert PhaseShape(s, a.n) && Names(s, a.n).Listed?;
      FrameHeld(s, Apply(env, s, a), a.n);
    }
  }

  /** enforce_master_role writes (n, None). */
  lemma HeldClear(env: Env, s: State, n: Name, answer: Answer)
    requires Ordered(env) && Shape(s) && Held(s) && Enabled(env, s, ClearSync(n, answer))
    ensures Held(Apply(env, s, ClearSync(n, answer)))
  {
    assert PhaseShape(s, n) && PhaseHeld(s, n);
    WrittenHeld(s, n, SyncWrite({}, PhaseOf(s, n).view.sync.index), answer, Cleared);
  }

  /** The first write of process_sync_replication, or none when nothing is to be withdrawn. */
  lemma HeldNarrow(env: Env, s: State, n: Name, answer: Answer)
    requires Ordered(env) && Shape(s) && Held(s) && Enabled(env, s, Narrow(n, answer))
    ensures Held(Apply(env, s, Narrow(n, answer)))
  {
    assert PhaseShape(s, n) && PhaseHeld(s, n);
    var Picked(view, picked, allow) := PhaseOf(s, n);
    var common := Current(view) * allow;
    if common == Current(view) {
      MoveHeld(s, n, Narrowed(picked, allow, common));
    } else {
      WrittenHeld(s, n, SyncWrite(common, view.sync.index), answer, Narrowed(picked, allow, common));
    }
  }

  /** The second write of process_sync_replication. */
  lemma HeldPublish(env: Env, s: State, n: Name, answer: Answer)
    requires Ordered(env) && Shape(s) && Held(s) && Enabled(env, s, Publish(n, answer))
    ensures Held(Apply(env, s, Publish(n, answer)))
  {
    assert PhaseShape(s, n) && PhaseHeld(s, n);
    WrittenHeld(s, n, SyncWrite(PhaseOf(s, n).allow, PhaseOf(s, n).index), answer, Idle);
  }

  /** pick_synchronous_standby */
  lemma HeldPick(env: Env, s: State, a: Action)
    requires Ordered(env) && Shape(s) && Held(s) && Enabled(env, s, a) && (a.Pick? || a.PickAgain?)
    ensures Held(Apply(env, s, a))
  {
    assert PhaseShape(s, a.n) && PhaseHeld(s, a.n) && Names(s, a.n).Listed?;
    MoveHeld(s, a.n, PhaseOf(Apply(env, s, a), a.n));
  }

  /** set_synchronous_standby(picked) */
  lemma HeldAssign(env: Env, s: State, n: Name)
    requires Ordered(env) && !env.strict && Shape(s) && Held(s) && Enabled(env, s, Assign(n))
    ensures Held(Apply(env, s, Assign(n)))
  {
    assert PhaseShape(s, n) && PhaseHeld(s, n);
    FrameHeld(s, Apply(env, s, Assign(n)), n);
  }

  /** The second get_cluster */
  lemma HeldReread(env: Env, s: State, n: Name, seen: SyncKey)
    requires Ordered(env) && Shape(s) && Held(s) && Enabled(env, s, Reread(n, seen))
    ensures Held(Apply(env, s, Reread(n, seen)))
  {
    assert PhaseHeld(s, n);
    if seen.leader.Some? && seen.leader != Some(n) {
      MoveHeld(s, n, Idle);
    } else {
      MoveHeld(s, n, Offer(PhaseOf(s, n).allow, seen.index));
    }
  }

  /** A commit is written, copied or acknowledged. */
  lemma HeldCommit(env: Env, s: State, a: Action)
    requires Ordered(env) && !env.strict && Shape(s) && Held(s) && Enabled(env, s, a)
    requires a.Write? || a.Replicate? || a.Rewind? || a.Acknowledge?
    ensures Held(Apply(env, s, a))
  {
    if a.Acknowledge? {
      HeldAcknowledge(env, s, a.c);
    } else {
      HeldSpread(s, Apply(env, s, a).wal);
    }
  }

  /** A statement of process_sync_replication. */
  lemma HeldProcess(env: Env, s: State, a: Action)
    requires Ordered(env) && !env.strict && Shape(s) && Held(s) && Enabled(env, s, a)
    requires a.Narrow? || a.Publish? || a.Pick? || a.PickAgain? || a.Assign? || a.Reread?
    ensures Held(Apply(env, s, a))
  {
    match a
    case Narrow(n, answer) => HeldNarrow(env, s, n, answer);
    case Publish(n, answer) => HeldPublish(env, s, n, answer);
    case Pick(_, _, _) => HeldPick(env, s, a);
    case PickAgain(_, _) => HeldPick(env, s, a);
    case Assign(n) => HeldAssign(env, s, n);
    case Reread(n, seen) => HeldReread(env, s, n, seen);
  }

  lemma HeldStep(env: Env, s: State, a: Action)
    requires Ordered(env) && !env.strict && Shape(s) && Held(s) && Enabled(env, s, a)
    ensures Held(Apply(env, s, a))
  {
    if a.Narrow? || a.Publish? || a.Pick? || a.PickAgain? || a.Assign? || a.Reread? {
      HeldProcess(env, s, a);
    } else if a.Write? || a.Replicate? || a.Rewind? || a.Acknowledge? {
      HeldCommit(env, s, a);
    } else {
      match a
      case ApplyPending(n) => HeldApplied(env, s, n);
      case DropPending(n) => HeldDropped(env, s, n);
      case LoseKey => HeldStop(env, s, a);
      case Crash(_) => HeldStop(env, s, a);
      case Abandon(n) => MoveHeld(s, n, Idle);
      case Acquire(_) => HeldTake(env, s, a);
      case Renew(_) => HeldTake(env, s, a);
      case ClearSync(n, answer) => HeldClear(env, s, n, answer);
      case _ => HeldLocal(env, s, a);
    }
  }

  /** Every run keeps Shape and, without '*', Held. */
  lemma {:induction false} RunKeeps(env: Env, s0: State, steps: seq<Action>)
    requires Ordered(env) && Init(env, s0) && Run(env, s0, steps).Some?
    ensures Shape(Run(env, s0, steps).value)
    ensures !env.strict ==> Held(Run(env, s0, steps).value)
  {
    if steps == [] {
      ShapeInit(env, s0);
      HeldInit(env, s0);
    } else {
      var before := Run(env, s0, steps[..|steps| - 1]).value;
      RunKeeps(env, s0, steps[..|steps| - 1]);
      ShapeStep(env, before, steps[|steps| - 1]);
      if !env.strict {
        HeldStep(env, before, steps[|steps| - 1]);
      }
    }
  }

  /** After every step of every run, in strict mode too, each commit waits for every published standby. */
  lemma PublishedAreConfigured(env: Env, s: State)
    requires Ordered(env) && Reachable(env, s)
    ensures PublishedConfigured(s)
  {
    var s0, steps :| Init(env, s0) && Run(env, s0, steps) == Some(s);
    RunKeeps(env, s0, steps);
  }

  /** No run, whatever crashes and fails over, has a primary without an acknowledged commit. */
  lemma AcknowledgedSurvive(env: Env, s: State)
    requires Ordered(env) && !env.strict && Reachable(env, s)
    ensures NothingLost(s)
  {
    var s0, steps :| Init(env, s0) && Run(env, s0, steps) == Some(s);
    RunKeeps(env, s0, steps);
  }
}
