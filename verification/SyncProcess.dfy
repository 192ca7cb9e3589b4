/**
  Ha.process_sync_replication as a method that works on the shared cluster, statement by statement, while the other
  nodes and the environment go on between its statements.
 */
module SyncProcess {
  import opened Wrappers
  import opened SyncFailover
  import opened SyncSafety

  /** How process_sync_replication ended. */
  datatype Outcome =
    | Unchanged                                        // the picked standbys are the published ones
    | NotNarrowed                                      // the first write answered False
    | NotPublished(names: StandbyNames)                // the second did, or somebody else leads the sync key
    | Failed                                           // the database or the store did not answer
    | Stopped(names: StandbyNames)                     // the same after the names were set
    | Assigned(names: StandbyNames)                    // names set, nothing new to publish
    | Published(names: StandbyNames, allow: set<Name>) // names set and standbys published

  /** A step that node n does not take itself. */
  predicate Foreign(n: Name, a: Action) {
    match a
    case ApplyPending(_) => true
    case DropPending(_) => true
    case LoseKey => true
    case Write(_) => true
    case Replicate(_, _, _) => true
    case Rewind(_) => true
    case Acknowledge(_) => true
    case _ => a.n != n
  }

  /** What n's HA loop relies on between two of its own steps: the sync key is as it left it, or is not its own. */
  predicate Undisturbed(s: State, t: State, n: Name) {
    && PhaseOf(t, n) == PhaseOf(s, n) && Names(t, n) == Names(s, n)
    && (n in t.pending ==> n in s.pending)
    && (n !in s.pending && Leads(t, n) ==> t.sync == s.sync)
  }

  /** The steps of a node that may write the sync key. */
  predicate Writes(a: Action) { a.ClearSync? || a.Narrow? || a.Publish? }

  predicate OfStartup(a: Action) {
    a.Acquire? || a.LoadAfterAcquire? || a.Load? || a.Renew? || a.ResetNames? || a.Promote?
  }

  predicate OfProcess(a: Action) { a.Pick? || a.Assign? || a.PickAgain? || a.Reread? || a.Abandon? }

  lemma CasUndisturbed(s: State, m: Name, w: SyncWrite, p: Phase, n: Name)
    requires m != n
    ensures Undisturbed(s, At(CasWrite(s, m, w), m, p), n)
  {}

  lemma MoveUndisturbed(s: State, m: Name, p: Phase, pending: map<Name, SyncWrite>, n: Name)
    requires m != n && (n in pending ==> n in s.pending)
    ensures Undisturbed(s, At(s, m, p).(pending := pending), n)
  {}

  lemma WrittenUndisturbed(s: State, m: Name, w: SyncWrite, answer: Answer, granted: Phase, n: Name)
    requires m != n
    ensures Undisturbed(s, Written(s, m, w, answer, granted), n)
  {
    if answer.TimedOut? {
      MoveUndisturbed(s, m, Idle, s.pending[m := w], n);
    } else if CasOk(s, w) {
      CasUndisturbed(s, m, w, granted, n);
    } else {
      MoveUndisturbed(s, m, Idle, s.pending, n);
    }
  }

  lemma WriteUndisturbed(env: Env, s: State, a: Action, n: Name)
    requires Enabled(env, s, a) && Writes(a) && a.n != n
    ensures Undisturbed(s, Apply(env, s, a), n)
  {
    match a
    case ClearSync(m, answer) =>
      WrittenUndisturbed(s, m, SyncWrite({}, PhaseOf(s, m).view.sync.index), answer, Cleared, n);
    case Narrow(m, answer) =>
      var Picked(view, picked, allow) := PhaseOf(s, m);
      var common := Current(view) * allow;
      WrittenUndisturbed(s, m, SyncWrite(common, view.sync.index), answer, Narrowed(picked, allow, common), n);
    case Publish(m, answer) =>
      WrittenUndisturbed(s, m, SyncWrite(PhaseOf(s, m).allow, PhaseOf(s, m).index), answer, Idle, n);
  }

  lemma StartupUndisturbed(env: Env, s: State, a: Action, n: Name)
    requires Enabled(env, s, a) && OfStartup(a) && a.n != n
    ensures Undisturbed(s, Apply(env, s, a), n)
  {}

  lemma ProcessUndisturbed(env: Env, s: State, a: Action, n: Name)
    requires Enabled(env, s, a) && OfProcess(a) && a.n != n
    ensures Undisturbed(s, Apply(env, s, a), n)
  {}

  lemma OutsideUndisturbed(env: Env, s: State, a: Action, n: Name)
    requires Enabled(env, s, a) && Foreign(n, a) && !Writes(a) && !OfStartup(a) && !OfProcess(a)
    ensures Undisturbed(s, Apply(env, s, a), n)
  {}

  lemma ForeignUndisturbed(env: Env, s: State, a: Action, n: Name)
    requires Enabled(env, s, a) && Foreign(n, a)
    ensures Undisturbed(s, Apply(env, s, a), n)
  {
    if Writes(a) {
      WriteUndisturbed(env, s, a, n);
    } else if OfStartup(a) {
      StartupUndisturbed(env, s, a, n);
    } else if OfProcess(a) {
      ProcessUndisturbed(env, s, a, n);
    } else {
      OutsideUndisturbed(env, s, a, n);
    }
  }

  // ---------------------------------------------------------------- what decides the outcome

  /** All that process_sync_replication learns: the picked standbys, and the answer of each access, None without one.
      What a query or a read answers depends on the state at that time. */
  datatype Inputs = Inputs(
    picked: set<Name>,
    first: Option<set<Name>>,                // reported as 'sync' by the first query
    answer1: Answer,
    again: State -> Option<set<Name>>,       // by the second one, two seconds later
    reread: State -> Option<SyncKey>,
    answer2: Answer,
    noise: nat -> seq<Action>)               // what the others try to do between the statements

  /** The answers are true. */
  ghost predicate Honest(n: Name, i: Inputs) {
    && (forall t :: i.again(t).Some? ==> t.primary == Some(n) && Reported(t, n, i.again(t).value))
    && (forall t :: i.reread(t).Some? ==> Shown(t, n, i.reread(t).value))
  }

  /** The state after everybody but n has taken those of `steps` that are possible. */
  function Between(env: Env, s: State, n: Name, steps: seq<Action>): State {
    if steps == [] then s
    else
      var before := Between(env, s, n, steps[..|steps| - 1]);
      var a := steps[|steps| - 1];
      if Foreign(n, a) && Enabled(env, before, a) then Apply(env, before, a) else before
  }

  /** Every possible step of another node is taken. */
  lemma BetweenTakes(env: Env, s: State, n: Name, a: Action)
    requires Foreign(n, a) && Enabled(env, s, a)
    ensures Between(env, s, n, [a]) == Apply(env, s, a) && Between(env, s, n, []) == s
  {
    assert [a][..0] == [];
    assert Between(env, s, n, []) == s;
  }

  /** The standbys reported last: when none was allowed but some are picked, the query is repeated. */
  function LastReport(env: Env, b: State, n: Name, i: Inputs): Option<set<Name>> {
    var p := PhaseOf(b, n);
    if p.Waiting? then i.again(Between(env, b, n, i.noise(2)))
    else if p.Offering? then Some(p.allow)
    else None
  }

  /** The state in which the sync key is read again. */
  function AtReread(env: Env, b: State, n: Name, i: Inputs): State {
    var q := Between(env, b, n, i.noise(2));
    var p := PhaseOf(b, n);
    if p.Waiting? && i.again(q).Some? then Between(env, At(q, n, Offering(i.again(q).value, p.common)), n, i.noise(3))
    else q
  }

  /** The second write of allow, on the key that was read, does not go through. */
  predicate Refused(env: Env, r: State, n: Name, i: Inputs, allow: set<Name>, key: SyncKey) {
    || (key.leader.Some? && key.leader != Some(n))
    || i.answer2.TimedOut?
    || !CasOk(Between(env, At(r, n, Offer(allow, key.index)), n, i.noise(4)), SyncWrite(allow, key.index))
  }

  /** The outcome from the state b on, in which the names are assigned. */
  predicate Decided(env: Env, b: State, n: Name, common: set<Name>, i: Inputs, outcome: Outcome) {
    var report := LastReport(env, b, n, i);
    var r := AtReread(env, b, n, i);
    var settled := report.Some? && (report.value == {} || report.value == common);
    && (outcome.Assigned? <==> settled)
    && (outcome.Stopped? <==> report.None? || (!settled && i.reread(r).None?))
    && (outcome.NotPublished? <==>
          report.Some? && !settled && i.reread(r).Some? && Refused(env, r, n, i, report.value, i.reread(r).value))
    && (outcome.Published? <==>
          report.Some? && !settled && i.reread(r).Some? && !Refused(env, r, n, i, report.value, i.reread(r).value))
    && (outcome.Published? ==> outcome.allow == report.value)
  }

  /** A step of n, if it is possible. */
  function Then(env: Env, s: State, a: Action): State { if Enabled(env, s, a) then Apply(env, s, a) else s }

  /** The first write is needed and does not go through. */
  predicate NotWithdrawn(env: Env, p: State, n: Name, view: View, allow: set<Name>, i: Inputs) {
    var common := Current(view) * allow;
    common != Current(view) &&
    (i.answer1.TimedOut? || !CasOk(Between(env, p, n, i.noise(0)), SyncWrite(common, view.sync.index)))
  }

  /** The outcome from the state p on, in which the picked standbys are known. */
  predicate DecidedFromPick(env: Env, p: State, n: Name, view: View, allow: set<Name>, i: Inputs, outcome: Outcome) {
    if NotWithdrawn(env, p, n, view, allow, i) then outcome.NotNarrowed?
    else
      var narrowed := Then(env, Between(env, p, n, i.noise(0)), Narrow(n, i.answer1));
      var b := Then(env, Between(env, narrowed, n, i.noise(1)), Assign(n));
      Decided(env, b, n, Current(view) * allow, i, outcome)
  }

  /** The outcome of the whole. */
  predicate Determined(env: Env, s: State, n: Name, view: View, i: Inputs, outcome: Outcome) {
    && (outcome.Failed? <==> i.first.None?)
    && (outcome.Unchanged? <==> i.first.Some? && i.picked == Current(view))
    && (i.first.Some? && i.picked != Current(view) ==>
          DecidedFromPick(env, At(s, n, Picked(view, i.picked, i.first.value)), n, view, i.first.value, i, outcome))
  }

  /** Nobody interferes, every access is answered, and the node leads the sync key that it loaded. */
  ghost predicate Quiet(s: State, n: Name, i: Inputs) {
    && (forall k :: i.noise(k) == []) && i.answer1.Answered? && i.answer2.Answered? && (forall t :: i.reread(t).Some?)
    && s.primary == Some(n) && s.holder == Some(n) && s.sync.leader == Some(n)
    && PhaseOf(s, n) == Confirmed(View(s.sync))
    && n !in s.pending
  }

  /** The first write of a node that leads the sync key goes through. */
  lemma LeaderNarrows(env: Env, p: State, n: Name, picked: set<Name>, allow: set<Name>)
    requires PhaseOf(p, n) == Picked(View(p.sync), picked, allow) && p.sync.leader == Some(n) && n !in p.pending
    ensures
      var t := Then(env, p, Narrow(n, Answered));
      var common := p.sync.members * allow;
      PhaseOf(t, n) == Narrowed(picked, allow, common) && t.sync.leader == Some(n) && n !in t.pending
  {}

  /** And with some standbys allowed the names are assigned at once. */
  lemma LeaderAssigns(env: Env, p: State, n: Name)
    requires PhaseOf(p, n).Narrowed? && PhaseOf(p, n).allow != {}
    ensures
      var t := Then(env, p, Assign(n));
      PhaseOf(t, n) == Offering(PhaseOf(p, n).allow, PhaseOf(p, n).common) && t.sync == p.sync
  {}

  /** Then the second write is refused to nobody. */
  lemma LeaderNotRefused(env: Env, b: State, n: Name, i: Inputs, allow: set<Name>, key: SyncKey)
    requires b.sync.leader == Some(n) && Shown(b, n, key) && i.answer2.Answered? && i.noise(4) == []
    ensures !Refused(env, b, n, i, allow, key)
  {}

  /** Then the standbys that the first query reports are published, if there are any and they are not what is left. */
  lemma QuietPublishes(env: Env, s: State, n: Name, i: Inputs, outcome: Outcome)
    requires Quiet(s, n, i) && Honest(n, i) && Determined(env, s, n, View(s.sync), i, outcome)
    requires i.first.Some? && i.first.value != {} && i.first.value <= i.picked && i.picked != s.sync.members
    requires Reported(s, n, i.first.value)
    ensures i.first.value <= s.sync.members ==> outcome.Assigned?
    ensures !(i.first.value <= s.sync.members) ==> outcome.Published? && outcome.allow == i.first.value
  {
    var allow := i.first.value;
    var p := At(s, n, Picked(View(s.sync), i.picked, allow));
    LeaderNarrows(env, p, n, i.picked, allow);
    var narrowed := Then(env, p, Narrow(n, Answered));
    LeaderAssigns(env, narrowed, n);
    var b := Then(env, narrowed, Assign(n));
    assert forall k, t :: Between(env, t, n, i.noise(k)) == t;
    assert AtReread(env, b, n, i) == b && LastReport(env, b, n, i) == Some(allow);
    LeaderNotRefused(env, b, n, i, allow, i.reread(b).value);
  }

  /** Without published and without allowed standbys the names are assigned, and the loop waits. */
  lemma LeaderWaits(env: Env, p: State, n: Name, picked: set<Name>)
    requires PhaseOf(p, n) == Picked(View(p.sync), picked, {}) && picked != {} && p.sync.members == {}
    ensures
      var narrowed := At(p, n, Narrowed(picked, {}, {}));
      && Then(env, p, Narrow(n, Answered)) == narrowed
      && Then(env, narrowed, Assign(n)) == At(narrowed, n, Waiting({})).(names := p.names[n := Listed(picked)])
  {}

  /** When none of the picked standbys is reported yet, the query is repeated with their names assigned. */
  lemma QuietWaits(env: Env, s: State, n: Name, i: Inputs, outcome: Outcome)
    requires Quiet(s, n, i) && Honest(n, i) && Determined(env, s, n, View(s.sync), i, outcome)
    requires i.first == Some({}) && i.picked != {} && s.sync.members == {}
    ensures
      var b := s.(names := s.names[n := Listed(i.picked)],
                  phase := s.phase[n := Picked(View(s.sync), i.picked, {})][n := Narrowed(i.picked, {}, {})]
                                  [n := Waiting({})]);
      match i.again(b)
      case None => outcome.Stopped?
      case Some(report) =>
        if report == {} then outcome.Assigned? else outcome.Published? && outcome.allow == report
  {
    var p := At(s, n, Picked(View(s.sync), i.picked, {}));
    var narrowed := At(p, n, Narrowed(i.picked, {}, {}));
    var b := At(narrowed, n, Waiting({})).(names := s.names[n := Listed(i.picked)]);
    LeaderWaits(env, p, n, i.picked);
    assert forall k, t :: Between(env, t, n, i.noise(k)) == t;
    if i.again(b).Some? && i.again(b).value != {} {
      var r := At(b, n, Offering(i.again(b).value, {}));
      assert AtReread(env, b, n, i) == r && LastReport(env, b, n, i) == i.again(b);
      LeaderNotRefused(env, r, n, i, i.again(b).value, i.reread(r).value);
    }
  }

  class Cluster {
    const env: Env
    var s: State

    constructor (env: Env, s: State)
      requires Init(env, s)
      ensures this.env == env && this.s == s && Valid()
    {
      this.env, this.s := env, s;
      new;
      assert Run(env, s, []) == Some(s);
    }

    /** The cluster is in a state that a run of the transition system reaches. */
    ghost predicate Valid()
      reads this
    {
      Reachable(env, s)
    }

    method Take(a: Action)
      requires Valid() && Enabled(env, s, a)
      modifies this
      ensures Valid() && s == Apply(env, old(s), a)
    {
      Extend(env, s, a);
      s := Apply(env, s, a);
    }

    /** Everybody but n takes those of `steps` that are possible. */
    method Interfere(n: Name, steps: seq<Action>)
      requires Valid()
      modifies this
      ensures Valid()
      ensures Undisturbed(old(s), s, n)
      ensures s == Between(env, old(s), n, steps)
    {
      for i := 0 to |steps|
        invariant Valid()
        invariant Undisturbed(old(s), s, n)
        invariant s == Between(env, old(s), n, steps[..i])
      {
        assert steps[..i + 1][..i] == steps[..i];
        if Foreign(n, steps[i]) && Enabled(env, s, steps[i]) {
          ForeignUndisturbed(env, s, steps[i], n);
          Take(steps[i]);
        }
      }
      assert steps[..|steps|] == steps;
    }

    /** The HA loop leaves the function. */
    method Leave(n: Name)
      requires Valid()
      modifies this
      ensures Valid() && s == At(old(s), n, Idle)
    {
      Take(Abandon(n));
    }

    /** The picked standbys differ from the published ones: remember them. */
    method Remember(n: Name, picked: set<Name>, allow: set<Name>)
      requires Valid() && PhaseOf(s, n).Confirmed? && s.primary == Some(n) && allow <= picked && Reported(s, n, allow)
      requires picked != Current(PhaseOf(s, n).view)
      modifies this
      ensures Valid() && s == At(old(s), n, Picked(old(PhaseOf(s, n).view), picked, allow))
    {
      Take(Pick(n, picked, allow));
    }

    /** Keep only those standbys published that are allowed to promote. */
    method Withdraw(n: Name, answer: Answer) returns (ok: bool)
      requires Valid() && PhaseOf(s, n).Picked? && n !in s.pending
      modifies this
      ensures Valid() && Names(s, n) == old(Names(s, n)) && s == Apply(env, old(s), Narrow(n, answer))
      ensures
        var Picked(view, _, allow) := old(PhaseOf(s, n));
        var common := Current(view) * allow;
        ok <==> common == Current(view) || (answer.Answered? && old(CasOk(s, SyncWrite(common, view.sync.index))))
      ensures !ok ==> PhaseOf(s, n) == Idle && s.sync == old(s.sync)
      ensures ok ==> n !in s.pending
      ensures ok ==>
        var Picked(view, picked, allow) := old(PhaseOf(s, n));
        var common := Current(view) * allow;
        && PhaseOf(s, n) == Narrowed(picked, allow, common)
        && s.sync == if common == Current(view) then old(s.sync) else SyncKey(s.position, Some(n), common)
    {
      Take(Narrow(n, answer));
      ok := PhaseOf(s, n) != Idle;
    }

    /** set_synchronous_standby */
    method AssignNames(n: Name)
      requires Valid() && PhaseOf(s, n).Narrowed? && n !in s.pending
      modifies this
      ensures Valid() && n !in s.pending && s.sync == old(s.sync) && s == Apply(env, old(s), Assign(n))
      ensures
        var Narrowed(picked, allow, common) := old(PhaseOf(s, n));
        && Names(s, n) == (if env.strict && picked == {} then Anyone else Listed(picked))
        && PhaseOf(s, n) == if picked != {} && allow == {} then Waiting(common) else Offering(allow, common)
    {
      Take(Assign(n));
    }

    /** The standbys that became synchronous while the HA loop waited. */
    method Offers(n: Name, allow: set<Name>)
      requires Valid() && PhaseOf(s, n).Waiting? && s.primary == Some(n) && Reported(s, n, allow)
      modifies this
      ensures Valid() && s == At(old(s), n, Offering(allow, old(PhaseOf(s, n).common)))
    {
      Take(PickAgain(n, allow));
    }

    /** The second get_cluster: nobody else may lead the sync key in the copy that it reads. */
    method ReadSync(n: Name, key: SyncKey) returns (ok: bool)
      requires Valid() && PhaseOf(s, n).Offering? && PhaseOf(s, n).allow != {} && Shown(s, n, key)
      requires PhaseOf(s, n).allow != PhaseOf(s, n).common
      modifies this
      ensures Valid() && (ok <==> key.leader.None? || key.leader == Some(n))
      ensures s == At(old(s), n, if ok then Offer(old(PhaseOf(s, n).allow), key.index) else Idle)
    {
      ok := key.leader.None? || key.leader == Some(n);
      Take(Reread(n, key));
    }

    /** The second write_sync_state. */
    method WriteSync(n: Name, answer: Answer) returns (ok: bool)
      requires Valid() && PhaseOf(s, n).Offer? && n !in s.pending
      modifies this
      ensures Valid() && PhaseOf(s, n) == Idle && Names(s, n) == old(Names(s, n))
      ensures ok <==> answer.Answered? && old(CasOk(s, SyncWrite(PhaseOf(s, n).allow, PhaseOf(s, n).index)))
      ensures s.sync == if ok then SyncKey(s.position, Some(n), old(PhaseOf(s, n).allow)) else old(s.sync)
    {
      ok := answer.Answered? && CasOk(s, SyncWrite(PhaseOf(s, n).allow, PhaseOf(s, n).index));
      Take(Publish(n, answer));
    }

    method ProcessSyncReplication(n: Name, i: Inputs) returns (outcome: Outcome)
      requires Valid() && PhaseOf(s, n).Confirmed? && s.primary == Some(n) && n !in s.pending && Honest(n, i)
      requires i.first.Some? ==> i.first.value <= i.picked && Reported(s, n, i.first.value)
      modifies this
      ensures Valid() && PhaseOf(s, n).Idle?
      ensures old(Determined(env, s, n, PhaseOf(s, n).view, i, outcome))
      ensures Accounted(old(s), s, n, old(Current(PhaseOf(s, n).view)), i.picked, outcome)
      ensures Ordered(env) ==> PublishedConfigured(s)
      ensures Ordered(env) && !env.strict ==> NothingLost(s)
    {
      if i.first.None? || i.picked == Current(PhaseOf(s, n).view) {
        Leave(n);
        outcome := if i.first.None? then Failed else Unchanged;
      } else {
        Remember(n, i.picked, i.first.value);
        outcome := Replace(n, i);
      }
      Settled();
    }

    /** What is configured and what is published after each way out; `current` was published before. */
    predicate Accounted(before: State, after: State, n: Name, current: set<Name>, picked: set<Name>, outcome: Outcome) {
      match outcome
      case Unchanged => Names(after, n) == Names(before, n) && (Leads(after, n) ==> after.sync == before.sync)
      case NotNarrowed => Names(after, n) == Names(before, n) && (Leads(after, n) ==> after.sync == before.sync)
      case Failed => Names(after, n) == Names(before, n) && (Leads(after, n) ==> after.sync == before.sync)
      case Stopped(names) => Assigns(after, n, picked, names) && Kept(before, after, n, current, picked)
      case Assigned(names) => Assigns(after, n, picked, names) && Kept(before, after, n, current, picked)
      case NotPublished(names) => Assigns(after, n, picked, names) && Kept(before, after, n, current, picked)
      case Published(names, allow) =>
        && Assigns(after, n, picked, names) && allow != {} && allow <= picked
        && after.sync == SyncKey(after.position, Some(n), allow)
    }

    predicate Assigns(after: State, n: Name, picked: set<Name>, names: StandbyNames) {
      Names(after, n) == names == if env.strict && picked == {} then Anyone else Listed(picked)
    }

    /** As far as the sync key is still n's, it is unchanged, or standbys have been withdrawn that are not picked. */
    predicate Kept(before: State, after: State, n: Name, current: set<Name>, picked: set<Name>) {
      Leads(after, n) ==> after.sync == before.sync || (after.sync.members < current && after.sync.members <= picked)
    }

    /** The first write. */
    method Narrows(n: Name, i: Inputs) returns (ok: bool)
      requires Valid() && PhaseOf(s, n).Picked? && n !in s.pending
      modifies this
      ensures Valid() && Names(s, n) == old(Names(s, n))
      ensures s == Then(env, Between(env, old(s), n, i.noise(0)), Narrow(n, i.answer1))
      ensures
        var Picked(view, picked, allow) := old(PhaseOf(s, n));
        var common := Current(view) * allow;
        && (ok <==> !NotWithdrawn(env, old(s), n, view, allow, i))
        && (if ok then PhaseOf(s, n) == Narrowed(picked, allow, common) && n !in s.pending else PhaseOf(s, n) == Idle)
        && (Leads(s, n) && s.sync != old(s.sync) ==> ok && s.sync.members == common && common != Current(view))
    {
      Interfere(n, i.noise(0));
      ok := Withdraw(n, i.answer1);
    }

    /** From the first write on. */
    method Replace(n: Name, i: Inputs) returns (outcome: Outcome)
      requires Valid() && PhaseOf(s, n).Picked? && PhaseOf(s, n).allow <= PhaseOf(s, n).picked && n !in s.pending
      requires Honest(n, i)
      modifies this
      ensures Valid() && PhaseOf(s, n).Idle? && !outcome.Unchanged? && !outcome.Failed?
      ensures
        var Picked(view, picked, allow) := old(PhaseOf(s, n));
        && Accounted(old(s), s, n, Current(view), picked, outcome)
        && DecidedFromPick(env, old(s), n, view, allow, i, outcome)
    {
      var ok := Narrows(n, i);
      if !ok {
        return NotNarrowed;
      }
      outcome := FromNames(n, i);
    }

    /** From the names on. */
    method FromNames(n: Name, i: Inputs) returns (outcome: Outcome)
      requires Valid() && PhaseOf(s, n).Narrowed? && PhaseOf(s, n).allow <= PhaseOf(s, n).picked && n !in s.pending
      requires Honest(n, i)
      modifies this
      ensures Valid() && PhaseOf(s, n).Idle?
      ensures outcome.Stopped? || outcome.NotPublished? || outcome.Assigned? || outcome.Published?
      ensures
        var Narrowed(picked, allow, common) := old(PhaseOf(s, n));
        && Assigns(s, n, picked, outcome.names)
        && Decided(env, Then(env, Between(env, old(s), n, i.noise(1)), Assign(n)), n, common, i, outcome)
        && (outcome.Published? ==> outcome.allow <= picked)
      ensures outcome.Published? ==> outcome.allow != {} && s.sync == SyncKey(s.position, Some(n), outcome.allow)
      ensures !outcome.Published? && Leads(s, n) ==> s.sync == old(s.sync)
    {
      Configures(n, i);
      outcome := PublishAllowed(n, i);
    }

    method Configures(n: Name, i: Inputs)
      requires Valid() && PhaseOf(s, n).Narrowed? && n !in s.pending
      modifies this
      ensures Valid() && n !in s.pending && (Leads(s, n) ==> s.sync == old(s.sync))
      ensures s == Then(env, Between(env, old(s), n, i.noise(1)), Assign(n))
      ensures
        var Narrowed(picked, allow, common) := old(PhaseOf(s, n));
        && Names(s, n) == (if env.strict && picked == {} then Anyone else Listed(picked))
        && PhaseOf(s, n) == if picked != {} && allow == {} then Waiting(common) else Offering(allow, common)
    {
      Interfere(n, i.noise(1));
      AssignNames(n);
    }

    /** The second half: the names are assigned, publish the standbys that hold everything. */
    method PublishAllowed(n: Name, i: Inputs) returns (outcome: Outcome)
      requires Valid() && (PhaseOf(s, n).Waiting? || PhaseOf(s, n).Offering?) && n !in s.pending && Honest(n, i)
      requires if PhaseOf(s, n).Waiting? then Names(s, n).Listed? else PhaseOf(s, n).allow <= Required(Names(s, n))
      modifies this
      ensures Valid() && PhaseOf(s, n).Idle? && Names(s, n) == old(Names(s, n))
      ensures outcome.Stopped? || outcome.NotPublished? || outcome.Assigned? || outcome.Published?
      ensures outcome.names == Names(s, n)
      ensures Decided(env, old(s), n, old(PhaseOf(s, n).common), i, outcome)
      ensures outcome.Published? ==>
        && outcome.allow != {} && outcome.allow <= Required(Names(s, n))
        && s.sync == SyncKey(s.position, Some(n), outcome.allow)
      ensures !outcome.Published? && Leads(s, n) ==> s.sync == old(s.sync)
    {
      Interfere(n, i.noise(2));
      if PhaseOf(s, n).Waiting? {
        // two seconds later some of the picked standbys may have become synchronous
        var reported := i.again(s);
        if reported.None? {
          Leave(n);
          return Stopped(Names(s, n));
        }
        Offers(n, reported.value);
        Interfere(n, i.noise(3));
      }
      var allow := PhaseOf(s, n).allow;
      if allow == {} || allow == PhaseOf(s, n).common {
        Leave(n);
        return Assigned(Names(s, n));
      }
      var key := i.reread(s);
      if key.None? {
        Leave(n);
        return Stopped(Names(s, n));
      }
      var ok := ReadSync(n, key.value);
      if ok {
        Interfere(n, i.noise(4));
        ok := WriteSync(n, i.answer2);
      }
      return if ok then Published(Names(s, n), allow) else NotPublished(Names(s, n));
    }

    /** What holds of every state of the cluster. */
    lemma Settled()
      requires Valid()
      ensures Ordered(env) ==> PublishedConfigured(s)
      ensures Ordered(env) && !env.strict ==> NothingLost(s)
    {
      if Ordered(env) {
        PublishedAreConfigured(env, s);
        if !env.strict {
          AcknowledgedSurvive(env, s);
        }
      }
    }
  }
}
