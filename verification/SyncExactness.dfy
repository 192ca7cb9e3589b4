/**
  Which assumptions the synchronous mode needs: for each one a run without it that loses an acknowledged commit,
  and the theorem that together they are exactly what is needed.
 */
module SyncExactness {
  import opened Wrappers
  import opened SyncFailover
  import opened SyncSafety

  ghost predicate AllRunsSafe(env: Env) {
    forall s :: Reachable(env, s) ==> NothingLost(s)
  }

  /** `reach` holds every state that a run can reach. */
  ghost predicate Closed(env: Env, reach: iset<State>) {
    && (forall s :: Init(env, s) ==> s in reach)
    && (forall s, a {:trigger Apply(env, s, a), s in reach} ::
          s in reach && Enabled(env, s, a) ==> Apply(env, s, a) in reach)
  }

  ghost predicate LossIn(reach: iset<State>) {
    exists s :: s in reach && !NothingLost(s)
  }

  lemma Start(env: Env, reach: iset<State>) returns (s: State)
    requires Closed(env, reach)
    ensures s in reach
    ensures s == State(None, None, SyncKey(if env.indexed then 1 else 0, None, {}), 1, None, {},
                       map[], map[], map[], map[])
  {
    s := State(None, None, SyncKey(if env.indexed then 1 else 0, None, {}), 1, None, {}, map[], map[], map[], map[]);
  }

  lemma Step(env: Env, reach: iset<State>, s: State, a: Action) returns (t: State)
    requires Closed(env, reach) && s in reach && Enabled(env, s, a)
    ensures t == Apply(env, s, a) && t in reach
  {
    t := Apply(env, s, a);
  }

  predicate Candidate(s: State, n: Name) {
    && s.holder.None? && s.primary.None? && PhaseOf(s, n).Idle? && n !in s.pending && s.sync.index <= s.position
    && (s.sync.leader.Some? ==> n == s.sync.leader.value || n in s.sync.members)
  }

  /** n wins the race and clears the sync key. */
  lemma Seize(env: Env, reach: iset<State>, s: State, n: Name) returns (t: State)
    requires Closed(env, reach) && s in reach && Candidate(s, n)
    ensures t in reach
    ensures t == s.(holder := Some(n), last := Some(n), sync := SyncKey(s.position + 2, Some(n), {}),
                    position := s.position + 2, phase := s.phase[n := Cleared])
  {
    t := Step(env, reach, s, Acquire(n));
    t := Step(env, reach, t, LoadAfterAcquire(n, t.sync));
    t := Step(env, reach, t, ClearSync(n, Answered));
  }

  /** n resets its names and is promoted. */
  lemma Rise(env: Env, reach: iset<State>, s: State, n: Name) returns (t: State)
    requires Closed(env, reach) && s in reach && PhaseOf(s, n).Cleared? && s.holder == Some(n)
    ensures t in reach
    ensures t == s.(primary := Some(n), names := s.names[n := if env.strict then Anyone else Listed({})],
                    phase := s.phase[n := Idle])
  {
    t := Step(env, reach, s, ResetNames(n));
    t := Step(env, reach, t, Promote(n));
  }

  /** n wins the race, clears the sync key and is promoted without a fault. */
  lemma Install(env: Env, reach: iset<State>, s: State, n: Name) returns (t: State)
    requires Closed(env, reach) && s in reach && Candidate(s, n)
    ensures t in reach
    ensures t == State(Some(n), Some(n), SyncKey(s.position + 2, Some(n), {}), s.position + 2, Some(n), s.acked, s.wal,
                       s.names[n := if env.strict then Anyone else Listed({})], s.phase[n := Idle], s.pending)
  {
    t := Seize(env, reach, s, n);
    t := Rise(env, reach, t, n);
  }

  /** A node that misses an acknowledged commit and may be promoted is a loss. */
  lemma Loss(env: Env, reach: iset<State>, s: State, n: Name, c: Commit)
    requires Closed(env, reach) && s in reach && Candidate(s, n) && c in s.acked && c !in Wal(s, n)
    ensures LossIn(reach)
  {
    var t := Install(env, reach, s, n);
    assert !NothingLost(t);
  }

  /** The primary writes c, and one more node receives it. */
  lemma Spreads(env: Env, reach: iset<State>, s: State, c: Commit, p: Name, m: Name) returns (t: State)
    requires Closed(env, reach) && s in reach && s.primary == Some(p) && m != p
    ensures t in reach && t == s.(wal := t.wal) && m in t.wal
    ensures forall n :: Wal(t, n) == Wal(s, n) + if n == p || n == m then {c} else {}
  {
    t := Step(env, reach, s, Write(c));
    t := Step(env, reach, t, Replicate(p, m, c));
  }

  /** Then the client gets its answer. */
  lemma Commits(env: Env, reach: iset<State>, s: State, c: Commit, p: Name, m: Name) returns (t: State)
    requires Closed(env, reach) && s in reach && s.primary == Some(p) && m != p && Required(Names(s, p)) <= {m}
    ensures t in reach && t == s.(wal := t.wal, acked := s.acked + {c})
    ensures forall n :: Wal(t, n) == Wal(s, n) + if n == p || n == m then {c} else {}
  {
    var t1 := Spreads(env, reach, s, c, p, m);
    assert c in Wal(t1, m) && c in Wal(t1, p) && Names(t1, p) == Names(s, p);
    t := Step(env, reach, t1, Acknowledge(c));
  }

  /** The primary n runs one cycle up to the pick of standbys. */
  lemma Cycle(env: Env, reach: iset<State>, s: State, n: Name, picked: set<Name>, allow: set<Name>) returns (t: State)
    requires Closed(env, reach) && s in reach && s.primary == Some(n) && s.holder == Some(n) && s.last == Some(n)
    requires PhaseOf(s, n).Idle? && n !in s.pending && allow <= picked && Reported(s, n, allow)
    requires s.sync.leader == Some(n) && picked != s.sync.members
    ensures t in reach
    ensures t == s.(phase := s.phase[n := Picked(View(s.sync), picked, allow)], position := s.position + 1)
  {
    t := Step(env, reach, s, Load(n, s.sync));
    t := Step(env, reach, t, Renew(n));
    t := Step(env, reach, t, Pick(n, picked, allow));
  }

  /** With nothing published yet, the primary n assigns the picked standbys. */
  lemma Assigns(env: Env, reach: iset<State>, s: State, n: Name, view: View, picked: set<Name>, allow: set<Name>)
    returns (t: State)
    requires Closed(env, reach) && s in reach && PhaseOf(s, n) == Picked(view, picked, allow)
    requires Current(view) == {} && picked != {}
    ensures t in reach
    ensures t == s.(names := s.names[n := Listed(picked)],
                    phase := s.phase[n := if allow == {} then Waiting({}) else Offering(allow, {})])
  {
    t := Step(env, reach, s, Narrow(n, Answered));
    assert PhaseOf(t, n) == Narrowed(picked, allow, {});
    t := Step(env, reach, t, Assign(n));
  }

  /** The primary n publishes the standbys that are allowed to promote. */
  lemma Publishes(env: Env, reach: iset<State>, s: State, n: Name, allow: set<Name>, answer: Answer)
    returns (t: State)
    requires Closed(env, reach) && s in reach && PhaseOf(s, n) == Offering(allow, {}) && n !in s.pending
    requires allow != {} && s.sync.leader == Some(n)
    ensures t in reach
    ensures answer.Answered? ==>
      t == s.(sync := SyncKey(s.position + 1, Some(n), allow), position := s.position + 1, phase := s.phase[n := Idle])
    ensures answer.TimedOut? ==>
      t == s.(pending := s.pending[n := SyncWrite(allow, s.sync.index)], phase := s.phase[n := Idle])
  {
    t := Step(env, reach, s, Reread(n, s.sync));
    t := Step(env, reach, t, Publish(n, answer));
  }

  /** Strict mode: a standby reported under '*' is published although a later commit went to another one. */
  lemma StrictLoses(env: Env, reach: iset<State>, a: Name, b: Name, c: Name)
    requires Closed(env, reach) && env.strict && a != b && b != c && c != a
    ensures LossIn(reach)
  {
    var s := Start(env, reach);
    s := Install(env, reach, s, a);
    s := Cycle(env, reach, s, a, {b}, {b});
    s := Commits(env, reach, s, 1, a, c);
    assert 1 !in Wal(s, b);
    s := Assigns(env, reach, s, a, PhaseOf(s, a).view, {b}, {b});
    s := Publishes(env, reach, s, a, {b}, Answered);
    s := Step(env, reach, s, LoseKey);
    Loss(env, reach, s, b, 1);
  }

  /** A publication that timed out is applied after the next cycle took its snapshot: the commits now wait for
      another standby than the published one. */
  lemma StaleReadLoses(env: Env, reach: iset<State>, a: Name, b: Name, c: Name)
    requires Closed(env, reach) && !env.freshReads && !env.strict && a != b && b != c && c != a
    ensures LossIn(reach)
  {
    var s := Start(env, reach);
    s := Install(env, reach, s, a);
    s := GivesUp(env, reach, s, a, b);
    s := LateApply(env, reach, s, a, {c});
    s := Assigns(env, reach, s, a, PhaseOf(s, a).view, {c}, {});
    s := Commits(env, reach, s, 1, a, c);
    assert 1 !in Wal(s, b);
    s := Step(env, reach, s, LoseKey);
    Loss(env, reach, s, b, 1);
  }

  /** The primary n assigns m, and its publication of m times out. */
  lemma GivesUp(env: Env, reach: iset<State>, s: State, n: Name, m: Name) returns (t: State)
    requires Closed(env, reach) && s in reach && !env.strict && s.primary == Some(n) && s.holder == Some(n)
    requires s.last == Some(n) && PhaseOf(s, n).Idle? && n !in s.pending && s.sync.leader == Some(n)
    requires s.sync.members == {} && s.acked == {} && m != n
    ensures t in reach
    ensures t == s.(names := s.names[n := Listed({m})], position := s.position + 1, phase := s.phase[n := Idle],
                    pending := s.pending[n := SyncWrite({m}, s.sync.index)])
  {
    t := Cycle(env, reach, s, n, {m}, {});
    t := Assigns(env, reach, t, n, PhaseOf(t, n).view, {m}, {});
    t := Step(env, reach, t, PickAgain(n, {m}));
    t := Publishes(env, reach, t, n, {m}, TimedOut);
  }

  /** The pending command of the primary n is applied between the snapshot and the pick of its next cycle. */
  lemma LateApply(env: Env, reach: iset<State>, s: State, n: Name, picked: set<Name>) returns (t: State)
    requires Closed(env, reach) && s in reach && !env.freshReads && s.primary == Some(n) && s.holder == Some(n)
    requires s.last == Some(n) && PhaseOf(s, n).Idle? && n in s.pending && CasOk(s, s.pending[n])
    requires s.sync.leader == Some(n) && picked != s.sync.members
    ensures t in reach
    ensures t == s.(sync := SyncKey(s.position + 1, Some(n), s.pending[n].members), position := s.position + 2,
                    pending := s.pending - {n},
                    phase := s.phase[n := Picked(View(s.sync), picked, {})])
  {
    t := Step(env, reach, s, Load(n, s.sync));
    t := Step(env, reach, t, ApplyPending(n));
    t := Step(env, reach, t, Renew(n));
    t := Step(env, reach, t, Pick(n, picked, {}));
  }

  /** A node that lost the key writes the sync key of the primary, and is the next to be promoted. */
  lemma Overwrites(env: Env, reach: iset<State>, s: State, n: Name)
    requires Closed(env, reach) && s in reach && 1 in s.acked && 1 !in Wal(s, n)
    requires PhaseOf(s, n).Confirmed? && n !in s.pending && CasOk(s, SyncWrite({}, PhaseOf(s, n).view.sync.index))
    requires s.primary.Some? && s.primary != Some(n) && s.holder.Some? && s.sync.index <= s.position
    ensures LossIn(reach)
  {
    var t := Step(env, reach, s, ClearSync(n, Answered));
    t := Step(env, reach, t, LoseKey);
    t := Step(env, reach, t, Abandon(n));
    Loss(env, reach, t, n, 1);
  }

  /** Without an index the compare-and-set always succeeds: a deposed candidate overwrites the primary's sync key. */
  lemma MissingIndexLoses(env: Env, reach: iset<State>, a: Name, b: Name, c: Name)
    requires Closed(env, reach) && !env.indexed && !env.strict && a != b && b != c && c != a
    ensures LossIn(reach)
  {
    var s := Start(env, reach);
    s := Step(env, reach, s, Acquire(a));
    s := Step(env, reach, s, LoadAfterAcquire(a, s.sync));
    s := Step(env, reach, s, LoseKey);
    s := Install(env, reach, s, b);
    s := Commits(env, reach, s, 1, b, c);
    assert 1 !in Wal(s, a);
    Overwrites(env, reach, s, a);
  }

  /** A renewal that finds the key gone takes it without asking whether the node is healthy. */
  lemma LateRenewalLoses(env: Env, reach: iset<State>, a: Name, b: Name, c: Name)
    requires Closed(env, reach) && !env.soleRenewal && !env.strict && a != b && b != c && c != a
    ensures LossIn(reach)
  {
    var s := Start(env, reach);
    s := Step(env, reach, s, Acquire(a));
    s := Step(env, reach, s, Abandon(a));
    s := Step(env, reach, s, Load(a, s.sync));
    s := Step(env, reach, s, LoseKey);
    s := Install(env, reach, s, b);
    s := Commits(env, reach, s, 1, b, c);
    assert 1 !in Wal(s, a);
    s := Step(env, reach, s, LoseKey);
    s := Retake(env, reach, s, a);
    assert !NothingLost(s);
  }

  /** A node whose view is outdated renews a key that is gone, and is promoted in its next cycle. */
  lemma Retake(env: Env, reach: iset<State>, s: State, n: Name) returns (t: State)
    requires Closed(env, reach) && s in reach && !env.soleRenewal && s.holder.None? && s.primary.None?
    requires PhaseOf(s, n).Loaded? && n !in s.pending
    ensures t in reach && t.primary == Some(n) && t.acked == s.acked && t.wal == s.wal
  {
    t := Step(env, reach, s, Renew(n));
    t := Step(env, reach, t, Abandon(n));
    t := Step(env, reach, t, Load(n, t.sync));
    t := Step(env, reach, t, Renew(n));
    t := Step(env, reach, t, ClearSync(n, Answered));
    t := Step(env, reach, t, ResetNames(n));
    t := Step(env, reach, t, Promote(n));
  }

  /** A node that lost the key between acquiring it and loading the cluster overwrites the primary's sync key. */
  lemma LateLoadLoses(env: Env, reach: iset<State>, a: Name, b: Name, c: Name)
    requires Closed(env, reach) && !env.promptLoad && !env.strict && a != b && b != c && c != a
    ensures LossIn(reach)
  {
    var s := Start(env, reach);
    s := Step(env, reach, s, Acquire(a));
    s := Step(env, reach, s, LoseKey);
    s := Install(env, reach, s, b);
    s := Commits(env, reach, s, 1, b, c);
    assert 1 !in Wal(s, a);
    s := Step(env, reach, s, LoadAfterAcquire(a, s.sync));
    Overwrites(env, reach, s, a);
  }

  /** A node that lost the key after it cleared the sync key is promoted while the next one is on its way: what it
      confirms then is lost. */
  lemma LatePromotionLoses(env: Env, reach: iset<State>, a: Name, b: Name)
    requires Closed(env, reach) && !env.promptPromotion && !env.strict && a != b
    ensures LossIn(reach)
  {
    var s := Start(env, reach);
    s := Step(env, reach, s, Acquire(a));
    s := Step(env, reach, s, LoadAfterAcquire(a, s.sync));
    s := Step(env, reach, s, LoseKey);
    s := Step(env, reach, s, Acquire(b));
    s := Overtaken(env, reach, s, a, b);
    OutOfTurn(env, reach, s, a, b);
  }

  /** a is promoted without the key, confirms a commit alone, and b is promoted. */
  lemma OutOfTurn(env: Env, reach: iset<State>, s: State, a: Name, b: Name)
    requires Closed(env, reach) && s in reach && !env.promptPromotion && a != b
    requires PhaseOf(s, a).Promotable? && PhaseOf(s, b).Promotable? && s.wal == map[] && Names(s, a) == Listed({})
    ensures LossIn(reach)
  {
    var t := Step(env, reach, s, Promote(a));
    t := Step(env, reach, t, Write(1));
    t := Step(env, reach, t, Acknowledge(1));
    t := Step(env, reach, t, Promote(b));
    assert !NothingLost(t);
  }

  /** a and b clear the sync key one after the other; b holds the leader key. */
  lemma Overtaken(env: Env, reach: iset<State>, s: State, a: Name, b: Name) returns (t: State)
    requires Closed(env, reach) && s in reach && !env.strict && a != b
    requires PhaseOf(s, a).Confirmed? && PhaseOf(s, a).view.sync == s.sync && a !in s.pending
    requires PhaseOf(s, b).Acquired? && b !in s.pending && s.holder == Some(b) && s.primary.None?
    requires s.wal == map[]
    ensures t in reach && PhaseOf(t, a).Promotable? && PhaseOf(t, b).Promotable? && t.holder == Some(b)
    ensures t.wal == map[] && Names(t, a) == Listed({})
  {
    t := Step(env, reach, s, ClearSync(a, Answered));
    t := Step(env, reach, t, ResetNames(a));
    t := Step(env, reach, t, LoadAfterAcquire(b, t.sync));
    t := Step(env, reach, t, ClearSync(b, Answered));
    t := Step(env, reach, t, ResetNames(b));
  }

  lemma ReachIsClosed(env: Env, reach: iset<State>)
    requires reach == iset s | Reachable(env, s)
    ensures Closed(env, reach)
  {
    forall s | Init(env, s)
      ensures s in reach
    {
      assert Run(env, s, []) == Some(s);
    }
    forall s, a | s in reach && Enabled(env, s, a)
      ensures Apply(env, s, a) in reach
    {
      Extend(env, s, a);
    }
  }

  /** Synchronous mode loses nothing in any run exactly under these six conditions. */
  lemma SafeExactly(env: Env)
    ensures AllRunsSafe(env) <==> Ordered(env) && !env.strict
  {
    if Ordered(env) && !env.strict {
      forall s | Reachable(env, s)
        ensures NothingLost(s)
      {
        AcknowledgedSurvive(env, s);
      }
    } else {
      var reach := iset s | Reachable(env, s);
      ReachIsClosed(env, reach);
      var a, b, c := "", "b", "cc";
      if env.strict {
        StrictLoses(env, reach, a, b, c);
      } else if !env.freshReads {
        StaleReadLoses(env, reach, a, b, c);
      } else if !env.indexed {
        MissingIndexLoses(env, reach, a, b, c);
      } else if !env.soleRenewal {
        LateRenewalLoses(env, reach, a, b, c);
      } else if !env.promptLoad {
        LateLoadLoses(env, reach, a, b, c);
      } else {
        LatePromotionLoses(env, reach, a, b);
      }
    }
  }
}
