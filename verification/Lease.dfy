/**
  The leader lease in time: Ha.acquire_lock, Ha.update_lock and Ha.is_leader on top of the replicated store, with one
  shared clock.  A node's commands are applied in the order in which it issued them; each may be applied late, be sent
  again by KVStoreTTL.retry, or be lost.
 */
module Lease {
  import opened Wrappers

  type Name = string

  /** A write of the leader key: an acquisition (prevExist=False) or a renewal (prevValue=self), made up at `stamp`. */
  datatype Put = Put(id: nat, renewal: bool, stamp: real)

  /** A command on its way to the log; `Release` deletes the key if it is still the node's own. */
  datatype Command = Write(put: Put) | Release

  /** The call of acquire_lock or update_lock in progress, with its latest command; `granted` once that succeeded. */
  datatype Call = Call(put: Put, granted: bool)

  /** One node: its commands under way, its call, its local deadline (0: not the leader) and the time that its last
      successful call took from making up the granted command to its end. */
  datatype Node = Node(queue: seq<Command>, call: Option<Call>, deadline: real, took: real)

  datatype Entry = Entry(owner: Name, stamp: real)

  /** `calls` counts the calls, so that the copies of one command are told from those of another. */
  datatype State = State(ttl: real, now: real, calls: nat, key: Option<Entry>, nodes: map<Name, Node>)

  datatype Step =
    | Tick(d: real)
    | Issue(n: Name, renewal: bool)     // the call starts
    | Fallback(n: Name)                 // a renewal that failed goes on as an acquisition, within the same call
    | Resend(n: Name)                   // KVStoreTTL.retry sends the same command again
    | ApplyNext(n: Name)
    | LoseNext(n: Name)
    | Return(n: Name, ok: bool)         // the call ends: set_is_leader(ok)
    | GiveUp(n: Name)                   // _delete_leader: set_is_leader(False), then the delete
    | StepDown(n: Name)                 // set_is_leader(False)
    | Expire                            // the log's leader removes an overdue key

  function At(s: State, n: Name): Node {
    if n in s.nodes then s.nodes[n] else Node([], None, 0.0, 0.0)
  }

  function With(s: State, n: Name, node: Node): State { s.(nodes := s.nodes[n := node]) }

  /** When the leader key expires. */
  function Expiry(s: State): real
    requires s.key.Some?
  {
    s.key.value.stamp + s.ttl
  }

  predicate IsLeader(s: State, n: Name) { At(s, n).deadline > s.now }

  predicate Enabled(s: State, step: Step) {
    match step
    case Tick(d) => d >= 0.0
    case Issue(n, _) => At(s, n).call.None?
    case Fallback(n) => At(s, n).call.Some? && At(s, n).call.value.put.renewal
    case Resend(n) => At(s, n).call.Some?
    case ApplyNext(n) => At(s, n).queue != []
    case LoseNext(n) => At(s, n).queue != []
    case Return(n, ok) => At(s, n).call.Some? && (ok ==> At(s, n).call.value.granted)
    case GiveUp(n) => At(s, n).call.None?
    case StepDown(n) => At(s, n).call.None?
    case Expire => s.key.Some? && Expiry(s) <= s.now
  }

  predicate Succeeds(s: State, n: Name, command: Command) {
    if command.Write? && !command.put.renewal then s.key.None?
    else s.key.Some? && s.key.value.owner == n
  }

  function ApplyCommand(s: State, n: Name, command: Command): State {
    if !Succeeds(s, n, command) then s
    else
      match command
      case Release => s.(key := None)
      case Write(put) =>
        var node := At(s, n);
        var mine := node.call.Some? && node.call.value.put == put;
        With(s, n, if mine then node.(call := Some(Call(put, true))) else node).(key := Some(Entry(n, put.stamp)))
  }

  /** A new command of n, the first of a call or one that takes over from a failed one. */
  function Begin(s: State, n: Name, renewal: bool): State {
    var put := Put(s.calls, renewal, s.now);
    With(s, n, At(s, n).(call := Some(Call(put, false)), queue := At(s, n).queue + [Write(put)]))
      .(calls := s.calls + 1)
  }

  function Apply(s: State, step: Step): State
    requires Enabled(s, step)
  {
    match step
    case Tick(d) => s.(now := s.now + d)
    case Issue(n, renewal) => Begin(s, n, renewal)
    case Fallback(n) => Begin(s, n, false)
    case Resend(n) =>
      With(s, n, At(s, n).(queue := At(s, n).queue + [Write(At(s, n).call.value.put)]))
    case ApplyNext(n) =>
      var node := At(s, n);
      ApplyCommand(With(s, n, node.(queue := node.queue[1..])), n, node.queue[0])
    case LoseNext(n) => With(s, n, At(s, n).(queue := At(s, n).queue[1..]))
    case Return(n, ok) =>
      var node := At(s, n);
      With(s, n, if ok
                 then node.(call := None, deadline := s.now + s.ttl, took := s.now - node.call.value.put.stamp)
                 else node.(call := None, deadline := 0.0))
    case GiveUp(n) => With(s, n, At(s, n).(deadline := 0.0, queue := At(s, n).queue + [Release]))
    case StepDown(n) => With(s, n, At(s, n).(deadline := 0.0))
    case Expire => s.(key := None)
  }

  predicate Init(s: State) { s.ttl > 0.0 && s.now >= 0.0 && s.key.None? && s.nodes == map[] }

  function Run(s: State, steps: seq<Step>): Option<State> {
    if steps == [] then Some(s)
    else
      var before := Run(s, steps[..|steps| - 1]);
      var step := steps[|steps| - 1];
      if before.Some? && Enabled(before.value, step) then Some(Apply(before.value, step)) else None
  }

  /** The end of the lease that n's local deadline stands for: ttl after the stamp of its last successful call. */
  function LeaseEnd(s: State, n: Name): real { At(s, n).deadline - At(s, n).took }

  /** n's lease runs in the store until `end`. */
  predicate Secured(s: State, n: Name, end: real) {
    end <= s.now || (s.key.Some? && s.key.value.owner == n && end <= Expiry(s))
  }

  /** Commands under way neither give the key back nor shorten the lease below `end`. */
  predicate Harmless(s: State, queue: seq<Command>, end: real) {
    forall c <- queue :: c.Write? && end <= c.put.stamp + s.ttl
  }

  /** After the first copy of the current command only further copies follow. */
  predicate InOrder(queue: seq<Command>, put: Put) {
    forall i, j :: 0 <= i < j < |queue| && queue[i] == Write(put) ==> queue[j] == Write(put)
  }

  predicate LeaderInv(s: State, n: Name, node: Node) {
    var end := node.deadline - node.took;
    && Secured(s, n, end) && Harmless(s, node.queue, end) && end <= s.now + s.ttl && node.took >= 0.0
    && (node.call.Some? ==> end <= node.call.value.put.stamp + s.ttl)
  }

  predicate CallInv(s: State, n: Name, node: Node, call: Call) {
    && call.put.stamp <= s.now && call.put.id < s.calls && InOrder(node.queue, call.put)
    && (call.granted ==>
          && Secured(s, n, call.put.stamp + s.ttl)
          && (forall c <- node.queue :: c == Write(call.put)))
  }

  predicate NodeInv(s: State, n: Name) {
    var node := At(s, n);
    && (forall c <- node.queue :: c.Write? ==> c.put.id < s.calls)
    && (node.deadline > 0.0 ==> LeaderInv(s, n, node))
    && (node.call.Some? ==> CallInv(s, n, node, node.call.value))
  }

  ghost predicate Inv(s: State) {
    s.ttl > 0.0 && s.now >= 0.0 && forall n :: NodeInv(s, n)
  }

  /** A node starts a call, or goes on with an acquisition in it. */
  lemma BeginKeeps(s: State, n: Name, renewal: bool)
    requires Inv(s)
    ensures Inv(Begin(s, n, renewal))
  {
    var t := Begin(s, n, renewal);
    var sent := Write(Put(s.calls, renewal, s.now));
    assert NodeInv(s, n);
    assert forall c <- At(t, n).queue :: c in At(s, n).queue || c == sent;
    assert forall c <- At(s, n).queue :: c != sent;
    forall m
      ensures NodeInv(t, m)
    {
      assert NodeInv(s, m);
    }
  }

  /** A node sends the command of its call again. */
  lemma ResendKeeps(s: State, n: Name)
    requires Inv(s) && Enabled(s, Resend(n))
    ensures Inv(Apply(s, Resend(n)))
  {
    var t := Apply(s, Resend(n));
    assert NodeInv(s, n);
    assert forall c <- At(t, n).queue :: c in At(s, n).queue || c == Write(At(s, n).call.value.put);
    forall m
      ensures NodeInv(t, m)
    {
      assert NodeInv(s, m);
    }
  }

  /** A node gives the key back. */
  lemma GiveUpKeeps(s: State, n: Name)
    requires Inv(s) && Enabled(s, GiveUp(n))
    ensures Inv(Apply(s, GiveUp(n)))
  {
    var t := Apply(s, GiveUp(n));
    assert NodeInv(s, n);
    assert forall c <- At(t, n).queue :: c in At(s, n).queue || c == Release;
    forall m
      ensures NodeInv(t, m)
    {
      assert NodeInv(s, m);
    }
  }

  /** A step of the clock, of the store's expiry, or of a node that ends a call. */
  lemma LocalStepKeeps(s: State, step: Step)
    requires Inv(s) && Enabled(s, step) && (step.Tick? || step.Expire? || step.Return? || step.StepDown?)
    ensures Inv(Apply(s, step))
  {
    var t := Apply(s, step);
    forall n
      ensures NodeInv(t, n)
    {
      assert NodeInv(s, n);
    }
  }

  /** A command leaves the queue. */
  lemma DequeueKeeps(s: State, n: Name)
    requires Inv(s) && At(s, n).queue != []
    ensures Inv(With(s, n, At(s, n).(queue := At(s, n).queue[1..])))
  {
    var t := With(s, n, At(s, n).(queue := At(s, n).queue[1..]));
    assert forall c <- At(t, n).queue :: c in At(s, n).queue;
    forall m
      ensures NodeInv(t, m)
    {
      assert NodeInv(s, m);
    }
  }

  /** Behind the first copy of the current command there are only further copies. */
  lemma OnlyCopiesFollow(queue: seq<Command>, put: Put)
    requires queue != [] && queue[0] == Write(put) && InOrder(queue, put)
    ensures forall c <- queue[1..] :: c == Write(put)
  {
    forall k | 0 <= k < |queue[1..]|
      ensures queue[1..][k] == Write(put)
    {
      assert queue[0] == Write(put) && queue[k + 1] == Write(put);
    }
  }

  /** A command of n is applied while the invariant holds: nobody else's lease is touched. */
  lemma ApplyKeeps(s: State, n: Name, command: Command)
    requires Inv(s) && (command.Write? ==> command.put.id < s.calls)
    requires At(s, n).deadline > 0.0 ==> Harmless(s, [command], LeaseEnd(s, n))
    requires At(s, n).call.Some? && At(s, n).call.value.granted ==> command == Write(At(s, n).call.value.put)
    requires At(s, n).call.Some? && command == Write(At(s, n).call.value.put) ==>
      forall c <- At(s, n).queue :: c == command
    ensures Inv(ApplyCommand(s, n, command))
  {
    var t := ApplyCommand(s, n, command);
    assert command in [command];
    forall m
      ensures NodeInv(t, m)
    {
      assert NodeInv(s, m);
    }
  }

  /** The command at the head of n's queue is applied. */
  lemma ApplyNextKeeps(s: State, n: Name)
    requires Inv(s) && At(s, n).queue != []
    ensures Inv(Apply(s, ApplyNext(n)))
  {
    var queue := At(s, n).queue;
    var rest := With(s, n, At(s, n).(queue := queue[1..]));
    DequeueKeeps(s, n);
    assert NodeInv(s, n) && queue[0] in queue;
    if At(s, n).call.Some? && queue[0] == Write(At(s, n).call.value.put) {
      OnlyCopiesFollow(queue, At(s, n).call.value.put);
    }
    ApplyKeeps(rest, n, queue[0]);
  }

  /** Every run keeps the invariant. */
  lemma {:induction false} RunKeeps(s0: State, steps: seq<Step>)
    requires Init(s0) && Run(s0, steps).Some?
    ensures Inv(Run(s0, steps).value)
  {
    if steps != [] {
      var before := Run(s0, steps[..|steps| - 1]).value;
      var step := steps[|steps| - 1];
      RunKeeps(s0, steps[..|steps| - 1]);
      match step
      case ApplyNext(n) => ApplyNextKeeps(before, n);
      case LoseNext(n) => DequeueKeeps(before, n);
      case Issue(n, renewal) => BeginKeeps(before, n, renewal);
      case Fallback(n) => BeginKeeps(before, n, false);
      case Resend(n) => ResendKeeps(before, n);
      case GiveUp(n) => GiveUpKeeps(before, n);
      case _ => LocalStepKeeps(before, step);
    }
  }

  /** A node that considers itself the leader owns a lease in the store that runs at least until its LeaseEnd, or it is
      living on the time that its last successful call took. */
  lemma LeaderOwnsLease(s0: State, steps: seq<Step>, n: Name)
    requires Init(s0) && Run(s0, steps).Some? && IsLeader(Run(s0, steps).value, n)
    ensures
      var s := Run(s0, steps).value;
      || (s.key.Some? && s.key.value.owner == n && At(s, n).deadline <= Expiry(s) + At(s, n).took)
      || LeaseEnd(s, n) <= s.now < LeaseEnd(s, n) + At(s, n).took
  {
    RunKeeps(s0, steps);
    assert NodeInv(Run(s0, steps).value, n);
  }

  /** Two nodes both answer True from is_leader only while one of them has outlived its lease, by less than the time
      that its last successful call took. */
  lemma LeadersOverlapBriefly(s0: State, steps: seq<Step>, a: Name, b: Name) returns (late: Name)
    requires Init(s0) && Run(s0, steps).Some? && a != b
    requires IsLeader(Run(s0, steps).value, a) && IsLeader(Run(s0, steps).value, b)
    ensures late == a || late == b
    ensures
      var s := Run(s0, steps).value;
      LeaseEnd(s, late) <= s.now < LeaseEnd(s, late) + At(s, late).took
  {
    var s := Run(s0, steps).value;
    LeaderOwnsLease(s0, steps, a);
    LeaderOwnsLease(s0, steps, b);
    late := if LeaseEnd(s, a) <= s.now < LeaseEnd(s, a) + At(s, a).took then a else b;
  }

  // ---------------------------------------------------------------- who leads

  /** The step ends n's leadership or begins it anew. */
  predicate Ends(step: Step, n: Name) {
    match step
    case Return(m, _) => m == n
    case GiveUp(m) => m == n
    case StepDown(m) => m == n
    case _ => false
  }

  /** n's last ended call is the i-th step and was granted, and n has not given up or stepped down since. */
  predicate LastGranted(steps: seq<Step>, n: Name, i: int) {
    0 <= i < |steps| && steps[i] == Return(n, true) && forall j :: i < j < |steps| ==> !Ends(steps[j], n)
  }

  lemma {:induction false} PrefixRuns(s0: State, steps: seq<Step>, i: nat)
    requires Run(s0, steps).Some? && i <= |steps|
    ensures Run(s0, steps[..i]).Some? && Run(s0, steps[..i]).value.ttl == s0.ttl
  {
    if i == |steps| {
      assert steps[..i] == steps;
      if i > 0 {
        PrefixRuns(s0, steps[..i - 1], i - 1);
        assert steps[..i - 1][..i - 1] == steps[..i - 1];
      }
    } else {
      assert steps[..|steps| - 1][..i] == steps[..i];
      PrefixRuns(s0, steps[..|steps| - 1], i);
    }
  }

  lemma GrantedBefore(steps: seq<Step>, n: Name, i: int)
    requires steps != [] && i < |steps| - 1
    ensures LastGranted(steps, n, i) <==>
      LastGranted(steps[..|steps| - 1], n, i) && !Ends(steps[|steps| - 1], n)
  {
  }

  /** What one step does to the local deadline. */
  lemma DeadlineStep(s: State, step: Step, n: Name)
    requires Enabled(s, step)
    ensures At(Apply(s, step), n).deadline ==
      if step == Return(n, true) then s.now + s.ttl else if Ends(step, n) then 0.0 else At(s, n).deadline
  {
  }

  /** The local deadline is a ttl after the end of that call, or 0. */
  lemma {:induction false} DeadlineIs(s0: State, steps: seq<Step>, n: Name)
    requires Init(s0) && Run(s0, steps).Some?
    ensures forall i :: LastGranted(steps, n, i) ==>
      Run(s0, steps[..i]).Some? && At(Run(s0, steps).value, n).deadline == Run(s0, steps[..i]).value.now + s0.ttl
    ensures (forall i :: !LastGranted(steps, n, i)) ==> At(Run(s0, steps).value, n).deadline == 0.0
  {
    if steps != [] {
      var k := |steps| - 1;
      var before, step := steps[..k], steps[k];
      DeadlineIs(s0, before, n);
      PrefixRuns(s0, steps, k);
      DeadlineStep(Run(s0, before).value, step, n);
      forall i | i < k
        ensures LastGranted(steps, n, i) <==> LastGranted(before, n, i) && !Ends(step, n)
        ensures 0 <= i ==> before[..i] == steps[..i]
      {
        GrantedBefore(steps, n, i);
      }
      assert LastGranted(steps, n, k) <==> step == Return(n, true);
    }
  }

  /**
    A node answers True from is_leader if and only if its last ended call was granted, it has not given up or stepped
    down since, and less than the ttl has passed since that call ended.
   */
  lemma LeadsExactly(s0: State, steps: seq<Step>, n: Name)
    requires Init(s0) && Run(s0, steps).Some?
    ensures IsLeader(Run(s0, steps).value, n) <==>
      exists i :: LastGranted(steps, n, i) && Run(s0, steps[..i]).Some? &&
                  Run(s0, steps).value.now < Run(s0, steps[..i]).value.now + s0.ttl
  {
    DeadlineIs(s0, steps, n);
    RunKeeps(s0, steps);
  }

  /** The i-th step applies a command of n that makes up its call, and the command succeeds. */
  predicate GrantedAt(s0: State, steps: seq<Step>, n: Name, put: Put, i: int) {
    0 <= i < |steps| && steps[i] == ApplyNext(n) && Run(s0, steps[..i]).Some? &&
    var s := Run(s0, steps[..i]).value;
    At(s, n).queue != [] && At(s, n).queue[0] == Write(put) &&
    (if put.renewal then s.key.Some? && s.key.value.owner == n else s.key.None?)
  }

  /** Nothing has been sent yet that a later call will be. */
  lemma {:induction false} NotYetSent(s0: State, steps: seq<Step>, n: Name, put: Put, i: int)
    requires Init(s0) && Run(s0, steps).Some? && Run(s0, steps).value.calls <= put.id
    ensures !GrantedAt(s0, steps, n, put, i)
  {
    if steps != [] && i < |steps| {
      var k := |steps| - 1;
      PrefixRuns(s0, steps, k);
      RunKeeps(s0, steps[..k]);
      assert NodeInv(Run(s0, steps[..k]).value, n);
      if i < k {
        NotYetSent(s0, steps[..k], n, put, i);
        assert 0 <= i ==> steps[..k][..i] == steps[..i];
      }
    }
  }

  lemma SameGrants(s0: State, steps: seq<Step>, n: Name, put: Put)
    requires steps != []
    ensures forall i :: i < |steps| - 1 ==>
      (GrantedAt(s0, steps, n, put, i) <==> GrantedAt(s0, steps[..|steps| - 1], n, put, i))
  {
    forall i | 0 <= i < |steps| - 1
      ensures steps[..|steps| - 1][..i] == steps[..i]
    {
    }
  }

  /** What one step does to whether the call is granted. */
  lemma GrantStep(s: State, step: Step, n: Name)
    requires Enabled(s, step) && step != Issue(n, true) && step != Issue(n, false) && step != Fallback(n)
    requires At(Apply(s, step), n).call.Some?
    ensures
      var call := At(Apply(s, step), n).call.value;
      && At(s, n).call.Some? && At(s, n).call.value.put == call.put
      && (call.granted <==>
            || At(s, n).call.value.granted
            || (step == ApplyNext(n) && At(s, n).queue[0] == Write(call.put) &&
                if call.put.renewal then s.key.Some? && s.key.value.owner == n else s.key.None?))
  {
  }

  lemma GrantedNow(s0: State, steps: seq<Step>, n: Name)
    requires Run(s0, steps).Some? && steps != []
    requires var step := steps[|steps| - 1]; !(step.Issue? && step.n == n) && !(step.Fallback? && step.n == n)
    requires At(Run(s0, steps).value, n).call.Some?
    ensures
      var k := |steps| - 1;
      var call := At(Run(s0, steps).value, n).call.value;
      Run(s0, steps[..k]).Some? &&
      var before := At(Run(s0, steps[..k]).value, n).call;
      && before.Some? && before.value.put == call.put
      && (call.granted <==> before.value.granted || GrantedAt(s0, steps, n, call.put, k))
  {
    var k := |steps| - 1;
    GrantStep(Run(s0, steps[..k]).value, steps[k], n);
  }

  /** The call in progress may end as granted if and only if one of its commands has succeeded in the store. */
  lemma {:induction false} GrantedExactly(s0: State, steps: seq<Step>, n: Name)
    requires Init(s0) && Run(s0, steps).Some? && At(Run(s0, steps).value, n).call.Some?
    ensures
      var call := At(Run(s0, steps).value, n).call.value;
      call.granted <==> exists i :: GrantedAt(s0, steps, n, call.put, i)
  {
    var k := |steps| - 1;
    var call := At(Run(s0, steps).value, n).call.value;
    assert steps != [];
    var before, step := Run(s0, steps[..k]).value, steps[k];
    SameGrants(s0, steps, n, call.put);
    if step == Issue(n, true) || step == Issue(n, false) || step == Fallback(n) {
      forall i
        ensures !GrantedAt(s0, steps, n, call.put, i)
      {
        NotYetSent(s0, steps[..k], n, call.put, i);
      }
    } else {
      GrantedNow(s0, steps, n);
      GrantedExactly(s0, steps[..k], n);
      if At(before, n).call.value.granted {
        var i :| GrantedAt(s0, steps[..k], n, call.put, i);
        assert GrantedAt(s0, steps, n, call.put, i);
      } else if exists i :: GrantedAt(s0, steps, n, call.put, i) {
        var i :| GrantedAt(s0, steps, n, call.put, i);
        assert i < k ==> GrantedAt(s0, steps[..k], n, call.put, i);
      }
    }
  }

  /** A node without a call and commands under way that acquires a free key, or renews its own, leads. */
  lemma AcquireMakesLeader(s: State, n: Name, renewal: bool)
    requires s.ttl > 0.0 && At(s, n).call.None? && At(s, n).queue == []
    requires if renewal then s.key.Some? && s.key.value.owner == n else s.key.None?
    ensures
      var issued := Apply(s, Issue(n, renewal));
      Enabled(issued, ApplyNext(n)) &&
      var applied := Apply(issued, ApplyNext(n));
      Enabled(applied, Return(n, true)) &&
      var t := Apply(applied, Return(n, true));
      IsLeader(t, n) && t.key == Some(Entry(n, s.now)) && At(t, n).deadline == s.now + s.ttl
  {
    var put := Put(s.calls, renewal, s.now);
    assert At(s, n).queue + [Write(put)] == [Write(put)];
  }

  // ---------------------------------------------------------------- KVStoreTTL.retry

  datatype FailReason = Success | Denied | Other

  /** What happens in one round of retry: the callback comes after `latency`, with `error` and `result`; without an
      answer within the wait, the round fails like an error. */
  datatype Reply = Reply(latency: real, error: FailReason, result: bool)

  /** KVStoreTTL.retry with a timeout, begun at `start`; `reply(k)` is what becomes of the k-th attempt.  It answers
      True only if an attempt was granted, and it ends within the timeout plus one second. */
  method RetryCommand(start: real, timeout: real, reply: nat -> Reply)
    returns (ok: bool, end: real, attempts: nat)
    requires timeout > 0.0 && forall k: nat :: reply(k).latency >= 0.0
    ensures ok ==> attempts > 0 && reply(attempts - 1).error.Success? && reply(attempts - 1).result
    ensures start <= end <= start + timeout + 1.0
    ensures 1 <= attempts && (attempts - 1) as real <= timeout + 1.0
    ensures !ok ==>
      || end >= start + timeout
      || reply(attempts - 1).error.Denied?
      || (reply(attempts - 1).error.Success? && !reply(attempts - 1).result)
  {
    var deadline := start + timeout;
    var wait := timeout;
    end, attempts, ok := start, 0, false;
    while true
      invariant 0.0 < wait && end + wait <= deadline + 1.0 && start <= end
      invariant attempts as real <= end - start
      decreases (deadline + 1.0 - end).Floor
    {
      var r := reply(attempts);
      attempts := attempts + 1;
      var answered := r.latency <= wait;
      end := end + if answered then r.latency else wait;
      if answered && r.error.Success? {
        return r.result, end, attempts;
      } else if answered && r.error.Denied? {
        return false, end, attempts;
      }
      wait := deadline - end;
      if wait <= 0.0 {
        return false, end, attempts;
      }
      end := end + 1.0;
    }
  }
}
