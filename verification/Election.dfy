/**
  The leader race in patroni/ha.py: which nodes find themselves healthy enough to take the lock that nobody holds.
  The cluster is not paused, is no standby cluster's remote end and has no failover key.
 */
module Election {
  import opened Wrappers

  /** A member as the store describes it. */
  datatype Member = Member(name: string, noFailover: bool, hasUrl: bool)

  /** The answer of a member's API, or the lack of one. */
  datatype Status = Status(reachable: bool, inRecovery: bool, wal: int, noFailover: bool, watchdogFailed: bool) {
    /** failover_limitation is None. */
    predicate MayPromote() { reachable && !noFailover && !watchdogFailed }
  }

  /** The synchronous replication key, when synchronous mode is on. */
  datatype SyncState = SyncState(leader: Option<string>, standbys: set<string>) {
    predicate Matches(name: string) { leader == Some(name) || (leader.Some? && name in standbys) }
  }

  /** What a node knows of itself and of the cluster. */
  datatype View = View(name: string, wal: int, timeline: int, starting: bool, running: bool, noFailover: bool,
                       watchdogHealthy: bool, backoff: bool, lastOperation: Option<int>, maximumLag: int,
                       checkTimeline: bool, clusterTimeline: int, sync: Option<SyncState>) {
    /** is_lagging */
    predicate Lagging() { lastOperation.GetOr(0) - wal > maximumLag }

    predicate Behind() { checkTimeline && timeline < clusterTimeline }

    predicate Asks(m: Member) { m.name != name && !m.noFailover && m.hasUrl }

    predicate FormerLeader(other: string) { sync.Some? && sync.value.leader == Some(other) }

    /** The other node, answering so, keeps this one from promoting. */
    predicate YieldsTo(other: string, st: Status) {
      st.MayPromote() && (!st.inRecovery || (wal < st.wal && !FormerLeader(other)))
    }

    predicate RestrictedToSync() { sync.Some? && sync.value.leader.Some? }

    /** In synchronous mode only the last known master and its synchronous standbys take part. */
    predicate TakesPart(member: string) { RestrictedToSync() ==> sync.value.Matches(member) }
  }

  /** The entry of a dict comprehension over the members: the last one of each name. */
  function ByName(members: seq<Member>): (r: map<string, Member>)
    ensures forall n <- r :: r[n].name == n && r[n] in members
  {
    if members == [] then map[]
    else
      var last := members[|members| - 1];
      ByName(members[..|members| - 1])[last.name := last]
  }

  predicate HealthiestOf(v: View, members: set<Member>, answer: Member -> Status) {
    !v.Lagging() && !v.Behind() && forall m <- members :: v.Asks(m) ==> !v.YieldsTo(m.name, answer(m))
  }

  function Rivals(v: View, known: seq<Member>): set<Member> {
    var named := ByName(known);
    set n | n in named && v.TakesPart(n) :: named[n]
  }

  /** is_healthiest_node */
  predicate Healthiest(v: View, known: seq<Member>, answer: Member -> Status) {
    !v.backoff && !v.starting &&
    (v.running ||
     (!v.noFailover && v.watchdogHealthy && v.TakesPart(v.name) && HealthiestOf(v, Rivals(v, known), answer)))
  }

  // ---------------------------------------------------------------- the procedures

  /** _is_healthiest_node: it asks the members that matter and looks at the answers in turn. */
  method IsHealthiestOf(v: View, members: seq<Member>, answer: Member -> Status) returns (r: bool)
    ensures r == HealthiestOf(v, (set m | m in members), answer)
  {
    if v.Lagging() {
      return false;
    }
    if v.checkTimeline && v.timeline < v.clusterTimeline {
      return false;
    }
    var i := 0;
    while i < |members|
      invariant 0 <= i <= |members|
      invariant forall j :: 0 <= j < i && v.Asks(members[j]) ==> !v.YieldsTo(members[j].name, answer(members[j]))
    {
      var m := members[i];
      if v.Asks(m) {
        var st := answer(m);
        if st.MayPromote() {
          if !st.inRecovery {
            return false;
          }
          if v.wal < st.wal && (v.sync.None? || v.sync.value.leader != Some(m.name)) {
            return false;
          }
        }
      }
      i := i + 1;
    }
    return true;
  }

  /** The members whose name takes part, each once. */
  method PickRivals(v: View, known: seq<Member>) returns (rivals: seq<Member>)
    ensures (set m | m in rivals) == Rivals(v, known)
  {
    var named: map<string, Member> := map[];
    var i := 0;
    while i < |known|
      invariant 0 <= i <= |known| && named == ByName(known[..i])
    {
      named := named[known[i].name := known[i]];
      assert known[..i + 1][..i] == known[..i];
      i := i + 1;
    }
    assert known[..i] == known;
    var names := named.Keys;
    rivals := [];
    while names != {}
      invariant names <= named.Keys
      invariant forall m <- rivals :: m.name in named && named[m.name] == m && v.TakesPart(m.name)
      invariant forall n <- named :: n !in names && v.TakesPart(n) ==> named[n] in rivals
      decreases names
    {
      var name :| name in names;
      names := names - {name};
      if v.TakesPart(name) {
        rivals := rivals + [named[name]];
      }
    }
  }

  /** The last entry of its name counts. */
  predicate LastOfName(known: seq<Member>, i: int) {
    0 <= i < |known| && forall j :: i < j < |known| ==> known[j].name != known[i].name
  }

  lemma LastBefore(known: seq<Member>, i: int)
    requires 0 <= i < |known| - 1
    ensures LastOfName(known, i) <==>
      LastOfName(known[..|known| - 1], i) && known[i].name != known[|known| - 1].name
  {
  }

  lemma ByNameNext(known: seq<Member>, name: string)
    requires known != []
    ensures
      var last := known[|known| - 1];
      var before := ByName(known[..|known| - 1]);
      && (name in ByName(known) <==> name == last.name || name in before)
      && (name in ByName(known) ==> ByName(known)[name] == if name == last.name then last else before[name])
  {
  }

  /** What is entered under a name is the last entry of that name. */
  lemma {:induction false} ByNameIsLast(known: seq<Member>, i: int)
    requires LastOfName(known, i)
    ensures known[i].name in ByName(known) && ByName(known)[known[i].name] == known[i]
  {
    ByNameNext(known, known[i].name);
    if i < |known| - 1 {
      LastBefore(known, i);
      ByNameIsLast(known[..|known| - 1], i);
    }
  }

  /** Every name has a last entry. */
  lemma {:induction false} LastOf(known: seq<Member>, i: int) returns (last: nat)
    requires 0 <= i < |known|
    ensures LastOfName(known, last) && known[last].name == known[i].name
    decreases |known| - i
  {
    if LastOfName(known, i) {
      last := i;
    } else {
      var j :| i < j < |known| && known[j].name == known[i].name;
      last := LastOf(known, j);
    }
  }

  /** The rivals are the entries that count and take part. */
  lemma RivalsExactly(v: View, known: seq<Member>, m: Member)
    ensures m in Rivals(v, known) <==> v.TakesPart(m.name) && exists i :: LastOfName(known, i) && known[i] == m
  {
    if m in Rivals(v, known) {
      var k :| 0 <= k < |known| && known[k] == m;
      var last := LastOf(known, k);
      ByNameIsLast(known, last);
    }
    if i :| LastOfName(known, i) && known[i] == m {
      ByNameIsLast(known, i);
    }
  }

  /** In synchronous mode only the last known master and its standbys race. */
  predicate Races(v: View, name: string) {
    v.sync.Some? && v.sync.value.leader.Some? ==> v.sync.value.leader.value == name || name in v.sync.value.standbys
  }

  /** The entry of somebody else who races, who is asked, and whose answer keeps the node from promoting. */
  predicate Stops(v: View, m: Member, st: Status) {
    && m.name != v.name && !m.noFailover && m.hasUrl && Races(v, m.name)
    && st.reachable && !st.noFailover && !st.watchdogFailed
    && (!st.inRecovery || (v.wal < st.wal && (v.sync.None? || v.sync.value.leader != Some(m.name))))
  }

  lemma HealthiestExactly(v: View, known: seq<Member>, answer: Member -> Status)
    ensures Healthiest(v, known, answer) <==>
      && !v.backoff && !v.starting
      && (v.running ||
          (&& !v.noFailover && v.watchdogHealthy && Races(v, v.name)
           && v.lastOperation.GetOr(0) - v.wal <= v.maximumLag && (v.checkTimeline ==> v.clusterTimeline <= v.timeline)
           && forall i :: LastOfName(known, i) ==> !Stops(v, known[i], answer(known[i]))))
  {
    forall m
      ensures m in Rivals(v, known) <==> Races(v, m.name) && exists i :: LastOfName(known, i) && known[i] == m
    {
      RivalsExactly(v, known, m);
    }
    assert forall m :: Stops(v, m, answer(m)) <==> Races(v, m.name) && v.Asks(m) && v.YieldsTo(m.name, answer(m));
  }

  method IsHealthiestNode(v: View, known: seq<Member>, answer: Member -> Status) returns (r: bool)
    ensures r == Healthiest(v, known, answer)
    ensures r <==>
      && !v.backoff && !v.starting
      && (v.running ||
          (&& !v.noFailover && v.watchdogHealthy && Races(v, v.name)
           && v.lastOperation.GetOr(0) - v.wal <= v.maximumLag && (v.checkTimeline ==> v.clusterTimeline <= v.timeline)
           && forall i :: LastOfName(known, i) ==> !Stops(v, known[i], answer(known[i]))))
  {
    HealthiestExactly(v, known, answer);
    if v.backoff || v.starting {
      return false;
    }
    if v.running {
      return true;
    }
    if v.noFailover || !v.watchdogHealthy {
      return false;
    }
    if v.sync.Some? && v.sync.value.leader.Some? && !v.sync.value.Matches(v.name) {
      return false;
    }
    var rivals := PickRivals(v, known);
    r := IsHealthiestOf(v, rivals, answer);
  }

  // ---------------------------------------------------------------- one truthful snapshot

  /** How the store lists a node: with the nofailover tag, and with the address of its API. */
  datatype Listing = Listing(noFailover: bool, hasUrl: bool)

  /** A node as it is; a node that does not answer may still be a candidate itself. */
  datatype Node = Node(wal: int, timeline: int, inRecovery: bool, answers: bool, noFailover: bool, watchdogOk: bool,
                       listing: Listing) {
    predicate Candidate() { inRecovery && !noFailover && watchdogOk }
    predicate Visible() { answers && !noFailover && watchdogOk && listing == Listing(false, true) }
  }

  /** All nodes at one time, and what the store says to all of them. */
  datatype Snapshot = Snapshot(nodes: map<string, Node>, lastOperation: Option<int>, maximumLag: int,
                               checkTimeline: bool, clusterTimeline: int, sync: Option<SyncState>) {
    function ViewOf(n: string): View
      requires n in nodes
    {
      var node := nodes[n];
      View(n, node.wal, node.timeline, false, !node.inRecovery, node.noFailover, node.watchdogOk, false,
           lastOperation, maximumLag, checkTimeline, clusterTimeline, sync)
    }

    /** Every answer is true. */
    function Answer(m: Member): Status {
      if m.name in nodes then
        var node := nodes[m.name];
        Status(node.answers, node.inRecovery, node.wal, node.noFailover, !node.watchdogOk)
      else Status(false, false, 0, false, false)
    }

    /** The members in the store are the nodes. */
    predicate Describes(known: seq<Member>) {
      (forall m <- known :: m.name in nodes && nodes[m.name].listing == Listing(m.noFailover, m.hasUrl)) &&
      forall n <- nodes :: exists m <- known :: m.name == n
    }

    predicate Wins(n: string, known: seq<Member>)
      requires n in nodes
    {
      Healthiest(ViewOf(n), known, m => Answer(m))
    }

    predicate Competes(n: string)
      requires n in nodes
    {
      nodes[n].Visible() && (sync.Some? && sync.value.leader.Some? ==> sync.value.Matches(n))
    }

    predicate Contender(n: string)
      requires n in nodes
    {
      nodes[n].Candidate() && (sync.Some? && sync.value.leader.Some? ==> sync.value.Matches(n))
    }

    predicate Qualifies(n: string)
      requires n in nodes
    {
      lastOperation.GetOr(0) - nodes[n].wal <= maximumLag && (checkTimeline ==> nodes[n].timeline >= clusterTimeline)
    }

    predicate IsFormer(n: string) { sync.Some? && sync.value.leader == Some(n) }

    /** Nobody who competes is ahead of n; only the former leader of synchronous mode may be. */
    predicate Foremost(n: string)
      requires n in nodes
    {
      forall o <- nodes :: Competes(o) && o != n && !IsFormer(o) ==> nodes[o].wal <= nodes[n].wal
    }

    predicate NoMaster() { forall o <- nodes :: Competes(o) ==> nodes[o].inRecovery }
  }

  /** Every node has an entry that counts. */
  lemma Counts(s: Snapshot, known: seq<Member>, n: string) returns (i: nat)
    requires s.Describes(known) && n in s.nodes
    ensures i < |known| && LastOfName(known, i) && known[i].name == n
    ensures s.nodes[n].listing == Listing(known[i].noFailover, known[i].hasUrl)
  {
    var k :| 0 <= k < |known| && known[k].name == n;
    i := LastOf(known, k);
  }

  /** Who stops n are the competitors that are masters, or ahead of it and not the former leader. */
  lemma StoppedBy(s: Snapshot, n: string, o: string, m: Member)
    requires n in s.nodes && o in s.nodes && m.name == o
    requires s.nodes[o].listing == Listing(m.noFailover, m.hasUrl)
    ensures Stops(s.ViewOf(n), m, s.Answer(m)) <==>
      s.Competes(o) && o != n && (!s.nodes[o].inRecovery || (s.nodes[n].wal < s.nodes[o].wal && !s.IsFormer(o)))
  {}

  /** Without a master that answers, the winners are exactly the qualified candidates that are foremost. */
  lemma WinnersExactly(s: Snapshot, n: string, known: seq<Member>)
    requires n in s.nodes && s.Describes(known) && s.NoMaster() && s.nodes[n].inRecovery
    ensures s.Wins(n, known) <==> s.Contender(n) && s.Qualifies(n) && s.Foremost(n)
  {
    HealthiestExactly(s.ViewOf(n), known, m => s.Answer(m));
    forall i | LastOfName(known, i)
      ensures s.Foremost(n) ==> !Stops(s.ViewOf(n), known[i], s.Answer(known[i]))
    {
      StoppedBy(s, n, known[i].name, known[i]);
    }
    forall o | o in s.nodes && s.Competes(o) && o != n && !s.IsFormer(o)
      ensures s.Wins(n, known) ==> s.nodes[o].wal <= s.nodes[n].wal
    {
      var i := Counts(s, known, o);
      StoppedBy(s, n, o, known[i]);
    }
  }

  /** While a master that answers competes, no replica wins. */
  lemma MasterHolds(s: Snapshot, n: string, known: seq<Member>, master: string)
    requires n in s.nodes && master in s.nodes && s.Describes(known) && s.nodes[n].inRecovery
    requires s.Competes(master) && !s.nodes[master].inRecovery
    ensures !s.Wins(n, known)
  {
    HealthiestExactly(s.ViewOf(n), known, m => s.Answer(m));
    var i := Counts(s, known, master);
    StoppedBy(s, n, master, known[i]);
  }

  /** Two winners that see each other are equally far, unless one of them is synchronous mode's former leader. */
  lemma WinnersAreLevel(s: Snapshot, a: string, b: string, known: seq<Member>)
    requires a in s.nodes && b in s.nodes && s.Describes(known) && s.NoMaster()
    requires s.nodes[a].inRecovery && s.nodes[a].answers && s.nodes[a].listing == Listing(false, true)
    requires s.nodes[b].inRecovery && s.nodes[b].answers && s.nodes[b].listing == Listing(false, true)
    requires s.Wins(a, known) && s.Wins(b, known) && !s.IsFormer(a) && !s.IsFormer(b)
    ensures s.nodes[a].wal == s.nodes[b].wal
  {
    WinnersExactly(s, a, known);
    WinnersExactly(s, b, known);
  }

  lemma {:induction false} Furthest(nodes: map<string, Node>, among: set<string>) returns (best: string)
    requires among != {} && among <= nodes.Keys
    ensures best in among && forall o <- among :: nodes[o].wal <= nodes[best].wal
  {
    var one :| one in among;
    if among == {one} {
      best := one;
    } else {
      var rest := Furthest(nodes, among - {one});
      best := if nodes[rest].wal < nodes[one].wal then one else rest;
      assert forall o <- among :: o == one || o in among - {one};
    }
  }

  predicate SomeWins(s: Snapshot, known: seq<Member>) {
    exists n <- s.nodes :: s.Competes(n) && s.Wins(n, known)
  }

  predicate SomeForemost(s: Snapshot) {
    exists n <- s.nodes :: s.Competes(n) && s.Qualifies(n) && s.Foremost(n)
  }

  predicate SomeQualifies(s: Snapshot) { exists n <- s.nodes :: s.Competes(n) && s.Qualifies(n) }

  /** Among the nodes that answer, somebody wins exactly if somebody qualified is foremost. */
  lemma RaceHasWinner(s: Snapshot, known: seq<Member>)
    requires s.Describes(known) && s.NoMaster()
    ensures SomeWins(s, known) <==> SomeForemost(s)
  {
    forall n | n in s.nodes && s.Competes(n)
      ensures s.Wins(n, known) <==> s.Qualifies(n) && s.Foremost(n)
    {
      WinnersExactly(s, n, known);
    }
  }

  /** The one that is furthest qualifies if anybody does, and is foremost. */
  lemma FurthestIsForemost(s: Snapshot, n: string) returns (best: string)
    requires n in s.nodes && s.Competes(n) && s.Qualifies(n) && !s.checkTimeline
    ensures best in s.nodes && s.Competes(best) && s.Qualifies(best) && s.Foremost(best)
  {
    var competing := set o | o in s.nodes && s.Competes(o);
    assert n in competing;
    best := Furthest(s.nodes, competing);
    forall o | o in s.nodes && s.Competes(o)
      ensures s.nodes[o].wal <= s.nodes[best].wal
    {
      assert o in competing;
    }
  }

  /** Without the timeline check that is so exactly if somebody is within the allowed lag, in synchronous mode too. */
  lemma LagDecides(s: Snapshot, known: seq<Member>)
    requires s.Describes(known) && s.NoMaster() && !s.checkTimeline
    ensures SomeWins(s, known) <==> SomeQualifies(s)
  {
    RaceHasWinner(s, known);
    if SomeQualifies(s) {
      var n :| n in s.nodes && s.Competes(n) && s.Qualifies(n);
      var best := FurthestIsForemost(s, n);
      assert SomeForemost(s);
    }
  }

  /** With it a node that is ahead on an old timeline stops the race: it may not win, and nobody passes it. */
  lemma OldTimelineStalls(known: seq<Member>)
    requires known == [Member("a", false, true), Member("b", false, true)]
    ensures
      var listed := Listing(false, true);
      var s := Snapshot(map["a" := Node(20, 1, true, true, false, true, listed),
                            "b" := Node(10, 2, true, true, false, true, listed)], Some(10), 0, true, 2, None);
      s.Describes(known) && s.NoMaster() && SomeQualifies(s) && !SomeWins(s, known)
  {
    var listed := Listing(false, true);
    var s := Snapshot(map["a" := Node(20, 1, true, true, false, true, listed),
                          "b" := Node(10, 2, true, true, false, true, listed)], Some(10), 0, true, 2, None);
    assert known[0].name == "a" && known[1].name == "b" && s.Describes(known);
    assert s.Competes("a") && !s.IsFormer("a") && !s.Qualifies("a");
    assert s.Competes("b") && s.Qualifies("b") && !s.Foremost("b");
    RaceHasWinner(s, known);
  }
}
