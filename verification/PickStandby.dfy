/**
  Postgresql.pick_synchronous_standby: which standbys should be synchronous, and which of them already are.
 */
module PickStandby {
  import opened Wrappers

  /** sync_state in pg_stat_replication, in the order of ORDER BY sync_state DESC. */
  datatype SyncState = Sync | Quorum | Potential | Async

  /** A streaming walsender: application_name in lower case, its state and its position. */
  datatype Row = Row(app: string, state: SyncState, lsn: int)

  datatype Member = Member(name: string, nosync: bool)

  datatype Replica = Replica(name: string, state: SyncState, lsn: int)

  /** The member behind an application name; among several with the same name the last one counts. */
  function MemberOf(members: seq<Member>, lower: string -> string, app: string): Option<Member> {
    if members == [] then None
    else
      var last := members[|members| - 1];
      if lower(last.name) == app then Some(last) else MemberOf(members[..|members| - 1], lower, app)
  }

  /** The walsenders of members that do not mind being synchronous. */
  function Replicas(rows: seq<Row>, members: seq<Member>, lower: string -> string): seq<Replica> {
    if rows == [] then []
    else
      var row := rows[|rows| - 1];
      var m := MemberOf(members, lower, row.app);
      Replicas(rows[..|rows| - 1], members, lower) +
      if m.Some? && !m.value.nosync then [Replica(m.value.name, row.state, row.lsn)] else []
  }

  /** The replica is not too far behind the furthest one. */
  predicate Near(r: Replica, maxLsn: int, maxLag: int) { maxLag <= 0 || maxLsn - r.lsn <= maxLag }

  function Nearby(replicas: seq<Replica>, maxLsn: int, maxLag: int): (near: seq<Replica>)
    ensures |near| <= |replicas| && forall r <- near :: r in replicas && Near(r, maxLsn, maxLag)
  {
    if replicas == [] then []
    else
      var r := replicas[|replicas| - 1];
      Nearby(replicas[..|replicas| - 1], maxLsn, maxLag) + if Near(r, maxLsn, maxLag) then [r] else []
  }

  /** The nearby replicas that are selected: as many as asked for, in the order of the query.  With a count below one
      only the first replica is looked at. */
  function Selected(replicas: seq<Replica>, maxLsn: int, maxLag: int, count: int): seq<Replica> {
    if count >= 1 then
      var near := Nearby(replicas, maxLsn, maxLag);
      near[..if count < |near| then count else |near|]
    else if replicas != [] then Nearby(replicas[..1], maxLsn, maxLag)
    else []
  }

  function NamesOf(replicas: seq<Replica>): (names: seq<string>)
    ensures |names| == |replicas|
  {
    if replicas == [] then []
    else NamesOf(replicas[..|replicas| - 1]) + [replicas[|replicas| - 1].name]
  }

  lemma {:induction false} NameAt(replicas: seq<Replica>, i: nat)
    requires i < |replicas|
    ensures NamesOf(replicas)[i] == replicas[i].name
  {
    if i < |replicas| - 1 {
      NameAt(replicas[..|replicas| - 1], i);
    }
  }

  function InSync(replicas: seq<Replica>): seq<Replica> {
    if replicas == [] then []
    else
      var r := replicas[|replicas| - 1];
      InSync(replicas[..|replicas| - 1]) + if r.state.Sync? then [r] else []
  }

  predicate IsMax(replicas: seq<Replica>, lsn: int) {
    (exists r <- replicas :: r.lsn == lsn) && forall r <- replicas :: r.lsn <= lsn
  }

  method PickSynchronousStandby(
      rows: seq<Row>, members: seq<Member>, lower: string -> string, count: int, maxLag: int, majorVersion: int,
      lastOperation: int)
    returns (candidates: seq<string>, syncNodes: seq<string>, maxLsn: int)
    ensures
      var replicas := Replicas(rows, members, lower);
      var selected := Selected(replicas, maxLsn, maxLag, if majorVersion < 90600 then 1 else count);
      && candidates == NamesOf(selected)
      && syncNodes == NamesOf(InSync(selected))
      && (if |replicas| > 1 then IsMax(replicas, maxLsn) else maxLsn == lastOperation)
  {
    var wanted := if majorVersion < 90600 then 1 else count;
    var byName: map<string, Member> := map[];
    for i := 0 to |members|
      invariant forall app :: MemberOf(members[..i], lower, app) == if app in byName then Some(byName[app]) else None
    {
      assert members[..i + 1][..i] == members[..i];
      byName := byName[lower(members[i].name) := members[i]];
    }
    assert members[..|members|] == members;

    var replicas: seq<Replica> := [];
    for i := 0 to |rows|
      invariant replicas == Replicas(rows[..i], members, lower)
    {
      assert rows[..i + 1][..i] == rows[..i];
      var row := rows[i];
      if row.app in byName && !byName[row.app].nosync {
        replicas := replicas + [Replica(byName[row.app].name, row.state, row.lsn)];
      }
    }
    assert rows[..|rows|] == rows;

    maxLsn := lastOperation;
    if |replicas| > 1 {
      maxLsn := MaxLsn(replicas);
    }
    candidates, syncNodes := Select(replicas, maxLsn, maxLag, wanted);
  }

  method MaxLsn(replicas: seq<Replica>) returns (lsn: int)
    requires replicas != []
    ensures IsMax(replicas, lsn)
  {
    lsn := replicas[0].lsn;
    for i := 1 to |replicas|
      invariant exists r <- replicas :: r.lsn == lsn
      invariant forall r <- replicas[..i] :: r.lsn <= lsn
    {
      if replicas[i].lsn > lsn {
        lsn := replicas[i].lsn;
      }
    }
  }

  method Select(replicas: seq<Replica>, maxLsn: int, maxLag: int, count: int)
    returns (candidates: seq<string>, syncNodes: seq<string>)
    ensures candidates == NamesOf(Selected(replicas, maxLsn, maxLag, count))
    ensures syncNodes == NamesOf(InSync(Selected(replicas, maxLsn, maxLag, count)))
  {
    candidates, syncNodes := [], [];
    for i := 0 to |replicas|
      invariant candidates == NamesOf(Nearby(replicas[..i], maxLsn, maxLag))
      invariant syncNodes == NamesOf(InSync(Nearby(replicas[..i], maxLsn, maxLag)))
      invariant i > 0 ==> |candidates| < count
      invariant |candidates| == |Nearby(replicas[..i], maxLsn, maxLag)|
    {
      NearbyStep(replicas, i, maxLsn, maxLag);
      if maxLag <= 0 || maxLsn - replicas[i].lsn <= maxLag {
        candidates := candidates + [replicas[i].name];
        if replicas[i].state.Sync? {
          syncNodes := syncNodes + [replicas[i].name];
        }
      }
      if |candidates| >= count {
        SelectedWhenFull(replicas, i, maxLsn, maxLag, count);
        return;
      }
    }
    assert replicas[..|replicas|] == replicas;
    SelectedWhenShort(replicas, maxLsn, maxLag, count);
  }

  /** There are never enough nearby replicas: all of them are selected. */
  lemma SelectedWhenShort(replicas: seq<Replica>, maxLsn: int, maxLag: int, count: int)
    requires replicas != [] ==> |Nearby(replicas, maxLsn, maxLag)| < count
    ensures replicas[..|replicas|] == replicas
    ensures Selected(replicas, maxLsn, maxLag, count) == Nearby(replicas, maxLsn, maxLag)
  {
    var near := Nearby(replicas, maxLsn, maxLag);
    assert near[..|near|] == near;
  }

  /** Looking at one more replica. */
  lemma NearbyStep(replicas: seq<Replica>, i: nat, maxLsn: int, maxLag: int)
    requires i < |replicas|
    ensures
      var near := Nearby(replicas[..i], maxLsn, maxLag);
      var next := Nearby(replicas[..i + 1], maxLsn, maxLag);
      var r := replicas[i];
      if Near(r, maxLsn, maxLag) then
        && next == near + [r] && NamesOf(next) == NamesOf(near) + [r.name]
        && NamesOf(InSync(next)) == NamesOf(InSync(near)) + if r.state.Sync? then [r.name] else []
      else next == near
  {
    assert replicas[..i + 1][..i] == replicas[..i];
    InSyncAppend(Nearby(replicas[..i], maxLsn, maxLag), replicas[i]);
  }

  /** The first moment at which there are enough nearby replicas. */
  lemma SelectedWhenFull(replicas: seq<Replica>, i: nat, maxLsn: int, maxLag: int, count: int)
    requires i < |replicas| && |Nearby(replicas[..i + 1], maxLsn, maxLag)| >= count
    requires i > 0 ==> |Nearby(replicas[..i], maxLsn, maxLag)| < count
    ensures Selected(replicas, maxLsn, maxLag, count) == Nearby(replicas[..i + 1], maxLsn, maxLag)
  {
    NearbyPrefix(replicas, i + 1, maxLsn, maxLag);
    NearbyGrows(replicas, i, maxLsn, maxLag);
  }

  lemma NearbyGrows(replicas: seq<Replica>, i: nat, maxLsn: int, maxLag: int)
    requires i < |replicas|
    ensures |Nearby(replicas[..i + 1], maxLsn, maxLag)| <= |Nearby(replicas[..i], maxLsn, maxLag)| + 1
    ensures i == 0 ==> Nearby(replicas[..i], maxLsn, maxLag) == []
  {
    assert replicas[..i + 1][..i] == replicas[..i];
  }

  lemma InSyncAppend(near: seq<Replica>, r: Replica)
    ensures NamesOf(near + [r]) == NamesOf(near) + [r.name]
    ensures InSync(near + [r]) == InSync(near) + if r.state.Sync? then [r] else []
    ensures NamesOf(InSync(near + [r])) == NamesOf(InSync(near)) + if r.state.Sync? then [r.name] else []
  {
    assert (near + [r])[..|near + [r]| - 1] == near;
    assert (InSync(near) + [r])[..|InSync(near) + [r]| - 1] == InSync(near);
    assert InSync(near) + [] == InSync(near) && NamesOf(InSync(near)) + [] == NamesOf(InSync(near));
  }

  /** The i-th member has the application name, and no later one has. */
  predicate LastOfApp(members: seq<Member>, lower: string -> string, app: string, i: int) {
    && 0 <= i < |members| && lower(members[i].name) == app
    && forall j :: i < j < |members| ==> lower(members[j].name) != app
  }

  lemma {:induction false} MemberOfExactly(members: seq<Member>, lower: string -> string, app: string)
    ensures forall i :: LastOfApp(members, lower, app, i) ==> MemberOf(members, lower, app) == Some(members[i])
    ensures MemberOf(members, lower, app).Some? ==> exists i :: LastOfApp(members, lower, app, i)
  {
    if members != [] {
      var k := |members| - 1;
      MemberOfExactly(members[..k], lower, app);
      forall i | 0 <= i < k
        ensures LastOfApp(members, lower, app, i) <==>
          LastOfApp(members[..k], lower, app, i) && lower(members[k].name) != app
      {
      }
      if lower(members[k].name) == app {
        assert LastOfApp(members, lower, app, k);
      } else if i :| LastOfApp(members[..k], lower, app, i) {
        assert LastOfApp(members, lower, app, i);
      }
    }
  }

  /** The walsender of the row is the member's, who does not mind. */
  predicate Serves(members: seq<Member>, lower: string -> string, row: Row, i: int, r: Replica) {
    LastOfApp(members, lower, row.app, i) && !members[i].nosync && r == Replica(members[i].name, row.state, row.lsn)
  }

  ghost predicate Served(members: seq<Member>, lower: string -> string, row: Row, r: Replica) {
    exists i :: Serves(members, lower, row, i, r)
  }

  lemma ServedExactly(members: seq<Member>, lower: string -> string, row: Row, r: Replica)
    ensures Served(members, lower, row, r) <==>
      var m := MemberOf(members, lower, row.app);
      m.Some? && !m.value.nosync && r == Replica(m.value.name, row.state, row.lsn)
  {
    MemberOfExactly(members, lower, row.app);
    if MemberOf(members, lower, row.app).Some? {
      var i :| LastOfApp(members, lower, row.app, i);
      assert Serves(members, lower, row, i, r) <==>
        !members[i].nosync && r == Replica(members[i].name, row.state, row.lsn);
    }
  }

  /** The replicas are the walsenders of the members that do not mind. */
  lemma {:induction false} ReplicasExactly(rows: seq<Row>, members: seq<Member>, lower: string -> string, r: Replica)
    ensures r in Replicas(rows, members, lower) <==> exists row <- rows :: Served(members, lower, row, r)
  {
    if rows != [] {
      var before, row := rows[..|rows| - 1], rows[|rows| - 1];
      ReplicasExactly(before, members, lower, r);
      ServedExactly(members, lower, row, r);
      assert forall o <- rows :: o in before || o == row;
      assert forall o <- before :: o in rows;
    }
  }

  /** They keep the order of the query. */
  lemma {:induction false} ReplicasInOrder(rows: seq<Row>, members: seq<Member>, lower: string -> string)
    requires forall i, j :: 0 <= i < j < |rows| && rows[j].state.Sync? ==> rows[i].state.Sync?
    ensures SyncFirst(Replicas(rows, members, lower))
    ensures forall r <- Replicas(rows, members, lower) :: exists row <- rows :: row.state == r.state
  {
    if rows != [] {
      var before, row := rows[..|rows| - 1], rows[|rows| - 1];
      ReplicasInOrder(before, members, lower);
      assert forall o <- before :: o in rows;
      assert row.state.Sync? ==> forall o <- before :: o.state.Sync?;
    }
  }

  /** The selected replicas are within the lag, no more than asked for, and if they are fewer, all that are. */
  lemma SelectedExactly(replicas: seq<Replica>, maxLsn: int, maxLag: int, count: int)
    requires count >= 1
    ensures
      var selected := Selected(replicas, maxLsn, maxLag, count);
      && |selected| <= count
      && (forall r <- selected :: r in replicas && (maxLag <= 0 || maxLsn - maxLag <= r.lsn))
      && (|selected| < count ==>
            forall r <- replicas :: maxLag <= 0 || maxLsn - maxLag <= r.lsn ==> r in selected)
  {
    NearbyExactly(replicas, maxLsn, maxLag);
    var near := Nearby(replicas, maxLsn, maxLag);
    assert forall r <- Selected(replicas, maxLsn, maxLag, count) :: r in near;
  }

  lemma {:induction false} NearbyExactly(replicas: seq<Replica>, maxLsn: int, maxLag: int)
    ensures forall r <- replicas :: maxLag <= 0 || maxLsn - maxLag <= r.lsn ==> r in Nearby(replicas, maxLsn, maxLag)
  {
    if replicas != [] {
      NearbyExactly(replicas[..|replicas| - 1], maxLsn, maxLag);
      assert forall r <- replicas :: r in replicas[..|replicas| - 1] || r == replicas[|replicas| - 1];
    }
  }

  /** Looking at fewer replicas finds the first of the nearby ones. */
  lemma {:induction false} NearbyPrefix(replicas: seq<Replica>, k: nat, maxLsn: int, maxLag: int)
    requires k <= |replicas|
    ensures Nearby(replicas[..k], maxLsn, maxLag) <= Nearby(replicas, maxLsn, maxLag)
  {
    if k < |replicas| {
      var shorter := replicas[..|replicas| - 1];
      NearbyPrefix(shorter, k, maxLsn, maxLag);
      assert shorter[..k] == replicas[..k];
    } else {
      assert replicas[..k] == replicas;
    }
  }

  lemma {:induction false} InSyncMembers(replicas: seq<Replica>)
    ensures forall r :: r in InSync(replicas) <==> r in replicas && r.state.Sync?
  {
    if replicas != [] {
      InSyncMembers(replicas[..|replicas| - 1]);
      assert replicas == replicas[..|replicas| - 1] + [replicas[|replicas| - 1]];
    }
  }

  /** The standbys that may be published are picked themselves, and every one of them is reported as 'sync'. */
  lemma AllowedArePicked(replicas: seq<Replica>, maxLsn: int, maxLag: int, count: int)
    ensures
      var selected := Selected(replicas, maxLsn, maxLag, count);
      && |selected| <= (if count >= 1 then count else 1)
      && (forall name <- NamesOf(InSync(selected)) ::
            name in NamesOf(selected) && exists r <- replicas :: r.name == name && r.state.Sync?)
  {
    var selected := Selected(replicas, maxLsn, maxLag, count);
    InSyncMembers(selected);
    var names := NamesOf(InSync(selected));
    forall name | name in names
      ensures name in NamesOf(selected) && exists r <- replicas :: r.name == name && r.state.Sync?
    {
      var i :| 0 <= i < |names| && names[i] == name;
      var r := InSync(selected)[i];
      NameAt(InSync(selected), i);
      assert r in selected && r.state.Sync? && r in replicas;
      var j :| 0 <= j < |selected| && selected[j] == r;
      NameAt(selected, j);
      assert NamesOf(selected)[j] == name;
    }
  }

  /** The query lists synchronous replicas first. */
  predicate SyncFirst(replicas: seq<Replica>) {
    forall i, j :: 0 <= i < j < |replicas| && replicas[j].state.Sync? ==> replicas[i].state.Sync?
  }

  /** Walking the nearby replicas keeps the order of the query. */
  lemma {:induction false} NearbyKeepsOrder(replicas: seq<Replica>, maxLsn: int, maxLag: int)
    requires SyncFirst(replicas)
    ensures SyncFirst(Nearby(replicas, maxLsn, maxLag))
    ensures forall r <- replicas :: Near(r, maxLsn, maxLag) ==> r in Nearby(replicas, maxLsn, maxLag)
  {
    if replicas != [] {
      var last := replicas[|replicas| - 1];
      NearbyKeepsOrder(replicas[..|replicas| - 1], maxLsn, maxLag);
      assert replicas == replicas[..|replicas| - 1] + [last];
      assert last.state.Sync? ==> forall r <- replicas[..|replicas| - 1] :: r.state.Sync?;
    }
  }

  /** The current synchronous standbys are always preferred: another replica is picked only when each nearby
      synchronous one is. */
  lemma SynchronousPreferred(replicas: seq<Replica>, maxLsn: int, maxLag: int, count: int, other: Replica, r: Replica)
    requires count >= 1 && SyncFirst(replicas)
    requires other in Selected(replicas, maxLsn, maxLag, count) && !other.state.Sync?
    requires r in replicas && r.state.Sync? && Near(r, maxLsn, maxLag)
    ensures r in Selected(replicas, maxLsn, maxLag, count)
  {
    NearbyKeepsOrder(replicas, maxLsn, maxLag);
    var near := Nearby(replicas, maxLsn, maxLag);
    var i :| 0 <= i < |near| && near[i] == r;
    var selected := Selected(replicas, maxLsn, maxLag, count);
    var j :| 0 <= j < |selected| && selected[j] == other;
    assert near[j] == other && i < j;
    assert selected[i] == r;
  }

  lemma {:induction false} AtMostSync(replicas: seq<Replica>, n: nat)
    requires forall j :: n <= j < |replicas| ==> !replicas[j].state.Sync?
    ensures |InSync(replicas)| <= n && |InSync(replicas)| <= |replicas|
  {
    if |replicas| > n {
      AtMostSync(replicas[..|replicas| - 1], n);
    } else if replicas != [] {
      AtMostSync(replicas[..|replicas| - 1], |replicas| - 1);
    }
  }

  lemma {:induction false} AllInSync(replicas: seq<Replica>)
    requires forall j :: 0 <= j < |replicas| ==> replicas[j].state.Sync?
    ensures InSync(replicas) == replicas
  {
    if replicas != [] {
      AllInSync(replicas[..|replicas| - 1]);
    }
  }

  lemma NoneSyncBehind(replicas: seq<Replica>, k: nat)
    requires SyncFirst(replicas) && k < |replicas| && !replicas[k].state.Sync?
    ensures |InSync(replicas)| <= k
  {
    forall j | k <= j < |replicas|
      ensures !replicas[j].state.Sync?
    {
    }
    AtMostSync(replicas, k);
  }

  /** When as many are synchronous, the first k are. */
  lemma InSyncOfSyncFirst(replicas: seq<Replica>, k: nat)
    requires SyncFirst(replicas) && k <= |replicas| && |InSync(replicas)| >= k
    ensures InSync(replicas[..k]) == replicas[..k]
  {
    forall i | 0 <= i < k
      ensures replicas[i].state.Sync?
    {
      if !replicas[i].state.Sync? {
        NoneSyncBehind(replicas, i);
      }
    }
    AllInSync(replicas[..k]);
  }

  /** With enough synchronous replicas nearby the choice does not change: the picked ones are the synchronous ones. */
  lemma StableChoice(replicas: seq<Replica>, maxLsn: int, maxLag: int, count: int)
    requires count >= 1 && SyncFirst(replicas) && |InSync(Nearby(replicas, maxLsn, maxLag))| >= count
    ensures
      var selected := Selected(replicas, maxLsn, maxLag, count);
      |selected| == count && NamesOf(InSync(selected)) == NamesOf(selected)
  {
    var near := Nearby(replicas, maxLsn, maxLag);
    NearbyKeepsOrder(replicas, maxLsn, maxLag);
    AtMostSync(near, |near|);
    InSyncOfSyncFirst(near, count);
  }
}
