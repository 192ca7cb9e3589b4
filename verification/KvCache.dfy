/**
  The local copy of the etcd key space: KVCache of patroni/dcs/etcd3.py.
 */
module KvCache {
  import opened Wrappers

  type Key = string

  datatype Node = Node(value: string, revision: nat)

  type Cache = map<Key, Node>

  /** A change in the history of the server. */
  datatype Event = Put(key: Key, value: string, revision: nat) | Delete(key: Key, revision: nat)

  function Lookup(cache: Cache, key: Key): Option<Node> {
    if key in cache then Some(cache[key]) else None
  }

  /** set(value, overwrite) */
  function SetNode(cache: Cache, key: Key, node: Node, overwrite: bool): Cache {
    if key !in cache || cache[key].revision < node.revision || (overwrite && cache[key].revision == node.revision)
    then cache[key := node] else cache
  }

  /** delete(name, mod_revision) */
  function DeleteNode(cache: Cache, key: Key, revision: nat): Cache {
    if key in cache && cache[key].revision < revision then cache - {key} else cache
  }

  /** What one delivery does: an event of the watch stream overwrites, the echo of an own write does not. */
  function Deliver(cache: Cache, e: Event, overwrite: bool): Cache {
    match e
    case Put(key, value, revision) => SetNode(cache, key, Node(value, revision), overwrite)
    case Delete(key, revision) => DeleteNode(cache, key, revision)
  }

  class KVCache {
    var cache: Cache
    const leaderKey: Key
    const optimeKey: Key
    const configKey: Key

    constructor (leaderKey: Key, optimeKey: Key, configKey: Key)
      ensures cache == map[]
      ensures this.leaderKey == leaderKey && this.optimeKey == optimeKey && this.configKey == configKey
    {
      this.leaderKey, this.optimeKey, this.configKey := leaderKey, optimeKey, configKey;
      cache := map[];
    }

    method Set(key: Key, node: Node, overwrite: bool) returns (changed: bool, previous: Option<Node>)
      modifies this
      ensures cache == SetNode(old(cache), key, node, overwrite)
      ensures previous == Lookup(old(cache), key)
      ensures changed <==> previous.None? || previous.value.revision < node.revision
    {
      previous := if key in cache then Some(cache[key]) else None;
      changed := previous.None? || previous.value.revision < node.revision;
      if changed || (overwrite && previous.value.revision == node.revision) {
        cache := cache[key := node];
      }
    }

    method Remove(key: Key, revision: nat) returns (changed: bool, previous: Option<Node>)
      modifies this
      ensures cache == DeleteNode(old(cache), key, revision)
      ensures previous == Lookup(old(cache), key)
      ensures changed <==> previous.None? || previous.value.revision < revision
    {
      previous := if key in cache then Some(cache[key]) else None;
      changed := previous.None? || previous.value.revision < revision;
      if previous.Some? && changed {
        cache := cache - {key};
      }
    }

    /**
      The HA loop is woken when an event that is newer than the cache gives the leader key another value or removes it,
      gives the leader's position another value, or replaces the configuration; on the leader itself too.
     */
    method ProcessEvent(e: Event) returns (wake: bool)
      modifies this
      ensures cache == Deliver(old(cache), e, true)
      ensures wake <==> Wakes(old(cache), e)
      ensures !Newer(old(cache), e) || ValueOf(cache, e.key) == ValueOf(old(cache), e.key) ==> !wake
      ensures Newer(old(cache), e) && ValueOf(cache, e.key) != ValueOf(old(cache), e.key) ==>
        (wake <==>
           || e.key == leaderKey
           || (e.key == optimeKey && ValueOf(cache, e.key).Some?)
           || (e.key == configKey && ValueOf(old(cache), e.key).Some? && ValueOf(cache, e.key).Some?))
    {
      var changed, previous;
      if e.Delete? {
        changed, previous := Remove(e.key, e.revision);
      } else {
        changed, previous := Set(e.key, Node(e.value, e.revision), true);
      }
      wake := false;
      if changed {
        var before := if previous.Some? then Some(previous.value.value) else None;
        var after := if e.Put? then Some(e.value) else None;
        var valueChanged := before != after &&
          (e.key == leaderKey || (e.key == optimeKey && after.Some?) ||
           (e.key == configKey && before.Some? && after.Some?));
        // the second condition compares the leader's cache entry, not its value, with a name: it always holds
        wake := valueChanged;
      }
    }

    /** _build_cache: start from a snapshot and follow the stream; `wakes` says which events wake the HA loop. */
    method Follow(snapshot: Cache, stream: seq<Event>) returns (wakes: seq<bool>)
      modifies this
      ensures cache == Replay(snapshot, stream) && |wakes| == |stream|
      ensures forall i :: 0 <= i < |stream| ==> wakes[i] == WakesAt(snapshot, stream, i)
    {
      cache := snapshot;
      wakes := [];
      for i := 0 to |stream|
        invariant cache == Replay(snapshot, stream[..i]) && |wakes| == i
        invariant forall j :: 0 <= j < i ==> wakes[j] == WakesAt(snapshot, stream, j)
      {
        var wake := ProcessNext(snapshot, stream, i);
        wakes := wakes + [wake];
      }
      assert stream[..|stream|] == stream;
    }

    method ProcessNext(snapshot: Cache, stream: seq<Event>, i: nat) returns (wake: bool)
      requires i < |stream| && cache == Replay(snapshot, stream[..i])
      modifies this
      ensures cache == Replay(snapshot, stream[..i + 1]) && wake == WakesAt(snapshot, stream, i)
    {
      assert stream[..i + 1][..i] == stream[..i];
      wake := ProcessEvent(stream[i]);
    }

    /** The i-th event of the stream wakes the HA loop. */
    predicate WakesAt(snapshot: Cache, stream: seq<Event>, i: nat)
      requires i < |stream|
    {
      Wakes(Replay(snapshot, stream[..i]), stream[i])
    }

    /** The event is newer than what the cache has of its key, changes the value, and the key is one of the three; the
        leader's position must still be there, and the configuration before and after. */
    predicate Wakes(before: Cache, e: Event) {
      && (e.key in before ==> before[e.key].revision < e.revision)
      && (if e.Put? then e.key !in before || before[e.key].value != e.value else e.key in before)
      && (|| e.key == leaderKey
          || (e.key == optimeKey && e.Put?)
          || (e.key == configKey && e.Put? && e.key in before))
    }
  }

  function ValueOf(cache: Cache, key: Key): Option<string> {
    if key in cache then Some(cache[key].value) else None
  }

  predicate Newer(cache: Cache, e: Event) { e.key in cache ==> cache[e.key].revision < e.revision }

  /** The cache after a stream of watch events. */
  function Replay(snapshot: Cache, stream: seq<Event>): Cache {
    if stream == [] then snapshot
    else Deliver(Replay(snapshot, stream[..|stream| - 1]), stream[|stream| - 1], true)
  }

  // ---------------------------------------------------------------- the server

  /** The keys of the server after a history. */
  function Server(history: seq<Event>): Cache {
    if history == [] then map[]
    else
      var before := Server(history[..|history| - 1]);
      match history[|history| - 1]
      case Put(key, value, revision) => before[key := Node(value, revision)]
      case Delete(key, _) => before - {key}
  }

  /** Revisions grow; the changes of one revision are about different keys. */
  predicate InOrder(history: seq<Event>) {
    && (forall i, j :: 0 <= i < j < |history| ==> history[i].revision <= history[j].revision)
    && (forall i, j :: 0 <= i < j < |history| && history[i].revision == history[j].revision ==>
          history[i].key != history[j].key)
    && (forall e <- history :: e.revision > 0)
  }

  /** The first m changes are the ones up to revision r. */
  predicate UpTo(history: seq<Event>, m: nat, r: nat) {
    && m <= |history|
    && (forall i :: 0 <= i < m ==> history[i].revision <= r)
    && (forall i :: m <= i < |history| ==> history[i].revision > r)
  }

  /** The last change of a key. */
  function LastChange(history: seq<Event>, key: Key): Option<Event> {
    if history == [] then None
    else if history[|history| - 1].key == key then Some(history[|history| - 1])
    else LastChange(history[..|history| - 1], key)
  }

  function NodeOf(e: Option<Event>): Option<Node> {
    match e
    case Some(Put(_, value, revision)) => Some(Node(value, revision))
    case _ => None
  }

  /** The server holds what the last change of a key has left. */
  lemma {:induction false} ServerHolds(history: seq<Event>, key: Key)
    ensures Lookup(Server(history), key) == NodeOf(LastChange(history, key))
  {
    if history != [] {
      ServerHolds(history[..|history| - 1], key);
    }
  }

  lemma {:induction false} LastChangeIn(history: seq<Event>, key: Key)
    ensures LastChange(history, key).Some? ==> LastChange(history, key).value in history
    ensures LastChange(history, key).Some? ==> LastChange(history, key).value.key == key
  {
    if history != [] {
      LastChangeIn(history[..|history| - 1], key);
    }
  }

  lemma {:induction false} LastChangeIs(history: seq<Event>, i: nat)
    requires i < |history| && forall j :: i < j < |history| ==> history[j].key != history[i].key
    ensures LastChange(history, history[i].key) == Some(history[i])
  {
    if i < |history| - 1 {
      LastChangeIs(history[..|history| - 1], i);
    }
  }

  /** The snapshot is taken at revision r, after the first m changes, and the stream starts with the first change of
      revision r, at `start`.  Whenever the cache has processed the stream up to the k-th change, it is the server's
      map after that change, or still the snapshot while the stream repeats changes of revision r. */
  lemma FollowsServer(history: seq<Event>, start: nat, m: nat, r: nat, k: nat)
    requires InOrder(history) && UpTo(history, m, r) && start <= m && start <= k <= |history|
    requires forall i :: 0 <= i < |history| ==> (history[i].revision >= r <==> start <= i)
    ensures Replay(Server(history[..m]), history[start..k]) == Server(history[..if k < m then m else k])
  {
    forall i: nat | start <= i < |history|
      ensures Follows(history, m, i)
    {
      if i < m {
        Redelivered(history, m, i);
      } else {
        Delivered(history, i);
      }
    }
    ReplayStream(history, start, m, k);
  }

  /** Delivering the i-th change takes the cache from what it should be before to what it should be after. */
  predicate Follows(history: seq<Event>, m: nat, i: nat)
    requires m <= |history| && i < |history|
  {
    Deliver(Server(history[..if i < m then m else i]), history[i], true)
    == Server(history[..if i + 1 < m then m else i + 1])
  }

  lemma ReplayOneMore(snapshot: Cache, history: seq<Event>, start: nat, k: nat)
    requires start <= k < |history|
    ensures Replay(snapshot, history[start..k + 1]) == Deliver(Replay(snapshot, history[start..k]), history[k], true)
  {
    var stream := history[start..k + 1];
    assert stream[..|stream| - 1] == history[start..k] && stream[|stream| - 1] == history[k];
  }

  lemma {:induction false} ReplayStream(history: seq<Event>, start: nat, m: nat, k: nat)
    requires start <= m <= |history| && start <= k <= |history|
    requires forall i: nat :: start <= i < |history| ==> Follows(history, m, i)
    ensures Replay(Server(history[..m]), history[start..k]) == Server(history[..if k < m then m else k])
  {
    if k > start {
      ReplayStream(history, start, m, k - 1);
      ReplayOneMore(Server(history[..m]), history, start, k - 1);
      assert Follows(history, m, k - 1);
    }
  }

  /** A change of the snapshot's own revision is delivered once more: nothing changes. */
  lemma Redelivered(history: seq<Event>, m: nat, i: nat)
    requires InOrder(history) && i < m <= |history|
    requires forall j :: i <= j < m ==> history[j].revision == history[i].revision
    ensures Deliver(Server(history[..m]), history[i], true) == Server(history[..m])
  {
    LastChangeIs(history[..m], i);
    ServerHolds(history[..m], history[i].key);
  }

  /** The next change is newer than what the server held under its key: the cache takes it over. */
  lemma Delivered(history: seq<Event>, k: nat)
    requires InOrder(history) && k < |history|
    ensures Deliver(Server(history[..k]), history[k], true) == Server(history[..k + 1])
  {
    var before := history[..k];
    var e := history[k];
    ServerHolds(before, e.key);
    LastChangeIn(before, e.key);
    if LastChange(before, e.key).Some? {
      var i :| 0 <= i < k && before[i] == LastChange(before, e.key).value;
      assert history[i].key == history[k].key;
    }
    assert history[..k + 1][..k] == before;
  }

  // ---------------------------------------------------------------- echoes of own writes

  /** A delivery to the cache: an event, from the watch stream or as the echo of an own write. */
  datatype Delivery = Delivery(event: Event, watched: bool)

  function After(cache: Cache, ds: seq<Delivery>): Cache {
    if ds == [] then cache
    else
      var last := ds[|ds| - 1];
      Deliver(After(cache, ds[..|ds| - 1]), last.event, last.watched)
  }

  /** The highest revision delivered for a key, starting from what the cache held. */
  function Highest(cache: Cache, ds: seq<Delivery>, key: Key): nat {
    if ds == [] then (if key in cache then cache[key].revision else 0)
    else
      var before := Highest(cache, ds[..|ds| - 1], key);
      var e := ds[|ds| - 1].event;
      if e.key == key && e.revision > before then e.revision else before
  }

  /** Every delivery for the key is a write, and the server gives each revision one value. */
  predicate WritesOnly(cache: Cache, ds: seq<Delivery>, key: Key, valueAt: nat -> string) {
    && (key in cache ==> cache[key].value == valueAt(cache[key].revision))
    && (forall d <- ds :: d.event.key == key ==>
          d.event.revision > 0 && d.event == Put(key, valueAt(d.event.revision), d.event.revision))
  }

  predicate Touched(cache: Cache, ds: seq<Delivery>, key: Key) {
    key in cache || exists d <- ds :: d.event.key == key
  }

  /** For a key that is never deleted every interleaving of watch events and echoes ends with the node of the highest
      revision delivered. */
  lemma {:induction false} HighestWins(cache: Cache, ds: seq<Delivery>, key: Key, valueAt: nat -> string)
    requires WritesOnly(cache, ds, key, valueAt)
    ensures
      var top := Highest(cache, ds, key);
      Lookup(After(cache, ds), key) == if Touched(cache, ds, key) then Some(Node(valueAt(top), top)) else None
    ensures !Touched(cache, ds, key) ==> Highest(cache, ds, key) == 0
  {
    if ds != [] {
      var before := ds[..|ds| - 1];
      assert ds == before + [ds[|ds| - 1]];
      HighestWins(cache, before, key, valueAt);
    }
  }

  /** Highest is the maximum of the revisions delivered and of the one in the cache. */
  lemma {:induction false} HighestIsMax(cache: Cache, ds: seq<Delivery>, key: Key)
    ensures forall d <- ds :: d.event.key == key ==> d.event.revision <= Highest(cache, ds, key)
    ensures key in cache ==> cache[key].revision <= Highest(cache, ds, key)
    ensures Highest(cache, ds, key) == (if key in cache then cache[key].revision else 0)
      || exists d <- ds :: d.event.key == key && d.event.revision == Highest(cache, ds, key)
  {
    if ds != [] {
      HighestIsMax(cache, ds[..|ds| - 1], key);
      assert ds == ds[..|ds| - 1] + [ds[|ds| - 1]];
    }
  }

  /** Two interleavings of the same deliveries leave the same node under a key that is never deleted. */
  lemma SameDeliveriesSameNode(
      cache: Cache, ds: seq<Delivery>, es: seq<Delivery>, key: Key, valueAt: nat -> string)
    requires WritesOnly(cache, ds, key, valueAt) && forall d :: d in ds <==> d in es
    ensures Lookup(After(cache, ds), key) == Lookup(After(cache, es), key)
  {
    HighestWins(cache, ds, key, valueAt);
    HighestWins(cache, es, key, valueAt);
    HighestIsMax(cache, ds, key);
    HighestIsMax(cache, es, key);
  }

  /** A delivery leaves the cache right, compared with the newest change `latest` of the key so far, exactly unless it
      is an old write that comes after a newer deletion: the cache keeps no trace of what was deleted. */
  lemma LateEchoExactly(cache: Cache, latest: Event, d: Delivery)
    requires Lookup(cache, latest.key) == NodeOf(Some(latest)) && d.event.key == latest.key
    requires d.event.revision == latest.revision ==> d.event == latest
    ensures
      var newest := if d.event.revision > latest.revision then d.event else latest;
      Lookup(Deliver(cache, d.event, d.watched), latest.key) == NodeOf(Some(newest)) <==>
      !(latest.Delete? && d.event.Put? && d.event.revision < latest.revision)
  {}
}
