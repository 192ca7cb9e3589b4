/**
  The replicated key-value store of patroni/dcs/raft.py: KVStoreTTL and the leader key commands of Raft.
  The replicated log is given; the i-th command of the log (counting from 1) is applied at position i.
 */
module KvStore {
  import opened Wrappers

  type Key = string

  datatype Entry = Entry(value: string, updated: real, created: real, expire: Option<real>, index: nat)

  /** prevExist, prevValue and prevIndex of a command; None and 0 stand for arguments that are not given. */
  datatype Conditions = Conditions(prevExist: Option<bool>, prevValue: Option<string>, prevIndex: nat)

  const ALWAYS := Conditions(None, None, 0)

  predicate Meets(current: Option<Entry>, c: Conditions) {
    && (c.prevExist.Some? ==> c.prevExist.value == current.Some?)
    && (c.prevValue.Some? ==> current.Some? && current.value.value == c.prevValue.value)
    && (c.prevIndex != 0 ==> current.Some? && current.value.index == c.prevIndex)
  }

  datatype Command =
    | Set(key: Key, value: string, updated: real, created: real, expire: Option<real>, conditions: Conditions)
    | Delete(key: Key, conditions: Conditions)
    | DeleteAll(prefix: string)
    | Expire(key: Key, seen: Entry)

  datatype Answer = Granted | Refused | KeyError

  datatype Store = Store(data: map<Key, Entry>, applied: nat)

  const EMPTY := Store(map[], 0)

  function Get(s: Store, key: Key): Option<Entry> {
    if key in s.data then Some(s.data[key]) else None
  }

  /** The fields that an expiry compares; the index is not one of them. */
  predicate ValuesMatch(e: Entry, f: Entry) {
    e.created == f.created && e.updated == f.updated && e.expire == f.expire && e.value == f.value
  }

  function Stored(current: Option<Entry>, cmd: Command, position: nat): Entry
    requires cmd.Set?
  {
    var created := if current.Some? && current.value.created != cmd.created then cmd.updated else cmd.created;
    Entry(cmd.value, cmd.updated, created, cmd.expire, position)
  }

  function Without(data: map<Key, Entry>, prefix: string): map<Key, Entry> {
    map k | k in data && !(prefix <= k) :: data[k]
  }

  function Apply(s: Store, cmd: Command): (Store, Answer) {
    var next := s.(applied := s.applied + 1);
    match cmd
    case Set(key, _, _, _, _, conditions) =>
      if Meets(Get(s, key), conditions)
      then (next.(data := s.data[key := Stored(Get(s, key), cmd, s.applied + 1)]), Granted)
      else (next, Refused)
    case Delete(key, conditions) =>
      if !Meets(Get(s, key), conditions) then (next, Refused)
      else if key in s.data then (next.(data := s.data - {key}), Granted)
      else (next, KeyError)
    case DeleteAll(prefix) =>
      (next.(data := Without(s.data, prefix)), Granted)
    case Expire(key, seen) =>
      if key in s.data && ValuesMatch(s.data[key], seen) then (next.(data := s.data - {key}), Granted)
      else (next, Refused)
  }

  /** The store after a log. */
  function Replay(log: seq<Command>): (s: Store)
    ensures s.applied == |log|
  {
    if log == [] then EMPTY else Apply(Replay(log[..|log| - 1]), log[|log| - 1]).0
  }

  class KVStoreTTL {
    var data: map<Key, Entry>
    var applied: nat
    var limb: map<Key, Entry>  // entries whose expiry has been requested

    function Contents(): Store
      reads this
    {
      Store(data, applied)
    }

    constructor ()
      ensures Contents() == EMPTY && limb == map[]
    {
      data, applied, limb := map[], 0, map[];
    }

    /** _set, _delete and _expire, applied by every node in the order of the log. */
    method ApplyCommand(cmd: Command) returns (answer: Answer)
      modifies this`data, this`applied
      ensures (Contents(), answer) == Apply(old(Contents()), cmd)
    {
      match cmd {
      case Set(key, value, updated, created, expire, conditions) =>
        var old_value := if key in data then Some(data[key]) else None;
        if Meets(old_value, conditions) {
          var first := created;
          if old_value.Some? && old_value.value.created != first {
            first := updated;
          }
          data := data[key := Entry(value, updated, first, expire, applied + 1)];
          answer := Granted;
        } else {
          answer := Refused;
        }
      case Delete(key, conditions) =>
        if !Meets(if key in data then Some(data[key]) else None, conditions) {
          answer := Refused;
        } else if key in data {
          data, answer := data - {key}, Granted;
        } else {
          answer := KeyError;
        }
      case DeleteAll(prefix) =>
        PopAll(prefix);
        answer := Granted;
      case Expire(key, seen) =>
        if key in data && ValuesMatch(data[key], seen) {
          data, answer := data - {key}, Granted;
        } else {
          answer := Refused;
        }
      }
      applied := applied + 1;
    }

    method PopAll(prefix: string)
      modifies this`data
      ensures data == Without(old(data), prefix)
    {
      var todo := data.Keys;
      while todo != {}
        invariant todo <= data.Keys <= old(data).Keys
        invariant forall k <- old(data).Keys :: k in data.Keys <==> k in todo || !(prefix <= k)
        invariant forall k <- data.Keys :: data[k] == old(data)[k]
      {
        var k :| k in todo;
        todo := todo - {k};
        if prefix <= k {
          data := data - {k};
        }
      }
    }

    /** The client side of set: a local check, then the command that is sent to the log. */
    method Prepare(key: Key, value: string, ttl: Option<real>, conditions: Conditions, now: real)
      returns (cmd: Option<Command>)
      ensures cmd.Some? <==> Meets(Get(Contents(), key), conditions)
      ensures cmd.Some? ==>
        && cmd.value.Set? && cmd.value.key == key && cmd.value.value == value && cmd.value.updated == now
        && cmd.value.conditions == conditions
        && cmd.value.created == (if key in data then data[key].created else now)
        && cmd.value.expire == if ttl.Some? && ttl.value != 0.0 then Some(now + ttl.value) else None
    {
      var old_value := if key in data then Some(data[key]) else None;
      if !Meets(old_value, conditions) {
        return None;
      }
      var expire := if ttl.Some? && ttl.value != 0.0 then Some(now + ttl.value) else None;
      return Some(Set(key, value, now, if old_value.Some? then old_value.value.created else now, expire, conditions));
    }

    /** The tick of the log's leader: request the removal of every entry whose time is over, once. */
    method ExpireKeys(now: real) returns (requests: seq<Command>)
      modifies this`limb
      ensures forall r <- requests :: r.Expire? && Overdue(r.seen, now) && Get(Contents(), r.key) == Some(r.seen)
      ensures forall r <- requests :: !(r.key in old(limb) && ValuesMatch(old(limb)[r.key], r.seen))
      ensures forall i, j :: 0 <= i < j < |requests| ==> requests[i].key != requests[j].key
      ensures forall k <- data.Keys ::
        Overdue(data[k], now) ==>
          || Expire(k, data[k]) in requests
          || (k in old(limb) && ValuesMatch(old(limb)[k], data[k]))
      ensures forall k <- data.Keys :: Overdue(data[k], now) ==> k in limb && ValuesMatch(limb[k], data[k])
      ensures forall k :: k !in data.Keys || !Overdue(data[k], now) ==> (k in limb <==> k in old(limb))
      ensures forall k <- limb :: k !in data.Keys || !Overdue(data[k], now) ==> limb[k] == old(limb)[k]
    {
      requests := [];
      var todo := data.Keys;
      while todo != {}
        invariant todo <= data.Keys
        invariant forall r <- requests :: r.Expire? && Overdue(r.seen, now) && Get(Contents(), r.key) == Some(r.seen)
        invariant forall r <- requests :: !(r.key in old(limb) && ValuesMatch(old(limb)[r.key], r.seen))
        invariant forall r <- requests :: r.key !in todo
        invariant forall i, j :: 0 <= i < j < |requests| ==> requests[i].key != requests[j].key
        invariant forall k :: k in todo || k !in data.Keys || !Overdue(data[k], now) ==> (k in limb <==> k in old(limb))
        invariant forall k <- limb :: k in todo || k !in data.Keys || !Overdue(data[k], now) ==> limb[k] == old(limb)[k]
        invariant forall k <- data.Keys - todo ::
          Overdue(data[k], now) ==>
            && k in limb && ValuesMatch(limb[k], data[k])
            && (Expire(k, data[k]) in requests || (k in old(limb) && ValuesMatch(old(limb)[k], data[k])))
      {
        var k :| k in todo;
        todo := todo - {k};
        if Overdue(data[k], now) && !(k in limb && ValuesMatch(limb[k], data[k])) {
          limb := limb[k := data[k]];
          requests := requests + [Expire(k, data[k])];
        }
      }
    }
  }

  predicate Overdue(e: Entry, now: real) { e.expire.Some? && e.expire.value <= now }

  // ---------------------------------------------------------------- what a write does

  /** The conditions hold of what is stored. */
  predicate Admits(s: Store, cmd: Command)
    requires cmd.Set? || cmd.Delete?
  {
    var c := cmd.conditions;
    && (c.prevExist == Some(true) ==> cmd.key in s.data) && (c.prevExist == Some(false) ==> cmd.key !in s.data)
    && (c.prevValue.Some? ==> cmd.key in s.data && s.data[cmd.key].value == c.prevValue.value)
    && (c.prevIndex != 0 ==> cmd.key in s.data && s.data[cmd.key].index == c.prevIndex)
  }

  /** A set writes what it carries at the next position, exactly if its conditions hold; the time of creation is the one
      it carries, unless another entry has come in between. */
  lemma SetExactly(s: Store, cmd: Command)
    requires cmd.Set?
    ensures
      var (t, answer) := Apply(s, cmd);
      && t.applied == s.applied + 1
      && (answer.Granted? <==> Admits(s, cmd)) && (!answer.Granted? ==> answer.Refused? && t.data == s.data)
      && (answer.Granted? ==>
            && cmd.key in t.data && t.data - {cmd.key} == s.data - {cmd.key}
            && var e := t.data[cmd.key];
               && e.value == cmd.value && e.updated == cmd.updated && e.expire == cmd.expire && e.index == s.applied + 1
               && e.created == (if cmd.key !in s.data || s.data[cmd.key].created == cmd.created then cmd.created
                                else cmd.updated))
  {
  }

  /** A delete removes the key, exactly if its conditions hold and the key is there. */
  lemma DeleteExactly(s: Store, cmd: Command)
    requires cmd.Delete?
    ensures
      var (t, answer) := Apply(s, cmd);
      && t.applied == s.applied + 1 && t.data == (if answer.Granted? then s.data - {cmd.key} else s.data)
      && (answer.Granted? <==> Admits(s, cmd) && cmd.key in s.data)
      && (answer.KeyError? <==> Admits(s, cmd) && cmd.key !in s.data)
  {
  }

  /** A recursive delete removes exactly the keys with the prefix. */
  lemma DeleteAllExactly(s: Store, prefix: string)
    ensures
      var t := Apply(s, DeleteAll(prefix)).0;
      && t.applied == s.applied + 1
      && forall k :: (k in t.data <==> k in s.data && !(prefix <= k)) && (k in t.data ==> t.data[k] == s.data[k])
  {
  }

  // ---------------------------------------------------------------- compare-and-set

  /** The position of the command that wrote the stored entry, if there is one. */
  function LastWrite(log: seq<Command>, key: Key): Option<nat> {
    if log == [] then None
    else
      var cmd := log[|log| - 1];
      var (after, answer) := Apply(Replay(log[..|log| - 1]), cmd);
      if cmd.Set? && cmd.key == key && answer.Granted? then Some(|log|)
      else if key in after.data then LastWrite(log[..|log| - 1], key)
      else None
  }

  /** The index of an entry is the position of the command that wrote it. */
  lemma {:induction false} IndexIsPosition(log: seq<Command>, key: Key)
    ensures
      match LastWrite(log, key)
      case Some(i) => 0 < i <= |log| && Get(Replay(log), key).Some? && Get(Replay(log), key).value.index == i
      case None => Get(Replay(log), key).None?
  {
    if log != [] {
      IndexIsPosition(log[..|log| - 1], key);
    }
  }

  /** A write with prevIndex i succeeds exactly when the stored entry was written at log position i. */
  lemma CompareAndSetExact(log: seq<Command>, cmd: Command)
    requires cmd.Set? && cmd.conditions == Conditions(None, None, cmd.conditions.prevIndex)
    requires cmd.conditions.prevIndex != 0
    ensures Apply(Replay(log), cmd).1.Granted? <==> LastWrite(log, cmd.key) == Some(cmd.conditions.prevIndex)
  {
    IndexIsPosition(log, cmd.key);
  }

  /** Two writers that read the same index cannot both succeed: the second finds another position. */
  lemma OneWriterWins(log: seq<Command>, first: Command, between: seq<Command>, second: Command)
    requires first.Set? && second.Set? && first.key == second.key
    requires first.conditions.prevIndex == second.conditions.prevIndex != 0
    requires Apply(Replay(log), first).1.Granted?
    ensures !Apply(Replay(log + [first] + between), second).1.Granted?
  {
    var all := log + [first] + between;
    IndexIsPosition(log, first.key);
    IndexIsPosition(all, first.key);
    LaterWrite(log + [first], between, first.key);
    assert (log + [first])[..|log|] == log;
  }

  /** What is written after a log has a later position than what the log wrote. */
  lemma {:induction false} LaterWrite(log: seq<Command>, between: seq<Command>, key: Key)
    ensures
      var last := LastWrite(log + between, key);
      last.Some? ==> last == LastWrite(log, key) || last.value > |log|
  {
    var all := log + between;
    if between == [] {
      assert all == log;
    } else {
      LaterWrite(log, between[..|between| - 1], key);
      assert all[..|all| - 1] == log + between[..|between| - 1];
    }
  }

  // ---------------------------------------------------------------- the leader key

  /** attempt_to_acquire_leader, _update_leader and _delete_leader of node n, and the expiry of a key that was overdue
      when the expiry was requested.  `at` is the clock of the node that issues the command. */
  predicate LeaderCommand(leader: Key, cmd: Command, at: real) {
    match cmd
    case Set(key, n, _, _, _, conditions) =>
      key == leader ==>
        || conditions == Conditions(Some(false), None, 0)
        || conditions == Conditions(None, Some(n), 0)
    case Delete(key, conditions) => key == leader ==> conditions.prevValue.Some?
    case DeleteAll(prefix) => !(prefix <= leader)
    case Expire(key, seen) => Overdue(seen, at)
  }

  function Holder(s: Store, leader: Key): Option<string> {
    if leader in s.data then Some(s.data[leader].value) else None
  }

  ghost predicate LeaderLog(leader: Key, log: seq<Command>, at: seq<real>) {
    |at| == |log| && forall i :: 0 <= i < |log| ==> LeaderCommand(leader, log[i], at[i])
  }

  /** How the holder a of the leader key may cease to hold it at a command: it gives the key back itself, or the key is
      taken from it after its time was over. */
  predicate Gone(leader: Key, s: Store, cmd: Command, at: real, a: string) {
    && Holder(s, leader) == Some(a)
    && (|| (cmd.Delete? && cmd.key == leader && cmd.conditions.prevValue == Some(a))
        || (cmd.Expire? && cmd.key == leader && Overdue(s.data[leader], at)))
  }

  /** One command leaves the holder alone, installs one where there was none, or removes it rightfully. */
  lemma LeaderStep(leader: Key, s: Store, cmd: Command, at: real)
    requires LeaderCommand(leader, cmd, at)
    ensures
      var t := Apply(s, cmd).0;
      match Holder(s, leader)
      case None => true
      case Some(a) => Holder(t, leader) == Some(a) || (Holder(t, leader).None? && Gone(leader, s, cmd, at, a))
  {}

  function HolderAt(leader: Key, log: seq<Command>, i: nat): Option<string>
    requires i <= |log|
  {
    Holder(Replay(log[..i]), leader)
  }

  lemma ReplayNext(log: seq<Command>, k: nat)
    requires k < |log|
    ensures Replay(log[..k + 1]) == Apply(Replay(log[..k]), log[k]).0
  {
    assert log[..k + 1][..k] == log[..k];
  }

  /** The command that changes the holder takes the key from it rightfully. */
  lemma HolderChanges(leader: Key, log: seq<Command>, at: seq<real>, k: nat)
    requires LeaderLog(leader, log, at) && k < |log| && HolderAt(leader, log, k).Some?
    requires HolderAt(leader, log, k + 1) != HolderAt(leader, log, k)
    ensures HolderAt(leader, log, k + 1).None?
    ensures Gone(leader, Replay(log[..k]), log[k], at[k], HolderAt(leader, log, k).value)
  {
    ReplayNext(log, k);
    LeaderStep(leader, Replay(log[..k]), log[k], at[k]);
  }

  /** The leader key never passes from one node to another without being free in between, and it becomes free only when
      its holder releases it or its time is over. */
  lemma {:induction false} NoDirectHandover(leader: Key, log: seq<Command>, at: seq<real>, i: nat, j: nat)
    returns (k: nat)
    requires LeaderLog(leader, log, at) && i <= j <= |log|
    requires HolderAt(leader, log, i).Some? && HolderAt(leader, log, j) != HolderAt(leader, log, i)
    ensures i <= k < j && HolderAt(leader, log, k + 1).None?
    ensures Gone(leader, Replay(log[..k]), log[k], at[k], HolderAt(leader, log, i).value)
    decreases j
  {
    if HolderAt(leader, log, j - 1) == HolderAt(leader, log, i) {
      k := j - 1;
      HolderChanges(leader, log, at, k);
    } else {
      k := NoDirectHandover(leader, log, at, i, j - 1);
    }
  }

  /** An expiry removes the entry exactly when it is still the one that was seen, in every field but the index, and
      then its own time was over when the expiry was requested; otherwise it changes nothing. */
  lemma ExpireExact(s: Store, key: Key, seen: Entry, at: real)
    requires Overdue(seen, at)
    ensures
      var after := Apply(s, Expire(key, seen)).0;
      if key in s.data && ValuesMatch(s.data[key], seen)
      then after.data == s.data - {key} && Overdue(s.data[key], at)
      else after.data == s.data
  {}

  /** An entry that was written again within one tick of the clock is removed by an expiry aimed at the first one. */
  lemma RewrittenAlike(key: Key)
    ensures
      var write := Set(key, "n", 0.0, 0.0, Some(1.0), ALWAYS);
      var log := [write, write];
      && LastWrite(log[..1], key) == Some(1) && LastWrite(log, key) == Some(2)
      && Get(Apply(Replay(log), Expire(key, Replay(log[..1]).data[key])).0, key).None?
  {
    var write := Set(key, "n", 0.0, 0.0, Some(1.0), ALWAYS);
    var log := [write, write];
    assert log[..1] == [write] && [write][..0] == [];
    assert Replay([write]) == Apply(EMPTY, write).0;
    assert Replay(log) == Apply(Replay([write]), write).0;
    assert LastWrite([write], key) == Some(1);
  }
}
