/**
  patroni/postgresql/slots.py: SlotsHandler keeps a copy of the server's replication slots, and drives the server to
  the wanted ones by commands that may fail.
 */
module Slots {
  import opened Wrappers

  datatype Slot = Physical | Logical(database: string, plugin: string) {
    function Type(): string { if Physical? then "physical" else "logical" }

    /** The attributes of a slot, as pg_replication_slots gives them. */
    function Attributes(): map<string, string> {
      if Physical? then map["type" := Type()] else map["type" := Type(), "database" := database, "plugin" := plugin]
    }
  }

  /** A slot on the server; an active one cannot be dropped. */
  datatype Held = Held(slot: Slot, active: bool)

  const COMPARED := ["database", "plugin", "type"]

  /** A line of ignore_slots; an attribute that is missing or empty matches all slots. */
  datatype Matcher = Matcher(name: Option<string>, attributes: map<string, string>) {
    predicate MatchesIn(a: string, slot: Slot) {
      a !in attributes || attributes[a] == "" || (a in slot.Attributes() && attributes[a] == slot.Attributes()[a])
    }

    predicate Matches(n: string, slot: Slot) {
      (name.None? || name.value == n) && forall a <- COMPARED :: MatchesIn(a, slot)
    }
  }

  predicate Ignored(matchers: seq<Matcher>, n: string, slot: Slot) { exists m <- matchers :: m.Matches(n, slot) }

  /** What raises an exception during one call: the database, or the loss of a connection; `done` if the command has
      taken effect all the same. */
  datatype Fault = Load | Drop(name: string, done: bool) | Create(name: string, done: bool) | Connect(database: string)

  function Lookup<T>(m: map<string, T>, n: string): Option<T> { if n in m then Some(m[n]) else None }

  function SlotsOf(server: map<string, Held>): map<string, Slot> { map n | n in server :: server[n].slot }

  // ---------------------------------------------------------------- what a call does to one name

  /** What there is to one name: the server's slot, the copy's, the wanted one; whether the copy's is ignored; whether
      a create is refused, or raises an exception after it has taken effect. */
  datatype Case = Case(held: Option<Held>, cached: Option<Slot>, wanted: Option<Slot>, ignored: bool,
                       refused: bool, lost: bool) {
    predicate MustDrop() { cached.Some? && (if wanted.Some? then cached != wanted else !ignored) }

    predicate CanDrop() { held.Some? && !held.value.active }

    predicate MustCreate() { wanted.Some? && (cached.None? || (MustDrop() && CanDrop())) }

    /** The server's slot after the drop. */
    function Cleared(): Option<Held> { if MustDrop() && CanDrop() then None else held }

    /** The server refuses a name that a slot of the other type has, and passes over one of the same type. */
    predicate CreateFails()
      requires wanted.Some?
    {
      refused || lost || (Cleared().Some? && Cleared().value.slot.Type() != wanted.value.Type())
    }

    function After(): Option<Held> {
      if MustCreate() && !refused && Cleared().None? then Some(Held(wanted.value, false)) else Cleared()
    }

    predicate Fails() { (MustDrop() && !CanDrop()) || (MustCreate() && CreateFails()) }
  }

  // ---------------------------------------------------------------- the procedures

  class Server {
    var slots: map<string, Held>
    ghost var commands: nat   // the commands that it has been sent

    /** pg_drop_replication_slot where the slot exists and is not active. */
    method Drop(name: string) returns (rowcount: nat)
      modifies this
      ensures rowcount == 1 <==> name in old(slots) && !old(slots)[name].active
      ensures slots == if rowcount == 1 then old(slots) - {name} else old(slots)
      ensures commands == old(commands) + 1
    {
      commands := commands + 1;
      if name in slots && !slots[name].active {
        slots := slots - {name};
        return 1;
      }
      return 0;
    }

    /** pg_create_..._replication_slot where no slot of the type has the name. */
    method Create(name: string, slot: Slot, refused: bool) returns (raised: bool)
      modifies this
      ensures raised <==> refused || (name in old(slots) && old(slots)[name].slot.Type() != slot.Type())
      ensures slots == if refused || name in old(slots) then old(slots) else old(slots)[name := Held(slot, false)]
      ensures commands == old(commands) + 1
    {
      commands := commands + 1;
      if refused {
        return true;
      }
      if name in slots {
        return slots[name].slot.Type() != slot.Type();
      }
      slots := slots[name := Held(slot, false)];
      return false;
    }
  }

  /** The starting point and the arguments of one call. */
  datatype Call = Call(server: map<string, Held>, cache: map<string, Slot>, desired: map<string, Slot>,
                       matchers: seq<Matcher>, faults: set<Fault>) {
    function At(n: string): Case {
      Case(Lookup(server, n), Lookup(cache, n), Lookup(desired, n), n in cache && Ignored(matchers, n, cache[n]),
           Create(n, false) in faults, Create(n, true) in faults)
    }

    /** What the server has of a name when the call is through with `finished` and has made room for `cleared`. */
    function Expected(n: string, finished: set<string>, cleared: set<string>): Option<Held> {
      if n in finished then At(n).After() else if n in cleared then At(n).Cleared() else At(n).held
    }

    function FailedIn(names: set<string>): set<string> { set n | n in names && At(n).Fails() }

    function Names(): set<string> { cache.Keys + desired.Keys }
  }

  ghost predicate Reached(server: map<string, Held>, failed: bool, call: Call,
                          finished: set<string>, cleared: set<string>) {
    && (forall n :: Lookup(server, n) == call.Expected(n, finished, cleared))
    && (failed <==> call.FailedIn(finished) != {})
  }

  /** No name has got anything but what a complete call does to it, or a part of that. */
  ghost predicate Partly(server: map<string, Held>, call: Call) {
    forall n :: Lookup(server, n) in {call.At(n).held, call.At(n).Cleared(), call.At(n).After()}
  }

  predicate DropRaises(call: Call, n: string) { Drop(n, false) in call.faults || Drop(n, true) in call.faults }

  /** A logical slot that is to be created once its database is connected. */
  predicate Waits(call: Call, n: string) {
    n in call.desired && call.desired[n].Logical? && call.At(n).MustCreate()
  }

  lemma FinishOne(before: map<string, Held>, failedBefore: bool, after: map<string, Held>, failed: bool,
                  call: Call, n: string, finished: set<string>, cleared: set<string>)
    requires Reached(before, failedBefore, call, finished, cleared) && n !in finished
    requires forall o :: o != n ==> Lookup(after, o) == Lookup(before, o)
    requires Lookup(after, n) == call.At(n).After() && failed == (failedBefore || call.At(n).Fails())
    ensures Reached(after, failed, call, finished + {n}, cleared - {n})
  {
    assert call.FailedIn(finished + {n}) == call.FailedIn(finished) + if call.At(n).Fails() then {n} else {};
    forall o
      ensures Lookup(after, o) == call.Expected(o, finished + {n}, cleared - {n})
    {
      assert Lookup(before, o) == call.Expected(o, finished, cleared);
    }
  }

  lemma ClearOne(before: map<string, Held>, failed: bool, after: map<string, Held>,
                 call: Call, n: string, finished: set<string>, cleared: set<string>)
    requires Reached(before, failed, call, finished, cleared) && n !in finished
    requires forall o :: o != n ==> Lookup(after, o) == Lookup(before, o)
    requires Lookup(after, n) == call.At(n).Cleared()
    ensures Reached(after, failed, call, finished, cleared + {n})
  {
    forall o
      ensures Lookup(after, o) == call.Expected(o, finished, cleared + {n})
    {
      assert Lookup(before, o) == call.Expected(o, finished, cleared);
    }
  }

  /** Where the names are that are neither to do nor waiting, when n is done or waits. */
  lemma Moved(all: set<string>, todo: set<string>, waiting: set<string>, n: string)
    requires n in todo && todo <= all && todo !! waiting
    ensures all - (todo - {n}) - (waiting + {n}) == all - todo - waiting
    ensures all - (todo - {n}) - waiting == all - todo - waiting + {n}
  {
  }

  /** The call ends at the drop of n. */
  lemma StoppedAt(before: map<string, Held>, failed: bool, after: map<string, Held>,
                  call: Call, n: string, finished: set<string>, cleared: set<string>)
    requires Reached(before, failed, call, finished, cleared)
    requires forall o :: o != n ==> Lookup(after, o) == Lookup(before, o)
    requires Lookup(after, n) in {call.At(n).held, call.At(n).Cleared()}
    ensures Partly(after, call)
  {
    forall o
      ensures Lookup(after, o) in {call.At(o).held, call.At(o).Cleared(), call.At(o).After()}
    {
      assert Lookup(before, o) == call.Expected(o, finished, cleared);
    }
  }

  class SlotsHandler {
    var replicationSlots: map<string, Slot>
    var scheduleLoadSlots: bool

    method LoadReplicationSlots(server: Server, faults: set<Fault>) returns (raised: bool)
      modifies this
      ensures raised <==> old(scheduleLoadSlots) && Load in faults
      ensures raised ==> scheduleLoadSlots
      ensures !raised ==> !scheduleLoadSlots
      ensures !raised ==>
        replicationSlots == if old(scheduleLoadSlots) then SlotsOf(server.slots) else old(replicationSlots)
    {
      raised := false;
      if scheduleLoadSlots {
        if Load in faults {
          return true;
        }
        replicationSlots := SlotsOf(server.slots);
        scheduleLoadSlots := false;
      }
    }

    /** drop_replication_slot and what follows a failure; an exception goes through. */
    method DropOrSchedule(server: Server, n: string, faults: set<Fault>) returns (raised: bool, dropped: bool)
      modifies this, server
      ensures raised <==> Drop(n, false) in faults || Drop(n, true) in faults
      ensures replicationSlots == old(replicationSlots)
      ensures dropped ==> n in old(server.slots) && !old(server.slots)[n].active
      ensures !raised && n in old(server.slots) && !old(server.slots)[n].active ==> dropped
      ensures server.slots == if dropped then old(server.slots) - {n} else old(server.slots)
      ensures !raised ==> scheduleLoadSlots == (old(scheduleLoadSlots) || !dropped)
    {
      if Drop(n, false) in faults {
        return true, false;
      }
      var rowcount := server.Drop(n);
      dropped := rowcount == 1;
      if Drop(n, true) in faults {
        return true, dropped;
      }
      if !dropped {
        scheduleLoadSlots := true;
      }
      return false, dropped;
    }

    method CreateOrSchedule(server: Server, n: string, value: Slot, faults: set<Fault>)
      modifies this, server
      ensures replicationSlots == old(replicationSlots)
      ensures server.slots == if Create(n, false) in faults || n in old(server.slots) then old(server.slots)
                              else old(server.slots)[n := Held(value, false)]
      ensures scheduleLoadSlots ==
        (old(scheduleLoadSlots) || Create(n, false) in faults || Create(n, true) in faults ||
         (n in old(server.slots) && old(server.slots)[n].slot.Type() != value.Type()))
    {
      var raised := server.Create(n, value, Create(n, false) in faults);
      if raised || Create(n, true) in faults {
        scheduleLoadSlots := true;
      }
    }

    /** One slot of the first loop. */
    method DropUnwanted(server: Server, n: string, call: Call) returns (raised: bool)
      requires n in replicationSlots && replicationSlots == call.cache && n !in call.desired
      requires Lookup(server.slots, n) == call.At(n).held
      modifies this, server
      ensures raised ==> DropRaises(call, n) && Lookup(server.slots, n) in {call.At(n).held, call.At(n).Cleared()}
      ensures replicationSlots == old(replicationSlots)
      ensures forall o :: o != n ==> Lookup(server.slots, o) == old(Lookup(server.slots, o))
      ensures !raised ==> Lookup(server.slots, n) == call.At(n).After()
      ensures !raised ==> scheduleLoadSlots == (old(scheduleLoadSlots) || call.At(n).Fails())
    {
      raised := false;
      if !Ignored(call.matchers, n, replicationSlots[n]) {
        var dropped;
        raised, dropped := DropOrSchedule(server, n, call.faults);
      }
    }

    /** The first loop: the slots that are not wanted. */
    method DropOld(server: Server, call: Call) returns (raised: bool)
      requires server.slots == call.server && replicationSlots == call.cache && !scheduleLoadSlots
      modifies this, server
      ensures call.cache == call.desired ==> !raised && server.commands == old(server.commands)
      ensures raised ==> Partly(server.slots, call) && exists n :: DropRaises(call, n)
      ensures !raised ==> replicationSlots == call.cache
      ensures !raised ==> Reached(server.slots, scheduleLoadSlots, call, call.cache.Keys - call.desired.Keys, {})
    {
      var todo := replicationSlots.Keys - call.desired.Keys;
      ghost var done := {};
      while todo != {}
        invariant replicationSlots == call.cache
        invariant call.cache == call.desired ==> todo == {} && server.commands == old(server.commands)
        invariant done !! todo && done + todo == call.cache.Keys - call.desired.Keys
        invariant Reached(server.slots, scheduleLoadSlots, call, done, {})
        decreases todo
      {
        var n :| n in todo;
        assert Lookup(server.slots, n) == call.Expected(n, done, {});
        ghost var before, failed := server.slots, scheduleLoadSlots;
        raised := DropUnwanted(server, n, call);
        if raised {
          StoppedAt(before, failed, server.slots, call, n, done, {});
          return;
        }
        FinishOne(before, failed, server.slots, scheduleLoadSlots, call, n, done, {});
        todo, done := todo - {n}, done + {n};
      }
      return false;
    }

    /** One wanted slot of the second loop: `later` means that it waits for a connection to its database. */
    method Want(server: Server, n: string, call: Call) returns (raised: bool, later: bool)
      requires n in call.desired && Lookup(server.slots, n) == call.At(n).held
      requires Lookup(replicationSlots, n) == call.At(n).cached
      modifies this, server
      ensures call.cache == call.desired ==> !raised && !later && server.commands == old(server.commands)
      ensures raised ==> DropRaises(call, n) && Lookup(server.slots, n) in {call.At(n).held, call.At(n).Cleared()}
      ensures forall o :: o != n ==> Lookup(replicationSlots, o) == old(Lookup(replicationSlots, o))
      ensures forall o :: o != n ==> Lookup(server.slots, o) == old(Lookup(server.slots, o))
      ensures !raised ==> Lookup(server.slots, n) == if later then call.At(n).Cleared() else call.At(n).After()
      ensures !raised ==> (later ==> Waits(call, n))
      ensures !raised ==> scheduleLoadSlots == (old(scheduleLoadSlots) || (!later && call.At(n).Fails()))
    {
      raised, later := false, false;
      var value := call.desired[n];
      if n in replicationSlots && value != replicationSlots[n] {
        var lost, dropped := DropOrSchedule(server, n, call.faults);
        if lost {
          return true, false;
        }
        if !dropped {
          return;
        }
        replicationSlots := replicationSlots - {n};
      }
      if n !in replicationSlots {
        if value.Physical? {
          CreateOrSchedule(server, n, value, call.faults);
        } else {
          later := true;
        }
      }
    }

    /** The same in the course of the loop. */
    method WantNext(server: Server, n: string, call: Call, ghost done: set<string>, ghost waiting: set<string>)
      returns (raised: bool, later: bool)
      requires n in call.desired && n !in done && n !in waiting
      requires Lookup(replicationSlots, n) == call.At(n).cached
      requires Reached(server.slots, scheduleLoadSlots, call, done, waiting)
      modifies this, server
      ensures call.cache == call.desired ==> !raised && !later && server.commands == old(server.commands)
      ensures raised ==> DropRaises(call, n) && Partly(server.slots, call)
      ensures forall o :: o != n ==> Lookup(replicationSlots, o) == old(Lookup(replicationSlots, o))
      ensures !raised ==> (later ==> Waits(call, n))
      ensures !raised ==> Reached(server.slots, scheduleLoadSlots, call, if later then done else done + {n},
                                  if later then waiting + {n} else waiting)
    {
      ghost var before, failed := server.slots, scheduleLoadSlots;
      assert Lookup(server.slots, n) == call.Expected(n, done, waiting);
      raised, later := Want(server, n, call);
      if !raised && later {
        ClearOne(before, failed, server.slots, call, n, done, waiting);
      } else if !raised {
        FinishOne(before, failed, server.slots, scheduleLoadSlots, call, n, done, waiting);
        assert waiting - {n} == waiting;
      } else {
        StoppedAt(before, failed, server.slots, call, n, done, waiting);
      }
    }

    /** The second loop: the wanted slots, but for the logical ones that have yet to be created. */
    method WantAll(server: Server, call: Call) returns (raised: bool, waiting: set<string>)
      requires replicationSlots == call.cache
      requires Reached(server.slots, scheduleLoadSlots, call, call.cache.Keys - call.desired.Keys, {})
      modifies this, server
      ensures call.cache == call.desired ==> !raised && waiting == {} && server.commands == old(server.commands)
      ensures raised ==> Partly(server.slots, call) && exists n :: DropRaises(call, n)
      ensures !raised ==> forall n <- waiting :: Waits(call, n)
      ensures !raised ==> Reached(server.slots, scheduleLoadSlots, call, call.Names() - waiting, waiting)
      ensures !raised ==> waiting <= call.Names()
    {
      var todo := call.desired.Keys;
      ghost var settled := call.cache == call.desired;
      waiting := {};
      assert call.Names() - todo - {} == call.cache.Keys - call.desired.Keys;
      while todo != {}
        invariant todo <= call.desired.Keys && todo !! waiting && waiting <= call.desired.Keys
        invariant settled ==> waiting == {} && server.commands == old(server.commands)
        invariant forall n <- waiting :: Waits(call, n)
        invariant forall n <- todo :: Lookup(replicationSlots, n) == call.At(n).cached
        invariant Reached(server.slots, scheduleLoadSlots, call, call.Names() - todo - waiting, waiting)
        decreases todo
      {
        var n :| n in todo;
        var later;
        raised, later := WantNext(server, n, call, call.Names() - todo - waiting, waiting);
        if raised {
          return;
        }
        Moved(call.Names(), todo, waiting, n);
        todo := todo - {n};
        if later {
          waiting := waiting + {n};
        }
      }
      assert call.Names() - {} - waiting == call.Names() - waiting;
      raised := false;
    }

    /** One of the waiting slots. */
    method CreateLogical(server: Server, n: string, call: Call)
      requires n in call.desired && Waits(call, n) && Lookup(server.slots, n) == call.At(n).Cleared()
      modifies this, server
      ensures forall o :: o != n ==> Lookup(server.slots, o) == old(Lookup(server.slots, o))
      ensures Lookup(server.slots, n) == call.At(n).After()
      ensures scheduleLoadSlots == (old(scheduleLoadSlots) || call.At(n).Fails())
    {
      CreateOrSchedule(server, n, call.desired[n], call.faults);
    }

    /** The waiting slots of one database. */
    method CreateIn(server: Server, here: set<string>, call: Call, ghost waiting: set<string>)
      requires here <= waiting <= call.Names() && forall n <- here :: Waits(call, n)
      requires Reached(server.slots, scheduleLoadSlots, call, call.Names() - waiting, waiting)
      modifies this, server
      ensures Reached(server.slots, scheduleLoadSlots, call, call.Names() - (waiting - here), waiting - here)
    {
      var todo := here;
      ghost var left := waiting;
      while todo != {}
        invariant todo <= here && left == waiting - (here - todo)
        invariant Reached(server.slots, scheduleLoadSlots, call, call.Names() - left, left)
        decreases todo
      {
        var n :| n in todo;
        assert Lookup(server.slots, n) == call.Expected(n, call.Names() - left, left);
        ghost var before, failed := server.slots, scheduleLoadSlots;
        CreateLogical(server, n, call);
        FinishOne(before, failed, server.slots, scheduleLoadSlots, call, n, call.Names() - left, left);
        assert call.Names() - left + {n} == call.Names() - (left - {n});
        todo, left := todo - {n}, left - {n};
      }
      assert left == waiting - here;
    }

    /** The third loop: one connection for each database, and its slots over it. */
    method CreateAllLogical(server: Server, call: Call, all: set<string>) returns (raised: bool)
      requires all <= call.Names() && forall n <- all :: Waits(call, n)
      requires Reached(server.slots, scheduleLoadSlots, call, call.Names() - all, all)
      modifies this, server
      ensures all == {} ==> !raised && server.commands == old(server.commands)
      ensures raised ==> Partly(server.slots, call) && exists d :: Connect(d) in call.faults
      ensures !raised ==> Reached(server.slots, scheduleLoadSlots, call, call.Names(), {})
    {
      var waiting := all;
      while waiting != {}
        invariant waiting <= all && (all == {} ==> server.commands == old(server.commands))
        invariant Reached(server.slots, scheduleLoadSlots, call, call.Names() - waiting, waiting)
        decreases waiting
      {
        var one :| one in waiting;
        var database := call.desired[one].database;
        if Connect(database) in call.faults {
          return true;
        }
        var here := set n | n in waiting && call.desired[n].database == database;
        assert one in here;
        CreateIn(server, here, call, waiting);
        waiting := waiting - here;
      }
      assert call.Names() - waiting == call.Names();
      return false;
    }

    constructor ()
      ensures scheduleLoadSlots && replicationSlots == map[]
    {
      replicationSlots, scheduleLoadSlots := map[], true;
    }

    /** What a call starts from: the copy, or what is on the server when loading it is scheduled. */
    ghost function Starting(server: map<string, Held>, desired: map<string, Slot>, matchers: seq<Matcher>,
                            faults: set<Fault>): Call
      reads this
    {
      Call(server, if scheduleLoadSlots then SlotsOf(server) else replicationSlots, desired, matchers, faults)
    }

    /** What there is of a run before or after a call; `matchers` are those of the last complete call. */
    ghost function Now(server: Server, matchers: seq<Matcher>): State
      reads this, server
    {
      State(server.slots, replicationSlots, matchers, scheduleLoadSlots)
    }

    /** sync_replication_slots: with an exception on the way it ends early, and will load the slots anew. */
    method SyncReplicationSlots(server: Server, desired: map<string, Slot>, matchers: seq<Matcher>, faults: set<Fault>,
                                ghost before: seq<Matcher>)
      returns (raised: bool)
      modifies this, server
      ensures
        var call := old(Starting(server.slots, desired, matchers, faults));
        && (if raised then scheduleLoadSlots && Partly(server.slots, call)
            else replicationSlots == desired && Complete(call, server.slots, scheduleLoadSlots))
        && Step(old(Now(server, before)), Now(server, matchers), if raised then Interrupted else Finished(call))
      ensures raised ==> exists f <- faults :: f.Load? || f.Drop? || f.Connect?
      ensures !old(scheduleLoadSlots) && desired == old(replicationSlots) ==>
        !raised && !scheduleLoadSlots && server.slots == old(server.slots) && server.commands == old(server.commands)
    {
      ghost var call := Starting(server.slots, desired, matchers, faults);
      raised := LoadReplicationSlots(server, faults);
      if raised {
        return;
      }
      raised := Change(server, Call(server.slots, replicationSlots, desired, matchers, faults));
      if raised {
        scheduleLoadSlots := true;
      } else {
        replicationSlots := desired;
        if call.cache == desired {
          SettledDoesNothing(call, server.slots, scheduleLoadSlots);
        }
      }
    }

    /** The three loops. */
    method Change(server: Server, call: Call) returns (raised: bool)
      requires server.slots == call.server && replicationSlots == call.cache && !scheduleLoadSlots
      modifies this, server
      ensures raised ==> Partly(server.slots, call) && exists f <- call.faults :: f.Drop? || f.Connect?
      ensures !raised ==> Complete(call, server.slots, scheduleLoadSlots)
      ensures call.cache == call.desired ==> !raised && server.commands == old(server.commands)
    {
      assert call.FailedIn({}) == {};
      raised := DropOld(server, call);
      if raised {
        return;
      }
      var waiting;
      raised, waiting := WantAll(server, call);
      if raised {
        return;
      }
      raised := CreateAllLogical(server, call, waiting);
    }
  }

  // ---------------------------------------------------------------- what the calls achieve

  ghost predicate Complete(call: Call, server: map<string, Held>, failed: bool) {
    Reached(server, failed, call, call.Names(), {})
  }

  lemma AtEnd(call: Call, server: map<string, Held>, failed: bool, n: string)
    requires Complete(call, server, failed)
    ensures Lookup(server, n) == call.At(n).After()
    ensures call.At(n).Fails() ==> failed
  {
    assert Lookup(server, n) == call.Expected(n, call.Names(), {});
    assert call.At(n).Fails() ==> n in call.FailedIn(call.Names());
  }

  /** The name, after a complete call on whatever copy, when its slot is not wanted. */
  lemma UnwantedExactly(call: Call, server: map<string, Held>, failed: bool, n: string)
    requires Complete(call, server, failed) && n !in call.desired
    ensures
      var goes := n in call.cache && !Ignored(call.matchers, n, call.cache[n]);
      && (n in server <==> n in call.server && (!goes || call.server[n].active))
      && (n in server ==> server[n] == call.server[n])
      && (goes && (n !in call.server || call.server[n].active) ==> failed)
  {
    AtEnd(call, server, failed, n);
  }

  /** And when it is: one that the copy has is kept, one that it has otherwise is replaced, one that it does not have is
      created, unless the server has the name, and what stands in the way is a failure. */
  lemma WantedExactly(call: Call, server: map<string, Held>, failed: bool, n: string)
    requires Complete(call, server, failed) && n in call.desired
    ensures
      var wanted := call.desired[n];
      var stuck := n in call.server && (if n in call.cache then call.server[n].active else true);
      var refused, lost := Create(n, false) in call.faults, Create(n, true) in call.faults;
      if n in call.cache && call.cache[n] == wanted then Lookup(server, n) == Lookup(call.server, n)
      else if n in call.cache && n !in call.server then n !in server && failed
      else if stuck then
        && Lookup(server, n) == Some(call.server[n])
        && (n in call.cache || refused || lost || call.server[n].slot.Type() != wanted.Type() ==> failed)
      else
        && Lookup(server, n) == (if refused then None else Some(Held(wanted, false)))
        && (refused || lost ==> failed)
  {
    AtEnd(call, server, failed, n);
  }

  /** What is in the way of a name. */
  predicate Stuck(call: Call, n: string) {
    if n !in call.desired then
      n in call.cache && !Ignored(call.matchers, n, call.cache[n]) && (n !in call.server || call.server[n].active)
    else if n in call.cache && call.cache[n] == call.desired[n] then false
    else if n in call.cache && (n !in call.server || call.server[n].active) then true
    else
      || Create(n, false) in call.faults || Create(n, true) in call.faults
      || (n !in call.cache && n in call.server && call.server[n].slot.Type() != call.desired[n].Type())
  }

  /** A complete call reports a failure, and schedules a reload, exactly if something is. */
  lemma FailsExactly(call: Call, server: map<string, Held>, failed: bool)
    requires Complete(call, server, failed)
    ensures failed <==> exists n :: (n in call.cache || n in call.desired) && Stuck(call, n)
  {
    forall n | n in call.cache || n in call.desired
      ensures call.At(n).Fails() <==> Stuck(call, n)
    {
    }
    if failed {
      var n :| n in call.FailedIn(call.Names());
      assert Stuck(call, n);
    }
    if n :| (n in call.cache || n in call.desired) && Stuck(call, n) {
      AtEnd(call, server, failed, n);
    }
  }

  predicate Fresh(call: Call) { call.cache == SlotsOf(call.server) }

  /** The slot is neither wanted nor ignored, or another one is wanted. */
  predicate MustGo(call: Call, n: string)
    requires n in call.server
  {
    var slot := call.server[n].slot;
    if n in call.desired then slot != call.desired[n] else !Ignored(call.matchers, n, slot)
  }

  lemma GoalAt(call: Call, server: map<string, Held>, n: string)
    requires Fresh(call) && Complete(call, server, false)
    ensures n in call.desired ==> n in server && server[n].slot == call.desired[n]
    ensures n !in call.desired ==> (n in server <==> n in call.server && Ignored(call.matchers, n, call.server[n].slot))
    ensures n in call.server && !MustGo(call, n) ==> Lookup(server, n) == Lookup(call.server, n)
  {
    AtEnd(call, server, false, n);
  }

  /** A call on a fresh copy that reports no failure leaves the wanted slots, the ignored ones and no others. */
  lemma FreshReachesGoal(call: Call, server: map<string, Held>)
    requires Fresh(call) && Complete(call, server, false)
    ensures forall n <- call.desired :: n in server && server[n].slot == call.desired[n]
    ensures forall n :: n !in call.desired ==>
      (n in server <==> n in call.server && Ignored(call.matchers, n, call.server[n].slot))
    ensures forall n :: n in call.server && !MustGo(call, n) ==> Lookup(server, n) == Lookup(call.server, n)
  {
    forall n
      ensures n in call.desired ==> n in server && server[n].slot == call.desired[n]
      ensures n !in call.desired ==>
        (n in server <==> n in call.server && Ignored(call.matchers, n, call.server[n].slot))
      ensures n in call.server && !MustGo(call, n) ==> Lookup(server, n) == Lookup(call.server, n)
    {
      GoalAt(call, server, n);
    }
  }

  /** It reports none exactly if nothing that must go is active and no create raises an exception. */
  lemma FreshSucceedsExactly(call: Call, server: map<string, Held>, failed: bool)
    requires Fresh(call) && Complete(call, server, failed)
    ensures !failed <==>
      (forall n <- call.server :: MustGo(call, n) ==> !call.server[n].active) &&
      (forall n <- call.desired :: (n in call.server ==> MustGo(call, n)) ==>
        Create(n, false) !in call.faults && Create(n, true) !in call.faults)
  {
    forall n <- call.Names()
      ensures call.At(n).Fails() <==>
        (n in call.server && MustGo(call, n) && call.server[n].active) ||
        (n in call.desired && (n in call.server ==> MustGo(call, n)) &&
         (Create(n, false) in call.faults || Create(n, true) in call.faults))
    {
    }
    forall n <- call.Names()
      ensures call.At(n).Fails() ==> failed
    {
      AtEnd(call, server, failed, n);
    }
    if failed {
      var n :| n in call.FailedIn(call.Names());
      assert call.At(n).Fails();
    }
  }

  /** The copy claims nothing that the server does not have. */
  predicate Agrees(server: map<string, Held>, cache: map<string, Slot>) {
    forall n <- cache :: n in server && server[n].slot == cache[n]
  }

  /** A copy that is what is wanted: the call sends no command, and nothing changes. */
  lemma SettledDoesNothing(call: Call, server: map<string, Held>, failed: bool)
    requires call.cache == call.desired && Complete(call, server, failed)
    ensures forall n :: !call.At(n).MustDrop() && !call.At(n).MustCreate()
    ensures !failed && server == call.server
  {
    forall n
      ensures Lookup(server, n) == Lookup(call.server, n)
    {
      AtEnd(call, server, failed, n);
    }
    assert forall n :: n in server <==> Lookup(server, n).Some?;
    assert forall n :: n in call.server <==> Lookup(call.server, n).Some?;
    assert call.FailedIn(call.Names()) == {};
  }

  /** A wanted logical slot that the copy does not have, where the server has one of another database or plugin. */
  predicate Collides(call: Call, n: string) {
    n in call.desired && n !in call.cache && n in call.server &&
    call.desired[n].Logical? && call.server[n].slot.Logical? && call.server[n].slot != call.desired[n]
  }

  /** A call that reports no failure keeps the copy in agreement, exactly if there is no such slot. */
  lemma AgreementKeptExactly(call: Call, server: map<string, Held>)
    requires Agrees(call.server, call.cache) && Complete(call, server, false)
    ensures Agrees(server, call.desired) <==> forall n <- call.desired :: !Collides(call, n)
  {
    forall n | n in call.desired
      ensures Collides(call, n) <==> !(n in server && server[n].slot == call.desired[n])
    {
      AtEnd(call, server, false, n);
    }
  }

  /** Such a slot: it was ignored, so the copy has forgotten it; then it is wanted with another plugin. */
  lemma CollisionGoesUnnoticed()
    ensures
      var call := Call(map["s" := Held(Logical("db", "old"), false)], map[], map["s" := Logical("db", "new")], [], {});
      Agrees(call.server, call.cache) && Collides(call, "s") && Complete(call, call.server, false)
  {
    var call := Call(map["s" := Held(Logical("db", "old"), false)], map[], map["s" := Logical("db", "new")], [], {});
    assert forall n :: n != "s" ==> call.At(n).held.None?;
    assert call.FailedIn(call.Names()) == {};
  }

  /** The matcher gives the attribute a value. */
  predicate Gives(m: Matcher, a: string) { a in m.attributes && m.attributes[a] != "" }

  /** A slot is ignored if and only if some matcher names it or no slot, and what that gives is the slot's. */
  lemma IgnoredExactly(matchers: seq<Matcher>, n: string, slot: Slot)
    ensures Ignored(matchers, n, slot) <==>
      exists m <- matchers ::
        && (m.name.None? || m.name.value == n)
        && (Gives(m, "type") ==> m.attributes["type"] == if slot.Physical? then "physical" else "logical")
        && (Gives(m, "database") ==> slot.Logical? && slot.database == m.attributes["database"])
        && (Gives(m, "plugin") ==> slot.Logical? && slot.plugin == m.attributes["plugin"])
  {
    forall m: Matcher
      ensures m.Matches(n, slot) <==>
        && (m.name.None? || m.name.value == n)
        && (Gives(m, "type") ==> m.attributes["type"] == if slot.Physical? then "physical" else "logical")
        && (Gives(m, "database") ==> slot.Logical? && slot.database == m.attributes["database"])
        && (Gives(m, "plugin") ==> slot.Logical? && slot.plugin == m.attributes["plugin"])
    {
      MatchesExactly(m, n, slot);
    }
  }

  lemma MatchesExactly(m: Matcher, n: string, slot: Slot)
    ensures m.Matches(n, slot) <==>
      && (m.name.None? || m.name.value == n)
      && (Gives(m, "type") ==> m.attributes["type"] == if slot.Physical? then "physical" else "logical")
      && (Gives(m, "database") ==> slot.Logical? && slot.database == m.attributes["database"])
      && (Gives(m, "plugin") ==> slot.Logical? && slot.plugin == m.attributes["plugin"])
  {
    assert COMPARED[0] == "database" && COMPARED[1] == "plugin" && COMPARED[2] == "type";
    assert (forall a <- COMPARED :: m.MatchesIn(a, slot)) <==>
      m.MatchesIn("database", slot) && m.MatchesIn("plugin", slot) && m.MatchesIn("type", slot);
    assert |"type"| == 4 && |"database"| == 8 && |"plugin"| == 6;
  }

  /** An ignored slot that is not wanted survives a complete call, whether the copy knows it or has forgotten it; one
      that the copy knows and that is neither wanted nor ignored goes, unless it is active. */
  lemma IgnoredSurvives(call: Call, server: map<string, Held>, failed: bool, n: string)
    requires Complete(call, server, failed) && n in call.server && n !in call.desired
    requires n in call.cache ==> call.cache[n] == call.server[n].slot
    ensures n !in call.cache || Ignored(call.matchers, n, call.server[n].slot) || call.server[n].active ==>
      Lookup(server, n) == Some(call.server[n])
    ensures n in call.cache && !Ignored(call.matchers, n, call.server[n].slot) && !call.server[n].active ==>
      n !in server
  {
    AtEnd(call, server, failed, n);
  }

  /** Whatever the copy does not have is ignored. */
  predicate OnlyIgnored(server: map<string, Held>, cache: map<string, Slot>, matchers: seq<Matcher>) {
    forall n <- server :: n !in cache ==> Ignored(matchers, n, server[n].slot)
  }

  /** A slot that the copy has forgotten, that is not wanted, and that is no longer ignored. */
  predicate Exposed(call: Call, n: string) {
    n in call.server && n !in call.cache && n !in call.desired && !Ignored(call.matchers, n, call.server[n].slot)
  }

  /** After a call without failure all but the wanted slots are ignored ones, exactly if there is no such slot. */
  lemma OthersIgnoredExactly(call: Call, server: map<string, Held>)
    requires Agrees(call.server, call.cache) && Complete(call, server, false)
    ensures OnlyIgnored(server, call.desired, call.matchers) <==> forall n <- call.server :: !Exposed(call, n)
  {
    forall n
      ensures n in server && n !in call.desired && !Ignored(call.matchers, n, server[n].slot) <==> Exposed(call, n)
    {
      AtEnd(call, server, false, n);
    }
  }

  /** Such a slot: the matcher that had it ignored is gone, and the call leaves it on the server. */
  lemma ExposedStays()
    ensures
      var matcher := Matcher(Some("s"), map[]);
      var held := map["s" := Held(Physical, false)];
      var call := Call(held, map[], map[], [], {});
      OnlyIgnored(held, map[], [matcher]) && Complete(call, held, false) && !OnlyIgnored(held, map[], [])
  {
    var matcher := Matcher(Some("s"), map[]);
    var held := map["s" := Held(Physical, false)];
    var call := Call(held, map[], map[], [], {});
    assert matcher in [matcher] && matcher.Matches("s", Physical);
    assert call.FailedIn(call.Names()) == {};
    assert "s" in held && !Ignored([], "s", Physical);
  }

  // ---------------------------------------------------------------- runs

  /** `matchers` are those of the last complete call. */
  datatype State = State(server: map<string, Held>, cache: map<string, Slot>, matchers: seq<Matcher>, scheduled: bool)

  /** A complete call, one that ends early, or clients that attach to slots and leave them. */
  datatype Event = Finished(call: Call) | Interrupted | Clients

  ghost predicate Step(s: State, s': State, e: Event) {
    match e
    case Finished(call) =>
      call.server == s.server && call.cache == (if s.scheduled then SlotsOf(s.server) else s.cache) &&
      s'.cache == call.desired && s'.matchers == call.matchers && Complete(call, s'.server, s'.scheduled)
    case Interrupted => s'.scheduled
    case Clients =>
      SlotsOf(s'.server) == SlotsOf(s.server) && s' == s.(server := s'.server)
  }

  /** When no reload is scheduled, the server has all that the copy claims, and beyond that only ignored slots. */
  predicate Sound(s: State) {
    s.scheduled || (Agrees(s.server, s.cache) && OnlyIgnored(s.server, s.cache, s.matchers))
  }

  /** No wanted slot collides, and matchers that change still ignore what the copy has forgotten. */
  predicate Smooth(s: State, e: Event) {
    e.Finished? ==>
      (forall n <- e.call.desired :: !Collides(e.call, n)) &&
      (e.call.matchers == s.matchers || forall n <- e.call.server :: !Exposed(e.call, n))
  }

  lemma FinishedIsSound(s: State, s': State, call: Call)
    requires Sound(s) && Step(s, s', Finished(call)) && !s'.scheduled
    ensures Sound(s') <==>
      (forall n <- call.desired :: !Collides(call, n)) && forall n <- call.server :: !Exposed(call, n)
    ensures call.matchers == s.matchers ==> forall n <- call.server :: !Exposed(call, n)
  {
    assert s.scheduled ==> forall n <- call.server :: n in call.cache;
    assert Agrees(call.server, call.cache);
    AgreementKeptExactly(call, s'.server);
    OthersIgnoredExactly(call, s'.server);
  }

  lemma ClientsKeepSound(s: State, s': State)
    requires Sound(s) && Step(s, s', Clients)
    ensures Sound(s')
  {
    assert forall n :: n in s.server <==> n in SlotsOf(s.server);
    assert forall n :: n in s'.server <==> n in SlotsOf(s'.server);
    assert forall n <- s.server :: SlotsOf(s.server)[n] == s.server[n].slot;
    assert forall n <- s'.server :: SlotsOf(s'.server)[n] == s'.server[n].slot;
  }

  ghost predicate IsRun(run: seq<State>, events: seq<Event>) {
    |run| == |events| + 1 && run[0].scheduled && forall i :: 0 <= i < |events| ==> Step(run[i], run[i + 1], events[i])
  }

  /**
    From the start on, whatever fails: when no reload is scheduled, the server has the slots of the copy, and others
    only if they are ignored.
   */
  lemma {:induction false} RunsAreSound(run: seq<State>, events: seq<Event>, i: nat)
    requires IsRun(run, events) && i < |run|
    requires forall j :: 0 <= j < |events| ==> Smooth(run[j], events[j])
    ensures Sound(run[i])
  {
    if i > 0 {
      RunsAreSound(run, events, i - 1);
      match events[i - 1]
      case Finished(call) =>
        if !run[i].scheduled {
          FinishedIsSound(run[i - 1], run[i], call);
        }
      case Interrupted =>
      case Clients => ClientsKeepSound(run[i - 1], run[i]);
    }
  }
}
