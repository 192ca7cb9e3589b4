/**
  _calculate_timeouts in patroni/dcs/etcd.py: how a request's time is shared among the etcd nodes. Floating point is
  modelled by real numbers.
 */
module Timeouts {
  import opened Wrappers

  /** `timeout or self.read_timeout` */
  function Budget(timeout: Option<real>, readTimeout: real): real {
    if timeout.None? || timeout.value == 0.0 then readTimeout else timeout.value
  }

  /** At most so many tries of one node; none is tried twice when nodes had to be left out. */
  function TriesCap(nodes: int, used: int): int {
    if used < nodes then 1 else if nodes >= 3 then 1 else 4 - nodes
  }

  /**
    A plan: so many nodes, each tried retries + 1 times for perTry seconds. It spends the time exactly, gives every
    try a second, and neither one more node nor, unless the cap forbids it, one more try would leave a second.
   */
  predicate BestPlan(nodes: int, time: real, used: int, perTry: real, retries: int) {
    1 <= used <= nodes && 0 <= retries < TriesCap(nodes, used) &&
    used as real * (retries + 1) as real * perTry == time && perTry >= 1.0 &&
    (used < nodes ==> (used + 1) as real > time) &&
    (retries + 1 < TriesCap(nodes, used) ==> used as real * (retries + 2) as real > time)
  }

  lemma ShareFits(time: real, n: int)
    requires n > 0
    ensures time / n as real >= 1.0 <==> n as real <= time
  {
    var share := time / n as real;
    assert share * n as real == time;
    if share >= 1.0 {
      assert (share - 1.0) * n as real >= 0.0;
    } else {
      assert (1.0 - share) * n as real > 0.0;
    }
  }

  /** share seconds for each node suffice for so many tries of each. */
  lemma TriesFit(time: real, used: int, tries: int)
    requires used > 0
    ensures tries as real <= time / used as real <==> used as real * tries as real <= time
  {
    var share := time / used as real;
    assert used as real * share == time;
    assert used as real * tries as real - time == used as real * (tries as real - share);
    if tries as real > share {
      assert used as real * (tries as real - share) > 0.0;
    } else {
      assert used as real * (share - tries as real) >= 0.0;
    }
  }

  lemma SpentExactly(time: real, used: int, tries: int)
    requires used > 0 && tries > 0
    ensures used as real * tries as real * (time / used as real / tries as real) == time
  {
    var share := time / used as real;
    var perTry := share / tries as real;
    assert tries as real * perTry == share && used as real * share == time;
    assert used as real * tries as real * perTry == used as real * (tries as real * perTry);
  }

  /** The inner loop. */
  method MostTries(share: real, cap: int) returns (tries: int)
    requires share >= 1.0 && cap >= 1
    ensures 1 <= tries <= cap && tries as real <= share && (tries < cap ==> (tries + 1) as real > share)
  {
    tries := 1;
    ShareFits(share, tries + 1);
    while tries < cap && share / (tries + 1) as real >= 1.0
      invariant 1 <= tries <= cap && tries as real <= share
      invariant share / (tries + 1) as real >= 1.0 <==> (tries + 1) as real <= share
      decreases cap - tries
    {
      tries := tries + 1;
      ShareFits(share, tries + 1);
    }
  }

  lemma PlanFits(nodes: int, time: real, used: int, tries: int)
    requires 1 <= used <= nodes && (used < nodes ==> (used + 1) as real > time)
    requires 1 <= tries <= TriesCap(nodes, used) && tries as real <= time / used as real
    requires tries < TriesCap(nodes, used) ==> (tries + 1) as real > time / used as real
    ensures BestPlan(nodes, time, used, time / used as real / tries as real, tries - 1)
  {
    SpentExactly(time, used, tries);
    ShareFits(time / used as real, tries);
    TriesFit(time, used, tries + 1);
  }

  method CalculateTimeouts(nodes: int, timeout: Option<real>, readTimeout: real)
    returns (used: int, perTry: real, retries: int)
    ensures nodes > 0 && Budget(timeout, readTimeout) >= 1.0 ==>
      BestPlan(nodes, Budget(timeout, readTimeout), used, perTry, retries)
    ensures nodes > 0 && Budget(timeout, readTimeout) < 1.0 ==>
      (used, perTry, retries) == (0, Budget(timeout, readTimeout), 0)
    ensures nodes <= 0 ==> (used, perTry, retries) == (nodes, Budget(timeout, readTimeout), 0)
  {
    var time := Budget(timeout, readTimeout);
    perTry := time;
    used := nodes;
    var maxTries := 4 - if nodes < 3 then nodes else 3;
    while used > 0
      invariant used <= nodes && (nodes > 0 ==> used >= 0) && (nodes <= 0 ==> used == nodes)
      invariant used > 0 ==> maxTries == TriesCap(nodes, used)
      invariant used < nodes ==> (used + 1) as real > time
      invariant used == nodes || used == 0 ==> perTry == time
    {
      perTry := time / used as real;
      ShareFits(time, used);
      if perTry >= 1.0 {
        var tries := MostTries(perTry, maxTries);
        PlanFits(nodes, time, used, tries);
        return used, perTry / tries as real, tries - 1;
      }
      used := used - 1;
      maxTries := 1;
    }
    retries := 0;
  }

  lemma SameFactor(all: real, x: real, y: real)
    requires all > 0.0 && all * x == all * y
    ensures x == y
  {
    assert all * (x - y) == 0.0;
  }

  lemma RetriesAreMost(nodes: int, time: real, used: int, perTry: real, retries: int, perTry': real, retries': int)
    requires BestPlan(nodes, time, used, perTry, retries) && BestPlan(nodes, time, used, perTry', retries')
    ensures retries' <= retries
  {
    PlanSpends(nodes, time, used, perTry', retries');
    if retries < retries' {
      MoreTries(used, retries + 2, retries' + 1);
      assert false;
    }
  }

  /** There is one such plan for each number of nodes and each time. */
  lemma BestPlanIsOne(nodes: int, time: real, used: int, perTry: real, retries: int,
                      used': int, perTry': real, retries': int)
    requires BestPlan(nodes, time, used, perTry, retries) && BestPlan(nodes, time, used', perTry', retries')
    ensures used == used' && perTry == perTry' && retries == retries'
  {
    PlanSpends(nodes, time, used, perTry, retries);
    PlanSpends(nodes, time, used', perTry', retries');
    RetriesAreMost(nodes, time, used, perTry, retries, perTry', retries');
    RetriesAreMost(nodes, time, used, perTry', retries', perTry, retries);
    MoreTries(used, 1, retries + 1);
    SameFactor(used as real * (retries + 1) as real, perTry, perTry');
  }

  lemma MoreTries(used: int, tries: int, more: int)
    requires used > 0 && tries <= more
    ensures used as real * tries as real <= used as real * more as real
  {
    assert used as real * (more - tries) as real >= 0.0;
  }

  lemma SecondsEach(tries: real, perTry: real)
    requires tries >= 0.0 && perTry >= 1.0
    ensures tries <= tries * perTry
  {
    assert tries * (perTry - 1.0) >= 0.0;
  }

  /** All the tries have room in the time, a second each; so has each node. */
  lemma PlanSpends(nodes: int, time: real, used: int, perTry: real, retries: int)
    requires BestPlan(nodes, time, used, perTry, retries)
    ensures used as real * (retries + 1) as real <= time && used as real <= time
    ensures used == if nodes as real <= time then nodes else time.Floor
  {
    var all := used as real * (retries + 1) as real;
    MoreTries(used, 1, retries + 1);
    SecondsEach(all, perTry);
    assert all <= all * perTry == time;
    assert used as real * 1 as real == used as real <= all;
  }

  /** The cap in figures: one node may be tried three times, each of two twice, more only once, and so may those that
      are left when some had to be left out. */
  lemma Caps(nodes: int, used: int)
    requires 1 <= used <= nodes
    ensures TriesCap(nodes, used) == if used < nodes || nodes > 2 then 1 else if nodes == 2 then 2 else 3
  {
  }

  /** No timeout, or one of zero, means the read timeout. */
  lemma BudgetIs(timeout: Option<real>, readTimeout: real)
    ensures timeout == None || timeout == Some(0.0) ==> Budget(timeout, readTimeout) == readTimeout
    ensures timeout.Some? && timeout.value != 0.0 ==> Budget(timeout, readTimeout) == timeout.value
  {
  }
}
