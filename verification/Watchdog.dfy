/**
  patroni/watchdog/base.py: configuring, activating and feeding the watchdog, and the fencing it gives: a stalled
  primary's host is reset before its leader key expires.  Times are whole seconds in the configuration, as in the
  device interface, and reals on the time line.
 */
module Watchdog {
  import opened Wrappers

  datatype Mode = Required | Automatic | Off

  datatype Config = Config(mode: Mode, ttl: nat, loopWait: nat, safetyMargin: int, driver: string) {

    function Timeout(): int {
      if safetyMargin == -1 then ttl / 2 else ttl - safetyMargin
    }

    function TimingSlack(): int { Timeout() - loopWait }
  }

  /** NullWatchdog, or a device with the answers it gives: `None` where it raises WatchdogError. */
  datatype Device =
    | Null
    | Device(
        opens: bool,                 // open succeeds
        running: bool,
        canBeDisabled: bool,
        hasSetTimeout: bool,
        accepts: bool,               // set_timeout succeeds
        closes: bool,                // close succeeds
        reports: Option<int>)        // get_timeout

  const NULL_TIMEOUT := 1000000000

  predicate IsRunning(d: Device) { d.Device? && d.running }

  /** impl.open() followed by _set_timeout; None for a WatchdogError. */
  function OpenAndSet(c: Config, d: Device): (r: Option<(Device, Option<int>)>) {
    match d
    case Null => Some((Null, Some(NULL_TIMEOUT)))
    case Device(opens, _, canBeDisabled, hasSetTimeout, accepts, closes, reports) =>
      if !opens || (hasSetTimeout && !accepts) || reports.None? then None
      else if reports.value < c.loopWait && canBeDisabled then
        if closes then Some((Null, None)) else None
      else Some((d.(running := true), reports))
  }

  class Watchdog {
    var config: Config
    var activeConfig: Config
    var active: bool
    var impl: Device
    var timer: Option<int>   // the timeout that the open device runs with
    var fed: real            // when it was last fed

    constructor (config: Config, impl: Device)
      requires config.mode.Off? ==> impl.Null?
      ensures this.config == config && activeConfig == config && !active && this.impl == impl && timer.None?
    {
      this.config, activeConfig, active, this.impl, timer, fed := config, config, false, impl, None, 0.0;
    }

    /** activate: False if a safe watchdog could not be configured, but is required. */
    method Activate(now: real) returns (ok: bool)
      modifies this
      ensures config == old(config) && active && activeConfig == config
      ensures fed == if IsRunning(impl) then now else old(fed)
      ensures
        var device := if config.TimingSlack() < 0 then Null else old(impl);
        var outcome := OpenAndSet(config, device);
        if outcome.None? then impl.Null? && timer.None?
        else impl == outcome.value.0 && timer == if IsRunning(impl) then outcome.value.1 else None
      ensures ok <==> !config.mode.Required? || (timer.Some? && timer.value <= config.Timeout())
      ensures
        var d := old(impl);
        var timeout := if config.safetyMargin == -1 then config.ttl / 2 else config.ttl - config.safetyMargin;
        // it runs exactly if there is slack, and the device opens, takes the timeout if it can, and has one that is
        // long enough or cannot be stopped; else the implementation is the null one
        && (timer.Some? <==>
              && timeout >= config.loopWait && d.Device? && d.opens && (d.hasSetTimeout ==> d.accepts)
              && d.reports.Some? && (d.reports.value >= config.loopWait || !d.canBeDisabled))
        && (timer.Some? ==> timer == d.reports && impl == d.(running := true))
        && (timer.None? ==> impl.Null?)
        && (ok <==> !config.mode.Required? || (timer.Some? && timer.value <= timeout))
    {
      active := true;
      activeConfig := config;
      if config.TimingSlack() < 0 {
        impl := Null;
      }
      var outcome := OpenAndSet(config, impl);
      var actual: Option<int> := None;
      if outcome.None? {
        impl := Null;
      } else {
        impl, actual := outcome.value.0, outcome.value.1;
      }
      timer := if IsRunning(impl) then actual else None;
      fed := if IsRunning(impl) then now else fed;
      if !IsRunning(impl) || actual.GetOr(NULL_TIMEOUT) > config.Timeout() {
        if config.mode.Required? {
          return false;
        }
      }
      if !IsRunning(impl) && config.mode.Required? {
        return false;
      }
      return true;
    }

    /** keepalive with an unchanged configuration; `accepted` unless the device raises WatchdogError. */
    method Keepalive(now: real, accepted: bool)
      requires config == activeConfig
      modifies this
      ensures config == old(config) && activeConfig == config && active == old(active)
      ensures impl == old(impl) && timer == old(timer)
      ensures fed == if active && IsRunning(impl) && accepted then now else old(fed)
    {
      if active && IsRunning(impl) && accepted {
        fed := now;
      }
    }

    /**
      A primary that took the key at `acquired`: it activates the watchdog, and feeds it after renewals. If activate
      answers True in mode 'required', the host is reset no later than the key expires, whenever it stalls.
     */
    method Lead(acquired: real, activated: real, beats: seq<Beat>) returns (ok: bool)
      modifies this
      ensures config == old(config)
      ensures ok && config.mode.Required? ==> Armed(config, timer) && fed == LastPing(activated, beats)
      ensures ok && config.mode.Required? && Alive(acquired, activated, beats, timer.value) &&
              (if config.safetyMargin == -1
               then 0 < timer.value && activated <= acquired + (config.ttl - timer.value) as real
               else Prompt(acquired, activated, beats, config.safetyMargin)) ==>
        fed + timer.value as real <= KeyExpiry(acquired, beats, config)
    {
      ok := Activate(activated);
      ghost var device, timeout := impl, timer;
      for i := 0 to |beats|
        invariant config == old(config) && activeConfig == config && active && impl == device && timer == timeout
        invariant IsRunning(impl) ==> fed == LastPing(activated, beats[..i])
      {
        assert beats[..i + 1][..i] == beats[..i];
        Keepalive(beats[i].ping.GetOr(0.0), beats[i].ping.Some?);
      }
      assert beats[..|beats|] == beats;
      if ok && config.mode.Required? && Alive(acquired, activated, beats, timer.value) {
        if config.safetyMargin == -1 {
          if 0 < timer.value && activated <= acquired + (config.ttl - timer.value) as real {
            HalfTtlAlwaysFences(config, acquired, activated, beats, timer.value);
          }
        } else if Prompt(acquired, activated, beats, config.safetyMargin) {
          ResetBeforeExpiry(config, acquired, activated, beats, timer.value);
        }
      }
    }
  }

  /** What activate promises when it answers True in mode 'required': a device is running and its timeout is no longer
      than the configured one. */
  predicate Armed(c: Config, timer: Option<int>) {
    timer.Some? && timer.value <= c.Timeout()
  }

  // ---------------------------------------------------------------- the time line of a primary

  /** One successful update_lock: the lease is stamped, and later the watchdog is fed, unless that fails. */
  datatype Beat = Beat(stamp: real, ping: Option<real>)

  /** The last time the device was fed: at the activation or by a beat. */
  function LastPing(activated: real, beats: seq<Beat>): real {
    if beats == [] then activated
    else
      var last := beats[|beats| - 1];
      if last.ping.Some? then last.ping.value else LastPing(activated, beats[..|beats| - 1])
  }

  /** The last time the leader key was written: at its acquisition or by a beat. */
  function LastStamp(acquired: real, beats: seq<Beat>): real {
    if beats == [] then acquired else beats[|beats| - 1].stamp
  }

  /** The host has come this far: its activation and beats follow each other, and whenever it fed the device, the device
      had not yet reset the host. */
  predicate Alive(acquired: real, activated: real, beats: seq<Beat>, timer: int) {
    if beats == [] then acquired <= activated
    else
      var last := beats[|beats| - 1];
      var before := beats[..|beats| - 1];
      && Alive(acquired, activated, before, timer)
      && LastPing(activated, before) <= last.stamp
      && LastStamp(acquired, before) <= last.stamp
      && (last.ping.Some? ==>
            last.stamp <= last.ping.value <= LastPing(activated, before) + timer as real)
  }

  /** When the host is reset, if nothing feeds the device any more, and when its leader key expires. */
  function ResetTime(activated: real, beats: seq<Beat>, timer: int): real { LastPing(activated, beats) + timer as real }

  function KeyExpiry(acquired: real, beats: seq<Beat>, c: Config): real { LastStamp(acquired, beats) + c.ttl as real }

  /** The activation and every keepalive come within `margin` of the lease stamp that they follow. */
  predicate Prompt(acquired: real, activated: real, beats: seq<Beat>, margin: int) {
    && activated <= acquired + margin as real
    && forall b <- beats :: b.ping.Some? ==> b.ping.value <= b.stamp + margin as real
  }

  /** The last ping is that of the last beat that has one. */
  lemma {:induction false} LastPingIs(activated: real, beats: seq<Beat>, i: nat)
    requires i < |beats| && beats[i].ping.Some? && forall j :: i < j < |beats| ==> beats[j].ping.None?
    ensures LastPing(activated, beats) == beats[i].ping.value
  {
    if i < |beats| - 1 {
      LastPingIs(activated, beats[..|beats| - 1], i);
    }
  }

  /** Without one it is the activation. */
  lemma {:induction false} NoPing(activated: real, beats: seq<Beat>)
    requires forall j :: 0 <= j < |beats| ==> beats[j].ping.None?
    ensures LastPing(activated, beats) == activated
  {
    if beats != [] {
      NoPing(activated, beats[..|beats| - 1]);
    }
  }

  /** The i-th beat comes after what was before, and feeds the device, if at all, in time. */
  predicate Fits(acquired: real, activated: real, beats: seq<Beat>, timer: int, i: nat)
    requires i < |beats|
  {
    && LastPing(activated, beats[..i]) <= beats[i].stamp
    && (if i == 0 then acquired else beats[i - 1].stamp) <= beats[i].stamp
    && (beats[i].ping.Some? ==>
          beats[i].stamp <= beats[i].ping.value <= LastPing(activated, beats[..i]) + timer as real)
  }

  lemma FitsBefore(acquired: real, activated: real, beats: seq<Beat>, timer: int, i: nat)
    requires i < |beats| - 1
    ensures Fits(acquired, activated, beats, timer, i) == Fits(acquired, activated, beats[..|beats| - 1], timer, i)
  {
    assert beats[..|beats| - 1][..i] == beats[..i];
  }

  lemma AliveNext(acquired: real, activated: real, beats: seq<Beat>, timer: int)
    requires beats != []
    ensures Alive(acquired, activated, beats, timer) <==>
      Alive(acquired, activated, beats[..|beats| - 1], timer) &&
      Fits(acquired, activated, beats, timer, |beats| - 1)
  {
  }

  /** What a time line is, beat by beat. */
  lemma {:induction false} AliveExactly(acquired: real, activated: real, beats: seq<Beat>, timer: int)
    ensures Alive(acquired, activated, beats, timer) <==>
      acquired <= activated && forall i :: 0 <= i < |beats| ==> Fits(acquired, activated, beats, timer, i)
  {
    if beats != [] {
      var before := beats[..|beats| - 1];
      AliveExactly(acquired, activated, before, timer);
      AliveNext(acquired, activated, beats, timer);
      forall i | 0 <= i < |before|
        ensures Fits(acquired, activated, beats, timer, i) == Fits(acquired, activated, before, timer, i)
      {
        FitsBefore(acquired, activated, beats, timer, i);
      }
    }
  }

  /** The device is never fed long after the last lease stamp. */
  lemma {:induction false} PingFollowsStamp(
      acquired: real, activated: real, beats: seq<Beat>, margin: int, timer: int)
    requires Alive(acquired, activated, beats, timer) && Prompt(acquired, activated, beats, margin)
    ensures LastPing(activated, beats) <= LastStamp(acquired, beats) + margin as real
  {
    if beats != [] {
      var before := beats[..|beats| - 1];
      assert beats[|beats| - 1] in beats && forall b <- before :: b in beats;
      PingFollowsStamp(acquired, activated, before, margin, timer);
    }
  }

  /** Fencing: with an armed device and prompt keepalives the host of a stalled primary is reset no later than its
      leader key expires. */
  lemma {:induction false} ResetBeforeExpiry(c: Config, acquired: real, activated: real, beats: seq<Beat>, timer: int)
    requires c.safetyMargin != -1 && Armed(c, Some(timer))
    requires Alive(acquired, activated, beats, timer) && Prompt(acquired, activated, beats, c.safetyMargin)
    ensures ResetTime(activated, beats, timer) <= KeyExpiry(acquired, beats, c)
  {
    PingFollowsStamp(acquired, activated, beats, c.safetyMargin, timer);
  }

  /** With safety_margin -1 the host is reset in time however long a keepalive is delayed, as long as the activation
      comes within half the ttl of the acquisition: a keepalive that came later would have found the host reset. */
  lemma HalfTtlAlwaysFences(c: Config, acquired: real, activated: real, beats: seq<Beat>, timer: int)
    requires c.safetyMargin == -1 && Armed(c, Some(timer)) && 0 < timer
    requires Alive(acquired, activated, beats, timer)
    requires activated <= acquired + (c.ttl - timer) as real
    ensures ResetTime(activated, beats, timer) <= KeyExpiry(acquired, beats, c)
  {}

  /** Whenever the primary stalls, after whichever beat, its host is reset no later than its key expires. */
  predicate AlwaysFenced(c: Config, acquired: real, activated: real, beats: seq<Beat>, timer: int) {
    ResetTime(activated, beats, timer) <= KeyExpiry(acquired, beats, c) &&
    (beats != [] ==> AlwaysFenced(c, acquired, activated, beats[..|beats| - 1], timer))
  }

  /** With another margin and the full timeout: exactly if the activation and all keepalives come within the margin. */
  lemma {:induction false} DelayAllowedExactly(
      c: Config, acquired: real, activated: real, beats: seq<Beat>, timer: int)
    requires c.safetyMargin != -1 && timer == c.Timeout() && Alive(acquired, activated, beats, timer)
    ensures AlwaysFenced(c, acquired, activated, beats, timer) <==>
            Prompt(acquired, activated, beats, c.safetyMargin)
  {
    if beats != [] {
      var before, last := beats[..|beats| - 1], beats[|beats| - 1];
      assert last in beats && forall b <- beats :: b in before || b == last;
      assert forall b <- before :: b in beats;
      DelayAllowedExactly(c, acquired, activated, before, timer);
      if Prompt(acquired, activated, beats, c.safetyMargin) {
        ResetBeforeExpiry(c, acquired, activated, beats, timer);
      }
    }
  }
}
