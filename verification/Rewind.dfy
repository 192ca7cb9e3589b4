/**
  The decision whether a node has diverged from the master, in patroni/postgresql/rewind.py. A server's log is a
  sequence of stretches, one a timeline; two servers agree up to a position when they tag every byte before it with
  the same timeline.
 */
module Rewind {
  import opened Wrappers

  /** A line of a timeline's history: the log left this timeline at this position. */
  datatype Line = Line(timeline: int, switchpoint: int)

  datatype Local = Local(inRecovery: bool, timeline: int, lsn: int)

  /** All that _check_timeline_and_lsn learns from outside; None where it cannot find out. */
  datatype Probe = Probe(local: Option<Local>, leaderUsable: bool, masterTimeline: Option<int>,
                         history: Option<seq<Line>>, checkpointEnd: int)

  datatype Status = Initial | Checkpoint | Check | Need | NotNeed | Success | Failed

  datatype Verdict = Unknown | Raised | Decided(need: bool)

  // ---------------------------------------------------------------- the decision

  /** The search of the history, which gives up at a later timeline: the point where the log left `timeline`. */
  function Scan(history: seq<Line>, timeline: int): Option<int> {
    if history == [] then None
    else if history[0].timeline == timeline then Some(history[0].switchpoint)
    else if history[0].timeline > timeline then None
    else Scan(history[1..], timeline)
  }

  /** For a timeline that the master's log left at switchpoint. */
  predicate NeedAt(local: Local, switchpoint: int, checkpointEnd: int) {
    if local.inRecovery then local.lsn > switchpoint
    else local.lsn >= switchpoint || switchpoint != checkpointEnd
  }

  predicate NeedByHistory(local: Local, history: seq<Line>, checkpointEnd: int) {
    var left := Scan(history, local.timeline);
    left.Some? && NeedAt(local, left.value, checkpointEnd)
  }

  /** Unknown leaves the state alone; so does an empty history, which raises an exception when it is logged. */
  function Judge(p: Probe): Verdict {
    if p.local.None? || !p.leaderUsable || p.masterTimeline.None? then Unknown
    else
      var local, master := p.local.value, p.masterTimeline.value;
      if local.timeline > master then Decided(true)
      else if local.timeline == master || master <= 1 then Decided(false)
      else if p.history.None? then Unknown
      else if p.history.value == [] then Raised
      else Decided(NeedByHistory(local, p.history.value, p.checkpointEnd))
  }

  datatype Leader = Leader(name: string, hasUrl: bool)

  class RewindState {
    var state: Status
    const name: string

    constructor (name: string)
      ensures state == Initial && this.name == name
    {
      state, this.name := Initial, name;
    }

    method TriggerCheckDivergedLsn(allowed: bool)
      modifies this
      ensures state == if allowed && old(state) != Need then Check else old(state)
    {
      if allowed && state != Need {
        state := Check;
      }
    }

    /** The loop over the history. */
    method SearchHistory(local: Local, history: seq<Line>, checkpointEnd: int) returns (need: bool)
      ensures need == NeedByHistory(local, history, checkpointEnd)
    {
      var i := 0;
      need := false;
      assert history[0..] == history;
      while i < |history|
        invariant 0 <= i <= |history| && !need
        invariant Scan(history, local.timeline) == Scan(history[i..], local.timeline)
      {
        var line := history[i];
        assert history[i..][1..] == history[i + 1..];
        if line.timeline == local.timeline {
          if local.inRecovery {
            need := local.lsn > line.switchpoint;
          } else if local.lsn >= line.switchpoint {
            need := true;
          } else {
            need := line.switchpoint != checkpointEnd;
          }
          return;
        } else if line.timeline > local.timeline {
          return;
        }
        i := i + 1;
      }
    }

    /** Every way out without a decision leaves the state as it was, so that the check is made again. */
    method CheckTimelineAndLsn(p: Probe) returns (raised: bool)
      modifies this
      ensures raised <==> Judge(p) == Raised
      ensures state ==
        match Judge(p)
        case Decided(need) => if need then Need else NotNeed
        case _ => old(state)
    {
      if p.local.None? || !p.leaderUsable || p.masterTimeline.None? {
        return false;
      }
      var local, master := p.local.value, p.masterTimeline.value;
      var need := false;
      if local.timeline > master {
        need := true;
      } else if local.timeline < master && master > 1 {
        if p.history.None? {
          return false;
        }
        if p.history.value == [] {
          return true;
        }
        need := SearchHistory(local, p.history.value, p.checkpointEnd);
      }
      state := if need then Need else NotNeed;
      return false;
    }

    method NeededAndPossible(leader: Option<Leader>, p: Probe) returns (r: bool, raised: bool)
      modifies this
      ensures raised ==> state == old(state) == Check
      ensures !raised ==> (r <==> leader.Some? && leader.value.hasUrl && state == Need)
      ensures state != old(state) ==>
        old(state) == Check && Judge(p) == Decided(state == Need) && state in {Need, NotNeed}
      ensures old(state) == Check && leader.Some? && leader.value.hasUrl && leader.value.name != name ==>
        (Judge(p).Decided? ==> r == Judge(p).need && state == if r then Need else NotNeed)
      ensures !(old(state) == Check && leader.Some? && leader.value.hasUrl && leader.value.name != name) ==>
        !raised && state == old(state)
    {
      raised := false;
      if leader.Some? && leader.value.name != name && leader.value.hasUrl && state == Check {
        raised := CheckTimelineAndLsn(p);
        if raised {
          return false, true;
        }
      }
      r := leader.Some? && leader.value.hasUrl && state == Need;
    }
  }

  /** The k-th line is about the timeline, and all before it are about earlier ones. */
  predicate FirstAt(history: seq<Line>, timeline: int, k: int) {
    0 <= k < |history| && history[k].timeline == timeline && forall j :: 0 <= j < k ==> history[j].timeline < timeline
  }

  /** On any history, in order or not, the search finds a line of the timeline that only earlier ones precede. */
  lemma {:induction false} ScanExactly(history: seq<Line>, timeline: int)
    ensures Scan(history, timeline).Some? <==> exists k :: FirstAt(history, timeline, k)
    ensures forall k :: FirstAt(history, timeline, k) ==> Scan(history, timeline) == Some(history[k].switchpoint)
  {
    if history != [] {
      var rest := history[1..];
      ScanExactly(rest, timeline);
      forall k
        ensures FirstAt(history, timeline, k) <==>
          || (k == 0 && history[0].timeline == timeline)
          || (history[0].timeline < timeline && FirstAt(rest, timeline, k - 1))
      {
        assert FirstAt(rest, timeline, k - 1) ==> forall j :: 0 < j < k ==> history[j] == rest[j - 1];
        assert FirstAt(history, timeline, k) && k > 0 ==> forall j :: 0 <= j < k - 1 ==> rest[j] == history[j + 1];
      }
      if Scan(history, timeline).Some? && history[0].timeline != timeline {
        var k :| FirstAt(rest, timeline, k);
        assert FirstAt(history, timeline, k + 1);
      } else if history[0].timeline == timeline {
        assert FirstAt(history, timeline, 0);
      }
    }
  }

  /** There are a local timeline and position, a usable leader and its timeline. */
  predicate Informed(p: Probe) { p.local.Some? && p.leaderUsable && p.masterTimeline.Some? }

  /** The history is asked for: the node is behind a master that has one. */
  predicate AsksHistory(p: Probe)
    requires Informed(p)
  {
    p.local.value.timeline < p.masterTimeline.value && p.masterTimeline.value > 1
  }

  /** When there is no judgement, when an exception, and when it is to rewind. */
  lemma JudgeExactly(p: Probe)
    ensures Judge(p) == Unknown <==> !Informed(p) || (AsksHistory(p) && p.history.None?)
    ensures Judge(p) == Raised <==> Informed(p) && AsksHistory(p) && p.history == Some([])
    ensures Judge(p) == Decided(true) <==>
      && Informed(p)
      && (|| p.local.value.timeline > p.masterTimeline.value
          || (AsksHistory(p) && p.history.Some? &&
              exists k :: FirstAt(p.history.value, p.local.value.timeline, k) &&
                var left := p.history.value[k].switchpoint;
                if p.local.value.inRecovery then left < p.local.value.lsn
                else left <= p.local.value.lsn || left != p.checkpointEnd))
  {
    if Informed(p) && p.history.Some? {
      ScanExactly(p.history.value, p.local.value.timeline);
    }
  }

  // ---------------------------------------------------------------- the logs

  /** The timeline of the byte at position p. */
  function TagAt(history: seq<Line>, timeline: int, p: int): int {
    if history == [] then timeline
    else if p < history[0].switchpoint then history[0].timeline
    else TagAt(history[1..], timeline, p)
  }

  /** Timelines are numbered upwards, and the log never switches behind where it has been. */
  predicate WellFormed(history: seq<Line>, timeline: int) {
    (forall i, j :: 0 <= i < j < |history| ==>
       history[i].timeline < history[j].timeline && history[i].switchpoint <= history[j].switchpoint) &&
    (forall i :: 0 <= i < |history| ==> 1 <= history[i].timeline < timeline && 0 <= history[i].switchpoint)
  }

  /** A server's log up to a position. */
  datatype Log = Log(history: seq<Line>, timeline: int, end: int) {
    predicate Valid() { timeline >= 1 && WellFormed(history, timeline) }

    /** Something is written on the last timeline. */
    predicate HasOwn() { end > 0 && (history != [] ==> history[|history| - 1].switchpoint < end) }
  }

  ghost predicate Prefix(log: Log, master: Log) {
    forall p :: 0 <= p < log.end ==> TagAt(log.history, log.timeline, p) == TagAt(master.history, master.timeline, p)
  }

  predicate ListedAt(timeline: int, history: seq<Line>, k: int) {
    0 <= k < |history| && history[k].timeline == timeline
  }

  ghost predicate Listed(timeline: int, history: seq<Line>) {
    exists k :: ListedAt(timeline, history, k)
  }

  /** A timeline has one history: what the master's says of an earlier timeline is that one's history. */
  ghost predicate Consistent(log: Log, master: Log) {
    (log.timeline == master.timeline ==> log.history == master.history) &&
    forall k :: ListedAt(log.timeline, master.history, k) ==> log.history == master.history[..k]
  }

  // ---------------------------------------------------------------- what the search finds

  /** On a history in order, giving up early misses nothing. */
  lemma {:induction false} ScanFindsListed(history: seq<Line>, timeline: int, last: int)
    requires WellFormed(history, last)
    ensures Scan(history, timeline).Some? <==> Listed(timeline, history)
    ensures forall k :: ListedAt(timeline, history, k) ==> Scan(history, timeline) == Some(history[k].switchpoint)
  {
    if history != [] {
      var rest := history[1..];
      assert forall i :: 0 <= i < |rest| ==> rest[i] == history[i + 1];
      assert WellFormed(rest, last);
      ScanFindsListed(rest, timeline, last);
      if history[0].timeline == timeline {
        assert ListedAt(timeline, history, 0);
      }
      forall k | ListedAt(timeline, history, k)
        ensures k == 0 || ListedAt(timeline, rest, k - 1)
      {
      }
      if Listed(timeline, rest) {
        var k :| ListedAt(timeline, rest, k);
        assert ListedAt(timeline, history, k + 1);
      }
    }
  }

  lemma {:induction false} TagBefore(history: seq<Line>, timeline: int, k: nat, p: int)
    requires k < |history| && p < history[k].switchpoint
    ensures TagAt(history, timeline, p) == TagAt(history[..k], history[k].timeline, p)
  {
    if k > 0 {
      TagBefore(history[1..], timeline, k - 1, p);
      assert history[..k][1..] == history[1..][..k - 1];
    }
  }

  lemma {:induction false} TagAmong(history: seq<Line>, timeline: int, p: int)
    ensures TagAt(history, timeline, p) == timeline || Listed(TagAt(history, timeline, p), history)
  {
    if history != [] {
      var tag := TagAt(history, timeline, p);
      if p < history[0].switchpoint {
        assert ListedAt(tag, history, 0);
      } else {
        TagAmong(history[1..], timeline, p);
        if tag != timeline {
          var k :| ListedAt(tag, history[1..], k);
          assert ListedAt(tag, history, k + 1);
        }
      }
    }
  }

  lemma {:induction false} TagOwn(history: seq<Line>, timeline: int, p: int)
    requires forall i :: 0 <= i < |history| ==> history[i].switchpoint <= p
    ensures TagAt(history, timeline, p) == timeline
  {
    if history != [] {
      TagOwn(history[1..], timeline, p);
    }
  }

  /** Behind the point where the log left a timeline there is none of it. */
  lemma {:induction false} TagAfter(history: seq<Line>, timeline: int, k: nat, p: int)
    requires WellFormed(history, timeline) && k < |history| && history[k].switchpoint <= p
    ensures TagAt(history, timeline, p) != history[k].timeline
  {
    assert forall i :: 0 <= i < |history[1..]| ==> history[1..][i] == history[i + 1];
    if k > 0 {
      assert history[0].switchpoint <= p;
      TagAfter(history[1..], timeline, k - 1, p);
    } else {
      TagAmong(history[1..], timeline, p);
    }
  }

  /** A log whose timeline the master has left is a prefix of the master's exactly up to where it left. */
  lemma PrefixUpToSwitch(log: Log, master: Log, k: nat)
    requires log.Valid() && master.Valid() && Consistent(log, master) && ListedAt(log.timeline, master.history, k)
    ensures Prefix(log, master) <==> log.end <= master.history[k].switchpoint
  {
    var left := master.history[k].switchpoint;
    forall p | 0 <= p < log.end && p < left
      ensures TagAt(log.history, log.timeline, p) == TagAt(master.history, master.timeline, p)
    {
      TagBefore(master.history, master.timeline, k, p);
    }
    if left < log.end {
      TagOwn(log.history, log.timeline, left);
      TagAfter(master.history, master.timeline, k, left);
      assert TagAt(log.history, log.timeline, left) != TagAt(master.history, master.timeline, left);
    }
  }

  /** A log with bytes on a timeline that the master never had is no prefix. */
  lemma ForeignTimelineDiverges(log: Log, master: Log)
    requires log.Valid() && log.HasOwn() && log.timeline != master.timeline && !Listed(log.timeline, master.history)
    ensures !Prefix(log, master)
  {
    var p := log.end - 1;
    TagOwn(log.history, log.timeline, p);
    TagAmong(master.history, master.timeline, p);
    assert TagAt(log.history, log.timeline, p) != TagAt(master.history, master.timeline, p);
  }

  // ---------------------------------------------------------------- the decision is right

  /** What the probe of a node with this log and of this master finds. */
  predicate Truthful(p: Probe, log: Log, master: Log) {
    p.leaderUsable && p.masterTimeline == Some(master.timeline) && p.history == Some(master.history) &&
    p.local.Some? && p.local.value.timeline == log.timeline
  }

  ghost predicate Right(p: Probe, log: Log, master: Log) { Judge(p) == Decided(!Prefix(log, master)) }

  // ---------------------------------------------------------------- logs with nothing on their last timeline

  /** The log without the timelines at its end on which nothing is written: the same bytes under the same tags. */
  function Stem(log: Log): (stem: Log)
    requires log.Valid()
    ensures stem.Valid() && stem.end == log.end && (stem.end <= 0 || stem.HasOwn())
    decreases |log.history|
  {
    if log.end <= 0 || log.HasOwn() then log
    else
      var n := |log.history| - 1;
      Stem(Log(log.history[..n], log.history[n].timeline, log.end))
  }

  lemma {:induction false} StemHasSameTags(log: Log, p: int)
    requires log.Valid() && p < log.end
    ensures TagAt(log.history, log.timeline, p) == TagAt(Stem(log).history, Stem(log).timeline, p)
    decreases |log.history|
  {
    if log.end > 0 && !log.HasOwn() {
      var n := |log.history| - 1;
      TagBefore(log.history, log.timeline, n, p);
      StemHasSameTags(Log(log.history[..n], log.history[n].timeline, log.end), p);
    }
  }

  /** The master's log has all of a log that ends on a timeline on which something is written. */
  ghost predicate Covers(master: Log, stem: Log) {
    stem.end <= 0 || stem.timeline == master.timeline ||
    exists k :: ListedAt(stem.timeline, master.history, k) && stem.end <= master.history[k].switchpoint
  }

  lemma StemHasSamePrefix(log: Log, master: Log)
    requires log.Valid()
    ensures Prefix(log, master) <==> Prefix(Stem(log), master)
  {
    forall p | p < log.end
      ensures TagAt(log.history, log.timeline, p) == TagAt(Stem(log).history, Stem(log).timeline, p)
    {
      StemHasSameTags(log, p);
    }
  }

  /** With something written on its last timeline, or nothing at all. */
  lemma StemPrefixExactly(stem: Log, master: Log)
    requires stem.Valid() && master.Valid() && Consistent(stem, master) && (stem.end <= 0 || stem.HasOwn())
    ensures Prefix(stem, master) <==> Covers(master, stem)
  {
    if stem.end > 0 && stem.timeline != master.timeline {
      if Listed(stem.timeline, master.history) {
        var k :| ListedAt(stem.timeline, master.history, k);
        PrefixUpToSwitch(stem, master, k);
        forall l | ListedAt(stem.timeline, master.history, l)
          ensures l == k
        {
        }
      } else {
        ForeignTimelineDiverges(stem, master);
      }
    }
  }

  /** When a log is a prefix of the master's, read off the two histories. */
  lemma PrefixExactly(log: Log, master: Log)
    requires log.Valid() && master.Valid() && Consistent(Stem(log), master)
    ensures Prefix(log, master) <==> Covers(master, Stem(log))
  {
    StemHasSamePrefix(log, master);
    StemPrefixExactly(Stem(log), master);
  }

  /** The master has been on the node's timeline. */
  ghost predicate Known(log: Log, master: Log) {
    log.timeline == master.timeline || Listed(log.timeline, master.history)
  }

  /**
    A replica, whatever it has replayed of its last timeline, is told to rewind if and only if it diverged, exactly if
    the master has been on its timeline, or that timeline is later and the master lacks part of the log, or earlier and
    the master has all of it.
   */
  lemma ReplicaJudgedExactly(p: Probe, log: Log, master: Log)
    requires Truthful(p, log, master) && p.local.value.inRecovery && p.local.value.lsn == log.end
    requires log.Valid() && master.Valid() && Consistent(log, master) && Consistent(Stem(log), master)
    requires master.timeline > 1 ==> master.history != []
    ensures Right(p, log, master) <==>
      Known(log, master) || (log.timeline < master.timeline <==> Covers(master, Stem(log)))
  {
    if log.timeline == master.timeline {
      assert Prefix(log, master);
    } else if log.timeline < master.timeline {
      ScanFindsListed(master.history, log.timeline, master.timeline);
      if Listed(log.timeline, master.history) {
        var k :| ListedAt(log.timeline, master.history, k);
        PrefixUpToSwitch(log, master, k);
      } else {
        PrefixExactly(log, master);
      }
    } else {
      forall k | ListedAt(log.timeline, master.history, k)
        ensures false
      {
      }
      PrefixExactly(log, master);
    }
  }

  /** With something written on its last timeline: exactly if the master has been on it, or it is later. */
  lemma ReplicaWithOwnJudgedExactly(p: Probe, log: Log, master: Log)
    requires Truthful(p, log, master) && p.local.value.inRecovery && p.local.value.lsn == log.end
    requires log.Valid() && log.HasOwn() && master.Valid() && Consistent(log, master)
    requires master.timeline > 1 ==> master.history != []
    ensures Right(p, log, master) <==> Known(log, master) || log.timeline > master.timeline
  {
    ReplicaJudgedExactly(p, log, master);
  }

  /** A timeline that the master's history does not know, and a replica that keeps its diverged log. */
  lemma UnknownTimelineMissed()
    ensures
      var log, master := Log([Line(1, 100)], 2, 150), Log([Line(1, 100)], 3, 200);
      var p := Probe(Some(Local(true, 2, 150)), true, Some(3), Some([Line(1, 100)]), 0);
      log.Valid() && master.Valid() && Consistent(log, master) && Truthful(p, log, master) &&
      Judge(p) == Decided(false) && !Prefix(log, master)
  {
    var log, master := Log([Line(1, 100)], 2, 150), Log([Line(1, 100)], 3, 200);
    ForeignTimelineDiverges(log, master);
    ScanFindsListed(master.history, 2, 3);
  }

  /** The master's history leaves the log's timeline at the end of the log, or before. */
  ghost predicate ReachesSwitch(log: Log, master: Log) {
    forall k :: ListedAt(log.timeline, master.history, k) ==> master.history[k].switchpoint <= log.end
  }

  /** A former primary, whose log ends with the checkpoint record that begins at lsn, on a listed timeline. */
  lemma ListedFormerPrimary(p: Probe, log: Log, master: Log, k: nat)
    requires Truthful(p, log, master) && !p.local.value.inRecovery
    requires p.local.value.lsn < log.end == p.checkpointEnd
    requires log.Valid() && master.Valid() && Consistent(log, master) && ListedAt(log.timeline, master.history, k)
    ensures Judge(p) == Decided(log.end != master.history[k].switchpoint)
    ensures Right(p, log, master) <==> log.end >= master.history[k].switchpoint
  {
    ScanFindsListed(master.history, log.timeline, master.timeline);
    PrefixUpToSwitch(log, master, k);
  }

  /**
    A former primary on any timeline: on a listed one the judgement is right exactly if its log reaches the point where
    the master's left it, and one that falls short is rewound for nothing; on others as for a replica.
   */
  lemma FormerPrimaryJudgedExactly(p: Probe, log: Log, master: Log)
    requires Truthful(p, log, master) && !p.local.value.inRecovery
    requires p.local.value.lsn < log.end == p.checkpointEnd
    requires log.Valid() && master.Valid() && Consistent(log, master) && Consistent(Stem(log), master)
    requires master.timeline > 1 ==> master.history != []
    ensures Right(p, log, master) <==>
      if Known(log, master) then ReachesSwitch(log, master)
      else (log.timeline < master.timeline <==> Covers(master, Stem(log)))
  {
    forall k | ListedAt(log.timeline, master.history, k)
      ensures log.timeline < master.timeline
    {
    }
    if log.timeline < master.timeline {
      ScanFindsListed(master.history, log.timeline, master.timeline);
      if Listed(log.timeline, master.history) {
        var k :| ListedAt(log.timeline, master.history, k);
        ListedFormerPrimary(p, log, master, k);
        forall l | ListedAt(log.timeline, master.history, l)
          ensures l == k
        {
        }
      } else {
        PrefixExactly(log, master);
      }
    } else if log.timeline > master.timeline {
      PrefixExactly(log, master);
    }
  }

  /** A former primary that has all that the master took over but the last bytes, and is rewound for nothing. */
  lemma ShortLogRewound()
    ensures
      var log, master := Log([], 1, 80), Log([Line(1, 100)], 2, 200);
      var p := Probe(Some(Local(false, 1, 70)), true, Some(2), Some([Line(1, 100)]), 80);
      log.Valid() && master.Valid() && Consistent(log, master) && Truthful(p, log, master) &&
      Judge(p) == Decided(true) && Prefix(log, master)
  {
    var log, master := Log([], 1, 80), Log([Line(1, 100)], 2, 200);
    var p := Probe(Some(Local(false, 1, 70)), true, Some(2), Some([Line(1, 100)]), 80);
    assert ListedAt(1, master.history, 0);
    ListedFormerPrimary(p, log, master, 0);
    PrefixUpToSwitch(log, master, 0);
  }

  /** When the checkpoint record cannot be read, a former primary is rewound. */
  lemma UnreadableCheckpointRewinds(p: Probe, log: Log, master: Log, k: nat)
    requires Truthful(p, log, master) && !p.local.value.inRecovery && p.checkpointEnd == 0
    requires log.Valid() && master.Valid() && ListedAt(log.timeline, master.history, k)
    requires master.history[k].switchpoint > 0
    ensures Judge(p) == Decided(true)
  {
    ScanFindsListed(master.history, log.timeline, master.timeline);
  }
}
