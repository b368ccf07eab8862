/** A server that never comes up, with the monitor cut at its awaits: how often it is still
    relaunched, exactly, and that the retrying ends. */
module SupervisorRetries {
  import opened Options
  import opened RelaunchHistory
  import opened SupervisorPolicy
  import opened SupervisorInterleaving
  import opened SupervisorBound

  /** The run is never marked as up. */
  ghost predicate NeverUp(s: Net, acts: seq<Act>)
    decreases |acts|
  {
    !s.m.ready && (acts != [] ==> NeverUp(Step(s, acts[0]).s, acts[1..]))
  }

  /** The pass under way will count the exit even if nothing keeps the instance up any more. */
  predicate InPass(s: Net) {
    s.monitor.ReadingStatus? || s.monitor.Replaying? || (s.monitor.Probing? && s.m.shouldBeUp)
  }

  /** The launches the monitor can still make: the one it has decided, and what the failure count
      leaves, which is only the pass under way once the instance is down or the agent is shutting
      down. */
  function RetriesOwed(s: Net): nat {
    (if s.monitor.Announcing? then 1 else 0) +
    (if s.m.launchFailures >= LAUNCH_FAILURE_LIMIT - 1 then 0
     else if s.m.shouldBeUp && !s.shuttingDown then LAUNCH_FAILURE_LIMIT - 1 - s.m.launchFailures
     else if InPass(s) then 1 else 0)
  }

  lemma MonitorOwes(s: Net, a: Act)
    requires !s.m.ready && !MonitorStep(s, a).s.m.ready && ByMonitorTask(a)
    ensures |MonitorStep(s, a).launches| + RetriesOwed(MonitorStep(s, a).s) <= RetriesOwed(s)
    ensures MonitorStep(s, a).s.starts == s.starts
  {
    hide Recent;
  }

  lemma OtherOwes(s: Net, a: Act)
    requires !s.m.ready && !OtherStep(s, a).s.m.ready
    ensures OtherStep(s, a).launches == [] && RetriesOwed(OtherStep(s, a).s) <= RetriesOwed(s)
    ensures OtherStep(s, a).s.starts == s.starts
  {
  }

  lemma StepOwes(s: Net, a: Act)
    requires !s.m.ready && !Step(s, a).s.m.ready && StartsFinished(s) && !a.StartCalled?
    ensures StartsFinished(Step(s, a).s)
    ensures |Step(s, a).launches| + RetriesOwed(Step(s, a).s) <= RetriesOwed(s)
  {
    if ByStartTask(a) {
      assert Step(s, a) == Stay(s);
    } else if ByMonitorTask(a) {
      hide MonitorStep; hide OtherStep; hide StartStep; hide RetriesOwed;
      MonitorOwes(s, a);
    } else {
      hide MonitorStep; hide OtherStep; hide StartStep; hide RetriesOwed;
      OtherOwes(s, a);
    }
  }

  lemma {:induction false} NeverUpLaunches(s: Net, acts: seq<Act>)
    requires StartsFinished(s) && NoStartCalls(acts) && NeverUp(s, acts)
    ensures |Run(s, acts).launches| <= RetriesOwed(s)
    decreases |acts|
  {
    hide RetriesOwed; hide Step;
    if acts != [] {
      StepOwes(s, acts[0]);
      NeverUpLaunches(Step(s, acts[0]).s, acts[1..]);
    }
  }

  // ---- The bound is met ------------------------------------------------------------------

  lemma {:induction false} NeverUpAppend(s: Net, a: seq<Act>, b: seq<Act>)
    requires NeverUp(s, a) && NeverUp(Run(s, a).s, b)
    ensures NeverUp(s, a + b)
    decreases |a|
  {
    hide Step;
    if a == [] {
      assert a + b == b;
    } else {
      assert (a + b)[1..] == a[1..] + b && (a + b)[0] == a[0];
      NeverUpAppend(Step(s, a[0]).s, a[1..], b);
    }
  }

  /** From s some run without a start, in which the server never comes up, makes n launches. */
  ghost predicate Makes(s: Net, n: nat) {
    exists acts :: MakesBy(s, acts, n)
  }

  ghost predicate MakesBy(s: Net, acts: seq<Act>, n: nat) {
    NoStartCalls(acts) && NeverUp(s, acts) && |Run(s, acts).launches| == n
  }

  lemma MakesNothing(s: Net)
    requires !s.m.ready
    ensures Makes(s, 0)
  {
    assert MakesBy(s, [], 0);
  }

  lemma MakesAfter(s: Net, a: Act, n: nat)
    requires !s.m.ready && !a.StartCalled? && Makes(Step(s, a).s, n)
    ensures Makes(s, |Step(s, a).launches| + n)
  {
    hide Step;
    var t := Step(s, a);
    var rest :| MakesBy(t.s, rest, n);
    RunCons(s, a, rest);
    assert ([a] + rest)[1..] == rest;
    assert MakesBy(s, [a] + rest, |t.launches| + n);
  }

  lemma AnnouncingMakes(s: Net, n: nat)
    requires s.monitor.Announcing? && !s.m.ready
    requires var t := Step(Step(s, MonitorLaunch).s, MonitorSettled(Alive)).s; Makes(t, n)
    ensures Makes(s, 1 + n)
  {
    hide Makes;
    var s1 := Step(s, MonitorLaunch).s;
    MakesAfter(s1, MonitorSettled(Alive), n);
    MakesAfter(s, MonitorLaunch, n);
  }

  /** What the failure count leaves, with the instance kept up and the agent staying. */
  function CountLeft(s: Net): nat {
    if s.m.launchFailures >= LAUNCH_FAILURE_LIMIT - 1 then 0 else LAUNCH_FAILURE_LIMIT - 1 - s.m.launchFailures
  }

  predicate KeptUp(s: Net) {
    !s.m.ready && s.m.shouldBeUp && !s.shuttingDown
  }

  /** A counted failure that leaves retries is decided, launched and settled. */
  lemma ReplayingMakes(s: Net, n: nat)
    requires s.monitor.Replaying? && !s.m.ready && s.m.launchFailures < LAUNCH_FAILURE_LIMIT - 1
    requires forall t: Net ::
               t.monitor.Idle? && !t.m.ready && t.m.launchFailures == s.m.launchFailures + 1
               && t.m.shouldBeUp == s.m.shouldBeUp && t.shuttingDown == s.shuttingDown && t.starts == s.starts
               ==> Makes(t, n)
    ensures Makes(s, 1 + n)
  {
    hide Makes;
    var s1 := Step(s, Respec(OnCrash)).s;
    var s2 := Step(s1, MonitorReplayed(false)).s;
    assert s2.monitor.Announcing? && !s2.m.ready;
    var t := Step(Step(s2, MonitorLaunch).s, MonitorSettled(Alive)).s;
    assert t.monitor.Idle? && !t.m.ready && t.m.launchFailures == s.m.launchFailures + 1;
    assert t.m.shouldBeUp == s.m.shouldBeUp && t.shuttingDown == s.shuttingDown && t.starts == s.starts;
    AnnouncingMakes(s2, n);
    MakesAfter(s1, MonitorReplayed(false), 1 + n);
    MakesAfter(s, Respec(OnCrash), 1 + n);
  }

  lemma IdleMakes(s: Net)
    requires s.monitor.Idle? && KeptUp(s)
    ensures Makes(s, CountLeft(s))
    decreases CountLeft(s)
  {
    hide Makes;
    if CountLeft(s) == 0 {
      MakesNothing(s);
    } else {
      var s1 := Step(s, UpdateEnded(true)).s;
      var s2 := Step(s1, Provision(false)).s;
      var s3 := Step(s2, MonitorBegin).s;
      var s4 := Step(s3, MonitorProbed(false)).s;
      assert s4.monitor.Replaying? && KeptUp(s4) && s4.m.launchFailures == s.m.launchFailures;
      hide Step;
      forall t: Net | t.monitor.Idle? && !t.m.ready && t.m.launchFailures == s4.m.launchFailures + 1
                      && t.m.shouldBeUp == s4.m.shouldBeUp && t.shuttingDown == s4.shuttingDown && t.starts == s4.starts
        ensures Makes(t, CountLeft(s) - 1)
      {
        IdleMakes(t);
      }
      ReplayingMakes(s4, CountLeft(s) - 1);
      ThroughIdle(s, CountLeft(s));
    }
  }

  lemma ThroughIdle(s: Net, n: nat)
    requires s.monitor.Idle? && KeptUp(s)
    requires var s3 := Step(Step(Step(s, UpdateEnded(true)).s, Provision(false)).s, MonitorBegin).s;
             Makes(Step(s3, MonitorProbed(false)).s, n)
    ensures Makes(s, n)
  {
    hide Makes;
    var s1 := Step(s, UpdateEnded(true)).s;
    var s2 := Step(s1, Provision(false)).s;
    var s3 := Step(s2, MonitorBegin).s;
    assert !s1.m.ready && !s2.m.ready && !s3.m.ready;
    MakesAfter(s3, MonitorProbed(false), n);
    MakesAfter(s2, MonitorBegin, n);
    MakesAfter(s1, Provision(false), n);
    MakesAfter(s, UpdateEnded(true), n);
  }

  lemma ReplayingOwed(s: Net)
    requires s.monitor.Replaying? && !s.m.ready
    ensures Makes(s, RetriesOwed(s))
  {
    hide Makes; hide Step;
    if s.m.launchFailures >= LAUNCH_FAILURE_LIMIT - 1 {
      MakesNothing(s);
    } else {
      var n := if KeptUp(s) then CountLeft(s) - 1 else 0;
      forall t: Net | t.monitor.Idle? && !t.m.ready && t.m.launchFailures == s.m.launchFailures + 1
                      && t.m.shouldBeUp == s.m.shouldBeUp && t.shuttingDown == s.shuttingDown && t.starts == s.starts
        ensures Makes(t, n)
      {
        if KeptUp(s) { IdleMakes(t); } else { MakesNothing(t); }
      }
      ReplayingMakes(s, n);
    }
  }

  /** The monitor comes to Idle, or to Replaying, by itself from everywhere else. */
  lemma OwedIsMade(s: Net)
    requires !s.m.ready
    ensures Makes(s, RetriesOwed(s))
  {
    hide Makes;
    match s.monitor
    case Replaying => ReplayingOwed(s);
    case ReadingStatus =>
      var t := Step(s, MonitorStatus(None, false)).s;
      ReplayingOwed(t);
      MakesAfter(s, MonitorStatus(None, false), RetriesOwed(t));
    case Probing =>
      if s.m.shouldBeUp {
        var t := Step(s, MonitorProbed(false)).s;
        ReplayingOwed(t);
        MakesAfter(s, MonitorProbed(false), RetriesOwed(t));
      } else {
        MakesNothing(s);
      }
    case Announcing(_) =>
      var t := Step(Step(s, MonitorLaunch).s, MonitorSettled(Alive)).s;
      QuietMakes(t);
      AnnouncingMakes(s, RetriesOwed(t));
    case _ => QuietMakes(s);
  }

  lemma QuietMakes(s: Net)
    requires !s.m.ready && (s.monitor.Idle? || s.monitor.Settling? || s.monitor.Draining?)
    ensures Makes(s, RetriesOwed(s))
  {
    hide Makes;
    if !KeptUp(s) {
      MakesNothing(s);
    } else if s.monitor.Idle? {
      IdleMakes(s);
    } else {
      var a := if s.monitor.Settling? then MonitorSettled(Alive) else MonitorDrained;
      var t := Step(s, a).s;
      IdleMakes(t);
      MakesAfter(s, a, CountLeft(t));
    }
  }

  /** From every state between starts, the most launches of a server that never comes up are exactly
      RetriesOwed: no run makes more and some run makes that many. They are at most three. */
  lemma RetriesExactly(s: Net)
    requires StartsFinished(s) && !s.m.ready
    ensures forall acts | NoStartCalls(acts) && NeverUp(s, acts) :: |Run(s, acts).launches| <= RetriesOwed(s)
    ensures exists acts :: NoStartCalls(acts) && NeverUp(s, acts) && |Run(s, acts).launches| == RetriesOwed(s)
    ensures RetriesOwed(s) <= 3
  {
    hide Run; hide NeverUp;
    forall acts | NoStartCalls(acts) && NeverUp(s, acts) ensures |Run(s, acts).launches| <= RetriesOwed(s) {
      NeverUpLaunches(s, acts);
    }
    OwedIsMade(s);
    var acts :| MakesBy(s, acts, RetriesOwed(s));
  }

  // ---- The retrying ends -----------------------------------------------------------------

  /** A stretch that counts an exit. */
  predicate Counts(s: Net, a: Act) {
    || (a.MonitorReplayed? && s.monitor.Replaying?)
    || (a.MonitorStatus? && s.monitor.ReadingStatus? && a.status == Some(0) && s.m.policy.Always?)
  }

  function Counted(s: Net, acts: seq<Act>): nat
    decreases |acts|
  {
    if acts == [] then 0
    else (if Counts(s, acts[0]) then 1 else 0) + Counted(Step(s, acts[0]).s, acts[1..])
  }

  lemma MonitorRetries(s: Net, a: Act)
    requires !s.m.ready && ByMonitorTask(a)
    ensures var u := MonitorStep(s, a).s;
            && u.starts == s.starts
            && (!u.m.ready ==> RetriesLeft(u.m) + (if Counts(s, a) && s.m.shouldBeUp then 1 else 0) <= RetriesLeft(s.m))
  {
    hide Recent;
  }

  lemma OtherRetries(s: Net, a: Act)
    requires !s.m.ready && !ByMonitorTask(a)
    ensures var u := OtherStep(s, a).s;
            u.starts == s.starts && (!u.m.ready ==> RetriesLeft(u.m) <= RetriesLeft(s.m)) && !Counts(s, a)
  {
  }

  lemma StepRetries(s: Net, a: Act)
    requires !s.m.ready && !Step(s, a).s.m.ready && StartsFinished(s) && !a.StartCalled?
    ensures StartsFinished(Step(s, a).s)
    ensures RetriesLeft(Step(s, a).s.m) + (if Counts(s, a) && s.m.shouldBeUp then 1 else 0) <= RetriesLeft(s.m)
  {
    if ByStartTask(a) {
      assert Step(s, a) == Stay(s);
    } else if ByMonitorTask(a) {
      hide MonitorStep; hide OtherStep; hide StartStep; hide RetriesLeft; hide Counts;
      MonitorRetries(s, a);
    } else {
      hide MonitorStep; hide OtherStep; hide StartStep; hide RetriesLeft; hide Counts;
      OtherRetries(s, a);
    }
  }

  /** Every counted exit of a run that never came up uses up a retry, whatever else interleaves; when
      they are used up should_be_up is false, and stays so without a start. */
  lemma {:induction false} RetryingEnds(s: Net, acts: seq<Act>)
    requires StartsFinished(s) && NoStartCalls(acts) && NeverUp(s, acts)
    ensures Run(s, acts).s.m.shouldBeUp ==>
              Counted(s, acts) + RetriesLeft(Run(s, acts).s.m) <= RetriesLeft(s.m)
    ensures Counted(s, acts) >= RetriesLeft(s.m) ==> !Run(s, acts).s.m.shouldBeUp
    decreases |acts|
  {
    hide Step; hide Counts;
    if acts != [] {
      var t := Step(s, acts[0]).s;
      StepRetries(s, acts[0]);
      RetryingEnds(t, acts[1..]);
      if !s.m.shouldBeUp { AtMostOneLaunchAfterStop(s, acts); }
    }
  }
}
