/** When a clean exit can be reported for an instance the agent is keeping up. The hub disarms an
    instance on such a report, so one that was just started would not come back with its node. */
module SupervisorCleanExits {
  import opened Options
  import opened RelaunchHistory
  import opened SupervisorPolicy
  import opened SupervisorInterleaving

  /** Start calls in flight. */
  function Open(starts: seq<StartPc>): nat {
    if starts == [] then 0 else (if starts[0].Finished? then 0 else 1) + Open(starts[1..])
  }

  lemma {:induction false} OpenUpdate(starts: seq<StartPc>, i: nat, pc: StartPc)
    requires i < |starts|
    ensures Open(starts[i := pc]) + (if starts[i].Finished? then 0 else 1)
         == Open(starts) + (if pc.Finished? then 0 else 1)
  {
    if i == 0 {
      assert starts[i := pc][1..] == starts[1..];
    } else {
      assert starts[i := pc][1..] == starts[1..][i - 1 := pc];
      OpenUpdate(starts[1..], i - 1, pc);
    }
  }

  lemma {:induction false} SomeOpen(starts: seq<StartPc>) returns (i: nat)
    requires Open(starts) > 0
    ensures i < |starts| && !starts[i].Finished?
  {
    if starts[0].Finished? {
      i := SomeOpen(starts[1..]);
      i := i + 1;
    } else {
      i := 0;
    }
  }

  /** One start must still be open when the drain ends or has ended; an instance that is down needs
      another one first to be taken for vanished; and a new pass needs an agent that is not
      shutting down. */
  predicate CanOverlap(s: Net) {
    var supplied := (s.m.shouldBeUp && Open(s.starts) >= 1) || Open(s.starts) >= 2;
    match s.monitor
    case Draining => s.m.shouldBeUp || Open(s.starts) >= 1
    case ReadingStatus => Open(s.starts) >= 1
    case Probing => supplied
    case _ => !s.shuttingDown && supplied
  }

  // ---- Otherwise it never happens --------------------------------------------------------

  lemma MonitorNoOverlap(s: Net, a: Act)
    requires !CanOverlap(s) && ByMonitorTask(a)
    ensures var r := MonitorStep(s, a); !CanOverlap(r.s) && CleanExitsUnsupervised(r.events)
  {
    hide Recent; hide GivesUp; hide Open;
  }

  lemma StartNoOverlap(s: Net, a: Act)
    requires !CanOverlap(s) && ByStartTask(a) && !a.StartCalled?
    ensures var r := StartStep(s, a); !CanOverlap(r.s) && CleanExitsUnsupervised(r.events)
  {
    if a.task < |s.starts| {
      OpenUpdate(s.starts, a.task, AtLaunch);
      OpenUpdate(s.starts, a.task, AtSettle);
      OpenUpdate(s.starts, a.task, Finished);
      hide Open;
    }
  }

  lemma OtherNoOverlap(s: Net, a: Act)
    requires !CanOverlap(s)
    ensures var r := OtherStep(s, a); !CanOverlap(r.s) && CleanExitsUnsupervised(r.events)
  {
    hide Open;
  }

  lemma StepNoOverlap(s: Net, a: Act)
    requires !CanOverlap(s) && !a.StartCalled?
    ensures var r := Step(s, a); !CanOverlap(r.s) && CleanExitsUnsupervised(r.events)
  {
    hide MonitorStep; hide OtherStep; hide StartStep; hide CanOverlap; hide CleanExitsUnsupervised;
    if ByMonitorTask(a) {
      MonitorNoOverlap(s, a);
    } else if ByStartTask(a) {
      StartNoOverlap(s, a);
    } else {
      OtherNoOverlap(s, a);
    }
  }

  lemma {:induction false} RunNoOverlap(s: Net, acts: seq<Act>)
    requires !CanOverlap(s) && NoStartCalls(acts)
    ensures CleanExitsUnsupervised(Run(s, acts).events)
    decreases |acts|
  {
    hide Step; hide CanOverlap;
    if acts != [] {
      StepNoOverlap(s, acts[0]);
      RunNoOverlap(Step(s, acts[0]).s, acts[1..]);
    }
  }

  // ---- And there it can ------------------------------------------------------------------

  ghost predicate ReportsOverlap(s: Net, acts: seq<Act>) {
    NoStartCalls(acts) && !CleanExitsUnsupervised(Run(s, acts).events)
  }

  ghost predicate MayReport(s: Net) {
    exists acts :: ReportsOverlap(s, acts)
  }

  lemma AfterRun(s: Net, acts: seq<Act>)
    requires NoStartCalls(acts) && MayReport(Run(s, acts).s)
    ensures MayReport(s)
  {
    hide Run;
    var t := Run(s, acts).s;
    var rest :| ReportsOverlap(t, rest);
    RunAppend(s, acts, rest);
    var before, events := Run(s, acts).events, Run(t, rest).events;
    var i :| 0 <= i < |events| && events[i].cleanExit && events[i].supervised;
    assert (before + events)[|before| + i] == events[i];
    assert ReportsOverlap(s, acts + rest);
  }

  lemma AfterStep(s: Net, a: Act)
    requires !a.StartCalled? && MayReport(Step(s, a).s)
    ensures MayReport(s)
  {
    hide Step; hide MayReport;
    RunOne(s, a);
    AfterRun(s, [a]);
  }

  /** A start settles; one fewer is open and the instance is up. */
  lemma AfterSettle(s: Net) returns (t: Net)
    requires Open(s.starts) > 0
    ensures t.m.shouldBeUp && t.monitor == s.monitor && t.shuttingDown == s.shuttingDown
    ensures Open(t.starts) == Open(s.starts) - 1
    ensures MayReport(t) ==> MayReport(s)
  {
    hide Run; hide MayReport;
    var i := SomeOpen(s.starts);
    var acts := StartCanSettle(s, i);
    t := Run(s, acts).s;
    OpenUpdate(s.starts, i, Finished);
    if MayReport(t) { AfterRun(s, acts); }
  }

  lemma DrainedReports(s: Net)
    requires s.monitor.Draining? && s.m.shouldBeUp
    ensures MayReport(s)
  {
    RunOne(s, MonitorDrained);
    assert Run(s, [MonitorDrained]).events[0] == StateChanged(Stopped, true, true);
    assert ReportsOverlap(s, [MonitorDrained]);
  }

  lemma DrainingReports(s: Net)
    requires s.monitor.Draining? && (s.m.shouldBeUp || Open(s.starts) >= 1)
    ensures MayReport(s)
  {
    if s.m.shouldBeUp {
      DrainedReports(s);
    } else {
      var t := AfterSettle(s);
      DrainedReports(t);
    }
  }

  lemma ReadingReports(s: Net)
    requires s.monitor.ReadingStatus? && Open(s.starts) >= 1
    ensures MayReport(s)
  {
    var s1 := Step(s, Respec(OnCrash)).s;
    var s2 := Step(s1, MonitorStatus(Some(0), false)).s;
    assert s2.monitor.Draining? && s2.starts == s.starts;
    hide Step; hide MayReport; hide Open;
    DrainingReports(s2);
    AfterStep(s1, MonitorStatus(Some(0), false));
    AfterStep(s, Respec(OnCrash));
  }

  lemma ProbingReports(s: Net)
    requires s.monitor.Probing? && s.m.shouldBeUp && Open(s.starts) >= 1
    ensures MayReport(s)
  {
    var s1 := Step(s, ReadyLine).s;
    var s2 := Step(s1, MonitorProbed(false)).s;
    assert s2.monitor.ReadingStatus? && s2.starts == s.starts;
    hide Step; hide MayReport; hide Open;
    ReadingReports(s2);
    AfterStep(s1, MonitorProbed(false));
    AfterStep(s, ReadyLine);
  }

  lemma IdleReports(s: Net)
    requires s.monitor.Idle? && !s.shuttingDown && s.m.shouldBeUp && Open(s.starts) >= 1
    ensures MayReport(s)
  {
    var s1 := Step(s, UpdateEnded(true)).s;
    var s2 := Step(s1, Provision(false)).s;
    var s3 := Step(s2, MonitorBegin).s;
    assert s3.monitor.Probing? && s3.starts == s.starts && s3.m.shouldBeUp;
    hide Step; hide MayReport; hide Open;
    ProbingReports(s3);
    AfterStep(s2, MonitorBegin);
    AfterStep(s1, Provision(false));
    AfterStep(s, UpdateEnded(true));
  }

  lemma SettlingReports(s: Net)
    requires (s.monitor.Settling? || s.monitor.Announcing?) && !s.shuttingDown && s.m.shouldBeUp && Open(s.starts) >= 1
    ensures MayReport(s)
    decreases s.monitor.Announcing?
  {
    var a := if s.monitor.Announcing? then MonitorLaunch else MonitorSettled(Alive);
    var t := Step(s, a).s;
    assert t.starts == s.starts && t.m.shouldBeUp && t.shuttingDown == s.shuttingDown;
    assert s.monitor.Announcing? ==> t.monitor.Settling?;
    assert s.monitor.Settling? ==> t.monitor.Idle?;
    hide Step; hide MayReport; hide Open;
    if t.monitor.Settling? { SettlingReports(t); } else { IdleReports(t); }
    AfterStep(s, a);
  }

  lemma ReplayingReports(s: Net)
    requires s.monitor.Replaying? && !s.shuttingDown && s.m.shouldBeUp && Open(s.starts) >= 1
    ensures MayReport(s)
  {
    hide Run; hide MayReport; hide Open; hide Recent; hide Lead;
    var late := EventuallyForgotten(s.m.crashTimes);
    var to := if late >= s.clock then late else s.clock;
    RecentNoneLater(s.m.crashTimes, late, to);
    ReachDecision(s, to);
    var t := Run(s, Lead(to)).s;
    var u := Step(t, MonitorReplayed(false)).s;
    assert u.monitor.Announcing? && u.starts == s.starts && u.m.shouldBeUp && !u.shuttingDown;
    hide Step;
    SettlingReports(u);
    AfterStep(t, MonitorReplayed(false));
    LeadHarmless(to);
    assert NoStartCalls(Lead(to)) by {
      var all := Lead(to) + [MonitorReplayed(false), MonitorLaunch];
      assert forall i :: 0 <= i < |Lead(to)| ==> Lead(to)[i] == all[i];
    }
    AfterRun(s, Lead(to));
  }

  lemma SuppliedReports(s: Net)
    requires CanOverlap(s) && !s.monitor.Draining? && !s.monitor.ReadingStatus? && s.m.shouldBeUp
    ensures MayReport(s)
  {
    match s.monitor
    case Probing => ProbingReports(s);
    case Idle => IdleReports(s);
    case Replaying => ReplayingReports(s);
    case _ => SettlingReports(s);
  }

  /** From every state, with no further start call: a clean exit can come to be reported for an
      instance the agent is keeping up exactly when CanOverlap holds. At the reading of the exit
      status one start in flight is enough; while the log is drained, one in flight or an instance
      that is up again. */
  lemma CleanExitOverlapsExactly(s: Net)
    ensures (exists acts :: NoStartCalls(acts) && !CleanExitsUnsupervised(Run(s, acts).events)) <==> CanOverlap(s)
  {
    hide Run;
    if CanOverlap(s) {
      if s.monitor.Draining? {
        DrainingReports(s);
      } else if s.monitor.ReadingStatus? {
        ReadingReports(s);
      } else if s.m.shouldBeUp {
        SuppliedReports(s);
      } else {
        var t := AfterSettle(s);
        SuppliedReports(t);
      }
      var acts :| ReportsOverlap(s, acts);
    } else {
      hide CanOverlap; hide CleanExitsUnsupervised;
      forall acts | NoStartCalls(acts) ensures CleanExitsUnsupervised(Run(s, acts).events) {
        RunNoOverlap(s, acts);
      }
    }
  }
}
