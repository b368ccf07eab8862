/** How often the monitor can relaunch an instance between two operator starts.

    The interleaved monitor keeps its history inside RelaunchHistory.Bounded. A readiness line
    that lands between its decision and the reset of the run clears the failure count, which the
    history records and which makes room for two more relaunches; with whole calls that cannot
    happen, so the bound there is a number. */
module SupervisorBound {
  import opened Options
  import opened RelaunchHistory
  import opened SupervisorPolicy
  import opened SupervisorInterleaving
  import Calls = SupervisorCalls

  // ---- The invariant of the interleaved monitor ------------------------------------------

  /** The relaunches made, and the one decided but not yet made. */
  function Decided(s: Net, made: seq<Relaunch>): seq<Relaunch> {
    if s.monitor.Announcing? then made + [s.monitor.pending] else made
  }

  /** A pass can still count an exit from here without a start. */
  predicate CanDecide(s: Net) {
    s.m.shouldBeUp || s.monitor.ReadingStatus? || s.monitor.Replaying?
  }

  ghost predicate Inv(s: Net, made: seq<Relaunch>, base: seq<Time>) {
    var h := Decided(s, made);
    && Bounded(h)
    && (h != [] ==> h[|h| - 1].at <= s.clock)
    && (CanDecide(s) ==> CountsRecentExits(s.m.crashTimes, base, ReadyTimes(h)))
    && (CanDecide(s) ==>
          (s.m.ready && !s.monitor.Announcing?) || TrailingFailures(h) <= s.m.launchFailures)
  }

  /** A readiness line lands where it wipes a counted failure. */
  predicate LateReady(s: Net, a: Act) {
    a.ReadyLine? && ClearsLate(s)
  }

  ghost predicate NoLateReady(s: Net, acts: seq<Act>)
    decreases |acts|
  {
    acts != [] ==> !LateReady(s, acts[0]) && NoLateReady(Step(s, acts[0]).s, acts[1..])
  }

  /** How many such lines a run holds. */
  function LateLines(s: Net, acts: seq<Act>): nat
    decreases |acts|
  {
    if acts == [] then 0
    else (if LateReady(s, acts[0]) then 1 else 0) + LateLines(Step(s, acts[0]).s, acts[1..])
  }

  /** A pass that gives up leaves the history as it was. */
  lemma GivingUpKeepsInv(s: Net, problem: bool, cleanExit: bool, made: seq<Relaunch>, base: seq<Time>)
    requires Inv(s, made, base) && (s.monitor.ReadingStatus? || s.monitor.Replaying?)
    requires GivesUp(CountExit(s.m, s.clock), problem)
    ensures Inv(DecideStep(s, problem, cleanExit).s, made, base)
  {
    hide Bounded; hide CountsRecentExits; hide Recent; hide ReadyTimes;
  }

  /** A relaunch of a run that had come up. */
  lemma CrashKeepsInv(s: Net, problem: bool, cleanExit: bool, made: seq<Relaunch>, base: seq<Time>)
    requires Inv(s, made, base) && (s.monitor.ReadingStatus? || s.monitor.Replaying?)
    requires s.m.ready && !GivesUp(CountExit(s.m, s.clock), problem)
    ensures Inv(DecideStep(s, problem, cleanExit).s, made, base)
  {
    hide Bounded; hide CountsRecentExits; hide Recent; hide ReadyTimes; hide TrailingFailures; hide StartupGrace;
    var now := s.clock;
    LastExit(made, now);
    RecordExit(s.m.crashTimes, base, ReadyTimes(made), now);
    AppendCrash(made, now);
  }

  lemma LastExit(made: seq<Relaunch>, now: Time)
    requires Bounded(made) && (made != [] ==> made[|made| - 1].at <= now)
    ensures ReadyTimes(made) != [] ==> ReadyTimes(made)[|ReadyTimes(made)| - 1] <= now
  {
    if made != [] { ReadyTimesWithin(made, made[0].at, now); }
  }

  /** A relaunch of a run that never came up. */
  lemma FailureKeepsInv(s: Net, problem: bool, cleanExit: bool, made: seq<Relaunch>, base: seq<Time>)
    requires Inv(s, made, base) && (s.monitor.ReadingStatus? || s.monitor.Replaying?)
    requires !s.m.ready && !GivesUp(CountExit(s.m, s.clock), problem)
    ensures Inv(DecideStep(s, problem, cleanExit).s, made, base)
  {
    hide Bounded; hide CountsRecentExits; hide Recent; hide ReadyTimes; hide TrailingFailures;
    AppendFailure(made, s.clock);
  }

  lemma DecideKeepsInv(s: Net, problem: bool, cleanExit: bool, made: seq<Relaunch>, base: seq<Time>)
    requires Inv(s, made, base) && (s.monitor.ReadingStatus? || s.monitor.Replaying?)
    ensures Inv(DecideStep(s, problem, cleanExit).s, made, base)
  {
    hide Inv; hide DecideStep; hide GivesUp; hide CountExit;
    if GivesUp(CountExit(s.m, s.clock), problem) {
      GivingUpKeepsInv(s, problem, cleanExit, made, base);
    } else if s.m.ready {
      CrashKeepsInv(s, problem, cleanExit, made, base);
    } else {
      FailureKeepsInv(s, problem, cleanExit, made, base);
    }
  }

  /** Inv reads only the history, the clock and the counters. */
  lemma InvCarries(s: Net, t: Net, made: seq<Relaunch>, after: seq<Relaunch>, base: seq<Time>)
    requires Inv(s, made, base)
    requires Decided(t, after) == Decided(s, made) && s.clock <= t.clock
    requires CanDecide(t) ==>
               && CanDecide(s)
               && t.m.crashTimes == s.m.crashTimes
               && ((t.m.ready && !t.monitor.Announcing?)
                   || (!(s.m.ready && !s.monitor.Announcing?) && s.m.launchFailures <= t.m.launchFailures)
                   || TrailingFailures(Decided(s, made)) == 0)
    ensures Inv(t, after, base)
  {
    hide Bounded;
    hide CountsRecentExits;
  }

  lemma MonitorKeepsInv(s: Net, a: Act, made: seq<Relaunch>, base: seq<Time>)
    requires Inv(s, made, base) && ByMonitorTask(a)
    ensures Inv(Step(s, a).s, made + Relaunches(Step(s, a).launches), base)
  {
    hide Bounded; hide CountsRecentExits; hide ReadyTimes; hide TrailingFailures; hide Recent;
    hide OtherStep; hide StartStep;
    var r := Step(s, a);
    if s.monitor.Announcing? && a.MonitorLaunch? {
      assert r.launches == [ByMonitor(s.monitor.pending)] && r.launches[1..] == [];
      assert Relaunches(r.launches) == [s.monitor.pending];
      InvCarries(s, r.s, made, made + [s.monitor.pending], base);
    } else {
      assert r.launches == [] && made + Relaunches(r.launches) == made;
      if a.MonitorStatus? && s.monitor.ReadingStatus? && a.status == Some(0) && s.m.policy.Always? {
        DecideKeepsInv(s, a.problem, true, made, base);
      } else if a.MonitorReplayed? && s.monitor.Replaying? {
        DecideKeepsInv(s, a.problem, false, made, base);
      } else {
        InvCarries(s, r.s, made, made, base);
      }
    }
  }

  /** A late line clears the count of the pending relaunch, and the history says so. */
  lemma LateKeepsInv(s: Net, made: seq<Relaunch>, base: seq<Time>)
    requires Inv(s, made, base) && ClearsLate(s)
    ensures Inv(OtherStep(s, ReadyLine).s, made, base)
  {
    hide Bounded; hide CountsRecentExits; hide ReadyTimes; hide TrailingFailures;
    ClearLast(made, s.monitor.pending);
  }

  lemma NoTrailingAfterCrash(h: seq<Relaunch>)
    requires h != [] && h[|h| - 1].afterReady
    ensures TrailingFailures(h) == 0
  {
  }

  lemma NotLateKeepsInv(s: Net, a: Act, made: seq<Relaunch>, base: seq<Time>)
    requires Inv(s, made, base) && !ByMonitorTask(a) && !ByStartTask(a) && !LateReady(s, a)
    ensures Inv(OtherStep(s, a).s, made, base)
  {
    hide Bounded; hide CountsRecentExits; hide ReadyTimes; hide TrailingFailures; hide StartupGrace;
    if s.monitor.Announcing? && s.monitor.pending.afterReady {
      NoTrailingAfterCrash(Decided(s, made));
    }
    InvCarries(s, OtherStep(s, a).s, made, made, base);
  }

  lemma OtherKeepsInv(s: Net, a: Act, made: seq<Relaunch>, base: seq<Time>)
    requires Inv(s, made, base) && !ByMonitorTask(a) && !a.StartCalled? && StartsFinished(s)
    ensures Step(s, a).launches == [] && Step(s, a).s.starts == s.starts
    ensures Inv(Step(s, a).s, made, base)
  {
    hide Inv;
    if ByStartTask(a) {
      assert Step(s, a) == Stay(s);
    } else if LateReady(s, a) {
      hide LateReady;
      LateKeepsInv(s, made, base);
    } else {
      NotLateKeepsInv(s, a, made, base);
    }
  }

  lemma MonitorKeepsStarts(s: Net, a: Act)
    requires ByMonitorTask(a)
    ensures Step(s, a).s.starts == s.starts
  {
  }

  lemma {:induction false} RunKeepsInv(s: Net, acts: seq<Act>, made: seq<Relaunch>, base: seq<Time>)
    requires Inv(s, made, base) && StartsFinished(s) && NoStartCalls(acts)
    ensures Inv(Run(s, acts).s, made + Relaunches(Run(s, acts).launches), base)
    decreases |acts|
  {
    hide Inv;
    hide Step;
    hide LateReady;
    if acts == [] {
      assert made + [] == made;
    } else {
      var first := Step(s, acts[0]);
      if ByMonitorTask(acts[0]) {
        MonitorKeepsInv(s, acts[0], made, base);
        MonitorKeepsStarts(s, acts[0]);
      } else {
        OtherKeepsInv(s, acts[0], made, base);
        assert made + [] == made;
      }
      var rest := Run(first.s, acts[1..]);
      RunKeepsInv(first.s, acts[1..], made + Relaunches(first.launches), base);
      RelaunchesAppend(first.launches, rest.launches);
      assert (made + Relaunches(first.launches)) + Relaunches(rest.launches)
          == made + (Relaunches(first.launches) + Relaunches(rest.launches));
    }
  }

  lemma InvAtStart(s: Net)
    requires !s.monitor.Announcing?
    ensures Inv(s, [], s.m.crashTimes)
  {
  }

  function PendingLate(pc: MonitorPc): nat {
    if pc.Announcing? && pc.pending.late then 1 else 0
  }

  lemma StepMarks(s: Net, a: Act)
    ensures Lates(Relaunches(Step(s, a).launches)) + PendingLate(Step(s, a).s.monitor)
         <= PendingLate(s.monitor) + if LateReady(s, a) then 1 else 0
  {
    hide Recent; hide GivesUp; hide StartupGrace; hide Adopt; hide SettleStart;
    var launches := Step(s, a).launches;
    if launches != [] { assert launches[1..] == []; }
    if ByMonitorTask(a) {
      hide StartStep; hide OtherStep;
      if a.MonitorLaunch? && s.monitor.Announcing? { assert Relaunches(launches) == [s.monitor.pending]; }
    } else if ByStartTask(a) {
      hide MonitorStep; hide OtherStep;
      assert Relaunches(launches) == [];
    } else {
      hide MonitorStep; hide StartStep;
    }
  }

  /** Each late line clears at most one relaunch. */
  lemma {:induction false} MarksAreLateLines(s: Net, acts: seq<Act>)
    ensures Lates(Relaunches(Run(s, acts).launches)) <= PendingLate(s.monitor) + LateLines(s, acts)
    decreases |acts|
  {
    hide Step; hide LateReady; hide PendingLate;
    if acts != [] {
      var first := Step(s, acts[0]);
      var rest := Run(first.s, acts[1..]);
      StepMarks(s, acts[0]);
      MarksAreLateLines(first.s, acts[1..]);
      RelaunchesAppend(first.launches, rest.launches);
      LatesAppend(Relaunches(first.launches), Relaunches(rest.launches));
    }
  }

  lemma {:induction false} NoLateLines(s: Net, acts: seq<Act>)
    ensures NoLateReady(s, acts) <==> LateLines(s, acts) == 0
    decreases |acts|
  {
    hide Step;
    if acts != [] { NoLateLines(Step(s, acts[0]).s, acts[1..]); }
  }

  /** A relaunch decided before the history began, and not made yet, belongs to an older account. */
  function Later(s: Net, h: seq<Relaunch>): seq<Relaunch> {
    if s.monitor.Announcing? && h != [] then h[1..] else h
  }

  function Older(s: Net): set<int> {
    if s.monitor.Announcing? then {0} else {}
  }

  /** What is known of the relaunches made since s, in any half-open crash window. */
  ghost predicate WithinBound(s: Net, acts: seq<Act>, w: Time) {
    var made := Relaunches(Run(s, acts).launches);
    && Bounded(Later(s, made))
    && |Inside(made, w)| <= 17 + |Older(s)| + 2 * |LateInside(made, w) - Older(s)|
    && |LateInside(made, w) - Older(s)| <= LateLines(s, acts)
  }

  ghost predicate CounterExact(s: Net, acts: seq<Act>) {
    var r := Run(s, acts);
    r.s.m.shouldBeUp ==>
      CountsRecentExits(r.s.m.crashTimes, s.m.crashTimes,
                        ReadyTimes(Later(s, Decided(r.s, Relaunches(r.launches)))))
  }

  lemma BoundFromSettled(s: Net, acts: seq<Act>, w: Time)
    requires !s.monitor.Announcing? && StartsFinished(s) && NoStartCalls(acts)
    ensures WithinBound(s, acts, w) && CounterExact(s, acts)
  {
    hide Bounded; hide CountsRecentExits; hide Step; hide Inside;
    var r := Run(s, acts);
    var made := Relaunches(r.launches);
    InvAtStart(s);
    RunKeepsInv(s, acts, [], s.m.crashTimes);
    assert [] + made == made;
    var h := Decided(r.s, made);
    assert h[..|made|] == made && h[0..|made|] == made;
    StretchOf(h, 0, |made|);
    WindowBound(made, w);
    MarksAreLateLines(s, acts);
    InsideAreIndices(made, w);
    IndicesAreLates(made, LateInside(made, w));
    assert LateInside(made, w) - {} == LateInside(made, w);
  }

  lemma InFront(x: Relaunch, rest: seq<Relaunch>, w: Time)
    ensures var all := [x] + rest;
            && (forall i :: i in Inside(all, w) - {0} ==> i - 1 in Inside(rest, w))
            && (forall i :: i in LateInside(all, w) - {0} ==> i - 1 in LateInside(rest, w))
            && (forall i :: i in LateInside(rest, w) ==> i + 1 in LateInside(all, w) - {0})
  {
    var all := [x] + rest;
    assert forall i :: 0 < i < |all| ==> all[i] == rest[i - 1];
  }

  lemma WithoutOne(s: set<int>, x: int)
    ensures |s| <= |s - {x}| + 1
  {
    if x in s { assert s == (s - {x}) + {x}; } else { assert s - {x} == s; }
  }

  /** The pending relaunch in front of a history that is within the bound. */
  lemma OneInFront(x: Relaunch, rest: seq<Relaunch>, w: Time)
    ensures var all := [x] + rest;
            && |Inside(all, w)| <= |Inside(rest, w)| + 1
            && |LateInside(all, w) - {0}| == |LateInside(rest, w)|
  {
    hide Inside; hide LateInside;
    var all := [x] + rest;
    InFront(x, rest, w);
    Shifted(Inside(all, w) - {0}, Inside(rest, w), -1);
    WithoutOne(Inside(all, w), 0);
    Shifted(LateInside(all, w) - {0}, LateInside(rest, w), -1);
    Shifted(LateInside(rest, w), LateInside(all, w) - {0}, 1);
  }

  lemma {:induction false} Shifted(a: set<int>, b: set<int>, shift: int)
    requires forall x :: x in a ==> x + shift in b
    ensures |a| <= |b|
    decreases a
  {
    if a != {} {
      var x := Member(a);
      Shifted(a - {x}, b - {x + shift}, shift);
    }
  }

  lemma StillAnnouncing(s: Net, a: Act)
    requires s.monitor.Announcing? && !a.MonitorLaunch? && StartsFinished(s) && !a.StartCalled?
    ensures var r := Step(s, a);
            && r.launches == [] && r.s.monitor.Announcing? && r.s.starts == s.starts
            && (r.s.m.shouldBeUp ==> s.m.shouldBeUp && r.s.m.crashTimes == s.m.crashTimes)
  {
    hide Recent; hide StartupGrace;
    if ByStartTask(a) { assert Step(s, a) == Stay(s); }
  }

  lemma LaunchNow(s: Net)
    requires s.monitor.Announcing?
    ensures var r := Step(s, MonitorLaunch);
            && r.launches == [ByMonitor(s.monitor.pending)] && !r.s.monitor.Announcing?
            && r.s.starts == s.starts && r.s.m.crashTimes == s.m.crashTimes && !LateReady(s, MonitorLaunch)
  {
  }

  lemma RunMade(s: Net, acts: seq<Act>, x: Relaunch)
    requires acts != [] && Step(s, acts[0]).launches == [ByMonitor(x)]
    ensures Relaunches(Run(s, acts).launches) == [x] + Relaunches(Run(Step(s, acts[0]).s, acts[1..]).launches)
  {
    hide Step;
    OneRelaunch(x);
    RelaunchesAppend([ByMonitor(x)], Run(Step(s, acts[0]).s, acts[1..]).launches);
  }

  lemma PendingLaunched(s: Net, acts: seq<Act>, w: Time)
    requires s.monitor.Announcing? && StartsFinished(s) && NoStartCalls(acts)
    requires acts != [] && acts[0].MonitorLaunch?
    ensures WithinBound(s, acts, w)
  {
    LaunchNow(s);
    LinesAhead(s, acts);
    hide Bounded; hide Step; hide Inside; hide LateInside; hide Run; hide CounterExact; hide LateLines; hide Relaunches;
    var t := Step(s, MonitorLaunch).s;
    var p := s.monitor.pending;
    BoundFromSettled(t, acts[1..], w);
    hide NoStartCalls; hide StartsFinished;
    RunMade(s, acts, p);
    var later := Relaunches(Run(t, acts[1..]).launches);
    assert ([p] + later)[1..] == later;
    OneMoreInside(p, later, w, LateLines(t, acts[1..]));
  }

  lemma OneMoreInside(p: Relaunch, later: seq<Relaunch>, w: Time, lines: nat)
    requires |Inside(later, w)| <= 17 + 2 * |LateInside(later, w) - {}| && |LateInside(later, w) - {}| <= lines
    ensures var all := [p] + later;
            && |Inside(all, w)| <= 17 + 1 + 2 * |LateInside(all, w) - {0}|
            && |LateInside(all, w) - {0}| <= lines
  {
    hide Inside; hide LateInside;
    assert LateInside(later, w) - {} == LateInside(later, w);
    OneInFront(p, later, w);
  }

  /** The late lines of a run are those of its first act and of the rest. */
  lemma LinesAhead(s: Net, acts: seq<Act>)
    requires acts != []
    ensures LateLines(s, acts) >= LateLines(Step(s, acts[0]).s, acts[1..])
    ensures acts[0].MonitorLaunch? ==> LateLines(s, acts) == LateLines(Step(s, acts[0]).s, acts[1..])
  {
    hide Step;
  }

  lemma RunAhead(s: Net, acts: seq<Act>)
    requires acts != []
    ensures var first, rest := Step(s, acts[0]), Run(Step(s, acts[0]).s, acts[1..]);
            && Run(s, acts).s == rest.s
            && (first.launches == [] ==> Run(s, acts).launches == rest.launches)
  {
    hide Step;
    var rest := Run(Step(s, acts[0]).s, acts[1..]);
    assert [] + rest.launches == rest.launches;
  }

  lemma PendingLaunchedExact(s: Net, acts: seq<Act>)
    requires s.monitor.Announcing? && StartsFinished(s) && NoStartCalls(acts)
    requires acts != [] && acts[0].MonitorLaunch?
    ensures CounterExact(s, acts)
  {
    LaunchNow(s);
    hide CountsRecentExits; hide Step; hide ReadyTimes; hide WithinBound; hide Run; hide Relaunches; hide Decided;
    var t := Step(s, MonitorLaunch).s;
    BoundFromSettled(t, acts[1..], 0.0);
    hide NoStartCalls; hide StartsFinished;
    RunMade(s, acts, s.monitor.pending);
    RunAhead(s, acts);
    var rest := Run(t, acts[1..]);
    var later := Relaunches(rest.launches);
    DecidedBehind(rest.s, s.monitor.pending, later);
  }

  lemma DecidedBehind(s: Net, p: Relaunch, later: seq<Relaunch>)
    ensures var all := Decided(s, [p] + later); all != [] && all[1..] == Decided(s, later)
  {
  }

  lemma UpAtEnd(s: Net, acts: seq<Act>)
    requires StartsFinished(s) && NoStartCalls(acts) && Run(s, acts).s.m.shouldBeUp
    ensures s.m.shouldBeUp
  {
    if !s.m.shouldBeUp { AtMostOneLaunchAfterStop(s, acts); }
  }

  lemma PendingWaits(s: Net, acts: seq<Act>, w: Time)
    requires s.monitor.Announcing? && StartsFinished(s) && NoStartCalls(acts)
    requires acts != [] && !acts[0].MonitorLaunch? && WithinBound(Step(s, acts[0]).s, acts[1..], w)
    ensures WithinBound(s, acts, w)
  {
    StillAnnouncing(s, acts[0]);
    hide Step; hide Bounded; hide Inside; hide LateInside; hide LateLines; hide Relaunches; hide Run;
    hide NoStartCalls; hide StartsFinished;
    RunAhead(s, acts);
    LinesAhead(s, acts);
  }

  lemma PendingWaitsExact(s: Net, acts: seq<Act>)
    requires s.monitor.Announcing? && StartsFinished(s) && NoStartCalls(acts)
    requires acts != [] && !acts[0].MonitorLaunch? && CounterExact(Step(s, acts[0]).s, acts[1..])
    ensures CounterExact(s, acts)
  {
    StillAnnouncing(s, acts[0]);
    hide Step; hide CountsRecentExits; hide ReadyTimes; hide Relaunches; hide Decided;
    var t := Step(s, acts[0]).s;
    var rest := Run(t, acts[1..]);
    assert Run(s, acts).launches == [] + rest.launches == rest.launches && Run(s, acts).s == rest.s;
    if rest.s.m.shouldBeUp { UpAtEnd(t, acts[1..]); }
  }

  lemma {:induction false} BoundFromPending(s: Net, acts: seq<Act>, w: Time)
    requires s.monitor.Announcing? && StartsFinished(s) && NoStartCalls(acts)
    ensures WithinBound(s, acts, w) && CounterExact(s, acts)
    decreases |acts|
  {
    if acts == [] {
      NothingMade(s, w);
    } else if acts[0].MonitorLaunch? {
      PendingLaunched(s, acts, w);
      PendingLaunchedExact(s, acts);
    } else {
      StillAnnouncing(s, acts[0]);
      hide WithinBound; hide CounterExact; hide Step;
      BoundFromPending(Step(s, acts[0]).s, acts[1..], w);
      PendingWaits(s, acts, w);
      PendingWaitsExact(s, acts);
    }
  }

  lemma NothingMade(s: Net, w: Time)
    requires s.monitor.Announcing?
    ensures WithinBound(s, [], w) && CounterExact(s, [])
  {
    assert Inside([], w) == {} && LateInside([], w) == {};
    assert LateInside([], w) - {0} == {};
    assert Decided(s, []) == [s.monitor.pending];
  }

  /** Between operator starts, wherever the monitor stands when they begin, it makes at most 17
      relaunches in any half-open crash window; one more if it had already decided one, which
      belongs to the account the last start has just cleared; and two more for each later one in
      the window whose failure count a late readiness line cleared, of which there are at most as
      many as late lines. While it keeps the instance up its crash counter is exactly the exits
      of the last window that it knows of. */
  lemma RelaunchBound(s: Net, acts: seq<Act>, w: Time)
    requires StartsFinished(s) && NoStartCalls(acts)
    ensures var made := Relaunches(Run(s, acts).launches);
            && Bounded(Later(s, made))
            && |Inside(made, w)| <= 17 + |Older(s)| + 2 * |LateInside(made, w) - Older(s)|
            && |LateInside(made, w) - Older(s)| <= LateLines(s, acts)
            && (NoLateReady(s, acts) ==> |Inside(made, w)| <= 17 + |Older(s)|)
    ensures |Older(s)| == if s.monitor.Announcing? then 1 else 0
    ensures var r := Run(s, acts);
            r.s.m.shouldBeUp ==>
              CountsRecentExits(r.s.m.crashTimes, s.m.crashTimes,
                                ReadyTimes(Later(s, Decided(r.s, Relaunches(r.launches)))))
  {
    hide Bounded; hide CountsRecentExits; hide Step; hide Inside; hide LateInside;
    if s.monitor.Announcing? { BoundFromPending(s, acts, w); } else { BoundFromSettled(s, acts, w); }
    NoLateLines(s, acts);
  }

  lemma InsideAreIndices(h: seq<Relaunch>, w: Time)
    ensures forall i :: i in LateInside(h, w) ==> 0 <= i < |h| && h[i].late
  {
  }

  // ---- What the condition shuts out ------------------------------------------------------

  /** A never-ready instance that the agent is keeping up, between two passes. */
  predicate Retrying(s: Net, failures: nat) {
    && s.monitor.Idle? && s.updating.None? && !s.provisioning && !s.shuttingDown
    && s.m.shouldBeUp && !s.m.ready && s.m.launchFailures == failures && s.m.policy.OnCrash?
  }

  /** A pass that finds the session gone, up to its decision; and the relaunch that follows. */
  const PASS: seq<Act> := [MonitorBegin] + ([MonitorProbed(false)] + [MonitorReplayed(false)])
  const RELAUNCH: seq<Act> := [MonitorLaunch] + [MonitorSettled(Alive)]

  const MISS_CYCLE: seq<Act> := PASS + RELAUNCH
  const LATE_CYCLE: seq<Act> := PASS + ([ReadyLine] + RELAUNCH)

  /** Everything but the monitor, the readiness and failures of the run and its state is as before. */
  predicate SameOtherwise(s: Net, t: Net) {
    t == s.(monitor := t.monitor, m := s.m.(ready := t.m.ready, launchFailures := t.m.launchFailures,
                                            launchedAt := t.m.launchedAt, state := t.m.state))
  }

  lemma PassDecides(s: Net, failures: nat)
    requires Retrying(s, failures) && failures + 1 < LAUNCH_FAILURE_LIMIT
    ensures var r := Run(s, PASS);
            && r.launches == [] && SameOtherwise(s, r.s)
            && r.s.monitor == Announcing(Relaunch(s.clock, false, false))
            && !r.s.m.ready && r.s.m.launchFailures == failures + 1
  {
    hide Run;
    var s1 := Step(s, MonitorBegin).s;
    var s2 := Step(s1, MonitorProbed(false)).s;
    var r := Step(s2, MonitorReplayed(false));
    assert s1 == s.(monitor := Probing) && s2 == s.(monitor := Replaying);
    assert r.s.monitor == Announcing(Relaunch(s.clock, false, false)) && r.launches == [];
    assert Step(s, MonitorBegin).launches == Step(s1, MonitorProbed(false)).launches == [];
    hide Step;
    RunOne(s2, MonitorReplayed(false));
    RunCons(s1, MonitorProbed(false), [MonitorReplayed(false)]);
    RunCons(s, MonitorBegin, [MonitorProbed(false)] + [MonitorReplayed(false)]);
  }

  lemma RelaunchHappens(s: Net)
    requires s.monitor.Announcing?
    ensures var r := Run(s, RELAUNCH);
            && r.launches == [ByMonitor(s.monitor.pending)] && SameOtherwise(s, r.s)
            && r.s.monitor.Idle? && !r.s.m.ready && r.s.m.launchFailures == s.m.launchFailures
  {
    hide Run;
    var s1 := Step(s, MonitorLaunch).s;
    RunOne(s1, MonitorSettled(Alive));
    RunCons(s, MonitorLaunch, [MonitorSettled(Alive)]);
  }

  lemma LateLineClears(s: Net)
    requires ClearsLate(s)
    ensures var r := Run(s, [ReadyLine]);
            && r.launches == [] && SameOtherwise(s, r.s)
            && r.s.monitor == Announcing(s.monitor.pending.(late := true)) && r.s.m.launchFailures == 0
  {
    hide Run; hide MonitorStep; hide StartStep;
    RunOne(s, ReadyLine);
  }

  lemma MissCycle(s: Net)
    requires Retrying(s, 0)
    ensures var r := Run(s, MISS_CYCLE);
            Retrying(r.s, 1) && SameOtherwise(s, r.s) && r.launches == [ByMonitor(Relaunch(s.clock, false, false))]
  {
    hide Run;
    PassDecides(s, 0);
    RelaunchHappens(Run(s, PASS).s);
    RunAppend(s, PASS, RELAUNCH);
  }

  lemma LateCycle(s: Net, failures: nat)
    requires Retrying(s, failures) && failures + 1 < LAUNCH_FAILURE_LIMIT
    ensures var r := Run(s, LATE_CYCLE);
            Retrying(r.s, 0) && SameOtherwise(s, r.s) && r.launches == [ByMonitor(Relaunch(s.clock, false, true))]
    ensures ClearsLate(Run(s, PASS).s)
  {
    hide Run;
    PassDecides(s, failures);
    var s1 := Run(s, PASS).s;
    LateLineClears(s1);
    RelaunchHappens(Run(s1, [ReadyLine]).s);
    RunAppend(s1, [ReadyLine], RELAUNCH);
    RunAppend(s, PASS, [ReadyLine] + RELAUNCH);
  }

  function Cycles(n: nat): seq<Act> {
    if n == 0 then [] else LATE_CYCLE + Cycles(n - 1)
  }

  lemma {:induction false} CyclesNeverStart(n: nat)
    ensures NoStartCalls(Cycles(n))
  {
    if n > 0 { CyclesNeverStart(n - 1); }
  }

  function Repeat(x: Launch, n: nat): seq<Launch> {
    if n == 0 then [] else [x] + Repeat(x, n - 1)
  }

  /** Nothing else bounds them: a server that prints its readiness line and dies before the log
      follower has read it can be relaunched any number of times, all at one clock reading and
      without a start, because the late line clears the failure count and the reset then clears
      the readiness that would have counted as a crash. */
  lemma {:induction false} LateReadyUnbounded(s: Net, n: nat)
    requires Retrying(s, 0)
    ensures Run(s, Cycles(n)).launches == Repeat(ByMonitor(Relaunch(s.clock, false, true)), n)
    ensures |Repeat(ByMonitor(Relaunch(s.clock, false, true)), n)| == n
    decreases n
  {
    hide Step;
    hide Retrying;
    if n > 0 {
      LateCycle(s, 0);
      var mid := Run(s, LATE_CYCLE).s;
      LateReadyUnbounded(mid, n - 1);
      RunAppend(s, LATE_CYCLE, Cycles(n - 1));
    }
  }

  lemma {:induction false} LateLinesAppend(s: Net, a: seq<Act>, b: seq<Act>)
    ensures LateLines(s, a + b) == LateLines(s, a) + LateLines(Run(s, a).s, b)
    decreases |a|
  {
    hide Step;
    if a == [] {
      assert a + b == b;
    } else {
      assert (a + b)[1..] == a[1..] + b && (a + b)[0] == a[0];
      LateLinesAppend(Step(s, a[0]).s, a[1..], b);
    }
  }

  lemma {:induction false} NoReadyLines(s: Net, acts: seq<Act>)
    requires forall i :: 0 <= i < |acts| ==> !acts[i].ReadyLine?
    ensures LateLines(s, acts) == 0
    decreases |acts|
  {
    hide Step;
    if acts != [] { NoReadyLines(Step(s, acts[0]).s, acts[1..]); }
  }

  /** Two relaunches for one late line. */
  const DOUBLE: seq<Act> := MISS_CYCLE + LATE_CYCLE

  lemma LateCycleLines(s: Net, failures: nat)
    requires Retrying(s, failures) && failures + 1 < LAUNCH_FAILURE_LIMIT
    ensures LateLines(s, LATE_CYCLE) == 1
  {
    hide Run; hide Step;
    LateCycle(s, failures);
    var s1 := Run(s, PASS).s;
    NoReadyLines(s, PASS);
    NoReadyLines(Run(s1, [ReadyLine]).s, RELAUNCH);
    assert LateLines(s1, [ReadyLine]) == 1 by { assert [ReadyLine][1..] == []; }
    LateLinesAppend(s1, [ReadyLine], RELAUNCH);
    LateLinesAppend(s, PASS, [ReadyLine] + RELAUNCH);
  }

  lemma DoubleCycle(s: Net)
    requires Retrying(s, 0)
    ensures var r := Run(s, DOUBLE);
            && Retrying(r.s, 0) && SameOtherwise(s, r.s)
            && r.launches == [ByMonitor(Relaunch(s.clock, false, false)), ByMonitor(Relaunch(s.clock, false, true))]
    ensures LateLines(s, DOUBLE) == 1
  {
    hide Run; hide Step; hide LateLines;
    MissCycle(s);
    var s1 := Run(s, MISS_CYCLE).s;
    LateCycle(s1, 1);
    LateCycleLines(s1, 1);
    RunAppend(s, MISS_CYCLE, LATE_CYCLE);
    NoReadyLines(s, MISS_CYCLE);
    LateLinesAppend(s, MISS_CYCLE, LATE_CYCLE);
  }

  function Doubles(k: nat): seq<Act> {
    if k == 0 then [] else DOUBLE + Doubles(k - 1)
  }

  lemma {:induction false} DoublesNeverStart(k: nat)
    ensures NoStartCalls(Doubles(k))
  {
    if k > 0 { DoublesNeverStart(k - 1); }
  }

  ghost predicate AllAt(made: seq<Relaunch>, at: Time) {
    forall i :: 0 <= i < |made| ==> made[i].at == at
  }

  lemma {:induction false} DoubleCycles(s: Net, k: nat)
    requires Retrying(s, 0)
    ensures var r := Run(s, Doubles(k));
            && Retrying(r.s, 0) && SameOtherwise(s, r.s)
            && |Relaunches(r.launches)| == 2 * k && AllAt(Relaunches(r.launches), s.clock)
    ensures LateLines(s, Doubles(k)) == k
    decreases k
  {
    hide Step; hide Retrying;
    if k > 0 {
      DoubleCycle(s);
      var first := Run(s, DOUBLE);
      hide LateLines; hide Run;
      DoubleCycles(first.s, k - 1) by { assert first.s.clock == s.clock; }
      RunAppend(s, DOUBLE, Doubles(k - 1));
      LateLinesAppend(s, DOUBLE, Doubles(k - 1));
      RelaunchesAppend(first.launches, Run(first.s, Doubles(k - 1)).launches);
      TwoRelaunches(Relaunch(s.clock, false, false), Relaunch(s.clock, false, true));
    }
  }

  lemma TwoRelaunches(a: Relaunch, b: Relaunch)
    ensures Relaunches([ByMonitor(a), ByMonitor(b)]) == [a, b]
  {
    OneRelaunch(a);
    OneRelaunch(b);
    RelaunchesAppend([ByMonitor(a)], [ByMonitor(b)]);
    assert [ByMonitor(a), ByMonitor(b)] == [ByMonitor(a)] + [ByMonitor(b)];
  }

  // ---- Whole calls are uninterrupted runs ------------------------------------------------

  /** The stretch of a call that waits nowhere. */
  function OnlyStretch(op: Calls.Op): Act
    requires !op.Check? && !op.Start? && !op.Stop? && !op.Kill?
  {
    match op
    case Tick(to) => Tick(to)
    case Respec(policy) => Respec(policy)
    case UpdateBegin(policy, alive) => UpdateClaimed(policy, alive)
    case UpdateEnd(ok) => UpdateEnded(ok)
    case UpdateCancelled => UpdateCancelled
    case Provision(on) => Provision(on)
    case ReadyLine => ReadyLine
    case Shutdown => Shutdown
  }

  /** The stretches of one whole call, given how many start calls came before it. */
  function Schedule(op: Calls.Op, task: nat): seq<Act> {
    match op
    case Start(policy, alive, problem, launch) =>
      [StartCalled(policy)]
      + ([StartProbed(task, alive, problem)] + ([StartLaunch(task)] + [StartSettled(task, launch)]))
    case Stop(policy, alive) =>
      [StopCalled(policy)] + (if alive then [Reported(Stopping)] + [Reported(Stopped)] else [Reported(Stopped)])
    case Kill(policy) => [StopCalled(policy)] + [Reported(Stopped)]
    case Check(alive, status, problem, launch) =>
      [MonitorBegin] + ([MonitorProbed(alive)] + ([MonitorStatus(status, problem)] +
      ([MonitorReplayed(problem)] + LaunchPart(launch))))
    case _ => [OnlyStretch(op)]
  }

  predicate Same(one: Calls.One, net: Net) {
    && one.m == net.m && one.updating == net.updating && one.provisioning == net.provisioning
    && one.shuttingDown == net.shuttingDown && one.clock == net.clock
    && net.monitor.Idle? && StartsFinished(net)
  }

  ghost predicate Refines(one: Calls.One, op: Calls.Op, net: Net, acts: seq<Act>) {
    var whole, cut := Calls.Step(one, op), Run(net, acts);
    && Same(whole.s, cut.s) && whole.events == cut.events && whole.launches == cut.launches
    && NoLateReady(net, acts)
  }

  lemma NoLateCons(s: Net, a: Act, rest: seq<Act>)
    requires !LateReady(s, a) && NoLateReady(Step(s, a).s, rest)
    ensures NoLateReady(s, [a] + rest)
  {
    assert ([a] + rest)[1..] == rest;
  }

  lemma NoLateOne(s: Net, a: Act)
    requires !LateReady(s, a)
    ensures NoLateReady(s, [a])
  {
    assert [a][1..] == [];
    assert NoLateReady(Step(s, a).s, []);
  }

  lemma Both(s: Net, a: Act, rest: seq<Act>)
    requires !LateReady(s, a) && NoLateReady(Step(s, a).s, rest)
    ensures NoLateReady(s, [a] + rest)
    ensures var first, last := Step(s, a), Run(Step(s, a).s, rest);
            Run(s, [a] + rest) == Outcome(last.s, first.events + last.events, first.launches + last.launches)
  {
    NoLateCons(s, a, rest);
    RunCons(s, a, rest);
  }

  lemma Last(s: Net, a: Act)
    requires !LateReady(s, a)
    ensures NoLateReady(s, [a]) && Run(s, [a]) == Step(s, a)
  {
    NoLateOne(s, a);
    RunOne(s, a);
  }

  /** A stretch whose task is not waiting there can be dropped. */
  lemma Skip(s: Net, a: Act, rest: seq<Act>)
    requires Step(s, a) == Stay(s) && !a.ReadyLine? && NoLateReady(s, rest)
    ensures NoLateReady(s, [a] + rest) && Run(s, [a] + rest) == Run(s, rest)
  {
    hide Step;
    Both(s, a, rest);
    var r := Run(s, rest);
    assert [] + r.events == r.events && [] + r.launches == r.launches;
  }

  /** The rest of a pass that has ended changes nothing. */
  lemma {:induction false} Ended(s: Net, acts: seq<Act>)
    requires s.monitor.Idle?
    requires forall i :: 0 <= i < |acts| ==> ByMonitorTask(acts[i]) && !acts[i].MonitorBegin?
    ensures NoLateReady(s, acts) && Run(s, acts) == Stay(s)
    decreases |acts|
  {
    if acts != [] {
      Ended(s, acts[1..]);
      Skip(s, acts[0], acts[1..]);
      assert [acts[0]] + acts[1..] == acts;
    }
  }

  function LaunchPart(launch: LaunchOutcome): seq<Act> {
    [MonitorLaunch] + ([MonitorSettled(launch)] + [MonitorDrained])
  }

  lemma AnnouncedRefines(s: Net, launch: LaunchOutcome)
    requires s.monitor.Announcing?
    ensures NoLateReady(s, LaunchPart(launch))
    ensures var m := SettleRelaunch(ResetForLaunch(s.m, s.clock), launch);
            Run(s, LaunchPart(launch)) ==
            Outcome(s.(m := m, monitor := Idle), [Report(m, false)], [ByMonitor(s.monitor.pending)])
  {
    hide Run;
    hide NoLateReady;
    var s1 := Step(s, MonitorLaunch).s;
    var s2 := Step(s1, MonitorSettled(launch)).s;
    Ended(s2, [MonitorDrained]);
    Both(s1, MonitorSettled(launch), [MonitorDrained]);
    Both(s, MonitorLaunch, [MonitorSettled(launch)] + [MonitorDrained]);
  }

  /** From the decision on, the pass does what Relaunching says. */
  lemma DecidedRefines(one: Calls.One, op: Calls.Op, net: Net, cleanExit: bool)
    requires Same(one, net) && op.Check?
    ensures var first := DecideStep(net, op.problem, cleanExit);
            var rest := Run(first.s, LaunchPart(op.launch));
            var whole := Calls.Relaunching(one, op, cleanExit);
            && NoLateReady(first.s, LaunchPart(op.launch))
            && Same(whole.s, rest.s) && whole.events == first.events + rest.events
            && whole.launches == first.launches + rest.launches
  {
    var first := DecideStep(net, op.problem, cleanExit);
    if first.s.monitor.Announcing? {
      AnnouncedRefines(first.s, op.launch);
    } else {
      Ended(first.s, LaunchPart(op.launch));
    }
  }

  lemma ReplayedRefines(one: Calls.One, op: Calls.Op, net: Net)
    requires Same(one, net.(monitor := Idle)) && op.Check? && net.monitor.Replaying?
    ensures var acts := [MonitorReplayed(op.problem)] + LaunchPart(op.launch);
            var whole := Calls.Relaunching(one, op, false);
            && NoLateReady(net, acts) && Same(whole.s, Run(net, acts).s)
            && whole.events == Run(net, acts).events && whole.launches == Run(net, acts).launches
  {
    hide Run;
    hide NoLateReady;
    DecidedRefines(one, op, net.(monitor := Idle), false);
    assert DecideStep(net, op.problem, false) == DecideStep(net.(monitor := Idle), op.problem, false);
    Both(net, MonitorReplayed(op.problem), LaunchPart(op.launch));
  }

  lemma DrainedRefines(s: Net, op: Calls.Op)
    requires op.Check? && s.monitor.Draining?
    ensures var acts := [MonitorReplayed(op.problem)] + LaunchPart(op.launch);
            var down := s.m.(state := Stopped);
            && NoLateReady(s, acts)
            && Run(s, acts) == Outcome(s.(m := down, monitor := Idle), [Report(down, true)], [])
  {
    hide Run;
    hide NoLateReady;
    Last(s, MonitorDrained);
    Skip(s, MonitorSettled(op.launch), [MonitorDrained]);
    Skip(s, MonitorLaunch, [MonitorSettled(op.launch)] + [MonitorDrained]);
    Skip(s, MonitorReplayed(op.problem), LaunchPart(op.launch));
  }

  /** From the reading of the exit status on. */
  lemma StatusRefines(one: Calls.One, op: Calls.Op, net: Net)
    requires Same(one, net.(monitor := Idle)) && op.Check? && net.monitor.ReadingStatus? && net.m.ready
    requires !one.shuttingDown && one.updating.None? && !one.provisioning && one.m.shouldBeUp && !op.alive
    ensures var acts := [MonitorStatus(op.status, op.problem)]
                        + ([MonitorReplayed(op.problem)] + LaunchPart(op.launch));
            var whole := Calls.CheckCall(one, op);
            && NoLateReady(net, acts) && Same(whole.s, Run(net, acts).s)
            && whole.events == Run(net, acts).events && whole.launches == Run(net, acts).launches
  {
    hide Run;
    hide NoLateReady;
    var a0, a1 := MonitorStatus(op.status, op.problem), MonitorReplayed(op.problem);
    var rest := LaunchPart(op.launch);
    hide Step;
    OfMonitor(net, a0);
    var s1 := Step(net, a0).s;
    OfMonitor(s1, a1);
    if s1.monitor.Replaying? {
      ReplayedRefines(one, op, s1);
    } else if s1.monitor.Draining? {
      DrainedRefines(s1, op);
    } else {
      DecidedRefines(one, op, net.(monitor := Idle), true);
      assert DecideStep(net, op.problem, true) == DecideStep(net.(monitor := Idle), op.problem, true);
      Skip(s1, a1, rest);
    }
    Both(net, a0, [a1] + rest);
  }

  lemma CheckRefines(one: Calls.One, op: Calls.Op, net: Net)
    requires Same(one, net) && op.Check?
    ensures Refines(one, op, net, Schedule(op, |net.starts|))
  {
    hide Run;
    hide NoLateReady;
    var a0, a1 := MonitorBegin, MonitorProbed(op.alive);
    var a2, a3 := MonitorStatus(op.status, op.problem), MonitorReplayed(op.problem);
    var late := [a3] + LaunchPart(op.launch);
    hide Step;
    OfMonitor(net, a0);
    var s1 := Step(net, a0).s;
    OfMonitor(s1, a1);
    var s2 := Step(s1, a1).s;
    OfMonitor(s2, a2);
    if s1.monitor.Idle? {
      Ended(s1, [a1] + ([a2] + late));
    } else {
      if s2.monitor.Idle? {
        Ended(s2, [a2] + late);
      } else if s2.monitor.ReadingStatus? {
        StatusRefines(one, op, s2);
      } else {
        ReplayedRefines(one, op, s2);
        Skip(s2, a2, late);
      }
      Both(s1, a1, [a2] + late);
    }
    Both(net, a0, [a1] + ([a2] + late));
    assert Schedule(op, |net.starts|) == [a0] + ([a1] + ([a2] + late));
  }

  lemma LaunchedRefines(s: Net, n: nat, launch: LaunchOutcome)
    requires n < |s.starts| && s.starts[n].AtLaunch?
    ensures var acts := [StartLaunch(n)] + [StartSettled(n, launch)];
            var (m, events) := SettleStart(ResetForLaunch(s.m, s.clock), launch);
            && NoLateReady(s, acts)
            && Run(s, acts) == Outcome(s.(m := m, starts := s.starts[n := Finished]), events, [ByOperator(s.clock)])
  {
    hide Run;
    hide NoLateReady;
    var first := Step(s, StartLaunch(n));
    var last := Step(first.s, StartSettled(n, launch));
    var (m, events) := SettleStart(ResetForLaunch(s.m, s.clock), launch);
    assert s.starts[n := AtSettle][n := Finished] == s.starts[n := Finished];
    assert first.events == [] && first.launches == [ByOperator(s.clock)];
    assert last == Outcome(s.(m := m, starts := s.starts[n := Finished]), events, []);
    hide Step;
    Last(first.s, StartSettled(n, launch));
    Both(s, StartLaunch(n), [StartSettled(n, launch)]);
    assert [] + events == events && [ByOperator(s.clock)] + [] == [ByOperator(s.clock)];
  }

  lemma NotLaunchedRefines(s: Net, n: nat, launch: LaunchOutcome)
    requires n < |s.starts| ==> s.starts[n].Finished?
    ensures var acts := [StartLaunch(n)] + [StartSettled(n, launch)];
            NoLateReady(s, acts) && Run(s, acts) == Stay(s)
  {
    hide Run;
    hide NoLateReady;
    Last(s, StartSettled(n, launch));
    Skip(s, StartLaunch(n), [StartSettled(n, launch)]);
  }

  lemma StartRefines(one: Calls.One, op: Calls.Op, net: Net)
    requires Same(one, net) && op.Start?
    ensures Refines(one, op, net, Schedule(op, |net.starts|))
  {
    hide Run;
    hide NoLateReady;
    var n := |net.starts|;
    var a0, a1 := StartCalled(op.policy), StartProbed(n, op.alive, op.problem);
    var rest := [StartLaunch(n)] + [StartSettled(n, op.launch)];
    var first := Step(net, a0);
    var second := Step(first.s, a1);
    StartProbeRefines(one, op, net);
    hide Step;
    hide Calls.StartCall;
    if n < |second.s.starts| && second.s.starts[n].AtLaunch? {
      LaunchedRefines(second.s, n, op.launch);
    } else {
      NotLaunchedRefines(second.s, n, op.launch);
    }
    Both(first.s, a1, rest);
    Both(net, a0, [a1] + rest);
  }

  /** The first two stretches of a start, and what is left for the others. */
  lemma StartProbeRefines(one: Calls.One, op: Calls.Op, net: Net)
    requires Same(one, net) && op.Start?
    ensures var n := |net.starts|;
            var first := Step(net, StartCalled(op.policy));
            var second := Step(first.s, StartProbed(n, op.alive, op.problem));
            var whole := Calls.Step(one, op);
            && first.events == [] && first.launches == [] && second.launches == []
            && (n < |second.s.starts| ==> second.s.starts[n].Finished? || second.s.starts[n].AtLaunch?)
            && (if n < |second.s.starts| && second.s.starts[n].AtLaunch? then
                  var (m, events) := SettleStart(ResetForLaunch(second.s.m, net.clock), op.launch);
                  && second.s.clock == net.clock
                  && Same(whole.s, second.s.(m := m, starts := second.s.starts[n := Finished]))
                  && whole.events == second.events + events && whole.launches == [ByOperator(net.clock)]
                else
                  Same(whole.s, second.s) && whole.events == second.events && whole.launches == [])
  {
  }

  lemma StopRefines(one: Calls.One, op: Calls.Op, net: Net)
    requires Same(one, net) && (op.Stop? || op.Kill?)
    ensures Refines(one, op, net, Schedule(op, |net.starts|))
  {
    hide Run;
    hide NoLateReady;
    var a0, a1, a2 := StopCalled(op.policy), Reported(Stopping), Reported(Stopped);
    hide Step;
    OfOther(net, a0);
    var s1 := Step(net, a0).s;
    OfOther(s1, a1);
    OfOther(s1, a2);
    var s2 := Step(s1, a1).s;
    OfOther(s2, a2);
    var m := one.m.(policy := op.policy, shouldBeUp := false);
    assert Step(net, a0) == Stay(net.(m := m));
    assert Step(s1, a1) == Outcome(net.(m := m.(state := Stopping)), [Report(m.(state := Stopping), false)], []);
    assert Step(s1, a2) == Outcome(net.(m := m.(state := Stopped)), [Report(m.(state := Stopped), false)], []);
    assert Step(s2, a2) == Step(s1, a2);
    assert Same(Calls.Step(one, op).s, Step(s1, a2).s);
    hide OtherStep;
    hide Same;
    assert Schedule(op, |net.starts|) == [a0] + (if op.Stop? && op.alive then [a1] + [a2] else [a2]);
    if op.Stop? && op.alive {
      Last(s2, a2);
      Both(s1, a1, [a2]);
      Both(net, a0, [a1] + [a2]);
    } else {
      Last(s1, a2);
      Both(net, a0, [a2]);
    }
  }

  lemma StretchRefines(one: Calls.One, op: Calls.Op, net: Net)
    requires Same(one, net) && !op.Check? && !op.Start? && !op.Stop? && !op.Kill?
    ensures var whole, cut := Calls.Step(one, op), Step(net, OnlyStretch(op));
            Same(whole.s, cut.s) && whole.events == cut.events && whole.launches == cut.launches
  {
    hide MonitorStep; hide StartStep; hide Calls.StartCall; hide Calls.StopCall; hide Calls.CheckCall;
  }

  lemma SimpleRefines(one: Calls.One, op: Calls.Op, net: Net)
    requires Same(one, net) && !op.Check? && !op.Start? && !op.Stop? && !op.Kill?
    ensures Refines(one, op, net, Schedule(op, |net.starts|))
  {
    hide Run;
    hide NoLateReady;
    StretchRefines(one, op, net);
    hide Step;
    hide Calls.Step;
    Last(net, OnlyStretch(op));
  }

  lemma SchedulesNoStart(op: Calls.Op, task: nat)
    requires !op.Start?
    ensures NoStartCalls(Schedule(op, task))
  {
  }

  /** Every whole call is the run of its own stretches with nothing in between. */
  lemma CallRefines(one: Calls.One, op: Calls.Op, net: Net)
    requires Same(one, net)
    ensures Refines(one, op, net, Schedule(op, |net.starts|))
    ensures !op.Start? ==> NoStartCalls(Schedule(op, |net.starts|))
  {
    hide Refines;
    hide Schedule;
    if !op.Start? { SchedulesNoStart(op, |net.starts|); }
    if op.Check? {
      CheckRefines(one, op, net);
    } else if op.Start? {
      StartRefines(one, op, net);
    } else if op.Stop? || op.Kill? {
      StopRefines(one, op, net);
    } else {
      SimpleRefines(one, op, net);
    }
  }

  function ScheduleAll(net: Net, ops: seq<Calls.Op>): seq<Act>
    decreases |ops|
  {
    if ops == [] then []
    else
      var first := Schedule(ops[0], |net.starts|);
      first + ScheduleAll(Run(net, first).s, ops[1..])
  }

  lemma {:induction false} NoLateAppend(s: Net, a: seq<Act>, b: seq<Act>)
    requires NoLateReady(s, a) && NoLateReady(Run(s, a).s, b)
    ensures NoLateReady(s, a + b)
    decreases |a|
  {
    hide Step; hide LateReady;
    if a == [] {
      assert a + b == b;
    } else {
      RunAhead(s, a);
      hide Run;
      assert (a + b)[0] == a[0] && (a + b)[1..] == a[1..] + b;
      NoLateAppend(Step(s, a[0]).s, a[1..], b);
    }
  }

  /** A run of whole calls is a run of the interleaved supervisor: same bookkeeping, same
      events, same launches, and never a late readiness line. */
  lemma {:induction false} CallsRefine(one: Calls.One, ops: seq<Calls.Op>, net: Net)
    requires Same(one, net)
    ensures var whole, cut := Calls.Exec(one, ops), Run(net, ScheduleAll(net, ops));
            Same(whole.s, cut.s) && whole.events == cut.events && whole.launches == cut.launches
    ensures NoLateReady(net, ScheduleAll(net, ops))
    ensures Calls.NoStarts(ops) ==> NoStartCalls(ScheduleAll(net, ops))
    decreases |ops|
  {
    if ops != [] {
      var first := Schedule(ops[0], |net.starts|);
      CallRefines(one, ops[0], net);
      var mid := Run(net, first).s;
      CallsRefine(Calls.Step(one, ops[0]).s, ops[1..], mid);
      RunAppend(net, first, ScheduleAll(mid, ops[1..]));
      NoLateAppend(net, first, ScheduleAll(mid, ops[1..]));
    }
  }

  /** With whole calls, from any bookkeeping whatever and without an operator start, the
      monitor relaunches an instance at most 17 times in any half-open crash window, however
      fast it polls. */
  lemma WholeCallBound(one: Calls.One, ops: seq<Calls.Op>, w: Time)
    requires Calls.NoStarts(ops)
    ensures var made := Relaunches(Calls.Exec(one, ops).launches);
            |Inside(made, w)| <= 17
  {
    var net := Net(one.m, one.updating, one.provisioning, one.shuttingDown, one.clock, Idle, []);
    CallsRefine(one, ops, net);
    RelaunchBound(net, ScheduleAll(net, ops), w);
  }

  // ---- The bound is met ------------------------------------------------------------------

  const GONE: Calls.Op := Calls.Check(false, None, false, Alive)

  /** Two launches that never come up, then one that does and crashes. */
  const ROUND: seq<Calls.Op> := [GONE, GONE, Calls.ReadyLine, GONE]

  predicate Flapping(s: Calls.One, crashes: nat) {
    && s.updating.None? && !s.provisioning && !s.shuttingDown
    && s.m.shouldBeUp && !s.m.ready && s.m.launchFailures == 0 && s.m.policy.OnCrash?
    && |s.m.crashTimes| == crashes && forall i :: 0 <= i < crashes ==> s.m.crashTimes[i] == s.clock
  }

  lemma FlapTwice(s: Calls.One, crashes: nat)
    requires Flapping(s, crashes)
    ensures var s2 := Calls.Step(Calls.Step(s, GONE).s, GONE).s;
            && s2 == s.(m := s.m.(launchFailures := 2, launchedAt := s.clock, state := Starting))
            && Calls.Step(s, GONE).launches == [ByMonitor(Relaunch(s.clock, false, false))]
            && Calls.Step(Calls.Step(s, GONE).s, GONE).launches == [ByMonitor(Relaunch(s.clock, false, false))]
  {
  }

  lemma FlapRound(s: Calls.One, crashes: nat)
    requires Flapping(s, crashes) && crashes < CRASH_LIMIT
    ensures var r := Calls.Exec(s, ROUND);
            && Flapping(r.s, crashes + 1) && r.s.clock == s.clock
            && |Relaunches(r.launches)| == 3
            && forall i :: 0 <= i < 3 ==> Relaunches(r.launches)[i].at == s.clock
  {
    var s1 := Calls.Step(s, GONE).s;
    var s2 := Calls.Step(s1, GONE).s;
    FlapTwice(s, crashes);
    var s3 := Calls.Step(s2, Calls.ReadyLine).s;
    RecentAll(s3.m.crashTimes, s3.clock);
    var last := Calls.Step(s3, GONE);
    assert last.launches == [ByMonitor(Relaunch(s.clock, true, false))];
    assert Flapping(last.s, crashes + 1);
    hide Calls.Step;
    Calls.ExecCons(s3, GONE, []);
    Calls.ExecCons(s2, Calls.ReadyLine, [GONE]);
    Calls.ExecCons(s1, GONE, [Calls.ReadyLine] + [GONE]);
    Calls.ExecCons(s, GONE, [GONE] + ([Calls.ReadyLine] + [GONE]));
    assert ROUND == [GONE] + ([GONE] + ([Calls.ReadyLine] + [GONE])) && [GONE] + [] == [GONE];
    ThreeRelaunches(Relaunch(s.clock, false, false), Relaunch(s.clock, false, false), Relaunch(s.clock, true, false));
    assert Calls.Exec(s, ROUND).launches ==
      [ByMonitor(Relaunch(s.clock, false, false)), ByMonitor(Relaunch(s.clock, false, false)),
       ByMonitor(Relaunch(s.clock, true, false))];
  }

  lemma ThreeRelaunches(a: Relaunch, b: Relaunch, c: Relaunch)
    ensures Relaunches([ByMonitor(a), ByMonitor(b), ByMonitor(c)]) == [a, b, c]
  {
    OneRelaunch(a);
    OneRelaunch(b);
    OneRelaunch(c);
    RelaunchesAppend([ByMonitor(a)], [ByMonitor(b)]);
    RelaunchesAppend([ByMonitor(a)] + [ByMonitor(b)], [ByMonitor(c)]);
    assert [ByMonitor(a), ByMonitor(b), ByMonitor(c)] == ([ByMonitor(a)] + [ByMonitor(b)]) + [ByMonitor(c)];
  }

  lemma OneRelaunch(a: Relaunch)
    ensures Relaunches([ByMonitor(a)]) == [a]
  {
    assert [ByMonitor(a)][1..] == [];
    assert Relaunches([]) == [];
  }

  function Rounds(n: nat): seq<Calls.Op> {
    if n == 0 then [] else ROUND + Rounds(n - 1)
  }

  lemma {:induction false} FlapRounds(s: Calls.One, n: nat)
    requires n <= CRASH_LIMIT && Flapping(s, CRASH_LIMIT - n)
    ensures var r := Calls.Exec(s, Rounds(n));
            && Flapping(r.s, CRASH_LIMIT) && r.s.clock == s.clock
            && |Relaunches(r.launches)| == 3 * n
            && forall i :: 0 <= i < 3 * n ==> Relaunches(r.launches)[i].at == s.clock
    decreases n
  {
    if n > 0 {
      hide Calls.Step;
      hide Flapping;
      FlapRound(s, CRASH_LIMIT - n);
      var mid := Calls.Exec(s, ROUND);
      FlapRounds(mid.s, n - 1);
      Calls.ExecAppend(s, ROUND, Rounds(n - 1));
      RelaunchesAppend(mid.launches, Calls.Exec(mid.s, Rounds(n - 1)).launches);
    }
  }

  /** The bound cannot be lowered: a flapping server whose passes all fall into one window is
      relaunched 17 times, without a start, before the monitor would give up. */
  lemma BoundIsMet(s: Calls.One)
    requires Flapping(s, 0)
    ensures var made := Relaunches(Calls.Exec(s, Rounds(CRASH_LIMIT) + ([GONE] + [GONE])).launches);
            |made| == 17 && forall i :: 0 <= i < 17 ==> made[i].at == s.clock
  {
    FlapRounds(s, CRASH_LIMIT);
    var mid := Calls.Exec(s, Rounds(CRASH_LIMIT));
    FlapTwice(mid.s, CRASH_LIMIT);
    var s1 := Calls.Step(mid.s, GONE).s;
    hide Calls.Step;
    Calls.ExecCons(s1, GONE, []);
    Calls.ExecCons(mid.s, GONE, [GONE]);
    assert [GONE] + [] == [GONE];
    Calls.ExecAppend(s, Rounds(CRASH_LIMIT), [GONE] + [GONE]);
    var l := ByMonitor(Relaunch(s.clock, false, false));
    assert Calls.Exec(mid.s, [GONE] + [GONE]).launches == [l, l];
    RelaunchesAppend(mid.launches, [l, l]);
    OneRelaunch(l.relaunch);
    RelaunchesAppend([l], [l]);
    assert [l] + [l] == [l, l];
  }

  /** Nor can the bound with late lines: k of them and 17 + 2k relaunches fit into one window. */
  lemma LateBoundIsMet(s: Net, k: nat) returns (acts: seq<Act>)
    requires Retrying(s, 0) && StartsFinished(s) && s.m.crashTimes == []
    ensures NoStartCalls(acts) && LateLines(s, acts) == k
    ensures var made := Relaunches(Run(s, acts).launches);
            |made| == 17 + 2 * k && AllAt(made, s.clock)
  {
    hide Run; hide Step; hide Calls.Step;
    var ops := Rounds(CRASH_LIMIT) + ([GONE] + [GONE]);
    DoubleCycles(s, k);
    DoublesNeverStart(k);
    var t := Run(s, Doubles(k)).s;
    var one := Calls.One(t.m, t.updating, t.provisioning, t.shuttingDown, t.clock);
    BoundIsMet(one);
    RoundsNeverStart(CRASH_LIMIT);
    CallsRefine(one, ops, t);
    NoLateLines(t, ScheduleAll(t, ops));
    acts := Doubles(k) + ScheduleAll(t, ops);
    RunAppend(s, Doubles(k), ScheduleAll(t, ops));
    LateLinesAppend(s, Doubles(k), ScheduleAll(t, ops));
    RelaunchesAppend(Run(s, Doubles(k)).launches, Run(t, ScheduleAll(t, ops)).launches);
  }

  lemma {:induction false} RoundsNeverStart(n: nat)
    ensures Calls.NoStarts(Rounds(n)) && Calls.NoStarts(Rounds(n) + ([GONE] + [GONE]))
  {
    if n > 0 { RoundsNeverStart(n - 1); }
  }

  /** Nor the extra one: a start that settles while a relaunch is decided clears the account, and
      the pending relaunch comes on top of all that the bound allows. */
  lemma ExtraIsReached(s: Net, k: nat) returns (acts: seq<Act>)
    requires Retrying(s, 0) && s.starts == []
    ensures var t := Run(s, PASS + WHOLE_START).s;
            && StartsFinished(t) && t.monitor.Announcing?
            && NoStartCalls(acts) && LateLines(t, acts) == k
            && var made := Relaunches(Run(t, acts).launches);
               |made| == 18 + 2 * k && AllAt(made, t.clock)
  {
    hide Run; hide Step; hide LateLines;
    PassDecides(s, 0);
    var s1 := Run(s, PASS).s;
    WholeStart(s1);
    RunAppend(s, PASS, WHOLE_START);
    var t := Run(s1, WHOLE_START).s;
    RelaunchHappens(t);
    var u := Run(t, RELAUNCH).s;
    var rest := LateBoundIsMet(u, k);
    acts := RELAUNCH + rest;
    RunAppend(t, RELAUNCH, rest);
    LateLinesAppend(t, RELAUNCH, rest);
    NoReadyLines(t, RELAUNCH);
    OneRelaunch(t.monitor.pending);
    RelaunchesAppend([ByMonitor(t.monitor.pending)], Run(u, rest).launches);
  }
}
