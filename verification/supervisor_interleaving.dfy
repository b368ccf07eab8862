/** The supervisor's calls cut at the points where they wait.

    asyncio runs one task at a time and switches only at an await, so a stretch between two
    awaits is one step here and any other step may come between two stretches. The monitor
    has one pass in flight at a time; any number of start calls may be in flight. What the
    other calls do to the bookkeeping is done in the first stretch of stop, kill and update,
    and the steps below are those stretches.

    Weaker theorems hold here than for whole calls. Each comes with the run that shows why
    the stronger one fails and with the condition under which it does not. */
module SupervisorInterleaving {
  import opened Options
  import opened RelaunchHistory
  import opened SupervisorPolicy

  /** Where the monitor's pass over the instance stands. */
  datatype MonitorPc =
    | Idle
    | Probing                          // has_session
    | ReadingStatus                    // the recorded exit status, for a run that came up
    | Draining                         // the log's last lines, before reporting a clean exit
    | Replaying                        // the raw pane, before counting a failure
    | Announcing(pending: Relaunch)    // decided to relaunch; _launch has not reset the run yet
    | Settling                         // session requested; settle window

  /** Where one start call stands. */
  datatype StartPc = AtProbe | AtLaunch | AtSettle | Finished

  datatype Net = Net(
    m: Managed,
    updating: Option<RunState>,
    provisioning: bool,
    shuttingDown: bool,
    clock: Time,
    monitor: MonitorPc,
    starts: seq<StartPc>)

  /** One stretch. A stretch whose task is not waiting there changes nothing. */
  datatype Act =
    | Tick(to: Time)
    | Respec(policy: RestartPolicy)
    | MonitorBegin
    | MonitorProbed(alive: bool)
    | MonitorStatus(status: Option<int>, problem: bool)
    | MonitorReplayed(problem: bool)
    | MonitorDrained
    | MonitorLaunch
    | MonitorSettled(launch: LaunchOutcome)
    | StartCalled(policy: RestartPolicy)
    | StartProbed(task: nat, alive: bool, problem: bool)
    | StartLaunch(task: nat)
    | StartSettled(task: nat, launch: LaunchOutcome)
    | StopCalled(policy: RestartPolicy)         // first stretch of stop and of kill
    | Reported(state: RunState)                 // their later stretches
    | UpdateClaimed(policy: RestartPolicy, alive: bool)
    | UpdateEnded(ok: bool)
    | UpdateCancelled                           // its task was cancelled: no report, no fallback
    | Provision(on: bool)
    | ReadyLine
    | Shutdown

  datatype Outcome = Outcome(s: Net, events: seq<Event>, launches: seq<Launch>)

  function Stay(s: Net): Outcome { Outcome(s, [], []) }

  function DecideStep(s: Net, problem: bool, cleanExit: bool): Outcome {
    var (m, again) := Decide(s.m, s.clock, problem, cleanExit);
    Outcome(s.(m := m, monitor := if again then Announcing(Relaunch(s.clock, s.m.ready, false)) else Idle),
            [Report(m, false)], [])
  }

  function MonitorStep(s: Net, a: Act): Outcome {
    match a
    case MonitorBegin =>
      if !s.monitor.Idle? || s.shuttingDown || s.updating.Some? || s.provisioning then Stay(s)
      else Stay(s.(monitor := Probing))
    case MonitorProbed(alive) =>
      if !s.monitor.Probing? then Stay(s)
      else if alive then
        var (m, events) := if s.m.ready then (s.m, []) else StartupGrace(s.m, s.clock);
        Outcome(s.(m := m, monitor := Idle), events, [])
      else if !s.m.shouldBeUp then Stay(s.(monitor := Idle))
      else if s.m.ready then Stay(s.(monitor := ReadingStatus))
      else Stay(s.(monitor := Replaying))
    case MonitorStatus(status, problem) =>
      if !s.monitor.ReadingStatus? then Stay(s)
      else if status == Some(0) && !s.m.policy.Always? then
        Stay(s.(m := StandDown(s.m), monitor := Draining))
      else if status == Some(0) then DecideStep(s, problem, true)
      else Stay(s.(monitor := Replaying))
    case MonitorReplayed(problem) =>
      if !s.monitor.Replaying? then Stay(s) else DecideStep(s, problem, false)
    case MonitorDrained =>
      if !s.monitor.Draining? then Stay(s)
      else
        var m := s.m.(state := Stopped);
        Outcome(s.(m := m, monitor := Idle), [Report(m, true)], [])
    case MonitorLaunch =>
      if !s.monitor.Announcing? then Stay(s)
      else Outcome(s.(m := ResetForLaunch(s.m, s.clock), monitor := Settling), [],
                   [ByMonitor(s.monitor.pending)])
    case MonitorSettled(launch) =>
      if !s.monitor.Settling? then Stay(s)
      else
        var m := SettleRelaunch(s.m, launch);
        Outcome(s.(m := m, monitor := Idle), [Report(m, false)], [])
    case _ => Stay(s)
  }

  function StartStep(s: Net, a: Act): Outcome {
    match a
    case StartCalled(policy) =>
      var called := s.(m := s.m.(policy := policy));
      if s.updating.Some? then Stay(called) else Stay(called.(starts := s.starts + [AtProbe]))
    case StartProbed(task, alive, problem) =>
      if task >= |s.starts| || !s.starts[task].AtProbe? then Stay(s)
      else if alive then
        var (m, events) := Adopt(s.m);
        Outcome(s.(m := m, starts := s.starts[task := Finished]), events, [])
      else
        var m := s.m.(state := if problem then Stopped else Starting);
        Outcome(s.(m := m, starts := s.starts[task := if problem then Finished else AtLaunch]),
                [Report(m, false)], [])
    case StartLaunch(task) =>
      if task >= |s.starts| || !s.starts[task].AtLaunch? then Stay(s)
      else Outcome(s.(m := ResetForLaunch(s.m, s.clock), starts := s.starts[task := AtSettle]), [],
                   [ByOperator(s.clock)])
    case StartSettled(task, launch) =>
      if task >= |s.starts| || !s.starts[task].AtSettle? then Stay(s)
      else
        var (m, events) := SettleStart(s.m, launch);
        Outcome(s.(m := m, starts := s.starts[task := Finished]), events, [])
    case _ => Stay(s)
  }

  /** The run the monitor has just counted as never having come up is still marked so, and _launch
      has not reset it: a readiness line read now wipes the failure from the count. */
  predicate ClearsLate(s: Net) {
    s.monitor.Announcing? && !s.monitor.pending.afterReady && !s.m.ready
  }

  /** The decided relaunch remembers such a line. */
  function Overheard(s: Net): MonitorPc {
    if ClearsLate(s) then Announcing(s.monitor.pending.(late := true)) else s.monitor
  }

  function OtherStep(s: Net, a: Act): Outcome {
    match a
    case Tick(to) => Stay(if to >= s.clock then s.(clock := to) else s)
    case Respec(policy) => Stay(s.(m := s.m.(policy := policy)))
    case StopCalled(policy) => Stay(s.(m := s.m.(policy := policy, shouldBeUp := false)))
    case Reported(state) =>
      var m := s.m.(state := state);
      Outcome(s.(m := m), [Report(m, false)], [])
    case UpdateClaimed(policy, alive) =>
      var m := s.m.(policy := policy);
      if alive || s.updating.Some? then Stay(s.(m := m))
      else Outcome(s.(m := m.(state := Updating), updating := Some(m.state)),
                   [Report(m.(state := Updating), false)], [])
    case UpdateEnded(ok) =>
      if s.updating.None? then Stay(s)
      else
        var after := if ok || s.updating.value.Updating? then Stopped else s.updating.value;
        var m := s.m.(state := after);
        Outcome(s.(m := m, updating := None), [Report(m, false)], [])
    case UpdateCancelled => Stay(s.(updating := None))
    case Provision(on) => Stay(s.(provisioning := on))
    case ReadyLine =>
      var (m, events) := OnReady(s.m);
      Outcome(s.(m := m, monitor := Overheard(s)), events, [])
    case Shutdown => Stay(s.(m := s.m.(shouldBeUp := false), shuttingDown := true))
    case _ => Stay(s)
  }

  predicate ByMonitorTask(a: Act) {
    a.MonitorBegin? || a.MonitorProbed? || a.MonitorStatus? || a.MonitorReplayed? ||
    a.MonitorDrained? || a.MonitorLaunch? || a.MonitorSettled?
  }

  predicate ByStartTask(a: Act) {
    a.StartCalled? || a.StartProbed? || a.StartLaunch? || a.StartSettled?
  }

  function Step(s: Net, a: Act): Outcome {
    if ByMonitorTask(a) then MonitorStep(s, a)
    else if ByStartTask(a) then StartStep(s, a)
    else OtherStep(s, a)
  }

  lemma OfMonitor(s: Net, a: Act)
    requires ByMonitorTask(a)
    ensures Step(s, a) == MonitorStep(s, a)
  {
  }

  lemma OfOther(s: Net, a: Act)
    requires !ByMonitorTask(a) && !ByStartTask(a)
    ensures Step(s, a) == OtherStep(s, a)
  {
  }

  function Run(s: Net, acts: seq<Act>): Outcome
    decreases |acts|
  {
    if acts == [] then Stay(s)
    else
      var first := Step(s, acts[0]);
      var rest := Run(first.s, acts[1..]);
      Outcome(rest.s, first.events + rest.events, first.launches + rest.launches)
  }

  lemma {:induction false} RunAppend(s: Net, a: seq<Act>, b: seq<Act>)
    ensures Run(s, a + b).s == Run(Run(s, a).s, b).s
    ensures Run(s, a + b).events == Run(s, a).events + Run(Run(s, a).s, b).events
    ensures Run(s, a + b).launches == Run(s, a).launches + Run(Run(s, a).s, b).launches
    decreases |a|
  {
    hide Step;
    if a == [] {
      assert a + b == b;
      var r := Run(s, b);
      assert [] + r.events == r.events && [] + r.launches == r.launches;
    } else {
      assert (a + b)[1..] == a[1..] + b;
      var first := Step(s, a[0]);
      RunAppend(first.s, a[1..], b);
      var mid, last := Run(first.s, a[1..]), Run(Run(first.s, a[1..]).s, b);
      assert first.events + (mid.events + last.events) == (first.events + mid.events) + last.events;
      assert first.launches + (mid.launches + last.launches) == (first.launches + mid.launches) + last.launches;
    }
  }

  lemma RunOne(s: Net, a: Act)
    ensures Run(s, [a]) == Step(s, a)
  {
    var first := Step(s, a);
    assert [a][1..] == [] && Run(first.s, []) == Stay(first.s);
    assert first.events + [] == first.events && first.launches + [] == first.launches;
  }

  lemma RunCons(s: Net, a: Act, rest: seq<Act>)
    ensures var first, last := Step(s, a), Run(Step(s, a).s, rest);
            Run(s, [a] + rest) == Outcome(last.s, first.events + last.events, first.launches + last.launches)
  {
    assert ([a] + rest)[1..] == rest;
  }

  predicate NoStartCalls(acts: seq<Act>) {
    forall i :: 0 <= i < |acts| ==> !acts[i].StartCalled?
  }

  predicate StartsFinished(s: Net) {
    forall i :: 0 <= i < |s.starts| ==> s.starts[i].Finished?
  }

  // ---- Stopping --------------------------------------------------------------------------

  /** The monitor's pass is beyond its should_be_up test and has not launched yet. */
  predicate BeyondTest(pc: MonitorPc) {
    pc.ReadingStatus? || pc.Replaying? || pc.Announcing?
  }

  lemma StepDown(s: Net, a: Act)
    requires !s.m.shouldBeUp && StartsFinished(s) && !a.StartCalled?
    ensures var r := Step(s, a);
            && !r.s.m.shouldBeUp && r.s.starts == s.starts
            && |r.launches| + (if BeyondTest(r.s.monitor) then 1 else 0)
                 <= (if BeyondTest(s.monitor) then 1 else 0)
  {
    hide Recent;
    if ByStartTask(a) {
      assert Step(s, a) == Stay(s);
    } else {
      hide StartsFinished;
    }
  }

  /** After a stop or a kill, with no start in flight or arriving, should_be_up stays false for
      ever and at most one launch follows; none does unless the monitor was beyond its test. */
  lemma {:induction false} AtMostOneLaunchAfterStop(s: Net, acts: seq<Act>)
    requires !s.m.shouldBeUp && StartsFinished(s) && NoStartCalls(acts)
    ensures !Run(s, acts).s.m.shouldBeUp
    ensures |Run(s, acts).launches| <= if BeyondTest(s.monitor) then 1 else 0
    decreases |acts|
  {
    if acts != [] {
      StepDown(s, acts[0]);
      AtMostOneLaunchAfterStop(Step(s, acts[0]).s, acts[1..]);
    }
  }

  /** From a decision point with a fresh readiness line and an old enough clock, the policy
      relaunches. */
  lemma DecisionCanLaunch(s: Net)
    requires s.monitor.Replaying? && s.m.ready && !s.m.policy.Never?
    requires Recent(s.m.crashTimes, s.clock) == []
    ensures |Run(s, [MonitorReplayed(false), MonitorLaunch]).launches| == 1
  {
    var s1 := Step(s, MonitorReplayed(false)).s;
    assert s1.monitor.Announcing?;
    assert [MonitorReplayed(false), MonitorLaunch] == [MonitorReplayed(false)] + [MonitorLaunch];
    RunCons(s, MonitorReplayed(false), [MonitorLaunch]);
    RunOne(s1, MonitorLaunch);
  }

  /** Whether a launch can still follow is decided by where the monitor stands and by nothing
      else: beyond its test some continuation launches, before it none does. */
  lemma LaunchAfterStopExactly(s: Net)
    requires !s.m.shouldBeUp && StartsFinished(s)
    ensures (exists acts :: NoStartCalls(acts) && Run(s, acts).launches != []) <==> BeyondTest(s.monitor)
  {
    if BeyondTest(s.monitor) {
      var acts := LaunchingContinuation(s);
      assert NoStartCalls(acts) && Run(s, acts).launches != [];
    } else {
      forall acts | NoStartCalls(acts) ensures Run(s, acts).launches == [] {
        AtMostOneLaunchAfterStop(s, acts);
      }
    }
  }

  /** Such a state comes about: a stop that lands while the exit status is being read. */
  lemma StopCanLandBeyondTest()
    ensures var s := Run(CAME_UP, [MonitorBegin] + ([MonitorProbed(false)] + [StopCalled(OnCrash)])).s;
            !s.m.shouldBeUp && StartsFinished(s) && BeyondTest(s.monitor)
  {
    hide Run;
    var s1 := Step(CAME_UP, MonitorBegin).s;
    var s2 := Step(s1, MonitorProbed(false)).s;
    RunOne(s2, StopCalled(OnCrash));
    RunCons(s1, MonitorProbed(false), [StopCalled(OnCrash)]);
    RunCons(CAME_UP, MonitorBegin, [MonitorProbed(false)] + [StopCalled(OnCrash)]);
  }

  lemma LaunchingContinuation(s: Net) returns (acts: seq<Act>)
    requires BeyondTest(s.monitor)
    ensures NoStartCalls(acts) && Uninterrupted(acts) && Run(s, acts).launches != []
  {
    if s.monitor.Announcing? {
      acts := [MonitorLaunch];
      RunOne(s, MonitorLaunch);
    } else {
      acts := LaterLaunch(s);
    }
  }

  /** Enough time passes for every exit to be forgotten, the run announces itself, and the policy
      relaunches. */
  lemma LaterLaunch(s: Net) returns (acts: seq<Act>)
    requires s.monitor.ReadingStatus? || s.monitor.Replaying?
    ensures NoStartCalls(acts) && Uninterrupted(acts) && Run(s, acts).launches != []
  {
    hide Run; hide Recent; hide Step; hide Lead; hide NoStartCalls; hide Uninterrupted;
    var late := EventuallyForgotten(s.m.crashTimes);
    var to := if late >= s.clock then late else s.clock;
    RecentNoneLater(s.m.crashTimes, late, to);
    ReachDecision(s, to);
    var last := [MonitorReplayed(false), MonitorLaunch];
    DecisionCanLaunch(Run(s, Lead(to)).s);
    acts := Lead(to) + last;
    LeadHarmless(to);
    RunAppend(s, Lead(to), last);
  }

  lemma LeadHarmless(to: Time)
    ensures NoStartCalls(Lead(to) + [MonitorReplayed(false), MonitorLaunch])
    ensures Uninterrupted(Lead(to) + [MonitorReplayed(false), MonitorLaunch])
  {
  }

  function Lead(to: Time): seq<Act> {
    [Tick(to), Respec(OnCrash), MonitorStatus(None, false), ReadyLine]
  }

  lemma ReachDecision(s: Net, to: Time)
    requires s.monitor.ReadingStatus? || s.monitor.Replaying?
    requires to >= s.clock
    ensures var r := Run(s, Lead(to)).s;
            && r.monitor.Replaying? && r.m.ready && r.clock == to
            && r.m.crashTimes == s.m.crashTimes && r.m.policy.OnCrash?
            && r.m.shouldBeUp == s.m.shouldBeUp && r.starts == s.starts && r.shuttingDown == s.shuttingDown
  {
    hide Run;
    var s1 := Step(s, Tick(to)).s;
    var s2 := Step(s1, Respec(OnCrash)).s;
    var s3 := Step(s2, MonitorStatus(None, false)).s;
    var s4 := Step(s3, ReadyLine).s;
    assert s4.monitor.Replaying? && s4.m.ready && s4.clock == to;
    assert s4.m.crashTimes == s.m.crashTimes && s4.m.policy.OnCrash?;
    assert s4.m.shouldBeUp == s.m.shouldBeUp && s4.starts == s.starts && s4.shuttingDown == s.shuttingDown;
    hide Step;
    RunOne(s3, ReadyLine);
    RunCons(s2, MonitorStatus(None, false), [ReadyLine]);
    RunCons(s1, Respec(OnCrash), [MonitorStatus(None, false)] + [ReadyLine]);
    RunCons(s, Tick(to), [Respec(OnCrash)] + ([MonitorStatus(None, false)] + [ReadyLine]));
    assert Lead(to) == [Tick(to)] + ([Respec(OnCrash)] + ([MonitorStatus(None, false)] + [ReadyLine]));
  }

  lemma RecentNoneLater(times: seq<Time>, now: Time, later: Time)
    requires Recent(times, now) == [] && now <= later
    ensures Recent(times, later) == []
  {
    RecentTwice(times, now, later);
  }

  // ---- Start calls in flight -------------------------------------------------------------

  function Unfinished(starts: seq<StartPc>): nat {
    if starts == [] then 0
    else (if starts[0].AtProbe? || starts[0].AtLaunch? then 1 else 0) + Unfinished(starts[1..])
  }

  lemma {:induction false} UnfinishedUpdate(starts: seq<StartPc>, i: nat, pc: StartPc)
    requires i < |starts|
    ensures Unfinished(starts[i := pc]) + (if starts[i].AtProbe? || starts[i].AtLaunch? then 1 else 0)
         == Unfinished(starts) + (if pc.AtProbe? || pc.AtLaunch? then 1 else 0)
  {
    if i == 0 {
      assert starts[i := pc][1..] == starts[1..];
    } else {
      assert starts[i := pc][1..] == starts[1..][i - 1 := pc];
      UnfinishedUpdate(starts[1..], i - 1, pc);
    }
  }

  /** Nothing ends an update in progress. */
  predicate EndsUpdate(a: Act) {
    a.UpdateEnded? || a.UpdateCancelled?
  }

  predicate Uninterrupted(acts: seq<Act>) {
    forall i :: 0 <= i < |acts| ==> !EndsUpdate(acts[i])
  }

  lemma SettleAlive(s: Net, i: nat)
    requires i < |s.starts| && s.starts[i].AtSettle?
    ensures var r := Run(s, [StartSettled(i, Alive)]);
            && r.events == [] && r.launches == []
            && r.s == s.(m := s.m.(shouldBeUp := true, crashTimes := [], launchFailures := 0),
                         starts := s.starts[i := Finished])
  {
    hide Run; hide MonitorStep; hide OtherStep;
    RunOne(s, StartSettled(i, Alive));
  }

  lemma LaunchTask(s: Net, i: nat)
    requires i < |s.starts| && s.starts[i].AtLaunch?
    ensures var r := Run(s, [StartLaunch(i)]);
            && r.launches == [ByOperator(s.clock)]
            && r.s == s.(m := ResetForLaunch(s.m, s.clock), starts := s.starts[i := AtSettle])
  {
    hide Run; hide MonitorStep; hide OtherStep;
    RunOne(s, StartLaunch(i));
  }

  lemma ProbeTask(s: Net, i: nat)
    requires i < |s.starts| && s.starts[i].AtProbe?
    ensures var r := Run(s, [StartProbed(i, false, false)]);
            && r.launches == []
            && r.s == s.(m := s.m.(state := Starting), starts := s.starts[i := AtLaunch])
  {
    hide Run; hide MonitorStep; hide OtherStep;
    RunOne(s, StartProbed(i, false, false));
  }

  /** A start in flight can always come to set should_be_up, whatever the monitor is doing. */
  lemma StartCanSettle(s: Net, i: nat) returns (acts: seq<Act>)
    requires i < |s.starts| && !s.starts[i].Finished?
    ensures NoStartCalls(acts) && Uninterrupted(acts)
    ensures var t := Run(s, acts).s;
            && t.m.shouldBeUp && t.monitor == s.monitor && t.updating == s.updating
            && t.starts == s.starts[i := Finished] && t.shuttingDown == s.shuttingDown
  {
    hide Run;
    var last := [StartSettled(i, Alive)];
    if s.starts[i].AtSettle? {
      SettleAlive(s, i);
      return last;
    }
    if s.starts[i].AtLaunch? {
      LaunchTask(s, i);
      SettleAlive(Run(s, [StartLaunch(i)]).s, i);
      RunAppend(s, [StartLaunch(i)], last);
      return [StartLaunch(i)] + last;
    }
    var probe := [StartProbed(i, false, false)];
    ProbeTask(s, i);
    var s1 := Run(s, probe).s;
    LaunchTask(s1, i);
    SettleAlive(Run(s1, [StartLaunch(i)]).s, i);
    RunAppend(s1, [StartLaunch(i)], last);
    RunAppend(s, probe, [StartLaunch(i)] + last);
    acts := probe + ([StartLaunch(i)] + last);
  }

  ghost predicate AllByOperator(launches: seq<Launch>) {
    forall i :: 0 <= i < |launches| ==> launches[i].ByOperator?
  }

  /** Start calls from the n-th on have all launched; the rest of the supervisor is as it was. */
  ghost predicate Launched(s: Net, t: Net, n: nat) {
    && t.monitor == s.monitor && t.updating == s.updating && t.m.shouldBeUp == s.m.shouldBeUp
    && |t.starts| == |s.starts|
    && (forall i :: 0 <= i < |s.starts| ==>
          t.starts[i] == if i >= n && !s.starts[i].Finished? then AtSettle else s.starts[i])
  }

  /** One start call launches. */
  lemma LaunchOne(s: Net, i: nat) returns (acts: seq<Act>)
    requires i < |s.starts|
    ensures Uninterrupted(acts)
    ensures var r := Run(s, acts);
            && AllByOperator(r.launches)
            && |r.launches| == (if s.starts[i].AtProbe? || s.starts[i].AtLaunch? then 1 else 0)
            && r.s.monitor == s.monitor && r.s.updating == s.updating && r.s.m.shouldBeUp == s.m.shouldBeUp
            && r.s.starts == s.starts[i := if s.starts[i].Finished? then Finished else AtSettle]
  {
    hide Run;
    if s.starts[i].AtProbe? {
      var probe := [StartProbed(i, false, false)];
      ProbeTask(s, i);
      LaunchTask(Run(s, probe).s, i);
      RunAppend(s, probe, [StartLaunch(i)]);
      acts := probe + [StartLaunch(i)];
    } else if s.starts[i].AtLaunch? {
      LaunchTask(s, i);
      acts := [StartLaunch(i)];
    } else {
      acts := [];
      assert Run(s, []) == Stay(s) by { RunNothing(s); }
    }
  }

  lemma RunNothing(s: Net)
    ensures Run(s, []) == Stay(s)
  {
  }

  lemma {:induction false} LaunchAll(s: Net, n: nat) returns (acts: seq<Act>)
    requires n <= |s.starts|
    ensures Uninterrupted(acts)
    ensures var r := Run(s, acts);
            AllByOperator(r.launches) && |r.launches| == Unfinished(s.starts[n..]) && Launched(s, r.s, n)
    decreases |s.starts| - n
  {
    hide Run;
    if n == |s.starts| {
      acts := [];
      RunNothing(s);
    } else {
      var one := LaunchOne(s, n);
      var t := Run(s, one).s;
      var rest := LaunchAll(t, n + 1);
      RunAppend(s, one, rest);
      acts := one + rest;
      assert s.starts[n..][1..] == s.starts[n + 1..] == t.starts[n + 1..];
    }
  }

  // ---- Updates ---------------------------------------------------------------------------

  /** The monitor's pass can still come to a launch: it is beyond its test, or it will test an
      instance that is up or that a start in flight can set up. */
  predicate MonitorMayLaunch(s: Net) {
    BeyondTest(s.monitor) || (s.monitor.Probing? && (s.m.shouldBeUp || !StartsFinished(s)))
  }

  /** The tasks that have already passed the test that an update in progress fails. */
  function PastGate(s: Net): nat {
    Unfinished(s.starts) + (if MonitorMayLaunch(s) then 1 else 0)
  }

  lemma StartStepUpdating(s: Net, a: Act)
    requires s.updating.Some? && ByStartTask(a)
    ensures var r := StartStep(s, a);
            && r.s.updating.Some? && |r.launches| + PastGate(r.s) <= PastGate(s)
            && |r.launches| + Unfinished(r.s.starts) <= Unfinished(s.starts)
  {
    if !a.StartCalled? && a.task < |s.starts| {
      UnfinishedUpdate(s.starts, a.task, AtLaunch);
      UnfinishedUpdate(s.starts, a.task, AtSettle);
      UnfinishedUpdate(s.starts, a.task, Finished);
      hide Unfinished;
    }
  }

  lemma MonitorStepUpdating(s: Net, a: Act)
    requires s.updating.Some? && ByMonitorTask(a)
    ensures var r := MonitorStep(s, a);
            && r.s.updating.Some? && |r.launches| + PastGate(r.s) <= PastGate(s)
            && r.s.starts == s.starts && !HasOperatorLaunch(r.launches)
  {
    hide Unfinished; hide Recent; hide Decide; hide StartupGrace;
    if a.MonitorProbed? { SameStarts(s, a); }
  }

  lemma SameStarts(s: Net, a: Act)
    requires ByMonitorTask(a)
    ensures MonitorStep(s, a).s.starts == s.starts
  {
  }

  lemma StepUpdating(s: Net, a: Act)
    requires s.updating.Some? && !EndsUpdate(a)
    ensures Step(s, a).s.updating.Some?
    ensures |Step(s, a).launches| + PastGate(Step(s, a).s) <= PastGate(s)
    ensures Unfinished(Step(s, a).s.starts) <= Unfinished(s.starts)
    ensures Unfinished(s.starts) == 0 ==> !HasOperatorLaunch(Step(s, a).launches)
  {
    hide Unfinished;
    if ByMonitorTask(a) {
      hide PastGate; hide MonitorStep; hide StartStep; hide OtherStep;
      MonitorStepUpdating(s, a);
    } else if ByStartTask(a) {
      hide PastGate; hide MonitorStep; hide StartStep; hide OtherStep;
      StartStepUpdating(s, a);
    } else {
      hide MonitorStep; hide StartStep;
    }
  }

  predicate HasOperatorLaunch(launches: seq<Launch>) {
    exists i :: 0 <= i < |launches| && launches[i].ByOperator?
  }

  lemma {:induction false} RunUpdating(s: Net, acts: seq<Act>)
    requires s.updating.Some? && Uninterrupted(acts)
    ensures |Run(s, acts).launches| <= PastGate(s)
    ensures Unfinished(s.starts) == 0 ==> !HasOperatorLaunch(Run(s, acts).launches)
    decreases |acts|
  {
    hide Step;
    hide PastGate;
    if acts != [] {
      assert !EndsUpdate(acts[0]);
      StepUpdating(s, acts[0]);
      RunUpdating(Step(s, acts[0]).s, acts[1..]);
    }
  }

  lemma MostLaunches(s: Net) returns (acts: seq<Act>)
    requires s.updating.Some?
    ensures Uninterrupted(acts)
    ensures |Run(s, acts).launches| >= PastGate(s)
    ensures Unfinished(s.starts) > 0 ==> HasOperatorLaunch(Run(s, acts).launches)
  {
    hide Run;
    acts := LaunchAll(s, 0);
    assert s.starts[0..] == s.starts;
    var t := Run(s, acts);
    if Unfinished(s.starts) > 0 { assert t.launches[0].ByOperator?; }
    if MonitorMayLaunch(s) {
      var last := MonitorLaunches(t.s);
      RunAppend(s, acts, last);
      var all := Run(s, acts + last).launches;
      if Unfinished(s.starts) > 0 { assert all[0] == t.launches[0]; }
      acts := acts + last;
    }
  }

  lemma MonitorLaunches(s: Net) returns (acts: seq<Act>)
    requires MonitorMayLaunch(s)
    ensures Uninterrupted(acts) && Run(s, acts).launches != []
    decreases !s.m.shouldBeUp
  {
    hide Run;
    if BeyondTest(s.monitor) {
      acts := LaunchingContinuation(s);
    } else if s.m.shouldBeUp {
      var probed := Step(s, MonitorProbed(false)).s;
      assert BeyondTest(probed.monitor);
      RunOne(s, MonitorProbed(false));
      var rest := LaunchingContinuation(probed);
      RunAppend(s, [MonitorProbed(false)], rest);
      acts := [MonitorProbed(false)] + rest;
    } else {
      var i :| 0 <= i < |s.starts| && !s.starts[i].Finished?;
      var settle := StartCanSettle(s, i);
      var t := Run(s, settle).s;
      var rest := MonitorLaunches(t);
      RunAppend(s, settle, rest);
      acts := settle + rest;
    }
  }

  /** While an update is in progress at most PastGate launches happen, one for each task that had
      passed its test before the update claimed the instance, and some continuation makes that
      many. So one launches an operator's start exactly when a start is before its launch, and
      one launches at all exactly when such a start exists or the monitor may still launch. */
  lemma LaunchesDuringUpdate(s: Net)
    requires s.updating.Some?
    ensures forall acts | Uninterrupted(acts) :: |Run(s, acts).launches| <= PastGate(s)
    ensures exists acts :: Uninterrupted(acts) && |Run(s, acts).launches| == PastGate(s)
    ensures (exists acts :: Uninterrupted(acts) && HasOperatorLaunch(Run(s, acts).launches))
        <==> Unfinished(s.starts) > 0
    ensures (exists acts :: Uninterrupted(acts) && Run(s, acts).launches != [])
        <==> Unfinished(s.starts) > 0 || MonitorMayLaunch(s)
  {
    hide Run;
    hide MonitorMayLaunch;
    forall acts | Uninterrupted(acts)
      ensures |Run(s, acts).launches| <= PastGate(s)
      ensures Unfinished(s.starts) == 0 ==> !HasOperatorLaunch(Run(s, acts).launches)
    {
      RunUpdating(s, acts);
    }
    var most := MostLaunches(s);
    assert Uninterrupted(most) && |Run(s, most).launches| == PastGate(s);
  }

  const QUIET: Net :=
    Net(Fresh(OnCrash), None, false, false, 1.0, Idle, [])

  /** start tests for an update and then waits, and so does the update for a session, so the
      two can pass each other: this run launches a server whose jar is being replaced. */
  lemma UpdateAndStartCanOverlap()
    ensures var acts := [StartCalled(OnCrash)] + ([StartProbed(0, false, false)] +
                        ([UpdateClaimed(OnCrash, false)] + [StartLaunch(0)]));
            Run(QUIET, acts).s.updating.Some? && Run(QUIET, acts).launches == [ByOperator(1.0)]
  {
    hide Run;
    CallTask(QUIET);
    var s1 := Run(QUIET, [StartCalled(OnCrash)]).s;
    ProbeTask(s1, 0);
    var s2 := Run(s1, [StartProbed(0, false, false)]).s;
    ClaimUpdate(s2);
    var s3 := Run(s2, [UpdateClaimed(OnCrash, false)]).s;
    LaunchTask(s3, 0);
    RunAppend(s2, [UpdateClaimed(OnCrash, false)], [StartLaunch(0)]);
    RunAppend(s1, [StartProbed(0, false, false)], [UpdateClaimed(OnCrash, false)] + [StartLaunch(0)]);
    RunAppend(QUIET, [StartCalled(OnCrash)],
              [StartProbed(0, false, false)] + ([UpdateClaimed(OnCrash, false)] + [StartLaunch(0)]));
  }

  lemma CallTask(s: Net)
    requires s.updating.None?
    ensures var r := Run(s, [StartCalled(OnCrash)]);
            r.launches == [] && r.s == s.(m := s.m.(policy := OnCrash), starts := s.starts + [AtProbe])
  {
    hide Run; hide MonitorStep; hide OtherStep;
    RunOne(s, StartCalled(OnCrash));
  }

  lemma ClaimUpdate(s: Net)
    requires s.updating.None?
    ensures var r := Run(s, [UpdateClaimed(OnCrash, false)]);
            r.launches == [] && r.s.updating.Some? && r.s.starts == s.starts && r.s.clock == s.clock
  {
    hide Run; hide MonitorStep; hide StartStep;
    RunOne(s, UpdateClaimed(OnCrash, false));
  }

  // ---- Clean exits -----------------------------------------------------------------------

  /** Every clean exit in the list is reported while the agent is not keeping the instance up. */
  ghost predicate CleanExitsUnsupervised(events: seq<Event>) {
    forall i :: 0 <= i < |events| && events[i].cleanExit ==> !events[i].supervised
  }

  lemma MonitorCleanExit(s: Net, a: Act)
    requires (s.monitor.Draining? ==> !s.m.shouldBeUp) && ByMonitorTask(a)
    ensures CleanExitsUnsupervised(MonitorStep(s, a).events)
    ensures MonitorStep(s, a).s.starts == s.starts
    ensures MonitorStep(s, a).s.monitor.Draining? ==> !MonitorStep(s, a).s.m.shouldBeUp
  {
    hide Recent; hide GivesUp;
  }

  lemma OtherCleanExit(s: Net, a: Act)
    requires s.monitor.Draining? ==> !s.m.shouldBeUp
    ensures CleanExitsUnsupervised(OtherStep(s, a).events)
    ensures OtherStep(s, a).s.starts == s.starts
    ensures OtherStep(s, a).s.monitor.Draining? ==> !OtherStep(s, a).s.m.shouldBeUp
  {
  }

  lemma StepCleanExit(s: Net, a: Act)
    requires s.monitor.Draining? ==> !s.m.shouldBeUp
    requires StartsFinished(s) && !a.StartCalled?
    ensures CleanExitsUnsupervised(Step(s, a).events)
    ensures StartsFinished(Step(s, a).s)
    ensures Step(s, a).s.monitor.Draining? ==> !Step(s, a).s.m.shouldBeUp
  {
    if ByStartTask(a) {
      assert Step(s, a) == Stay(s);
    } else if ByMonitorTask(a) {
      hide MonitorStep; hide OtherStep; hide StartStep; hide CleanExitsUnsupervised;
      MonitorCleanExit(s, a);
    } else {
      hide MonitorStep; hide OtherStep; hide StartStep; hide CleanExitsUnsupervised;
      OtherCleanExit(s, a);
    }
  }

  /** As long as no start overlaps the monitor's pass, a clean exit is never reported for an
      instance the agent is keeping up. */
  lemma {:induction false} CleanExitsWithoutStarts(s: Net, acts: seq<Act>)
    requires s.monitor.Draining? ==> !s.m.shouldBeUp
    requires StartsFinished(s) && NoStartCalls(acts)
    ensures CleanExitsUnsupervised(Run(s, acts).events)
    decreases |acts|
  {
    if acts != [] {
      StepCleanExit(s, acts[0]);
      CleanExitsWithoutStarts(Step(s, acts[0]).s, acts[1..]);
    }
  }

  const CAME_UP: Net :=
    Net(Fresh(OnCrash).(shouldBeUp := true, ready := true, state := Running),
        None, false, false, 1.0, Idle, [])

  /** A start that settles while the monitor is still draining the log of the previous run:
      the clean exit is then reported with the new run already supervised, and a hub that acts
      on it disarms an instance the agent has just been told to run. */
  lemma StartCanOverlapCleanExit()
    ensures var acts := [MonitorBegin] + ([MonitorProbed(false)] + [MonitorStatus(Some(0), false)]);
            !CleanExitsUnsupervised(Run(CAME_UP, acts + WHOLE_START + [MonitorDrained]).events)
  {
    hide Run;
    var a0, a1, a2 := MonitorBegin, MonitorProbed(false), MonitorStatus(Some(0), false);
    hide Step;
    OfMonitor(CAME_UP, a0);
    var s1 := Step(CAME_UP, a0).s;
    OfMonitor(s1, a1);
    var s2 := Step(s1, a1).s;
    OfMonitor(s2, a2);
    var s3 := Step(s2, a2).s;
    assert s3.monitor.Draining? && s3.starts == [] && s3.updating.None?;
    RunOne(s2, a2);
    RunCons(s1, a1, [a2]);
    RunCons(CAME_UP, a0, [a1] + [a2]);
    StartDuringDrain(s3);
    var before := [a0] + ([a1] + [a2]);
    RunAppend(CAME_UP, before, WHOLE_START);
    RunAppend(CAME_UP, before + WHOLE_START, [MonitorDrained]);
    var s4 := Run(s3, WHOLE_START).s;
    RunOne(s4, MonitorDrained);
    OfMonitor(s4, MonitorDrained);
    var events := Run(CAME_UP, before + WHOLE_START + [MonitorDrained]).events;
    assert events[|events| - 1] == StateChanged(Stopped, true, true);
  }

  const WHOLE_START: seq<Act> :=
    [StartCalled(OnCrash)] + ([StartProbed(0, false, false)] + ([StartLaunch(0)] + [StartSettled(0, Alive)]))

  /** A start of a stopped server, from beginning to end, beside whatever the monitor is doing. */
  lemma WholeStart(s: Net)
    requires s.starts == [] && s.updating.None?
    ensures var r := Run(s, WHOLE_START);
            && r.launches == [ByOperator(s.clock)]
            && r.s == s.(m := ResetForLaunch(s.m, s.clock).(policy := OnCrash, state := Starting, shouldBeUp := true,
                                                            crashTimes := [], launchFailures := 0),
                         starts := [Finished])
  {
    hide Run;
    CallTask(s);
    var s1 := Run(s, [StartCalled(OnCrash)]).s;
    ProbeTask(s1, 0);
    var s2 := Run(s1, [StartProbed(0, false, false)]).s;
    LaunchTask(s2, 0);
    var s3 := Run(s2, [StartLaunch(0)]).s;
    SettleAlive(s3, 0);
    RunAppend(s2, [StartLaunch(0)], [StartSettled(0, Alive)]);
    RunAppend(s1, [StartProbed(0, false, false)], [StartLaunch(0)] + [StartSettled(0, Alive)]);
    RunAppend(s, [StartCalled(OnCrash)],
              [StartProbed(0, false, false)] + ([StartLaunch(0)] + [StartSettled(0, Alive)]));
    assert s1.starts == [AtProbe] && s2.starts == [AtLaunch] && s3.starts == [AtSettle];
    assert s3.starts[0 := Finished] == [Finished];
  }

  lemma StartDuringDrain(s: Net)
    requires s.monitor.Draining? && s.starts == [] && s.updating.None?
    ensures var r := Run(s, WHOLE_START).s; r.monitor.Draining? && r.m.shouldBeUp
  {
    WholeStart(s);
  }
}
