/** The supervisor with every agent call as one step: what a run of whole calls guarantees. */
module SupervisorCalls {
  import opened Options
  import opened RelaunchHistory
  import opened SupervisorPolicy

  // ---- The calls, each as one step -------------------------------------------------------

  /** One instance together with the supervisor's flags about it. `updating` holds the state
      to fall back to while an update is in progress. */
  datatype One = One(
    m: Managed,
    updating: Option<RunState>,
    provisioning: bool,
    shuttingDown: bool,
    clock: Time)

  datatype Op =
    | Tick(to: Time)
    | Respec(policy: RestartPolicy)
    | Start(policy: RestartPolicy, alive: bool, problem: bool, launch: LaunchOutcome)
    | Stop(policy: RestartPolicy, alive: bool)
    | Kill(policy: RestartPolicy)
    | UpdateBegin(policy: RestartPolicy, alive: bool)
    | UpdateEnd(ok: bool)
    | UpdateCancelled
    | Provision(on: bool)
    | ReadyLine
    | Check(alive: bool, status: Option<int>, problem: bool, launch: LaunchOutcome)
    | Shutdown

  datatype Outcome = Outcome(s: One, events: seq<Event>, launches: seq<Launch>)

  function Stay(s: One): Outcome { Outcome(s, [], []) }

  function StartCall(s: One, op: Op): Outcome
    requires op.Start?
  {
    var m := s.m.(policy := op.policy);
    if s.updating.Some? then Stay(s.(m := m))
    else if op.alive then
      var (up, events) := Adopt(m);
      Outcome(s.(m := up), events, [])
    else if op.problem then
      Outcome(s.(m := m.(state := Stopped)), [Report(m.(state := Stopped), false)], [])
    else
      var starting := m.(state := Starting);
      var (up, events) := SettleStart(ResetForLaunch(starting, s.clock), op.launch);
      Outcome(s.(m := up), [Report(starting, false)] + events, [ByOperator(s.clock)])
  }

  function StopCall(s: One, op: Op): Outcome
    requires op.Stop? || op.Kill?
  {
    var m := s.m.(policy := op.policy, shouldBeUp := false);
    Outcome(s.(m := m.(state := Stopped)),
            (if op.Stop? && op.alive then [Report(m.(state := Stopping), false)] else []) +
            [Report(m.(state := Stopped), false)], [])
  }

  function Relaunching(s: One, op: Op, cleanExit: bool): Outcome
    requires op.Check?
  {
    var (m, again) := Decide(s.m, s.clock, op.problem, cleanExit);
    if !again then Outcome(s.(m := m), [Report(m, false)], [])
    else
      var settled := SettleRelaunch(ResetForLaunch(m, s.clock), op.launch);
      Outcome(s.(m := settled), [Report(m, false), Report(settled, false)],
              [ByMonitor(Relaunch(s.clock, s.m.ready, false))])
  }

  /** One pass of the monitor over the instance. */
  function CheckCall(s: One, op: Op): Outcome
    requires op.Check?
  {
    if s.shuttingDown || s.updating.Some? || s.provisioning then Stay(s)
    else if op.alive then
      var (m, events) := if s.m.ready then (s.m, []) else StartupGrace(s.m, s.clock);
      Outcome(s.(m := m), events, [])
    else if !s.m.shouldBeUp then Stay(s)
    else
      var cleanExit := s.m.ready && op.status == Some(0);
      if cleanExit && !s.m.policy.Always? then
        var down := StandDown(s.m).(state := Stopped);
        Outcome(s.(m := down), [Report(down, true)], [])
      else Relaunching(s, op, cleanExit)
  }

  function Step(s: One, op: Op): Outcome {
    match op
    case Tick(to) => Stay(if to >= s.clock then s.(clock := to) else s)
    case Respec(policy) => Stay(s.(m := s.m.(policy := policy)))
    case Start(_, _, _, _) => StartCall(s, op)
    case Stop(_, _) => StopCall(s, op)
    case Kill(_) => StopCall(s, op)
    case UpdateBegin(policy, alive) =>
      var m := s.m.(policy := policy);
      if alive || s.updating.Some? then Stay(s.(m := m))
      else Outcome(s.(m := m.(state := Updating), updating := Some(m.state)),
                   [Report(m.(state := Updating), false)], [])
    case UpdateEnd(ok) =>
      if s.updating.None? then Stay(s)
      else
        var after := if ok || s.updating.value.Updating? then Stopped else s.updating.value;
        var m := s.m.(state := after);
        Outcome(s.(m := m, updating := None), [Report(m, false)], [])
    case UpdateCancelled => Stay(s.(updating := None))
    case Provision(on) => Stay(s.(provisioning := on))
    case ReadyLine =>
      var (m, events) := OnReady(s.m);
      Outcome(s.(m := m), events, [])
    case Check(_, _, _, _) => CheckCall(s, op)
    case Shutdown => Stay(s.(m := s.m.(shouldBeUp := false), shuttingDown := true))
  }

  /** A whole run: every step from the first, events and launches in order. */
  function Exec(s: One, ops: seq<Op>): Outcome
    decreases |ops|
  {
    if ops == [] then Stay(s)
    else
      var first := Step(s, ops[0]);
      var rest := Exec(first.s, ops[1..]);
      Outcome(rest.s, first.events + rest.events, first.launches + rest.launches)
  }

  lemma ExecCons(s: One, op: Op, rest: seq<Op>)
    ensures var first, last := Step(s, op), Exec(Step(s, op).s, rest);
            Exec(s, [op] + rest) == Outcome(last.s, first.events + last.events, first.launches + last.launches)
  {
    assert ([op] + rest)[1..] == rest;
  }

  lemma {:induction false} ExecAppend(s: One, a: seq<Op>, b: seq<Op>)
    ensures Exec(s, a + b).s == Exec(Exec(s, a).s, b).s
    ensures Exec(s, a + b).launches == Exec(s, a).launches + Exec(Exec(s, a).s, b).launches
    decreases |a|
  {
    hide Step;
    if a == [] {
      assert a + b == b;
      var r := Exec(s, b);
      assert [] + r.launches == r.launches;
    } else {
      assert (a + b)[1..] == a[1..] + b;
      ExecAppend(Step(s, a[0]).s, a[1..], b);
    }
  }

  predicate NoStarts(ops: seq<Op>) {
    forall i :: 0 <= i < |ops| ==> !ops[i].Start?
  }

  // ---- Staying down ----------------------------------------------------------------------

  ghost predicate AllUnsupervised(events: seq<Event>) {
    forall i :: 0 <= i < |events| ==> !events[i].supervised && !events[i].cleanExit
  }

  lemma StepStaysDown(s: One, op: Op)
    requires !s.m.shouldBeUp && !op.Start?
    ensures !Step(s, op).s.m.shouldBeUp && Step(s, op).launches == []
    ensures AllUnsupervised(Step(s, op).events)
  {
  }

  /** Once should_be_up is false, nothing but a start brings the instance back: not the
      monitor under any restart policy, not a log line, not an update, not a change of
      policy. Every stop, kill, clean exit, give-up and shutdown ends in such a state. */
  lemma {:induction false} DownStaysDown(s: One, ops: seq<Op>)
    requires !s.m.shouldBeUp && NoStarts(ops)
    ensures !Exec(s, ops).s.m.shouldBeUp
    ensures Exec(s, ops).launches == []
    ensures AllUnsupervised(Exec(s, ops).events)
    decreases |ops|
  {
    if ops != [] {
      StepStaysDown(s, ops[0]);
      DownStaysDown(Step(s, ops[0]).s, ops[1..]);
    }
  }

  /** What each of the calls that ends a server leaves behind, for every answer of tmux. */
  lemma EndsDown(s: One, op: Op)
    requires op.Stop? || op.Kill? || op.Shutdown?
    ensures !Step(s, op).s.m.shouldBeUp && Step(s, op).launches == []
    ensures AllUnsupervised(Step(s, op).events)
  {
  }

  /** So stopping lasts: whatever follows a stop, a kill or a shutdown short of a start, the instance
      stays down, is not launched and is not reported as supervised. */
  lemma StoppingLasts(s: One, op: Op, later: seq<Op>)
    requires (op.Stop? || op.Kill? || op.Shutdown?) && NoStarts(later)
    ensures var r := Exec(s, [op] + later);
            !r.s.m.shouldBeUp && r.launches == [] && AllUnsupervised(r.events)
  {
    EndsDown(s, op);
    DownStaysDown(Step(s, op).s, later);
    ExecCons(s, op, later);
  }

  /** Every launch of a run, operator's and monitor's, happens outside updates: with calls
      that run to completion, a start and an update exclude each other. */
  lemma {:induction false} NoLaunchWhileUpdating(s: One, ops: seq<Op>)
    requires s.updating.Some? && forall i :: 0 <= i < |ops| ==> !ops[i].UpdateEnd? && !ops[i].UpdateCancelled?
    ensures Exec(s, ops).launches == [] && Exec(s, ops).s.updating.Some?
    decreases |ops|
  {
    if ops != [] {
      NoLaunchWhileUpdating(Step(s, ops[0]).s, ops[1..]);
    }
  }

  // ---- Clean exits -----------------------------------------------------------------------

  /** The circumstances in which the agent may report a clean exit. */
  predicate OperatorShutdown(s: One, op: Op) {
    && op.Check? && !op.alive && op.status == Some(0)
    && s.m.ready && s.m.shouldBeUp && !s.m.policy.Always?
    && !s.shuttingDown && s.updating.None? && !s.provisioning
  }

  /** A clean exit is reported exactly when a run that had come up ended with status 0 under
      a policy that yields to the operator. The instance is already down when it is
      reported, and nothing relaunches it until the next start. */
  lemma CleanExitExactly(s: One, op: Op, later: seq<Op>)
    requires NoStarts(later)
    ensures (exists e :: e in Step(s, op).events && e.cleanExit) <==> OperatorShutdown(s, op)
    ensures OperatorShutdown(s, op) ==>
              && Step(s, op).events == [StateChanged(Stopped, true, false)]
              && !Step(s, op).s.m.shouldBeUp
              && Exec(Step(s, op).s, later).launches == []
  {
    var r := Step(s, op);
    if OperatorShutdown(s, op) {
      assert r.events[0].cleanExit;
      DownStaysDown(r.s, later);
    } else {
      forall e | e in r.events ensures !e.cleanExit {
      }
    }
  }

  // ---- A server that never comes up ------------------------------------------------------

  /** No step of the run marks a run as ready: no readiness line, and no pass of the monitor
      finds a silent instance alive past its grace period. */
  ghost predicate NeverReady(s: One, ops: seq<Op>)
    decreases |ops|
  {
    && !s.m.ready
    && (ops != [] ==> NeverReady(Step(s, ops[0]).s, ops[1..]))
  }

  /** A pass of the monitor that finds the session gone. */
  predicate GonePass(s: One, op: Op) {
    op.Check? && !op.alive && !s.shuttingDown && s.updating.None? && !s.provisioning
  }

  function GonePasses(s: One, ops: seq<Op>): nat
    decreases |ops|
  {
    if ops == [] then 0
    else (if GonePass(s, ops[0]) then 1 else 0) + GonePasses(Step(s, ops[0]).s, ops[1..])
  }

  /** The termination argument of the retry loop. Each pass over a vanished session uses up
      one retry, whether _launch then succeeds, dies in its settle window or raises; no other
      step without a start gives one back; and only a pass that leaves retries launches. */
  lemma RetryStep(s: One, op: Op)
    requires !op.Start? && !s.m.ready && !Step(s, op).s.m.ready
    ensures RetriesLeft(Step(s, op).s.m) <= RetriesLeft(s.m)
    ensures GonePass(s, op) && s.m.shouldBeUp ==> RetriesLeft(Step(s, op).s.m) < RetriesLeft(s.m)
    ensures |Step(s, op).launches| <= 1
    ensures Step(s, op).launches != [] ==> GonePass(s, op) && RetriesLeft(Step(s, op).s.m) >= 1
  {
  }

  /** A server that never comes up is relaunched at most RetriesLeft - 1 times, and after that
      many gone sessions should_be_up is false for good. */
  lemma {:induction false} RetryLoopEnds(s: One, ops: seq<Op>)
    requires NoStarts(ops) && NeverReady(s, ops)
    ensures |Exec(s, ops).launches| + 1 <= RetriesLeft(s.m) || Exec(s, ops).launches == []
    ensures GonePasses(s, ops) >= RetriesLeft(s.m) ==> !Exec(s, ops).s.m.shouldBeUp
    ensures Exec(s, ops).s.m.shouldBeUp ==>
              GonePasses(s, ops) + RetriesLeft(Exec(s, ops).s.m) <= RetriesLeft(s.m)
    decreases |ops|
  {
    if ops != [] {
      var next := Step(s, ops[0]).s;
      RetryStep(s, ops[0]);
      RetryLoopEnds(next, ops[1..]);
      if s.m.shouldBeUp && !next.m.shouldBeUp { DownStaysDown(next, ops[1..]); }
      if !s.m.shouldBeUp { DownStaysDown(s, ops); }
    }
  }

  /** One operator start of a server that never comes up costs at most three launches, whatever
      it finds: the start's own and two by the monitor. Three passes that find the session gone end
      it. */
  lemma AtMostThreeLaunches(s: One, op: Op, ops: seq<Op>)
    requires op.Start? && NoStarts(ops) && NeverReady(Step(s, op).s, ops)
    ensures |Exec(s, [op] + ops).launches| <= 3
    ensures GonePasses(Step(s, op).s, ops) >= 3 ==> !Exec(s, [op] + ops).s.m.shouldBeUp
  {
    assert ([op] + ops)[1..] == ops;
    assert RetriesLeft(Step(s, op).s.m) <= 3;
    RetryLoopEnds(Step(s, op).s, ops);
  }
}
