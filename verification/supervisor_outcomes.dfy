/** What single calls of the supervisor come to, stated on the bookkeeping they find and not on the
    pieces they are built from, and what that means for whole runs. */
module SupervisorOutcomes {
  import opened Options
  import opened RelaunchHistory
  import opened SupervisorPolicy
  import opened SupervisorCalls
  import Split = SupervisorInterleaving

  // ---- A pass of the monitor -------------------------------------------------------------

  /** The pass finds the session of an instance gone that it should keep up. */
  predicate FindsGone(s: One, op: Op) {
    && op.Check? && !op.alive && s.m.shouldBeUp
    && !s.shuttingDown && s.updating.None? && !s.provisioning
  }

  /** The console was used to stop the server, and the policy yields to that. */
  predicate YieldsToOperator(s: One, op: Op)
    requires op.Check?
  {
    s.m.ready && op.status == Some(0) && s.m.policy != Always
  }

  /** The exit is one the policy answers with a relaunch. */
  predicate RelaunchDue(s: One, op: Op) {
    && FindsGone(s, op)
    && s.m.policy != Never && !op.problem && !YieldsToOperator(s, op)
    && (if s.m.ready then |Recent(s.m.crashTimes, s.clock)| < CRASH_LIMIT
        else s.m.launchFailures + 1 < LAUNCH_FAILURE_LIMIT)
  }

  /** A pass relaunches exactly when that is due, once; over any other instance that is gone and
      should be up it ends the keeping up, as stopped if the operator ended it and as crashed
      otherwise; and no other pass changes whether the instance is kept up. */
  lemma RelaunchesExactly(s: One, op: Op)
    requires op.Check?
    ensures var r := Step(s, op);
            && r.launches == (if RelaunchDue(s, op) then [ByMonitor(Relaunch(s.clock, s.m.ready, false))] else [])
            && (r.s.m.shouldBeUp <==> s.m.shouldBeUp && (FindsGone(s, op) ==> RelaunchDue(s, op)))
            && (FindsGone(s, op) && !RelaunchDue(s, op) ==>
                  r.s.m.state == if YieldsToOperator(s, op) then Stopped else Crashed)
            && (RelaunchDue(s, op) ==> r.s.m.state == if op.launch == Alive then Starting else Crashed)
            && (FindsGone(s, op) && !RelaunchDue(s, op) ==>
                  r.events == [StateChanged(r.s.m.state, YieldsToOperator(s, op), false)])
            && (RelaunchDue(s, op) ==>
                  var decided := if s.m.ready && op.status == Some(0) then Starting else Crashed;
                  r.events == [StateChanged(decided, false, true), StateChanged(r.s.m.state, false, true)])
  {
    if s.m.ready && FindsGone(s, op) {
      var counted := Recent(s.m.crashTimes, s.clock) + [s.clock];
      assert |counted| == |Recent(s.m.crashTimes, s.clock)| + 1;
    }
  }

  /** What such a pass leaves on the counters: nothing if the operator ended the server, and otherwise
      the exit on the counter of its kind alone. A relaunch begins a run that has not come up. */
  lemma CountsExactly(s: One, op: Op)
    requires FindsGone(s, op)
    ensures var after := Step(s, op).s.m;
            && (YieldsToOperator(s, op) ==> after.crashTimes == [] && after.launchFailures == 0)
            && (!YieldsToOperator(s, op) ==>
                  && after.crashTimes
                     == (if s.m.ready then Recent(s.m.crashTimes, s.clock) + [s.clock] else s.m.crashTimes)
                  && after.launchFailures == (if s.m.ready then 0 else 1) + s.m.launchFailures)
            && (RelaunchDue(s, op) ==> !after.ready && after.launchedAt == s.clock)
            && (!RelaunchDue(s, op) ==> after.ready == s.m.ready && after.launchedAt == s.m.launchedAt)
  {
  }

  /** A pass over a live instance counts nothing and launches nothing; it takes a silent one for
      having come up exactly when the grace period is over. */
  lemma GraceExactly(s: One, op: Op)
    requires op.Check? && op.alive
    ensures var after := Step(s, op).s.m;
            var silent := !s.m.ready && s.m.launchedAt != 0.0 && s.clock - s.m.launchedAt >= STARTUP_GRACE
                          && !s.shuttingDown && s.updating.None? && !s.provisioning;
            && after == (if silent then s.m.(ready := true, launchFailures := 0, state := Running) else s.m)
            && Step(s, op).events
               == (if silent && s.m.state != Running then [StateChanged(Running, false, s.m.shouldBeUp)] else [])
  {
  }

  /** A readiness line promotes a run once: it is running, has all its retries back, and a second
      line changes and reports nothing. */
  lemma ReadyOnce(s: One)
    ensures var r := Step(s, ReadyLine);
            && r.s == (if s.m.ready then s else s.(m := s.m.(ready := true, launchFailures := 0, state := Running)))
            && r.events == (if s.m.ready || s.m.state == Running then []
                            else [StateChanged(Running, false, s.m.shouldBeUp)])
            && r.launches == [] && Step(r.s, ReadyLine) == Stay(r.s)
            && (!s.m.ready && s.m.shouldBeUp ==> RetriesLeft(r.s.m) == LAUNCH_FAILURE_LIMIT)
  {
  }

  predicate KeepsNever(op: Op) {
    match op
    case Respec(policy) => policy == Never
    case Start(policy, _, _, _) => policy == Never
    case Stop(policy, _) => policy == Never
    case Kill(policy) => policy == Never
    case UpdateBegin(policy, _) => policy == Never
    case _ => true
  }

  lemma NeverStep(s: One, op: Op)
    requires s.m.policy == Never && KeepsNever(op)
    ensures var r := Step(s, op);
            r.s.m.policy == Never && Relaunches(r.launches) == [] && (!op.Start? ==> r.launches == [])
  {
    if op.Check? {
      RelaunchesExactly(s, op);
    } else if op.Start? {
      assert [ByOperator(s.clock)][1..] == [];
      assert Relaunches([ByOperator(s.clock)]) == [];
    }
  }

  /** As long as the restart policy stays "never" the monitor relaunches nothing, whatever happens. */
  lemma {:induction false} NeverIsNeverRelaunched(s: One, ops: seq<Op>)
    requires s.m.policy == Never && forall i :: 0 <= i < |ops| ==> KeepsNever(ops[i])
    ensures Relaunches(Exec(s, ops).launches) == []
    ensures NoStarts(ops) ==> Exec(s, ops).launches == []
    decreases |ops|
  {
    hide Step; hide KeepsNever;
    if ops != [] {
      NeverStep(s, ops[0]);
      NeverIsNeverRelaunched(Step(s, ops[0]).s, ops[1..]);
      RelaunchesAppend(Step(s, ops[0]).launches, Exec(Step(s, ops[0]).s, ops[1..]).launches);
    }
  }

  predicate ActKeepsNever(a: Split.Act) {
    match a
    case Respec(policy) => policy == Never
    case StartCalled(policy) => policy == Never
    case StopCalled(policy) => policy == Never
    case UpdateClaimed(policy, _) => policy == Never
    case _ => true
  }

  function Announced(s: Split.Net): nat {
    if s.monitor.Announcing? then 1 else 0
  }

  lemma NeverMonitorStep(s: Split.Net, a: Split.Act)
    requires s.m.policy == Never && Split.ByMonitorTask(a)
    ensures var r := Split.MonitorStep(s, a);
            r.s.m.policy == Never && |r.launches| + Announced(r.s) <= Announced(s)
  {
    hide Recent;
  }

  lemma NeverActStep(s: Split.Net, a: Split.Act)
    requires s.m.policy == Never && ActKeepsNever(a)
    ensures var r := Split.Step(s, a);
            && r.s.m.policy == Never
            && |Relaunches(r.launches)| + Announced(r.s) <= Announced(s)
  {
    if Split.ByMonitorTask(a) {
      NeverMonitorStep(s, a);
      var launches := Split.MonitorStep(s, a).launches;
      if launches != [] { assert launches[1..] == []; }
    } else if Split.ByStartTask(a) {
      var launches := Split.StartStep(s, a).launches;
      if launches != [] {
        assert launches == [ByOperator(s.clock)] && launches[1..] == [];
      }
    }
  }

  /** Nor does it with other calls in between, but for one relaunch it had decided before. */
  lemma {:induction false} NeverIsNeverRelaunchedBetween(s: Split.Net, acts: seq<Split.Act>)
    requires s.m.policy == Never && forall i :: 0 <= i < |acts| ==> ActKeepsNever(acts[i])
    ensures |Relaunches(Split.Run(s, acts).launches)| <= Announced(s)
    decreases |acts|
  {
    hide Split.Step; hide ActKeepsNever; hide Announced;
    if acts != [] {
      var first := Split.Step(s, acts[0]);
      NeverActStep(s, acts[0]);
      NeverIsNeverRelaunchedBetween(first.s, acts[1..]);
      RelaunchesAppend(first.launches, Split.Run(first.s, acts[1..]).launches);
    }
  }

  // ---- What is around the instance -------------------------------------------------------

  /** The policy a call brings with it, if it brings one. */
  function Brings(op: Op): Option<RestartPolicy> {
    match op
    case Respec(policy) => Some(policy)
    case Start(policy, _, _, _) => Some(policy)
    case Stop(policy, _) => Some(policy)
    case Kill(policy) => Some(policy)
    case UpdateBegin(policy, _) => Some(policy)
    case _ => None
  }

  /** Every call that names the instance declares its policy; a shutdown is for good; provisioning
      and updating last from their claim to their end; and time does not go back. */
  lemma FlagsExactly(s: One, op: Op)
    ensures var t := Step(s, op).s;
            && t.m.policy == (if Brings(op).Some? then Brings(op).value else s.m.policy)
            && (t.shuttingDown <==> s.shuttingDown || op == Shutdown)
            && (t.provisioning <==> if op.Provision? then op.on else s.provisioning)
            && (t.updating.Some? <==>
                  || (op.UpdateBegin? && !op.alive)
                  || (s.updating.Some? && !op.UpdateEnd? && op != UpdateCancelled))
            && t.clock == (if op.Tick? && op.to >= s.clock then op.to else s.clock)
  {
  }

  // ---- A start ---------------------------------------------------------------------------

  /** The start came to a session: one that was there already, or its own. */
  predicate Reaches(s: One, op: Op)
    requires op.Start?
  {
    s.updating.None? && (op.alive || (!op.problem && op.launch != NoSession))
  }

  /** A start launches exactly when no update holds the instance, no session is there and its
      directory and Java are usable. It puts the instance up exactly when it comes to a session,
      and leaves it as it was otherwise. */
  lemma StartsExactly(s: One, op: Op)
    requires op.Start?
    ensures var r := Step(s, op);
            && r.launches == (if s.updating.None? && !op.alive && !op.problem then [ByOperator(s.clock)] else [])
            && (r.s.m.shouldBeUp <==> s.m.shouldBeUp || Reaches(s, op))
            && r.s.m.policy == op.policy
            && (r.s.m.state ==
                  if s.updating.Some? then s.m.state
                  else if op.alive then Running
                  else if op.problem || op.launch == NoSession then Stopped
                  else if op.launch == Died then Crashed else Starting)
            && (r.s.m.ready <==> r.launches == [] && (s.m.ready || (s.updating.None? && op.alive)))
            && r.s.m.launchedAt == (if r.launches != [] then s.clock else s.m.launchedAt)
            && r.s.m.launchFailures == (if Reaches(s, op) then 0 else s.m.launchFailures)
            && r.s.m.crashTimes == (if Reaches(s, op) && !op.alive then [] else s.m.crashTimes)
            && r.events ==
               if s.updating.Some? || (op.alive && s.m.state == Running) then []
               else if op.alive then [StateChanged(Running, false, true)]
               else if op.problem then [StateChanged(Stopped, false, s.m.shouldBeUp)]
               else [StateChanged(Starting, false, s.m.shouldBeUp)]
                    + if op.launch == NoSession then [StateChanged(Stopped, false, s.m.shouldBeUp)]
                      else if op.launch == Died then [StateChanged(Crashed, false, true)] else []
  {
  }

  /** A start that came to a session wipes the account: the next time the session is found gone it
      is relaunched under any policy but "never", unless the operator ended it or it cannot run;
      only of an adopted one the earlier crashes still count. */
  lemma StartClearsAccount(s: One, op: Op, gone: Op)
    requires op.Start? && Reaches(s, op) && FindsGone(Step(s, op).s, gone)
    ensures RelaunchDue(Step(s, op).s, gone) <==>
              && op.policy != Never && !gone.problem
              && !(op.alive && gone.status == Some(0) && op.policy != Always)
              && (op.alive ==> |Recent(s.m.crashTimes, s.clock)| < CRASH_LIMIT)
  {
  }

  // ---- A stop or a kill ------------------------------------------------------------------

  /** Stopping puts the instance down in every case, reports stopping only while a live session is asked
      to end, and forgets nothing else. */
  lemma StopsExactly(s: One, op: Op)
    requires op.Stop? || op.Kill?
    ensures var r := Step(s, op);
            && r.s == s.(m := s.m.(policy := op.policy, shouldBeUp := false, state := Stopped))
            && r.launches == []
            && r.events == (if op.Stop? && op.alive then [StateChanged(Stopping, false, false)] else [])
                           + [StateChanged(Stopped, false, false)]
  {
  }

  // ---- An update -------------------------------------------------------------------------

  predicate Bystander(op: Op) {
    op.Tick? || op.Check?
  }

  lemma {:induction false} UpdateHolds(s: One, ops: seq<Op>)
    requires s.updating.Some? && forall i :: 0 <= i < |ops| ==> Bystander(ops[i])
    ensures Exec(s, ops).s == s.(clock := Exec(s, ops).s.clock)
    ensures Exec(s, ops).events == [] && Exec(s, ops).launches == []
    decreases |ops|
  {
    if ops != [] { UpdateHolds(Step(s, ops[0]).s, ops[1..]); }
  }

  /** An update claims the instance exactly if no session is up and no other update holds it; refused, it
      leaves nothing but the policy it came with. */
  lemma ClaimsExactly(s: One, policy: RestartPolicy, alive: bool)
    ensures var r := Step(s, UpdateBegin(policy, alive));
            && (r.events != [] <==> !alive && s.updating.None?)
            && (alive || s.updating.Some? ==> r == Stay(s.(m := s.m.(policy := policy))))
  {
  }

  /** From its claim to its end, whatever the monitor's passes find meanwhile, an update leaves one
      trace: the instance is stopped if it worked and in its earlier state if not. */
  lemma UpdateRoundTrip(s: One, policy: RestartPolicy, between: seq<Op>, ok: bool)
    requires s.updating.None? && forall i :: 0 <= i < |between| ==> Bystander(between[i])
    ensures var claimed := Step(s, UpdateBegin(policy, false));
            && claimed.s.updating.Some? && claimed.s.m.state == Updating
            && claimed.events == [StateChanged(Updating, false, s.m.shouldBeUp)]
    ensures var held := Exec(Step(s, UpdateBegin(policy, false)).s, between);
            && held.events == [] && held.launches == []
            && var after := Step(held.s, UpdateEnd(ok));
               after.events == [StateChanged(after.s.m.state, false, s.m.shouldBeUp)]
    ensures var end := Exec(s, [UpdateBegin(policy, false)] + (between + [UpdateEnd(ok)])).s;
            end == s.(clock := end.clock,
                      m := s.m.(policy := policy,
                                state := if ok || s.m.state == Updating then Stopped else s.m.state))
  {
    hide Exec;
    var claimed := Step(s, UpdateBegin(policy, false)).s;
    UpdateHolds(claimed, between);
    ExecCons(s, UpdateBegin(policy, false), between + [UpdateEnd(ok)]);
    ExecAppend(claimed, between, [UpdateEnd(ok)]);
    var held := Exec(claimed, between).s;
    ExecCons(held, UpdateEnd(ok), []);
    assert [UpdateEnd(ok)] + [] == [UpdateEnd(ok)];
    ExecNothing(Step(held, UpdateEnd(ok)).s);
  }

  lemma ExecNothing(s: One)
    ensures Exec(s, []) == Stay(s)
  {
  }
}
