/** The supervisor object: a dictionary of instances whose bookkeeping its methods update in
    place. Each method is proved to do to its own instance what one step of SupervisorCalls
    does, to return that step's events (what it emits, in order) and its session requests, and
    to leave every other instance alone. What tmux, the file system and the clock answer are
    arguments. */
module Supervisors {
  import opened Options
  import opened RelaunchHistory
  import opened SupervisorPolicy
  import Calls = SupervisorCalls

  class ManagedInstance {
    const id: string
    var state: RunState
    var shouldBeUp: bool
    var crashTimes: seq<Time>
    var ready: bool
    var launchedAt: Time
    var launchFailures: nat
    var policy: RestartPolicy

    function Value(): Managed reads this {
      Managed(state, shouldBeUp, crashTimes, ready, launchedAt, launchFailures, policy)
    }

    constructor (id: string, policy: RestartPolicy)
      ensures this.id == id && Value() == Fresh(policy)
    {
      this.id := id;
      this.state := Stopped;
      this.shouldBeUp := false;
      this.crashTimes := [];
      this.ready := false;
      this.launchedAt := 0.0;
      this.launchFailures := 0;
      this.policy := policy;
    }

    method SetState(state: RunState, cleanExit: bool) returns (event: Event)
      modifies this`state
      ensures this.state == state && event == Report(Value(), cleanExit)
    {
      this.state := state;
      event := StateChanged(state, cleanExit, shouldBeUp);
    }

    method OnReady() returns (events: seq<Event>)
      modifies this
      ensures (Value(), events) == SupervisorPolicy.OnReady(old(Value()))
    {
      events := [];
      if ready { return; }
      ready := true;
      launchFailures := 0;
      if state != Running {
        var event := SetState(Running, false);
        events := [event];
      }
    }

    /** stop and kill: down from the first moment, with a state of its own while a live session is
        asked to end. */
    method StandStill(announce: bool) returns (events: seq<Event>)
      modifies this`shouldBeUp, this`state
      ensures Value() == old(Value()).(shouldBeUp := false, state := Stopped)
      ensures events ==
              (if announce then [StateChanged(Stopping, false, false)] else []) + [StateChanged(Stopped, false, false)]
    {
      shouldBeUp := false;
      events := [];
      if announce {
        var stopping := SetState(Stopping, false);
        events := [stopping];
      }
      var stopped := SetState(Stopped, false);
      events := events + [stopped];
    }

    /** _launch up to the request for the session: a new run is not ready. */
    method Launch(now: Time)
      modifies this`ready, this`launchedAt
      ensures Value() == ResetForLaunch(old(Value()), now)
    {
      ready := false;
      launchedAt := now;
    }
  }

  datatype StartResult = Refused | AlreadyRunning | Unusable | FailedToStart | LaunchFailed | Launched

  /** One look at tmux while waiting for a session to end: the clock before it, and the answer. */
  datatype Poll = Poll(clock: Time, alive: bool)

  class Supervisor {
    var instances: map<string, ManagedInstance>
    // The update in progress for an id holds the state to fall back to (prev_state).
    var updating: map<string, RunState>
    var provisioning: set<string>
    var shuttingDown: bool

    ghost predicate Valid()
      reads this, instances.Values
    {
      forall i :: i in instances ==> instances[i].id == i
    }

    /** One instance's bookkeeping together with the supervisor's flags about it. */
    function Flags(id: string, m: Managed, now: Time): Calls.One
      reads this
    {
      Calls.One(m, if id in updating then Some(updating[id]) else None, id in provisioning, shuttingDown, now)
    }

    function Of(id: string, now: Time): Calls.One
      requires id in instances
      reads this, instances.Values
    {
      Flags(id, instances[id].Value(), now)
    }

    /** What a call that names the instance finds: a fresh entry if there was none. */
    function Known(id: string, policy: RestartPolicy, now: Time): Calls.One
      reads this, instances.Values
    {
      if id in instances then Of(id, now) else Flags(id, Fresh(policy), now)
    }

    /** Every other instance is the same object with the same bookkeeping. */
    twostate predicate OthersKept(id: string)
      reads this, instances.Values
    {
      && instances.Keys - {id} == old(instances.Keys) - {id}
      && forall j :: j in old(instances) && j != id ==>
           && j in instances && instances[j] == old(instances[j])
           && instances[j].Value() == old(instances[j].Value())
    }

    constructor ()
      ensures Valid() && instances == map[] && updating == map[] && provisioning == {} && !shuttingDown
    {
      instances, updating, provisioning, shuttingDown := map[], map[], {}, false;
    }

    /** _managed: find or create, and always take the latest declared policy. */
    method Lookup(id: string, policy: RestartPolicy) returns (mi: ManagedInstance)
      requires Valid()
      modifies this`instances, if id in instances then {instances[id]} else {}
      ensures Valid() && id in instances && instances[id] == mi
      ensures if id in old(instances) then instances == old(instances) else fresh(mi)
      ensures mi.Value() == old(Known(id, policy, 0.0)).m.(policy := policy)
      ensures OthersKept(id)
    {
      if id in instances {
        mi := instances[id];
        mi.policy := policy;
      } else {
        mi := new ManagedInstance(id, policy);
        instances := instances[id := mi];
      }
    }

    method Start(id: string, policy: RestartPolicy, now: Time, alive: bool, problem: bool, launch: LaunchOutcome)
      returns (result: StartResult, events: seq<Event>, launches: seq<Launch>)
      requires Valid()
      modifies this`instances, if id in instances then {instances[id]} else {}
      ensures Valid() && id in instances && OthersKept(id)
      ensures var r := Calls.StartCall(old(Known(id, policy, now)), Calls.Start(policy, alive, problem, launch));
              Of(id, now) == r.s && events == r.events && launches == r.launches
      ensures result.Refused? <==> id in updating
      ensures result.Launched? || result.LaunchFailed? || result.AlreadyRunning? ==> instances[id].shouldBeUp
    {
      var mi := Lookup(id, policy);
      if id in updating {
        return Refused, [], [];
      }
      result, events, launches := StartSession(mi, now, alive, problem, launch);
    }

    /** start, once the instance is known not to be updating. */
    method StartSession(mi: ManagedInstance, now: Time, alive: bool, problem: bool, launch: LaunchOutcome)
      returns (result: StartResult, events: seq<Event>, launches: seq<Launch>)
      modifies mi
      ensures var r := Calls.StartCall(Calls.One(old(mi.Value()), None, false, false, now),
                                       Calls.Start(old(mi.policy), alive, problem, launch));
              mi.Value() == r.s.m && events == r.events && launches == r.launches
      ensures !result.Refused?
      ensures result.Launched? || result.LaunchFailed? || result.AlreadyRunning? ==> mi.shouldBeUp
    {
      events, launches := [], [];
      if alive {
        mi.shouldBeUp := true;
        mi.ready := true;
        mi.launchFailures := 0;
        if mi.state != Running {
          var event := mi.SetState(Running, false);
          events := [event];
        }
        return AlreadyRunning, events, launches;
      }
      if problem {
        var event := mi.SetState(Stopped, false);
        return Unusable, [event], launches;
      }
      var starting := mi.SetState(Starting, false);
      mi.Launch(now);
      launches := [ByOperator(now)];
      if launch.NoSession? {
        var event := mi.SetState(Stopped, false);
        return FailedToStart, [starting, event], launches;
      }
      mi.shouldBeUp := true;
      mi.crashTimes := [];
      mi.launchFailures := 0;
      if launch.Died? {
        var event := mi.SetState(Crashed, false);
        return LaunchFailed, [starting, event], launches;
      }
      return Launched, [starting], launches;
    }

    method Stop(id: string, policy: RestartPolicy, now: Time, alive: bool) returns (events: seq<Event>)
      requires Valid()
      modifies this`instances, if id in instances then {instances[id]} else {}
      ensures Valid() && id in instances && OthersKept(id)
      ensures var r := Calls.StopCall(old(Known(id, policy, now)), Calls.Stop(policy, alive));
              Of(id, now) == r.s && events == r.events
    {
      var mi := Lookup(id, policy);
      events := mi.StandStill(alive);
    }

    method Kill(id: string, policy: RestartPolicy, now: Time) returns (events: seq<Event>)
      requires Valid()
      modifies this`instances, if id in instances then {instances[id]} else {}
      ensures Valid() && id in instances && OthersKept(id)
      ensures var r := Calls.StopCall(old(Known(id, policy, now)), Calls.Kill(policy));
              Of(id, now) == r.s && events == r.events
    {
      var mi := Lookup(id, policy);
      events := mi.StandStill(false);
    }

    /** _check_one: one pass of the monitor over an instance. */
    method CheckOne(mi: ManagedInstance, now: Time, alive: bool, status: Option<int>, problem: bool,
                    launch: LaunchOutcome)
      returns (events: seq<Event>, launches: seq<Launch>)
      requires Valid() && mi.id in instances && instances[mi.id] == mi
      modifies mi
      ensures Valid() && OthersKept(mi.id)
      ensures var r := Calls.CheckCall(old(Of(mi.id, now)), Calls.Check(alive, status, problem, launch));
              Of(mi.id, now) == r.s && events == r.events && launches == r.launches
    {
      events, launches := [], [];
      if shuttingDown || mi.id in updating || mi.id in provisioning {
        return;
      }
      if alive {
        if !mi.ready {
          if mi.launchedAt != 0.0 && now - mi.launchedAt >= STARTUP_GRACE {
            events := mi.OnReady();
          }
        }
        return;
      }
      if !mi.shouldBeUp {
        return;
      }
      var cleanExit := mi.ready && status == Some(0);
      if cleanExit && mi.policy != Always {
        mi.shouldBeUp := false;
        mi.crashTimes := [];
        mi.launchFailures := 0;
        var event := mi.SetState(Stopped, true);
        return [event], [];
      }
      events, launches := CountAndDecide(mi, now, cleanExit, problem, launch);
    }

    /** The rest of _check_one: count the exit, then give up or relaunch. */
    method CountAndDecide(mi: ManagedInstance, now: Time, cleanExit: bool, problem: bool, launch: LaunchOutcome)
      returns (events: seq<Event>, launches: seq<Launch>)
      modifies mi
      ensures var r := Calls.Relaunching(Calls.One(old(mi.Value()), None, false, false, now),
                                         Calls.Check(false, None, problem, launch), cleanExit);
              mi.Value() == r.s.m && events == r.events && launches == r.launches
    {
      var launched := mi.ready;
      if launched {
        mi.crashTimes := Recent(mi.crashTimes, now);
        mi.crashTimes := mi.crashTimes + [now];
      } else {
        mi.launchFailures := mi.launchFailures + 1;
      }
      if mi.policy == Never {
        mi.shouldBeUp := false;
        var event := mi.SetState(Crashed, false);
        return [event], [];
      }
      if launched && |mi.crashTimes| > CRASH_LIMIT {
        mi.shouldBeUp := false;
        var event := mi.SetState(Crashed, false);
        return [event], [];
      }
      if !launched && mi.launchFailures >= LAUNCH_FAILURE_LIMIT {
        mi.shouldBeUp := false;
        var event := mi.SetState(Crashed, false);
        return [event], [];
      }
      if problem {
        mi.shouldBeUp := false;
        var event := mi.SetState(Crashed, false);
        return [event], [];
      }
      var announced := mi.SetState(if cleanExit then Starting else Crashed, false);
      mi.Launch(now);
      var settled := mi.SetState(if launch.Alive? then Starting else Crashed, false);
      return [announced, settled], [ByMonitor(Relaunch(now, launched, false))];
    }

    method BeginUpdate(id: string, policy: RestartPolicy, now: Time, alive: bool)
      returns (claimed: bool, events: seq<Event>)
      requires Valid()
      modifies this`instances, this`updating, if id in instances then {instances[id]} else {}
      ensures Valid() && id in instances && OthersKept(id)
      ensures var r := Calls.Step(old(Known(id, policy, now)), Calls.UpdateBegin(policy, alive));
              Of(id, now) == r.s && events == r.events
      ensures claimed <==> !alive && id !in old(updating)
      ensures forall j :: j != id ==> (j in updating <==> j in old(updating))
      ensures forall j :: j in old(updating) && j != id ==> updating[j] == old(updating)[j]
    {
      var mi := Lookup(id, policy);
      if alive || id in updating {
        return false, [];
      }
      var event := ClaimUpdate(mi);
      return true, [event];
    }

    method ClaimUpdate(mi: ManagedInstance) returns (event: Event)
      modifies this`updating, mi`state
      ensures updating == old(updating)[mi.id := old(mi.state)]
      ensures mi.state == Updating && event == Report(mi.Value(), false)
    {
      updating := updating[mi.id := mi.state];
      event := mi.SetState(Updating, false);
    }

    method EndUpdate(id: string, now: Time, ok: bool) returns (events: seq<Event>)
      requires Valid() && id in instances && id in updating
      modifies this`updating, instances[id]
      ensures Valid() && updating == old(updating) - {id} && OthersKept(id)
      ensures var r := Calls.Step(old(Of(id, now)), Calls.UpdateEnd(ok));
              Of(id, now) == r.s && events == r.events
    {
      var previous := updating[id];
      var event := instances[id].SetState(if ok || previous == Updating then Stopped else previous, false);
      updating := updating - {id};
      return [event];
    }

    /** An update whose task was cancelled: released, but with no fallback and no report. */
    method CancelUpdate(id: string, now: Time)
      requires Valid() && id in instances && id in updating
      modifies this`updating
      ensures Valid() && updating == old(updating) - {id} && OthersKept(id)
      ensures Of(id, now) == Calls.Step(old(Of(id, now)), Calls.UpdateCancelled).s
      ensures instances[id].state == old(instances[id].state)
    {
      updating := updating - {id};
    }

    /** shutdown_all, up to the stopping of the sessions: the restart policy is frozen first. */
    method ShutdownAll()
      requires Valid()
      modifies this`shuttingDown, instances.Values
      ensures Valid() && shuttingDown && instances == old(instances)
      ensures forall i :: i in instances ==> instances[i].Value() == old(instances[i].Value()).(shouldBeUp := false)
    {
      shuttingDown := true;
      var left := instances.Keys;
      while left != {}
        invariant Valid() && shuttingDown && left <= instances.Keys && instances == old(instances)
        invariant forall i :: i in instances ==>
          instances[i].Value() == if i in left then old(instances[i].Value())
                                  else old(instances[i].Value()).(shouldBeUp := false)
        decreases left
      {
        var id :| id in left;
        var mi := instances[id];
        assert forall i :: i in instances && i != id ==> instances[i] != mi;
        mi.shouldBeUp := false;
        left := left - {id};
      }
    }

    /** _stop_session: poll until the session ends or the deadline passes, then kill it. `polls`
        are the answers in order; time reaches the deadline within them. */
    method StopSession(polls: seq<Poll>, deadline: Time) returns (graceful: bool, killed: bool)
      requires exists i :: 0 <= i < |polls| && polls[i].clock >= deadline
      ensures graceful <==>
        exists i :: 0 <= i < |polls| && !polls[i].alive && forall j :: 0 <= j <= i ==> polls[j].clock < deadline
      ensures killed == !graceful
    {
      var i := 0;
      while polls[i].clock < deadline
        invariant 0 <= i < |polls|
        invariant forall j :: 0 <= j < i ==> polls[j].clock < deadline && polls[j].alive
        decreases |polls| - i
      {
        if !polls[i].alive {
          return true, false;
        }
        i := i + 1;
      }
      return false, true;
    }
  }
}
