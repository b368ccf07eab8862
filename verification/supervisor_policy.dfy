/** The supervisor's decisions about one instance, as functions on its bookkeeping.

    Two models are built from these pieces. In SupervisorCalls every agent call is one step.
    In SupervisorInterleaving the same calls are cut at the points where they wait, so that
    other calls can land in between. What tmux, the file system and the clock answer is an
    argument of each step, so every statement about runs covers every environment. */
module SupervisorPolicy {
  import opened Options
  import opened RelaunchHistory

  /** A live instance that never announced itself is assumed to be up after this long
      (_STARTUP_GRACE_S). */
  const STARTUP_GRACE: Time := 300.0

  datatype RestartPolicy = Never | OnCrash | Always

  datatype RunState = Stopped | Starting | Running | Stopping | Crashed | Updating

  /** A state_changed event: the new state, whether it reports a clean exit, and whether the
      agent is still keeping the instance up. */
  datatype Event = StateChanged(state: RunState, cleanExit: bool, supervised: bool)

  /** What _launch can come to: tmux created no session, the command died inside the settle
      window, or it was still alive after it. */
  datatype LaunchOutcome = NoSession | Died | Alive

  /** A session creation: a relaunch by the monitor, or the launch of an operator's start. */
  datatype Launch = ByMonitor(relaunch: Relaunch) | ByOperator(at: Time)

  /** The bookkeeping of one instance (the fields of ManagedInstance that decide anything). */
  datatype Managed = Managed(
    state: RunState,
    shouldBeUp: bool,
    crashTimes: seq<Time>,
    ready: bool,
    launchedAt: Time,
    launchFailures: nat,
    policy: RestartPolicy)

  function Fresh(policy: RestartPolicy): Managed {
    Managed(Stopped, false, [], false, 0.0, 0, policy)
  }

  // ---- Pieces of the calls, each free of waits -------------------------------------------

  function Report(m: Managed, cleanExit: bool): Event {
    StateChanged(m.state, cleanExit, m.shouldBeUp)
  }

  /** Promote an instance whose run announced readiness, once per run. */
  function OnReady(m: Managed): (Managed, seq<Event>) {
    if m.ready then (m, [])
    else
      var up := m.(ready := true, launchFailures := 0);
      if m.state.Running? then (up, [])
      else (up.(state := Running), [Report(up.(state := Running), false)])
  }

  function StartupGrace(m: Managed, now: Time): (Managed, seq<Event>) {
    if m.launchedAt != 0.0 && now - m.launchedAt >= STARTUP_GRACE then OnReady(m) else (m, [])
  }

  /** The part of _launch before the session is created: a new run is not ready. */
  function ResetForLaunch(m: Managed, now: Time): Managed {
    m.(ready := false, launchedAt := now)
  }

  /** Record the exit of a run that was supposed to be up. */
  function CountExit(m: Managed, now: Time): Managed {
    if m.ready then m.(crashTimes := Recent(m.crashTimes, now) + [now])
    else m.(launchFailures := m.launchFailures + 1)
  }

  /** Whether the policy stops retrying after the exit has been counted. `problem` is a root
      directory or Java home that cannot be used. */
  predicate GivesUp(counted: Managed, problem: bool) {
    || counted.policy.Never?
    || (counted.ready && |counted.crashTimes| > CRASH_LIMIT)
    || (!counted.ready && counted.launchFailures >= LAUNCH_FAILURE_LIMIT)
    || problem
  }

  /** Count an exit and decide. The second component says whether to relaunch. */
  function Decide(m: Managed, now: Time, problem: bool, cleanExit: bool): (Managed, bool) {
    var counted := CountExit(m, now);
    if GivesUp(counted, problem) then (counted.(shouldBeUp := false, state := Crashed), false)
    else (counted.(state := if cleanExit then Starting else Crashed), true)
  }

  /** A shutdown typed at the console is honoured: the instance is to stay down. */
  function StandDown(m: Managed): Managed {
    m.(shouldBeUp := false, crashTimes := [], launchFailures := 0)
  }

  function SettleRelaunch(m: Managed, outcome: LaunchOutcome): Managed {
    m.(state := if outcome.Alive? then Starting else Crashed)
  }

  /** start adopts a session that is already there. */
  function Adopt(m: Managed): (Managed, seq<Event>) {
    var up := m.(shouldBeUp := true, ready := true, launchFailures := 0);
    if m.state.Running? then (up, []) else (up.(state := Running), [Report(up.(state := Running), false)])
  }

  /** The part of start after _launch returned. */
  function SettleStart(m: Managed, outcome: LaunchOutcome): (Managed, seq<Event>) {
    match outcome
    case NoSession => (m.(state := Stopped), [Report(m.(state := Stopped), false)])
    case Died =>
      var up := m.(shouldBeUp := true, crashTimes := [], launchFailures := 0, state := Crashed);
      (up, [Report(up, false)])
    case Alive => (m.(shouldBeUp := true, crashTimes := [], launchFailures := 0), [])
  }

  /** What is left of the retry loop: the passes that can still find the session gone before
      the monitor gives up. */
  function RetriesLeft(m: Managed): nat {
    if !m.shouldBeUp then 0
    else if m.launchFailures >= LAUNCH_FAILURE_LIMIT then 1
    else LAUNCH_FAILURE_LIMIT - m.launchFailures
  }

  function MonitorShare(launch: Launch): seq<Relaunch> {
    if launch.ByMonitor? then [launch.relaunch] else []
  }

  /** The monitor's share of a list of launches, as a relaunch history. */
  function Relaunches(launches: seq<Launch>): seq<Relaunch> {
    if launches == [] then [] else MonitorShare(launches[0]) + Relaunches(launches[1..])
  }

  lemma {:induction false} RelaunchesAppend(a: seq<Launch>, b: seq<Launch>)
    ensures Relaunches(a + b) == Relaunches(a) + Relaunches(b)
  {
    hide MonitorShare;
    if a == [] {
      assert a + b == b;
    } else {
      assert (a + b)[1..] == a[1..] + b && (a + b)[0] == a[0];
      RelaunchesAppend(a[1..], b);
      var first := MonitorShare(a[0]);
      assert first + (Relaunches(a[1..]) + Relaunches(b)) == (first + Relaunches(a[1..])) + Relaunches(b);
    }
  }
}
