/** Runs from the beginning that reach the states in which a restore or a stop loses what one might
    expect of it. */
module RestoreWitnesses {
  import opened Options
  import opened NodeProtocol
  import opened NodeProtocolSafety
  import opened RestoreGuarantees

  lemma RunCons(s: State, autostart: bool, a: Act, rest: seq<Act>)
    ensures Run(s, autostart, [a] + rest) == Run(Step(s, autostart, a), autostart, rest)
    ensures LiveRun(s, autostart, [a] + rest)
        <==> FromLive(s, a) && LiveRun(Step(s, autostart, a), autostart, rest)
  {
    assert ([a] + rest)[1..] == rest;
  }

  lemma RunOne(s: State, autostart: bool, a: Act)
    ensures Run(s, autostart, [a]) == Step(s, autostart, a)
    ensures LiveRun(s, autostart, [a]) <==> FromLive(s, a)
  {
    assert [a] + [] == [a];
    RunCons(s, autostart, a, []);
  }

  /** A node with one armed instance, whose agent says hello. */
  function Greeting(node: Id, inst: Id, session: Id, link: Id): seq<Act> {
    [CreateNode(node)] + ([CreateInstance(inst, node, true)]
                          + ([AgentRestart(node, Some(session))] + [Handshake(node, Some(session), link)]))
  }

  predicate JustGreeted(s: State, node: Id, inst: Id, session: Id, link: Id) {
    && s.db.rows == map[inst := Row(node, true)] && s.agents.live == map[node := Some(session)]
    && s.past.sockets == map[link := Link(node, Some(session), true)] && s.past.triggered == {link}
    && s.hub.restores == map[link := Queued] && s.hub.registry == map[node := link]
    && s.hub.powers == map[] && s.past.requests == {}
  }

  lemma GreetingGreets(node: Id, inst: Id, session: Id, link: Id)
    ensures JustGreeted(Run(Initial, true, Greeting(node, inst, session, link)), node, inst, session, link)
    ensures LiveRun(Initial, true, Greeting(node, inst, session, link))
  {
    var a, b, c, d := CreateNode(node), CreateInstance(inst, node, true), AgentRestart(node, Some(session)),
                      Handshake(node, Some(session), link);
    var s1 := Step(Initial, true, a);
    var s2 := Step(s1, true, b);
    var s3 := Step(s2, true, c);
    assert s3.db == Database(map[inst := Row(node, true)], map[node := None], {inst}, {node});
    assert s3.agents == Agents(map[node := Some(session)], {session});
    assert s3.hub == Initial.hub && s3.past == Initial.past;
    var s4 := Step(s3, true, d);
    assert s4 == Greet(s3, true, node, Some(session), link) && FromLive(s3, d);
    assert JustGreeted(s4, node, inst, session, link);
    hide Step; hide JustGreeted; hide Run; hide LiveRun;
    RunOne(s3, true, d);
    RunCons(s2, true, c, [d]);
    RunCons(s1, true, b, [c] + [d]);
    RunCons(Initial, true, a, [b] + ([c] + [d]));
  }

  lemma RestoreTakesUp(t: State, node: Id, inst: Id, session: Id, link: Id)
    requires JustGreeted(t, node, inst, session, link)
    ensures var s := Step(t, true, RestoreBegin(link, [inst]));
            && Armed(s.db.rows, inst) && s.agents == t.agents && s.past == t.past
            && link in s.hub.restores && s.hub.restores[link] == Going([inst], 0)
            && AskedOnce(s, session)
  {
    assert IsPending(t.db.rows, node, [inst]);
    var s := Step(t, true, RestoreBegin(link, [inst]));
    assert SaysHello(s, link, session) && link in s.past.triggered;
  }

  /** A restore is under way with an armed instance ahead, on the socket of a live process: if that
      process dials again now, the instance is not started by any restore while the process lives. */
  lemma RestoreUnderWay(node: Id, inst: Id, session: Id, link: Id, redial: Id)
    requires link != redial
    ensures var s := Step(Run(Initial, true, Greeting(node, inst, session, link)), true, RestoreBegin(link, [inst]));
            && Inv(s) && Processes(s) && Armed(s.db.rows, inst)
            && link in s.hub.restores && s.hub.restores[link] == Going([inst], 0)
            && redial !in s.past.sockets && AskedOnce(s, session)
            && node in s.agents.live && s.agents.live[node] == Some(session)
  {
    hide Inv; hide Processes; hide Run; hide Step; hide LiveRun;
    var acts := Greeting(node, inst, session, link);
    hide Greeting;
    GreetingGreets(node, inst, session, link);
    InitialInv();
    RunKeepsInv(Initial, true, acts);
    RunKeepsProcesses(Initial, true, acts);
    var t := Run(Initial, true, acts);
    assert FromLive(t, RestoreBegin(link, [inst]));
    StepKeepsInv(t, true, RestoreBegin(link, [inst]));
    StepKeepsProcesses(t, true, RestoreBegin(link, [inst]));
    RestoreTakesUp(t, node, inst, session, link);
  }

  /** A start in flight is overtaken by a stop that is answered and written first. */
  function Race(inst: Id, start: Id, stop: Id): seq<Act> {
    [PowerBegin(start, inst, true)] + ([PowerBegin(stop, inst, false)] + ([PowerAccepted(stop)] + [PowerDone(stop)]))
  }

  lemma RaceBegins(t: State, node: Id, inst: Id, session: Id, link: Id, start: Id, stop: Id)
    requires JustGreeted(t, node, inst, session, link) && start != stop
    ensures var s := Step(Step(t, true, PowerBegin(start, inst, true)), true, PowerBegin(stop, inst, false));
            && s.hub == t.hub.(powers := map[start := Power(inst, true, link, false),
                                             stop := Power(inst, false, link, false)])
            && s.db == t.db && s.past.sockets == t.past.sockets
  {
  }

  lemma RaceEnds(t: State, s: State, node: Id, inst: Id, session: Id, link: Id, start: Id, stop: Id)
    requires JustGreeted(t, node, inst, session, link) && start != stop
    requires s.hub == t.hub.(powers := map[start := Power(inst, true, link, false),
                                           stop := Power(inst, false, link, false)])
    requires s.db == t.db && s.past.sockets == t.past.sockets
    ensures var u := Step(Step(s, true, PowerAccepted(stop)), true, PowerDone(stop));
            u.db.rows == map[inst := Row(node, false)] && ArmingInFlight(u, inst)
  {
    var s3 := Step(s, true, PowerAccepted(stop));
    var u := Step(s3, true, PowerDone(stop));
    assert s3.hub.powers[stop] == Power(inst, false, link, true);
    assert s3.hub.powers[start] == Power(inst, true, link, false);
    assert Answerable(u, start) && u.hub.powers[start].inst == inst && u.hub.powers[start].arms;
  }

  /** Then the instance is disarmed, and the start can still arm it. */
  lemma StopOvertakesStart(node: Id, inst: Id, session: Id, link: Id, start: Id, stop: Id)
    requires start != stop
    ensures var s := Run(Run(Initial, true, Greeting(node, inst, session, link)), true, Race(inst, start, stop));
            !Armed(s.db.rows, inst) && inst in s.db.rows && ArmingInFlight(s, inst)
  {
    hide Run; hide Step; hide Greeting;
    var t := Run(Initial, true, Greeting(node, inst, session, link));
    GreetingGreets(node, inst, session, link);
    var a, b := PowerBegin(start, inst, true), PowerBegin(stop, inst, false);
    var c, d := PowerAccepted(stop), PowerDone(stop);
    var s1 := Step(t, true, a);
    var s2 := Step(s1, true, b);
    var s3 := Step(s2, true, c);
    RaceBegins(t, node, inst, session, link, start, stop);
    RaceEnds(t, s2, node, inst, session, link, start, stop);
    hide JustGreeted; hide ArmingInFlight;
    RunOne(s3, true, d);
    RunCons(s2, true, c, [d]);
    RunCons(s1, true, b, [c] + [d]);
    RunCons(t, true, a, [b] + ([c] + [d]));
  }
}
