/** What every run of the hub and its agents keeps. */
module NodeProtocolSafety {
  import opened Options
  import opened NodeProtocol

  /** What every run keeps. */
  ghost predicate Inv(s: State) {
    Wired(s) && Local(s) && StartsOnce(s)
  }

  /** What runs keep in which only live processes are greeted. */
  ghost predicate Processes(s: State) {
    Greeted(s) && Recorded(s) && Once(s)
  }

  // What every act but a handshake, an agent restart and a restore's own acts may change.

  ghost predicate RowsKept(db: Database, after: Database) {
    && after.rows.Keys <= after.usedRows
    && db.usedRows <= after.usedRows
    && forall inst | inst in after.rows ::
         if inst in db.rows then after.rows[inst].node == db.rows[inst].node else inst !in db.usedRows
  }

  ghost predicate NodesKept(db: Database, after: Database) {
    && after.nodes.Keys <= after.usedNodes
    && db.usedNodes <= after.usedNodes
    && forall node | node in after.nodes ::
         if node in db.nodes then after.nodes[node] == db.nodes[node]
         else node !in db.usedNodes && after.nodes[node] == None
  }

  ghost predicate SocketsKept(s: State, t: State) {
    && t.past.sockets == s.past.sockets && t.past.hellos == s.past.hellos
    && t.past.triggered == s.past.triggered && t.past.starts == s.past.starts
    && t.hub.links <= s.hub.links
    && t.hub.owned.Keys == t.hub.links
    && t.hub.restores.Keys <= t.hub.links
    && (forall node | node in t.hub.registry ::
          node in s.hub.registry && t.hub.registry[node] == s.hub.registry[node] && t.hub.registry[node] in t.hub.links)
    && (forall link | link in t.hub.restores ::
          link in s.hub.restores && t.hub.restores[link] == s.hub.restores[link])
    && t.hub.powers.Keys <= t.past.requests
    && (forall request | request in t.hub.powers ::
          t.hub.powers[request].inst in s.db.usedRows && t.hub.powers[request].link in s.past.sockets)
    && (forall link, inst | link in t.hub.owned && inst in t.hub.owned[link] ::
          link in s.hub.owned && link in s.past.sockets && Owns(s, link, inst))
  }

  ghost predicate Quiet(s: State, t: State) {
    RowsKept(s.db, t.db) && NodesKept(s.db, t.db) && SocketsKept(s, t) && t.agents == s.agents
  }

  predicate IsQuiet(a: Act) {
    !a.AgentRestart? && !a.Handshake? && !a.RestoreBegin? && !a.RestorePass?
  }

  lemma DatabaseKept(db: Database, a: Act)
    requires db.rows.Keys <= db.usedRows && db.nodes.Keys <= db.usedNodes
    ensures RowsKept(db, DatabaseStep(db, a)) && NodesKept(db, DatabaseStep(db, a))
  {
  }

  /** What a power request changes: the requests, and on its end one row's flag. */
  lemma PowerFrame(s: State, a: Act)
    requires Wired(s)
    ensures var t := PowerStep(s, a);
            && t.hub == s.hub.(powers := t.hub.powers) && t.past == s.past.(requests := t.past.requests)
            && t.agents == s.agents && t.db == s.db.(rows := t.db.rows)
            && RowsKept(s.db, t.db) && t.hub.powers.Keys <= t.past.requests
  {
    hide SpeaksFor;
  }

  lemma PowerLinks(s: State, a: Act, request: Id)
    requires Wired(s) && request in PowerStep(s, a).hub.powers
    ensures var p := PowerStep(s, a).hub.powers[request]; p.inst in s.db.usedRows && p.link in s.past.sockets
  {
    hide SpeaksFor;
  }

  lemma PowerKept(s: State, a: Act)
    requires Wired(s)
    ensures Quiet(s, PowerStep(s, a))
  {
    hide PowerStep; hide RowsKept;
    var t := PowerStep(s, a);
    PowerFrame(s, a);
    forall request | request in t.hub.powers
      ensures t.hub.powers[request].inst in s.db.usedRows && t.hub.powers[request].link in s.past.sockets
    {
      PowerLinks(s, a, request);
    }
  }

  lemma StateEventKept(s: State, link: Id, inst: Id, cleanExit: bool)
    requires Wired(s)
    ensures Quiet(s, StateEventStep(s, link, inst, cleanExit))
  {
  }

  lemma TeardownKept(s: State, link: Id)
    requires Wired(s)
    ensures Quiet(s, TeardownStep(s, link))
  {
  }

  /** Rows and nodes change, and the registry at most loses a node. */
  lemma DeclaredKept(s: State, t: State)
    requires Wired(s) && RowsKept(s.db, t.db) && NodesKept(s.db, t.db)
    requires t.agents == s.agents && t.past == s.past && t.hub == s.hub.(registry := t.hub.registry)
    requires forall node | node in t.hub.registry ::
               node in s.hub.registry && t.hub.registry[node] == s.hub.registry[node]
    ensures Quiet(s, t)
  {
  }

  lemma HubRestartKept(s: State, t: State)
    requires Wired(s) && t == s.(hub := Hub({}, map[], map[], map[], map[]))
    ensures Quiet(s, t)
  {
  }

  lemma QuietStep(s: State, autostart: bool, a: Act)
    requires Wired(s) && IsQuiet(a)
    ensures Quiet(s, Step(s, autostart, a))
  {
    assert s.db.rows.Keys <= s.db.usedRows && s.db.nodes.Keys <= s.db.usedNodes;
    hide DatabaseStep; hide PowerStep; hide StateEventStep; hide TeardownStep;
    hide Wired; hide Quiet; hide RowsKept; hide NodesKept;
    DatabaseKept(s.db, a);
    var t := Step(s, autostart, a);
    match a
    case PowerBegin(_, _, _) => PowerKept(s, a);
    case PowerAccepted(_) => PowerKept(s, a);
    case PowerDone(_) => PowerKept(s, a);
    case PowerFails(_) => PowerKept(s, a);
    case StateEvent(link, inst, cleanExit) => StateEventKept(s, link, inst, cleanExit);
    case Teardown(link) => TeardownKept(s, link);
    case HubRestart => HubRestartKept(s, t);
    case Revoke(_) => SameDatabase(s.db); DeclaredKept(s, t);
    case _ => DeclaredKept(s, t);
  }

  lemma SameDatabase(db: Database)
    requires db.rows.Keys <= db.usedRows && db.nodes.Keys <= db.usedNodes
    ensures RowsKept(db, db) && NodesKept(db, db)
  {
  }

  lemma QuietWired(s: State, t: State)
    requires Wired(s) && Quiet(s, t)
    ensures Wired(t)
  {
  }

  lemma QuietLocal(s: State, t: State)
    requires Wired(s) && Local(s) && Quiet(s, t)
    ensures Local(t)
  {
  }

  lemma QuietGreeted(s: State, t: State)
    requires Wired(s) && Greeted(s) && Quiet(s, t)
    ensures Greeted(t)
  {
  }

  /** Everything said about handshakes so far stays true while sockets are only added. */
  lemma HellosKept(s: State, t: State)
    requires forall link | link in s.past.sockets ::
               link in t.past.sockets && t.past.sockets[link] == s.past.sockets[link]
    requires s.past.triggered <= t.past.triggered
    ensures forall link, session | SaysHello(s, link, session) :: SaysHello(t, link, session)
    ensures forall session | AskedOnce(s, session) :: AskedOnce(t, session)
  {
    forall session | AskedOnce(s, session) ensures AskedOnce(t, session) {
      var first :| first in s.past.triggered && SaysHello(s, first, session);
      assert SaysHello(t, first, session);
    }
  }

  lemma QuietRecorded(s: State, t: State)
    requires Recorded(s) && NodesKept(s.db, t.db) && t.past.sockets == s.past.sockets
    ensures Recorded(t)
  {
    forall node, session | node in t.db.nodes && t.db.nodes[node] == Some(session)
      ensures exists link :: SaysHello(t, link, session)
    {
      var link :| SaysHello(s, link, session);
      assert SaysHello(t, link, session);
    }
  }

  lemma QuietOnce(s: State, t: State)
    requires Once(s) && t.past.sockets == s.past.sockets && t.past.triggered == s.past.triggered
    ensures Once(t)
  {
    HellosKept(s, t);
    forall link, session | SaysHello(t, link, session) ensures AskedOnce(t, session) {
      assert SaysHello(s, link, session);
    }
    forall j, k | j in t.past.triggered && k in t.past.triggered && j != k
      ensures !SameProcess(t, j, k)
    {
      assert !SameProcess(s, j, k);
    }
  }

  lemma QuietStartsOnce(s: State, t: State)
    requires StartsOnce(s) && Quiet(s, t)
    ensures StartsOnce(t)
  {
  }

  lemma HandshakeWired(s: State, autostart: bool, node: Id, session: Option<Id>, link: Id)
    requires Wired(s) && link !in s.past.sockets
    ensures Wired(Greet(s, autostart, node, session, link))
  {
  }

  lemma HandshakeLocal(s: State, autostart: bool, node: Id, session: Option<Id>, link: Id)
    requires Wired(s) && Local(s) && link !in s.past.sockets
    ensures Local(Greet(s, autostart, node, session, link))
  {
  }

  lemma HandshakeGreeted(s: State, autostart: bool, node: Id, link: Id)
    requires Wired(s) && Greeted(s) && link !in s.past.sockets && node in s.agents.live
    ensures Greeted(Greet(s, autostart, node, s.agents.live[node], link))
  {
  }

  lemma HandshakeRecorded(s: State, autostart: bool, node: Id, session: Option<Id>, link: Id)
    requires Wired(s) && Recorded(s) && link !in s.past.sockets
    ensures Recorded(Greet(s, autostart, node, session, link))
  {
    var t := Greet(s, autostart, node, session, link);
    HellosKept(s, t);
    forall n, id | n in t.db.nodes && t.db.nodes[n] == Some(id)
      ensures exists l :: SaysHello(t, l, id)
    {
      if n == node {
        assert SaysHello(t, link, id);
      } else {
        var l :| SaysHello(s, l, id);
        assert SaysHello(t, l, id);
      }
    }
  }

  /** A handshake asks for a restore only if its process never asked before. */
  lemma HandshakeOnce(s: State, autostart: bool, node: Id, link: Id)
    requires Wired(s) && Greeted(s) && Recorded(s) && Once(s) && link !in s.past.sockets && node in s.agents.live
    ensures Once(Greet(s, autostart, node, s.agents.live[node], link))
  {
    var session := s.agents.live[node];
    var t := Greet(s, autostart, node, session, link);
    HellosKept(s, t);
    forall l, id | SaysHello(t, l, id) ensures AskedOnce(t, id) {
      if l != link {
        assert SaysHello(s, l, id);
      } else if link in t.past.triggered {
        assert SaysHello(t, link, id);
      } else {
        var earlier :| SaysHello(s, earlier, id);
        assert AskedOnce(s, id);
      }
    }
    forall j, k | j in t.past.triggered && k in t.past.triggered && j != k ensures !SameProcess(t, j, k) {
      if j != link && k != link {
        assert !SameProcess(s, j, k);
      } else {
        NewProcessIsNew(s, node, if j == link then k else j);
      }
    }
  }

  lemma NewProcessIsNew(s: State, node: Id, earlier: Id)
    requires Greeted(s) && Once(s) && Wired(s)
    requires earlier in s.past.triggered && node in s.agents.live
    ensures node in s.db.nodes && s.agents.live[node].Some? && s.db.nodes[node] != s.agents.live[node]
        ==> s.past.sockets[earlier].session != s.agents.live[node]
  {
  }

  lemma HandshakeStartsOnce(s: State, autostart: bool, node: Id, session: Option<Id>, link: Id)
    requires Wired(s) && StartsOnce(s) && link !in s.past.sockets
    ensures StartsOnce(Greet(s, autostart, node, session, link))
  {
  }

  lemma AgentRestartGreeted(s: State, node: Id, session: Option<Id>)
    requires Greeted(s)
    ensures Greeted(s.(agents := AgentRestartStep(s.agents, node, session)))
  {
  }

  lemma RestoreBeginInv(s: State, link: Id, order: seq<Id>)
    requires Wired(s) && Local(s) && StartsOnce(s)
    ensures var t := RestoreBeginStep(s, link, order); Wired(t) && Local(t) && StartsOnce(t)
  {
  }

  lemma RestorePassWired(s: State, link: Id)
    requires Wired(s)
    ensures Wired(RestorePassStep(s, link))
  {
  }

  lemma RestorePassLocal(s: State, link: Id)
    requires Wired(s) && Local(s)
    ensures Local(RestorePassStep(s, link))
  {
  }

  lemma RestorePassStartsOnce(s: State, link: Id)
    requires Wired(s) && StartsOnce(s)
    ensures StartsOnce(RestorePassStep(s, link))
  {
  }

  // The order of handshakes.

  lemma {:induction false} SameLastHello(before: map<Id, Link>, after: map<Id, Link>, hellos: seq<Id>, longer: seq<Id>,
                                         n: nat, node: Id)
    requires n <= |hellos| <= |longer|
    requires forall k :: 0 <= k < n ==>
               longer[k] == hellos[k] && (Declares(before, hellos[k], node) <==> Declares(after, hellos[k], node))
    ensures LastHello(before, hellos, n, node) == LastHello(after, longer, n, node)
  {
    if n > 0 { SameLastHello(before, after, hellos, longer, n - 1, node); }
  }

  /** A node whose id was never used has had no handshake. */
  lemma NoHelloYet(s: State, n: nat, node: Id)
    requires Wired(s) && n <= |s.past.hellos| && node !in s.db.usedNodes
    ensures LastHello(s.past.sockets, s.past.hellos, n, node) == None
  {
  }

  lemma QuietOrdered(s: State, t: State)
    requires Wired(s) && Ordered(s) && NodesKept(s.db, t.db)
    requires t.past.sockets == s.past.sockets && t.past.hellos == s.past.hellos && t.past.triggered == s.past.triggered
    ensures Ordered(t)
  {
    hide LastHello; hide Wired;
    forall node | node in t.db.nodes ensures t.db.nodes[node] == LastSession(t, |t.past.hellos|, node) {
      if node !in s.db.nodes { NoHelloYet(s, |s.past.hellos|, node); }
    }
    forall i | 0 <= i < |t.past.hellos| ensures t.past.hellos[i] in t.past.triggered <==> Asks(t, i) {
      assert Asks(s, i) <==> Asks(t, i);
    }
  }

  lemma OldSessions(s: State, t: State, link: Id, n: nat, node: Id)
    requires Ordered(s) && link !in s.past.sockets && n <= |s.past.hellos|
    requires t.past.hellos == s.past.hellos + [link]
    requires forall l | l in s.past.sockets :: l in t.past.sockets && t.past.sockets[l] == s.past.sockets[l]
    ensures LastSession(t, n, node) == LastSession(s, n, node)
  {
    hide LastHello;
    SameLastHello(s.past.sockets, t.past.sockets, s.past.hellos, t.past.hellos, n, node);
  }

  lemma HandshakeRecords(s: State, autostart: bool, node: Id, session: Option<Id>, link: Id, m: Id)
    requires Ordered(s) && link !in s.past.sockets
    ensures var t := Greet(s, autostart, node, session, link);
            m in t.db.nodes ==> t.db.nodes[m] == LastSession(t, |t.past.hellos|, m)
  {
    var t := Greet(s, autostart, node, session, link);
    var n := |s.past.hellos|;
    assert t.past.hellos[n] == link && |t.past.hellos| == n + 1;
    OldSessions(s, t, link, n, m);
    assert Declares(t.past.sockets, link, m) <==> m == node && node in s.db.nodes;
  }

  lemma HandshakeAsks(s: State, autostart: bool, node: Id, session: Option<Id>, link: Id, i: nat)
    requires Wired(s) && Ordered(s) && link !in s.past.sockets && i <= |s.past.hellos|
    ensures var t := Greet(s, autostart, node, session, link);
            t.past.hellos[i] in t.past.triggered <==> Asks(t, i)
  {
    hide LastHello; hide Distinct;
    var t := Greet(s, autostart, node, session, link);
    if i < |s.past.hellos| {
      assert t.past.hellos[i] == s.past.hellos[i] && s.past.hellos[i] in s.past.sockets;
      OldSessions(s, t, link, i, s.past.sockets[s.past.hellos[i]].node);
      assert Asks(s, i) <==> Asks(t, i);
    } else {
      assert t.past.hellos[i] == link && link !in s.past.triggered;
      OldSessions(s, t, link, i, node);
    }
  }

  lemma HandshakeOrdered(s: State, autostart: bool, node: Id, session: Option<Id>, link: Id)
    requires Wired(s) && Ordered(s) && link !in s.past.sockets
    ensures Ordered(Greet(s, autostart, node, session, link))
  {
    var t := Greet(s, autostart, node, session, link);
    assert forall l :: l in t.past.hellos <==> l in t.past.sockets;
    assert Distinct(t.past.hellos);
    hide Wired; hide LastHello; hide LastSession; hide Asks; hide Distinct;
    forall m | m in t.db.nodes ensures t.db.nodes[m] == LastSession(t, |t.past.hellos|, m) {
      HandshakeRecords(s, autostart, node, session, link, m);
    }
    forall i | 0 <= i < |t.past.hellos| ensures t.past.hellos[i] in t.past.triggered <==> Asks(t, i) {
      HandshakeAsks(s, autostart, node, session, link, i);
    }
  }

  // Every act.

  lemma StepKeepsInv(s: State, autostart: bool, a: Act)
    requires Inv(s)
    ensures Inv(Step(s, autostart, a))
  {
    hide Wired; hide Local; hide StartsOnce; hide NodesKept;
    hide Greet; hide AgentRestartStep; hide RestoreBeginStep; hide RestorePassStep;
    match a
    case AgentRestart(node, session) => OtherFieldsKept(s, Step(s, autostart, a));
    case Handshake(node, session, link) =>
      if link !in s.past.sockets {
        HandshakeWired(s, autostart, node, session, link);
        HandshakeLocal(s, autostart, node, session, link);
        HandshakeStartsOnce(s, autostart, node, session, link);
      }
    case RestoreBegin(link, order) => RestoreBeginInv(s, link, order);
    case RestorePass(link) =>
      RestorePassWired(s, link);
      RestorePassLocal(s, link);
      RestorePassStartsOnce(s, link);
    case _ =>
      hide Step;
      QuietStep(s, autostart, a);
      QuietInv(s, Step(s, autostart, a));
  }

  lemma QuietInv(s: State, t: State)
    requires Inv(s) && Quiet(s, t)
    ensures Inv(t)
  {
    hide Wired; hide Local; hide StartsOnce; hide RowsKept; hide NodesKept;
    QuietWired(s, t);
    QuietLocal(s, t);
    QuietStartsOnce(s, t);
  }

  lemma OtherFieldsKept(s: State, t: State)
    requires Inv(s) && t.db == s.db && t.hub == s.hub && t.past == s.past
    ensures Inv(t)
  {
    SameLocal(s, t);
    hide Local;
  }

  lemma SameLocal(s: State, t: State)
    requires Local(s) && t.db == s.db && t.hub == s.hub && t.past == s.past
    ensures Local(t)
  {
    assert forall inst, link :: HomeIs(s, inst, link) <==> HomeIs(t, inst, link);
  }

  /** Every act keeps the record of who was greeted last. */
  lemma StepKeepsOrdered(s: State, autostart: bool, a: Act)
    requires Wired(s) && Ordered(s)
    ensures Ordered(Step(s, autostart, a))
  {
    hide Wired; hide Ordered; hide NodesKept; hide RowsKept;
    hide Greet; hide AgentRestartStep; hide RestoreBeginStep; hide RestorePassStep;
    var t := Step(s, autostart, a);
    match a
    case AgentRestart(node, session) => OtherHistoryKept(s, t);
    case Handshake(node, session, link) =>
      if link !in s.past.sockets { HandshakeOrdered(s, autostart, node, session, link); }
    case RestoreBegin(link, order) =>
      RestoreKeeps(s, link, order);
      OtherHistoryKept(s, t);
    case RestorePass(link) =>
      RestoreKeeps(s, link, []);
      OtherHistoryKept(s, t);
    case _ =>
      hide Step;
      QuietStep(s, autostart, a);
      QuietOrdered(s, t);
  }

  /** A restore changes neither the database nor what is known about processes. */
  lemma RestoreKeeps(s: State, link: Id, order: seq<Id>)
    ensures forall t | t in [RestoreBeginStep(s, link, order), RestorePassStep(s, link)] ::
              && t.db == s.db && t.agents == s.agents && t.past.hellos == s.past.hellos
              && t.past.sockets == s.past.sockets && t.past.triggered == s.past.triggered
  {
  }

  lemma OtherHistoryKept(s: State, t: State)
    requires Ordered(s) && t.db == s.db && t.past.hellos == s.past.hellos
    requires t.past.sockets == s.past.sockets && t.past.triggered == s.past.triggered
    ensures Ordered(t)
  {
    hide LastHello; hide Distinct;
    forall i | 0 <= i < |t.past.hellos| ensures t.past.hellos[i] in t.past.triggered <==> Asks(t, i) {
      assert Asks(s, i) <==> Asks(t, i);
    }
  }

  lemma {:induction false} RunKeepsInv(s: State, autostart: bool, acts: seq<Act>)
    requires Inv(s)
    ensures Inv(Run(s, autostart, acts))
    decreases |acts|
  {
    hide Inv; hide Step;
    if acts != [] {
      StepKeepsInv(s, autostart, acts[0]);
      RunKeepsInv(Step(s, autostart, acts[0]), autostart, acts[1..]);
    }
  }

  lemma {:induction false} RunKeepsOrdered(s: State, autostart: bool, acts: seq<Act>)
    requires Inv(s) && Ordered(s)
    ensures Ordered(Run(s, autostart, acts))
    decreases |acts|
  {
    hide Step; hide Ordered; hide Inv;
    if acts != [] {
      StepKeepsInv(s, autostart, acts[0]);
      assert Wired(s) by { InvWired(s); }
      StepKeepsOrdered(s, autostart, acts[0]);
      RunKeepsOrdered(Step(s, autostart, acts[0]), autostart, acts[1..]);
    }
  }

  /** Every declared instance lives on a declared node. */
  ghost predicate Housed(db: Database) {
    forall inst | inst in db.rows :: db.rows[inst].node in db.nodes
  }

  lemma StepKeepsHoused(s: State, autostart: bool, a: Act)
    requires Housed(s.db)
    ensures Housed(Step(s, autostart, a).db)
  {
    hide NextPass; hide IsPending; hide Owns; hide SpeaksFor;
  }

  lemma {:induction false} RunKeepsHoused(s: State, autostart: bool, acts: seq<Act>)
    requires Housed(s.db)
    ensures Housed(Run(s, autostart, acts).db)
    decreases |acts|
  {
    hide Step; hide Housed;
    if acts != [] {
      StepKeepsHoused(s, autostart, acts[0]);
      RunKeepsHoused(Step(s, autostart, acts[0]), autostart, acts[1..]);
    }
  }

  lemma InvWired(s: State)
    requires Inv(s)
    ensures Wired(s)
  {
  }

  // Acts of live processes.

  lemma QuietProcesses(s: State, t: State)
    requires Wired(s) && Processes(s) && Quiet(s, t)
    ensures Processes(t)
  {
    hide Wired; hide Greeted; hide Recorded; hide Once; hide NodesKept; hide RowsKept;
    QuietGreeted(s, t);
    QuietRecorded(s, t);
    QuietOnce(s, t);
  }

  lemma RestoreProcesses(s: State, t: State)
    requires Wired(s) && Processes(s) && t.db == s.db && t.agents == s.agents
    requires t.past.sockets == s.past.sockets && t.past.triggered == s.past.triggered
    ensures Processes(t)
  {
    hide Greeted; hide Recorded; hide Once;
    SameHistory(s, t);
    SameGreeted(s, t);
  }

  lemma AgentRestartProcesses(s: State, node: Id, session: Option<Id>)
    requires Wired(s) && Processes(s)
    ensures Processes(s.(agents := AgentRestartStep(s.agents, node, session)))
  {
    hide Greeted; hide Recorded; hide Once; hide AgentRestartStep;
    AgentRestartGreeted(s, node, session);
    SameHistory(s, s.(agents := AgentRestartStep(s.agents, node, session)));
  }

  lemma HandshakeProcesses(s: State, autostart: bool, node: Id, link: Id)
    requires Wired(s) && Processes(s) && link !in s.past.sockets && node in s.agents.live
    ensures Processes(Greet(s, autostart, node, s.agents.live[node], link))
  {
    hide Wired; hide Greeted; hide Recorded; hide Once; hide Greet;
    HandshakeGreeted(s, autostart, node, link);
    HandshakeRecorded(s, autostart, node, s.agents.live[node], link);
    HandshakeOnce(s, autostart, node, link);
  }

  lemma StepKeepsProcesses(s: State, autostart: bool, a: Act)
    requires Inv(s) && Processes(s) && FromLive(s, a)
    ensures Processes(Step(s, autostart, a))
  {
    hide Wired; hide Local; hide StartsOnce; hide Processes;
    hide Greet; hide AgentRestartStep; hide RestoreBeginStep; hide RestorePassStep;
    match a
    case AgentRestart(node, session) => AgentRestartProcesses(s, node, session);
    case Handshake(node, session, link) =>
      if link !in s.past.sockets { HandshakeProcesses(s, autostart, node, link); }
    case RestoreBegin(link, order) =>
      RestoreKeeps(s, link, order);
      RestoreProcesses(s, RestoreBeginStep(s, link, order));
    case RestorePass(link) =>
      RestoreKeeps(s, link, []);
      RestoreProcesses(s, RestorePassStep(s, link));
    case _ =>
      hide Step; hide Quiet;
      QuietStep(s, autostart, a);
      QuietProcesses(s, Step(s, autostart, a));
  }

  lemma SameHistory(s: State, t: State)
    requires Recorded(s) && Once(s) && Wired(s) && t.db == s.db
    requires t.past.sockets == s.past.sockets && t.past.triggered == s.past.triggered
    ensures Recorded(t) && Once(t)
  {
    QuietOnce(s, t);
    QuietRecorded(s, t);
  }

  lemma SameGreeted(s: State, t: State)
    requires Greeted(s) && t.db == s.db && t.agents == s.agents && t.past.sockets == s.past.sockets
    ensures Greeted(t)
  {
  }

  lemma {:induction false} RunKeepsProcesses(s: State, autostart: bool, acts: seq<Act>)
    requires Inv(s) && Processes(s) && LiveRun(s, autostart, acts)
    ensures Processes(Run(s, autostart, acts))
    decreases |acts|
  {
    hide Inv; hide Processes; hide Step; hide FromLive;
    if acts != [] {
      StepKeepsInv(s, autostart, acts[0]);
      StepKeepsProcesses(s, autostart, acts[0]);
      RunKeepsProcesses(Step(s, autostart, acts[0]), autostart, acts[1..]);
    }
  }

  lemma InitialInv()
    ensures Inv(Initial) && Ordered(Initial) && Processes(Initial)
  {
  }
}
