/**
 * The hub and its agents as one system (api/agent_ws.py, api/reconcile.py,
 * api/control.py, agents/registry.py; connection.py on the agent).
 *
 * What survives a hub restart is the database: which instances are declared,
 * on which node, whether they are armed (start_with_node), and the last agent
 * process greeted on each node.  Sockets, the registry, running restores and
 * power requests in flight do not survive.  An agent process sends one session
 * id for its whole life, or none if it predates the field.  Frames and events
 * may be lost: any act may simply not happen.
 *
 * Built into the acts: ids of processes, sockets, instances and nodes are never
 * reused (an act that would reuse one does nothing).  A handshake may carry the
 * session id of any process there ever was: a hello sent before its process
 * died can be handled late.  Runs in which every handshake comes from the
 * process then alive on the node are singled out by LiveRun.
 */
module NodeProtocol {
  import opened Options

  datatype Id = Id(hex: string)

  datatype Row = Row(node: Id, armed: bool)

  /** A socket: the node it authenticated as, the process's session id, and whether the node was
      still declared when the handshake claimed it. */
  datatype Link = Link(node: Id, session: Option<Id>, declared: bool)

  /** A restore task: not yet run, or working through its list. */
  datatype Restore = Queued | Going(pending: seq<Id>, index: nat)

  /** A power request in flight: what it asks for, the socket it went out on, and whether the agent's
      acceptance has arrived there. */
  datatype Power = Power(inst: Id, arms: bool, link: Id, accepted: bool)

  /** One power.start sent by the restore running for a socket. */
  datatype Start = Start(inst: Id, link: Id)

  /** What survives a hub restart. */
  datatype Database = Database(rows: map<Id, Row>, nodes: map<Id, Option<Id>>, usedRows: set<Id>, usedNodes: set<Id>)

  /** What does not. */
  datatype Hub = Hub(
    links: set<Id>, owned: map<Id, set<Id>>, registry: map<Id, Id>, restores: map<Id, Restore>, powers: map<Id, Power>)

  /** The process alive on each node, by the session id it sends. */
  datatype Agents = Agents(live: map<Id, Option<Id>>, used: set<Id>)

  /** What has happened: sockets ever opened, in the order of their handshakes, those whose
      handshake asked for a restore, the starts restores have sent, and the power requests ever
      made. */
  datatype Past = Past(
    sockets: map<Id, Link>, hellos: seq<Id>, triggered: set<Id>, starts: seq<Start>, requests: set<Id>)

  datatype State = State(db: Database, hub: Hub, agents: Agents, past: Past)

  const Initial := State(
    Database(map[], map[], {}, {}), Hub({}, map[], map[], map[], map[]), Agents(map[], {}), Past(map[], [], {}, [], {}))

  datatype Act =
    | CreateNode(node: Id)
    | DeleteNode(node: Id)
    | Revoke(node: Id)
    | CreateInstance(inst: Id, node: Id, armed: bool)
    | DeleteInstance(inst: Id)
    | SetArmed(inst: Id, armed: bool)              // PATCH by the operator
    | BuildLeftStopped(inst: Id)                   // a new server was built but not started
    | PowerBegin(request: Id, inst: Id, arms: bool) // start/restart, or stop/kill, sent to the agent
    | PowerAccepted(request: Id)                   // the agent's yes arrives on the socket
    | PowerDone(request: Id)                       // the route writes the declared flag
    | PowerFails(request: Id)                      // refused, timed out or disconnected
    | AgentRestart(node: Id, session: Option<Id>)
    | Handshake(node: Id, session: Option<Id>, link: Id)
    | RestoreBegin(link: Id, order: seq<Id>)
    | RestorePass(link: Id)
    | StateEvent(link: Id, inst: Id, cleanExit: bool)
    | Teardown(link: Id)
    | HubRestart

  predicate Armed(rows: map<Id, Row>, inst: Id) {
    inst in rows && rows[inst].armed
  }

  /** _claim_agent_session: whether this is a new process, and what the database then holds. */
  function Claim(nodes: map<Id, Option<Id>>, node: Id, session: Option<Id>): (bool, map<Id, Option<Id>>) {
    if node !in nodes then (false, nodes)
    else (session.None? || nodes[node] != session, nodes[node := session])
  }

  /** Greeting a socket: the claim is persisted and the socket registered before any restore runs. */
  function Greet(s: State, autostart: bool, node: Id, session: Option<Id>, link: Id): State
    requires link !in s.past.sockets
  {
    var (restarted, nodes) := Claim(s.db.nodes, node, session);
    State(
      s.db.(nodes := nodes),
      s.hub.(links := s.hub.links + {link},
             owned := s.hub.owned[link := {}],
             registry := s.hub.registry[node := link],
             restores := if restarted && autostart then s.hub.restores[link := Queued] else s.hub.restores),
      s.agents,
      s.past.(sockets := s.past.sockets[link := Link(node, session, node in s.db.nodes)],
              hellos := s.past.hellos + [link],
              triggered := if restarted then s.past.triggered + {link} else s.past.triggered))
  }

  /** pending_for: every armed instance of the node, once. */
  ghost predicate IsPending(rows: map<Id, Row>, node: Id, order: seq<Id>) {
    && (forall inst :: inst in order <==> Armed(rows, inst) && rows[inst].node == node)
    && Distinct(order)
  }

  /** One pass of the restore loop: give up if the socket no longer speaks for the node, skip an
      instance that was disarmed or deleted meanwhile, otherwise send its start. */
  datatype Pass = Abandon | Skip | Send

  function PassOf(rows: map<Id, Row>, registry: map<Id, Id>, node: Id, link: Id, inst: Id): Pass {
    if !(node in registry && registry[node] == link) then Abandon
    else if !Armed(rows, inst) then Skip
    else Send
  }

  /** note_clean_exit. */
  function NoteCleanExit(rows: map<Id, Row>, node: Id, inst: Id, cleanExit: bool): map<Id, Row> {
    if cleanExit && inst in rows && rows[inst].node == node && rows[inst].armed
    then rows[inst := rows[inst].(armed := false)] else rows
  }

  function Declare(rows: map<Id, Row>, inst: Id, armed: bool): map<Id, Row> {
    if inst in rows then rows[inst := rows[inst].(armed := armed)] else rows
  }

  /** The operator's routes over declared rows. */
  function DatabaseStep(db: Database, a: Act): Database {
    match a
    case CreateNode(node) =>
      if node in db.usedNodes then db
      else db.(nodes := db.nodes[node := None], usedNodes := db.usedNodes + {node})
    case DeleteNode(node) =>
      db.(nodes := db.nodes - {node}, rows := map inst | inst in db.rows && db.rows[inst].node != node :: db.rows[inst])
    case CreateInstance(inst, node, armed) =>
      if inst in db.usedRows || node !in db.nodes then db
      else db.(rows := db.rows[inst := Row(node, armed)], usedRows := db.usedRows + {inst})
    case DeleteInstance(inst) => db.(rows := db.rows - {inst})
    case SetArmed(inst, armed) => db.(rows := Declare(db.rows, inst, armed))
    case BuildLeftStopped(inst) => db.(rows := Declare(db.rows, inst, false))
    case _ => db
  }

  /** The socket is the one registered for its node. One that is not, any more, had its calls
      rejected, so no answer on it is heard. */
  predicate SpeaksFor(s: State, link: Id) {
    && link in s.past.sockets && s.past.sockets[link].node in s.hub.registry
    && s.hub.registry[s.past.sockets[link].node] == link
  }

  /** power: the declared flag is written only once the agent has accepted. */
  function PowerStep(s: State, a: Act): State {
    match a
    case PowerBegin(request, inst, arms) =>
      if request in s.past.requests || inst !in s.db.rows || s.db.rows[inst].node !in s.hub.registry then s
      else
        var link := s.hub.registry[s.db.rows[inst].node];
        s.(hub := s.hub.(powers := s.hub.powers[request := Power(inst, arms, link, false)]),
           past := s.past.(requests := s.past.requests + {request}))
    case PowerAccepted(request) =>
      if request in s.hub.powers && SpeaksFor(s, s.hub.powers[request].link)
      then s.(hub := s.hub.(powers := s.hub.powers[request := s.hub.powers[request].(accepted := true)])) else s
    case PowerDone(request) =>
      if request !in s.hub.powers || !s.hub.powers[request].accepted then s
      else s.(hub := s.hub.(powers := s.hub.powers - {request}),
              db := s.db.(rows := Declare(s.db.rows, s.hub.powers[request].inst, s.hub.powers[request].arms)))
    case PowerFails(request) => s.(hub := s.hub.(powers := s.hub.powers - {request}))
    case _ => s
  }

  /** _owns: the answer is cached per socket. */
  predicate Owns(s: State, link: Id, inst: Id)
    requires link in s.hub.owned && link in s.past.sockets
  {
    inst in s.hub.owned[link] || (inst in s.db.rows && s.db.rows[inst].node == s.past.sockets[link].node)
  }

  function StateEventStep(s: State, link: Id, inst: Id, cleanExit: bool): State {
    if link !in s.hub.owned || link !in s.past.sockets || !Owns(s, link, inst) then s
    else s.(hub := s.hub.(owned := s.hub.owned[link := s.hub.owned[link] + {inst}]),
            db := s.db.(rows := NoteCleanExit(s.db.rows, s.past.sockets[link].node, inst, cleanExit)))
  }

  function TeardownStep(s: State, link: Id): State {
    if link !in s.past.sockets then s
    else s.(hub := s.hub.(
      links := s.hub.links - {link}, owned := s.hub.owned - {link}, restores := s.hub.restores - {link},
      registry := Unregister(s.hub.registry, s.past.sockets[link].node, link)))
  }

  function Unregister(registry: map<Id, Id>, node: Id, link: Id): map<Id, Id> {
    if node in registry && registry[node] == link then registry - {node} else registry
  }

  function AgentRestartStep(agents: Agents, node: Id, session: Option<Id>): Agents {
    match session
    case None => agents.(live := agents.live[node := None])
    case Some(id) => if id in agents.used then agents else Agents(agents.live[node := session], agents.used + {id})
  }

  ghost function RestoreBeginStep(s: State, link: Id, order: seq<Id>): State {
    if link in s.hub.restores && s.hub.restores[link].Queued? && link in s.past.sockets
       && IsPending(s.db.rows, s.past.sockets[link].node, order)
    then s.(hub := s.hub.(restores := s.hub.restores[link := Going(order, 0)])) else s
  }

  /** What the restore of `link` does on its next pass; its end is giving up. */
  function NextPass(s: State, link: Id, r: Restore): Pass
    requires r.Going? && link in s.past.sockets
  {
    if r.index >= |r.pending| then Abandon
    else PassOf(s.db.rows, s.hub.registry, s.past.sockets[link].node, link, r.pending[r.index])
  }

  function RestorePassStep(s: State, link: Id): State {
    if link !in s.hub.restores || link !in s.past.sockets || s.hub.restores[link].Queued? then s
    else
      var r := s.hub.restores[link];
      var pass := NextPass(s, link, r);
      s.(hub := s.hub.(restores := if pass.Abandon? then s.hub.restores - {link}
                                   else s.hub.restores[link := Going(r.pending, r.index + 1)]),
         past := s.past.(starts := if pass.Send? then s.past.starts + [Start(r.pending[r.index], link)]
                                   else s.past.starts))
  }

  ghost function Step(s: State, autostart: bool, a: Act): State {
    match a
    case CreateNode(_) => s.(db := DatabaseStep(s.db, a))
    case DeleteNode(node) => s.(db := DatabaseStep(s.db, a), hub := s.hub.(registry := s.hub.registry - {node}))
    case Revoke(node) => s.(hub := s.hub.(registry := s.hub.registry - {node}))
    case CreateInstance(_, _, _) => s.(db := DatabaseStep(s.db, a))
    case DeleteInstance(_) => s.(db := DatabaseStep(s.db, a))
    case SetArmed(_, _) => s.(db := DatabaseStep(s.db, a))
    case BuildLeftStopped(_) => s.(db := DatabaseStep(s.db, a))
    case PowerBegin(_, _, _) => PowerStep(s, a)
    case PowerAccepted(_) => PowerStep(s, a)
    case PowerDone(_) => PowerStep(s, a)
    case PowerFails(_) => PowerStep(s, a)
    case AgentRestart(node, session) => s.(agents := AgentRestartStep(s.agents, node, session))
    case Handshake(node, session, link) =>
      if (session.Some? && session.value !in s.agents.used) || link in s.past.sockets then s
      else Greet(s, autostart, node, session, link)
    case RestoreBegin(link, order) => RestoreBeginStep(s, link, order)
    case RestorePass(link) => RestorePassStep(s, link)
    case StateEvent(link, inst, cleanExit) => StateEventStep(s, link, inst, cleanExit)
    case Teardown(link) => TeardownStep(s, link)
    case HubRestart => s.(hub := Hub({}, map[], map[], map[], map[]))
  }

  ghost function Run(s: State, autostart: bool, acts: seq<Act>): State
    decreases |acts|
  {
    if acts == [] then s else Run(Step(s, autostart, acts[0]), autostart, acts[1..])
  }

  /** A handshake carries the session id of the process alive on the node when it is handled. */
  predicate FromLive(s: State, a: Act) {
    a.Handshake? ==> a.node in s.agents.live && s.agents.live[a.node] == a.session
  }

  ghost predicate LiveRun(s: State, autostart: bool, acts: seq<Act>)
    decreases |acts|
  {
    acts != [] ==> FromLive(s, acts[0]) && LiveRun(Step(s, autostart, acts[0]), autostart, acts[1..])
  }

  /** Sockets and tables refer to what exists. */
  ghost predicate Wired(s: State) {
    && s.db.rows.Keys <= s.db.usedRows
    && s.db.nodes.Keys <= s.db.usedNodes
    && s.hub.links <= s.past.sockets.Keys
    && s.hub.owned.Keys == s.hub.links
    && s.hub.restores.Keys <= s.hub.links
    && s.hub.restores.Keys <= s.past.triggered <= s.past.sockets.Keys
    && (forall node | node in s.hub.registry ::
          s.hub.registry[node] in s.hub.links && s.past.sockets[s.hub.registry[node]].node == node)
    && (forall link | link in s.past.sockets && s.past.sockets[link].declared ::
          s.past.sockets[link].node in s.db.usedNodes)
    && s.hub.powers.Keys <= s.past.requests
    && (forall request | request in s.hub.powers ::
          s.hub.powers[request].inst in s.db.usedRows && s.hub.powers[request].link in s.past.sockets)
    && (forall link | link in s.past.triggered :: s.past.sockets[link].declared)
    && (forall k | 0 <= k < |s.past.starts| :: s.past.starts[k].link in s.past.triggered)
  }

  /** The instance was declared once, and if it still is, it lives on the node of `link`. */
  ghost predicate HomeIs(s: State, inst: Id, link: Id) {
    inst in s.db.usedRows && link in s.past.sockets
    && (inst in s.db.rows ==> s.db.rows[inst].node == s.past.sockets[link].node)
  }

  /** An instance never changes node, so what a socket remembers about it stays true. */
  ghost predicate Local(s: State) {
    && (forall link, inst | link in s.hub.owned && inst in s.hub.owned[link] :: HomeIs(s, inst, link))
    && (forall link, inst | link in s.hub.restores && s.hub.restores[link].Going?
          && inst in s.hub.restores[link].pending :: HomeIs(s, inst, link))
    && (forall k | 0 <= k < |s.past.starts| :: HomeIs(s, s.past.starts[k].inst, s.past.starts[k].link))
  }

  /** `link` is a handshake of the process `session`, on a node then declared. */
  ghost predicate SaysHello(s: State, link: Id, session: Id) {
    link in s.past.sockets && s.past.sockets[link].session == Some(session) && s.past.sockets[link].declared
  }

  predicate Declares(sockets: map<Id, Link>, link: Id, node: Id) {
    link in sockets && sockets[link].declared && sockets[link].node == node
  }

  /** The last of the first n handshakes on a node while it was declared. */
  function LastHello(sockets: map<Id, Link>, hellos: seq<Id>, n: nat, node: Id): (r: Option<nat>)
    requires n <= |hellos|
    ensures r.Some? ==> r.value < n && Declares(sockets, hellos[r.value], node)
    ensures forall k :: (if r.Some? then r.value + 1 else 0) <= k < n ==> !Declares(sockets, hellos[k], node)
  {
    if n == 0 then None
    else if Declares(sockets, hellos[n - 1], node) then Some(n - 1)
    else LastHello(sockets, hellos, n - 1, node)
  }

  /** The session of that handshake, as the database would record it. */
  function LastSession(s: State, n: nat, node: Id): Option<Id>
    requires n <= |s.past.hellos|
  {
    var r := LastHello(s.past.sockets, s.past.hellos, n, node);
    if r.None? then None else s.past.sockets[s.past.hellos[r.value]].session
  }

  /** The database records the last session greeted on each node, and a handshake asks for a restore
      exactly if it brings another or none. */
  ghost predicate Ordered(s: State) {
    && (forall link :: link in s.past.hellos <==> link in s.past.sockets)
    && Distinct(s.past.hellos)
    && (forall node | node in s.db.nodes :: s.db.nodes[node] == LastSession(s, |s.past.hellos|, node))
    && (forall i | 0 <= i < |s.past.hellos| ::
          s.past.hellos[i] in s.past.triggered <==> Asks(s, i))
  }

  predicate Asks(s: State, i: nat)
    requires i < |s.past.hellos|
  {
    s.past.hellos[i] in s.past.sockets &&
    var link := s.past.sockets[s.past.hellos[i]];
    link.declared && (link.session.None? || LastSession(s, i, link.node) != link.session)
  }

  /** A process is known from its first handshake on. */
  ghost predicate Greeted(s: State) {
    && (forall link | link in s.past.sockets && s.past.sockets[link].session.Some? ::
          s.past.sockets[link].session.value in s.agents.used)
    && (forall node | node in s.agents.live && s.agents.live[node].Some? :: s.agents.live[node].value in s.agents.used)
    && (forall node | node in s.db.nodes && s.db.nodes[node].Some? :: s.db.nodes[node].value in s.agents.used)
    && (forall m, n | m in s.agents.live && n in s.agents.live && m != n && s.agents.live[m].Some? ::
          s.agents.live[m] != s.agents.live[n])
    && (forall node, link | node in s.agents.live && link in s.past.sockets && s.agents.live[node].Some?
          && s.past.sockets[link].session == s.agents.live[node] ::
          && s.past.sockets[link].node == node
          && (s.past.sockets[link].declared && node in s.db.nodes ==> s.db.nodes[node] == s.agents.live[node]))
  }

  /** The process recorded for a node is one that was greeted. */
  ghost predicate Recorded(s: State) {
    forall node, session | node in s.db.nodes && s.db.nodes[node] == Some(session) ::
      exists link :: SaysHello(s, link, session)
  }

  /** A process that was greeted asked for a restore with exactly one of its handshakes. */
  ghost predicate Once(s: State) {
    && (forall j, k | j in s.past.triggered && k in s.past.triggered && j != k ::
          !SameProcess(s, j, k))
    && (forall link, session | SaysHello(s, link, session) ::
          AskedOnce(s, session))
  }

  ghost predicate AskedOnce(s: State, session: Id) {
    exists first :: first in s.past.triggered && SaysHello(s, first, session)
  }

  ghost predicate SameProcess(s: State, j: Id, k: Id) {
    j in s.past.sockets && k in s.past.sockets
    && s.past.sockets[j].session.Some? && s.past.sockets[j].session == s.past.sockets[k].session
  }

  ghost predicate Distinct(ids: seq<Id>) {
    forall j, k :: 0 <= j < k < |ids| ==> ids[j] != ids[k]
  }

  /** One restore sends each instance's start at most once. */
  ghost predicate StartsOnce(s: State) {
    && (forall j, k :: 0 <= j < k < |s.past.starts| ==> s.past.starts[j] != s.past.starts[k])
    && (forall k | 0 <= k < |s.past.starts| && s.past.starts[k].link in s.hub.restores ::
          Covered(s.hub.restores[s.past.starts[k].link], s.past.starts[k].inst))
    && (forall link | link in s.hub.restores && s.hub.restores[link].Going? ::
          Distinct(s.hub.restores[link].pending))
  }

  ghost predicate Covered(r: Restore, inst: Id) {
    r.Going? && r.index <= |r.pending| && inst in r.pending[..r.index]
  }
}
