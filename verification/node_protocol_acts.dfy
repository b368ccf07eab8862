/** What single acts of the hub's protocol do to who speaks, what is declared and what is in flight,
    and how long a socket speaks for its node. */
module NodeActs {
  import opened Options
  import opened NodeProtocol
  import opened NodeProtocolSafety
  import opened RestoreGuarantees

  /** The act is a handshake that the hub handles. */
  predicate Greets(s: State, a: Act) {
    a.Handshake? && a.link !in s.past.sockets && (a.session.Some? ==> a.session.value in s.agents.used)
  }

  /** The act takes the node from the socket: a newer handshake, a revocation, the end of this very
      socket or of the hub. */
  predicate Silences(s: State, a: Act, link: Id)
    requires link in s.past.sockets
  {
    var node := s.past.sockets[link].node;
    || (Greets(s, a) && a.node == node)
    || a == Revoke(node) || a == DeleteNode(node) || a == Teardown(link) || a == HubRestart
  }

  /** What an act can do to the registry and the sockets, and nothing else can. */
  lemma RegistryAfter(s: State, autostart: bool, a: Act)
    ensures var t := Step(s, autostart, a);
            && t.hub.registry ==
               (if Greets(s, a) then s.hub.registry[a.node := a.link]
                else if a.Revoke? || a.DeleteNode? then s.hub.registry - {a.node}
                else if a.Teardown? && a.link in s.past.sockets
                     then Unregister(s.hub.registry, s.past.sockets[a.link].node, a.link)
                else if a == HubRestart then map[] else s.hub.registry)
            && t.past.sockets ==
               (if Greets(s, a) then s.past.sockets[a.link := Link(a.node, a.session, a.node in s.db.nodes)]
                else s.past.sockets)
  {
    hide DatabaseStep; hide Owns; hide NextPass; hide IsPending; hide Claim; hide SpeaksFor; hide Declare;
    hide Unregister; hide NoteCleanExit;
  }

  lemma SpeaksAfter(s: State, autostart: bool, a: Act, link: Id)
    requires Wired(s) && SpeaksFor(s, link)
    ensures var t := Step(s, autostart, a);
            && link in t.past.sockets && t.past.sockets[link] == s.past.sockets[link]
            && (SpeaksFor(t, link) <==> !Silences(s, a, link))
  {
    RegistryAfter(s, autostart, a);
    hide Step; hide Wired;
  }

  /** Nothing of that kind happens in the run. */
  ghost predicate Undisturbed(s: State, autostart: bool, acts: seq<Act>, link: Id)
    decreases |acts|
  {
    acts != [] ==>
      && link in s.past.sockets && !Silences(s, acts[0], link)
      && Undisturbed(Step(s, autostart, acts[0]), autostart, acts[1..], link)
  }

  /** A socket speaks for its node exactly until one of these: the end of a displaced socket, of another
      node or of an instance takes nothing from it. */
  lemma {:induction false} SpeaksUntil(s: State, autostart: bool, acts: seq<Act>, link: Id)
    requires Inv(s) && SpeaksFor(s, link)
    ensures SpeaksFor(Run(s, autostart, acts), link) <==> Undisturbed(s, autostart, acts, link)
    decreases |acts|
  {
    hide Inv; hide Step; hide Silences; hide SpeaksFor;
    if acts != [] {
      var t := Step(s, autostart, acts[0]);
      InvWired(s);
      assert link in s.past.sockets by { Known(s, link); }
      SpeaksAfter(s, autostart, acts[0], link);
      StepKeepsInv(s, autostart, acts[0]);
      if SpeaksFor(t, link) {
        SpeaksUntil(t, autostart, acts[1..], link);
      } else {
        SilentForEver(t, autostart, acts[1..], link);
      }
    }
  }

  lemma Known(s: State, link: Id)
    requires SpeaksFor(s, link)
    ensures link in s.past.sockets
  {
  }

  lemma {:induction false} SilentForEver(s: State, autostart: bool, acts: seq<Act>, link: Id)
    requires Inv(s) && link in s.past.sockets && !SpeaksFor(s, link)
    ensures !SpeaksFor(Run(s, autostart, acts), link)
    decreases |acts|
  {
    hide Inv; hide Step; hide SpeaksFor;
    if acts != [] {
      StaysSilent(s, autostart, acts[0], link);
      StepKeepsInv(s, autostart, acts[0]);
      SilentForEver(Step(s, autostart, acts[0]), autostart, acts[1..], link);
    }
  }

  /** A socket is open from its handshake to its own end or the hub's. */
  lemma OpenAfter(s: State, autostart: bool, a: Act, link: Id)
    requires Wired(s)
    ensures link in Step(s, autostart, a).hub.links <==>
              (Greets(s, a) && a.link == link) || (link in s.hub.links && a != Teardown(link) && a != HubRestart)
  {
    hide DatabaseStep; hide Owns; hide NextPass; hide IsPending; hide Claim;
  }

  /** What is declared, and where. */
  lemma DeclaredAfter(s: State, autostart: bool, a: Act, inst: Id)
    requires Wired(s)
    ensures var t := Step(s, autostart, a);
            var created := a.CreateInstance? && a.inst == inst && inst !in s.db.usedRows && a.node in s.db.nodes;
            var deleted := a == DeleteInstance(inst) || (inst in s.db.rows && a == DeleteNode(s.db.rows[inst].node));
            && (inst in t.db.rows <==> created || (inst in s.db.rows && !deleted))
            && (inst in t.db.rows ==> t.db.rows[inst].node == if created then a.node else s.db.rows[inst].node)
  {
    hide NextPass; hide IsPending; hide Claim; hide Owns; hide SpeaksFor;
  }

  lemma NodesAfter(s: State, autostart: bool, a: Act, node: Id)
    requires Wired(s)
    ensures node in Step(s, autostart, a).db.nodes <==>
              || (a == CreateNode(node) && node !in s.db.usedNodes)
              || (node in s.db.nodes && a != DeleteNode(node))
  {
    hide NextPass; hide IsPending; hide Owns; hide SpeaksFor; hide Declare; hide NoteCleanExit;
  }

  /** What the acts that write it leave of the declared flag; every other act leaves it as it was. */
  lemma ArmedAfter(s: State, autostart: bool, a: Act, inst: Id)
    requires Inv(s) && inst in s.db.rows && inst in Step(s, autostart, a).db.rows
    ensures var armed := Step(s, autostart, a).db.rows[inst].armed;
            match a
            case SetArmed(i, to) => armed == if i == inst then to else s.db.rows[inst].armed
            case BuildLeftStopped(i) => armed <==> i != inst && s.db.rows[inst].armed
            case PowerDone(request) =>
              var due := request in s.hub.powers && s.hub.powers[request].accepted
                         && s.hub.powers[request].inst == inst;
              armed == if due then s.hub.powers[request].arms else s.db.rows[inst].armed
            case StateEvent(link, i, cleanExit) =>
              armed <==> s.db.rows[inst].armed
                         && !(cleanExit && i == inst && link in s.hub.links
                              && s.past.sockets[link].node == s.db.rows[inst].node)
            case _ => armed == s.db.rows[inst].armed
  {
    hide StartsOnce; hide NextPass; hide IsPending; hide Claim; hide SpeaksFor;
  }

  /** A power request is in flight until its flag is written, it fails or the hub restarts; so an
      acceptance is written once. */
  lemma InFlightAfter(s: State, autostart: bool, a: Act, request: Id)
    requires Wired(s)
    ensures var t := Step(s, autostart, a);
            var begun := a.PowerBegin? && a.request == request && request !in s.past.requests && a.inst in s.db.rows
                         && s.db.rows[a.inst].node in s.hub.registry;
            var over := || a == PowerFails(request) || a == HubRestart
                        || (a == PowerDone(request) && request in s.hub.powers && s.hub.powers[request].accepted);
            && (request in t.hub.powers <==> begun || (request in s.hub.powers && !over))
            && (begun ==> t.hub.powers[request]
                          == Power(a.inst, a.arms, s.hub.registry[s.db.rows[a.inst].node], false))
  {
    if IsPower(a) {
      assert Step(s, autostart, a) == PowerStep(s, a);
      hide Step; hide SpeaksFor; hide Declare;
    } else {
      hide PowerStep;
      OtherActsKeepPowers(s, autostart, a);
      hide Step;
    }
  }

  predicate IsPower(a: Act) {
    a.PowerBegin? || a.PowerAccepted? || a.PowerDone? || a.PowerFails?
  }

  lemma OtherActsKeepPowers(s: State, autostart: bool, a: Act)
    requires !IsPower(a)
    ensures Step(s, autostart, a).hub.powers == if a == HubRestart then map[] else s.hub.powers
  {
    hide NextPass; hide IsPending; hide Claim; hide Owns; hide DatabaseStep; hide NoteCleanExit; hide SpeaksFor;
  }

  /** Which process is alive on a node: the last one started there, if it did not claim an id that was
      used before. */
  lemma AliveAfter(s: State, autostart: bool, a: Act, node: Id)
    ensures var t := Step(s, autostart, a);
            var started := a.AgentRestart? && a.node == node && (a.session.Some? ==> a.session.value !in s.agents.used);
            && (node in t.agents.live <==> started || node in s.agents.live)
            && (node in t.agents.live ==> t.agents.live[node] == if started then a.session else s.agents.live[node])
  {
    hide NextPass; hide IsPending; hide Claim; hide Owns; hide DatabaseStep; hide NoteCleanExit; hide SpeaksFor;
  }
}
