/** Which starts of a restore are never sent. */
module RestoreCompleteness {
  import opened Options
  import opened NodeProtocol
  import opened NodeProtocolSafety
  import opened RestoreGuarantees
  import opened Restores

  lemma {:induction false} SentOnMembers(starts: seq<Start>, link: Id, inst: Id)
    ensures inst in SentOn(starts, link) <==> Start(inst, link) in starts
  {
    if starts != [] {
      var most, last := starts[..|starts| - 1], starts[|starts| - 1];
      assert starts == most + [last];
      SentOnMembers(most, link, inst);
    }
  }

  lemma {:induction false} ArmedMembers(pending: seq<Id>, views: seq<View>, n: nat, k: nat)
    requires n <= |pending| && n <= |views| && k < |pending| && Distinct(pending)
    ensures pending[k] in ArmedAtPass(pending, views, n) <==> k < n && Armed(views[k].rows, pending[k])
  {
    if n > 0 { ArmedMembers(pending, views, n - 1, k); }
  }

  lemma AheadNotCovered(r: Restore, k: nat)
    requires r.Going? && Distinct(r.pending) && r.index <= k < |r.pending|
    ensures !Covered(r, r.pending[k])
  {
  }

  lemma NotYetSent(s: State, link: Id, k: nat)
    requires Inv(s) && link in s.hub.restores && s.hub.restores[link].Going?
    requires s.hub.restores[link].index <= k < |s.hub.restores[link].pending|
    ensures Start(s.hub.restores[link].pending[k], link) !in s.past.starts
  {
    hide Local; hide Wired; hide Covered; hide Distinct;
    AheadNotCovered(s.hub.restores[link], k);
  }

  lemma PendingDistinct(s: State, link: Id)
    requires Inv(s) && link in s.hub.restores && s.hub.restores[link].Going?
    ensures Distinct(s.hub.restores[link].pending)
  {
    hide Local; hide Wired;
  }

  /**
   * Over any run, an instance of a restore's list that has not had its pass is
   * sent a start by it exactly if its pass comes while the socket still speaks
   * for the node and finds it armed.
   */
  lemma StartedExactly(s: State, autostart: bool, acts: seq<Act>, link: Id, k: nat)
    requires Inv(s) && link in s.hub.restores && s.hub.restores[link].Going? && link in s.past.sockets
    requires s.hub.restores[link].index <= k < |s.hub.restores[link].pending|
    ensures var r := s.hub.restores[link];
            var views := Views(s, autostart, acts, link);
            Start(r.pending[k], link) in Run(s, autostart, acts).past.starts
            <==> k - r.index < |views| && Armed(views[k - r.index].rows, r.pending[k])
  {
    hide Run; hide Inv; hide Views; hide SentOn; hide ArmedAtPass; hide Distinct;
    var r := s.hub.restores[link];
    var views := Views(s, autostart, acts, link);
    var rest := r.pending[r.index..];
    LoopIsTheRestore(s, autostart, acts, link);
    SentOnMembers(Run(s, autostart, acts).past.starts, link, r.pending[k]);
    SentOnMembers(s.past.starts, link, r.pending[k]);
    NotYetSent(s, link, k);
    PendingDistinct(s, link);
    assert Distinct(rest) by { LaterDistinct(r.pending, r.index); }
    assert rest[k - r.index] == r.pending[k];
    ArmedMembers(rest, views, |views|, k - r.index);
  }

  lemma LaterDistinct(ids: seq<Id>, n: nat)
    requires Distinct(ids) && n <= |ids|
    ensures Distinct(ids[n..])
  {
  }

  /** The instance was removed, or the socket no longer speaks for the node. */
  ghost predicate Hopeless(s: State, link: Id, inst: Id) {
    link in s.past.sockets && (!SpeaksFor(s, link) || (inst !in s.db.rows && inst in s.db.usedRows))
  }

  lemma {:induction false} HopelessForEver(s: State, autostart: bool, acts: seq<Act>, link: Id, inst: Id)
    requires Inv(s) && Hopeless(s, link, inst) && Start(inst, link) !in s.past.starts
    ensures Start(inst, link) !in Run(s, autostart, acts).past.starts
    decreases |acts|
  {
    hide Inv; hide Step;
    if acts != [] {
      var t := Step(s, autostart, acts[0]);
      StepSendsOnlyDue(s, autostart, acts[0]);
      StepKeepsInv(s, autostart, acts[0]);
      if !SpeaksFor(s, link) {
        StaysSilent(s, autostart, acts[0], link);
      } else {
        StepStaysUndeclared(s, autostart, acts[0], inst);
        SocketsStay(s, autostart, acts[0], link);
      }
      HopelessForEver(t, autostart, acts[1..], link, inst);
    }
  }

  lemma SocketsStay(s: State, autostart: bool, a: Act, link: Id)
    requires Inv(s) && link in s.past.sockets
    ensures link in Step(s, autostart, a).past.sockets
  {
    hide Local; hide StartsOnce;
    if IsQuiet(a) {
      hide Step; hide Wired; hide RowsKept; hide NodesKept;
      QuietStep(s, autostart, a);
    } else {
      hide NextPass; hide IsPending;
    }
  }

  /** The socket speaks, and its restore has reached `index`. */
  predicate At(s: State, link: Id, pending: seq<Id>, index: nat) {
    SpeaksFor(s, link) && link in s.hub.restores && s.hub.restores[link] == Going(pending, index)
  }

  lemma OnePass(s: State, autostart: bool, link: Id, pending: seq<Id>, index: nat)
    requires At(s, link, pending, index) && index < |pending|
    ensures var t := Step(s, autostart, RestorePass(link));
            && At(t, link, pending, index + 1) && t.db == s.db
            && (Armed(s.db.rows, pending[index]) ==> Start(pending[index], link) in t.past.starts)
  {
    var start := Start(pending[index], link);
    var t := Step(s, autostart, RestorePass(link));
    if Armed(s.db.rows, pending[index]) {
      assert t.past.starts == s.past.starts + [start] && t.past.starts[|s.past.starts|] == start;
    }
  }

  lemma ArmThenPass(s: State, autostart: bool, link: Id, pending: seq<Id>, index: nat)
    requires At(s, link, pending, index) && index < |pending| && pending[index] in s.db.rows
    ensures var acts := [SetArmed(pending[index], true), RestorePass(link)];
            Start(pending[index], link) in Run(s, autostart, acts).past.starts
  {
    var a, b := SetArmed(pending[index], true), RestorePass(link);
    var t := Step(s, autostart, a);
    OnePass(t, autostart, link, pending, index);
    hide Step;
    assert [a, b][1..] == [b] && [b][1..] == [];
    assert Run(t, autostart, [b]) == Run(Step(t, autostart, b), autostart, []);
  }

  lemma {:induction false} CanStillSend(s: State, autostart: bool, link: Id, pending: seq<Id>, index: nat, k: nat)
      returns (acts: seq<Act>)
    requires At(s, link, pending, index) && index <= k < |pending| && pending[k] in s.db.rows
    ensures Start(pending[k], link) in Run(s, autostart, acts).past.starts
    decreases k - index
  {
    hide Step;
    if index == k {
      acts := [SetArmed(pending[k], true), RestorePass(link)];
      ArmThenPass(s, autostart, link, pending, index);
    } else {
      OnePass(s, autostart, link, pending, index);
      var rest := CanStillSend(Step(s, autostart, RestorePass(link)), autostart, link, pending, index + 1, k);
      acts := [RestorePass(link)] + rest;
      assert acts[1..] == rest;
    }
  }

  /**
   * A restore can still come to start an instance whose pass lies ahead exactly
   * while its socket speaks for the node and the instance is declared.  Once
   * another socket has taken the node over, the rest of the list is never sent
   * by it, whatever happens.
   */
  lemma OwedExactly(s: State, autostart: bool, link: Id, k: nat)
    requires Inv(s) && link in s.hub.restores && s.hub.restores[link].Going? && link in s.past.sockets
    requires s.hub.restores[link].index <= k < |s.hub.restores[link].pending|
    ensures var inst := s.hub.restores[link].pending[k];
            (exists acts :: Start(inst, link) in Run(s, autostart, acts).past.starts)
            <==> SpeaksFor(s, link) && inst in s.db.rows
  {
    var r := s.hub.restores[link];
    var inst := r.pending[k];
    if SpeaksFor(s, link) && inst in s.db.rows {
      var acts := CanStillSend(s, autostart, link, r.pending, r.index, k);
    } else {
      NotYetSent(s, link, k);
      assert inst in r.pending;
      assert HomeIs(s, inst, link);
      forall acts: seq<Act> ensures Start(inst, link) !in Run(s, autostart, acts).past.starts {
        HopelessForEver(s, autostart, acts, link, inst);
      }
    }
  }

  // A redial of the same process.

  /** The process has asked, and none of the sockets it asked on speaks for its node any more. */
  ghost predicate Spent(s: State, session: Id) {
    && AskedOnce(s, session)
    && forall link | link in s.past.triggered && link in s.past.sockets
                     && s.past.sockets[link].session == Some(session) ::
         !SpeaksFor(s, link)
  }

  lemma SpentStep(s: State, autostart: bool, a: Act, session: Id)
    requires Inv(s) && Processes(s) && FromLive(s, a) && Spent(s, session)
    ensures Spent(Step(s, autostart, a), session)
  {
    var t := Step(s, autostart, a);
    StepKeepsProcesses(s, autostart, a);
    var first :| first in s.past.triggered && SaysHello(s, first, session);
    hide Local; hide StartsOnce; hide Greeted; hide Recorded;
    TriggersKept(s, autostart, a, first);
    StaysSilent(s, autostart, a, first);
    assert SaysHello(t, first, session);
    forall link | link in t.past.triggered && link in t.past.sockets && t.past.sockets[link].session == Some(session)
      ensures !SpeaksFor(t, link)
    {
      assert link != first ==> !SameProcess(t, link, first);
    }
  }

  lemma TriggersKept(s: State, autostart: bool, a: Act, link: Id)
    requires Inv(s) && link in s.past.triggered
    ensures link in Step(s, autostart, a).past.triggered
  {
    hide Local; hide StartsOnce;
    if IsQuiet(a) {
      hide Step; hide Wired; hide RowsKept; hide NodesKept;
      QuietStep(s, autostart, a);
    } else {
      hide NextPass; hide IsPending;
    }
  }

  ghost predicate NoneFor(s: State, from: nat, session: Id) {
    forall k | from <= k < |s.past.starts| && s.past.starts[k].link in s.past.sockets ::
      s.past.sockets[s.past.starts[k].link].session != Some(session)
  }

  lemma NoneForStep(s: State, autostart: bool, a: Act, from: nat, session: Id)
    requires Inv(s) && Spent(s, session) && NoneFor(s, from, session) && from <= |s.past.starts|
    ensures NoneFor(Step(s, autostart, a), from, session) && |s.past.starts| <= |Step(s, autostart, a).past.starts|
  {
    hide Step;
    StepSendsOnlyDue(s, autostart, a);
    SocketsSame(s, autostart, a);
    assert Wired(s);
    hide Local; hide StartsOnce; hide Armed; hide Inv;
  }

  lemma SocketsSame(s: State, autostart: bool, a: Act)
    requires Inv(s)
    ensures forall link | link in s.past.sockets ::
              && link in Step(s, autostart, a).past.sockets
              && Step(s, autostart, a).past.sockets[link] == s.past.sockets[link]
    ensures forall link | link in s.past.triggered :: link in Step(s, autostart, a).past.triggered
  {
    hide Local; hide StartsOnce;
    if IsQuiet(a) {
      hide Step; hide Wired; hide RowsKept; hide NodesKept;
      QuietStep(s, autostart, a);
    } else {
      hide NextPass; hide IsPending;
    }
  }

  lemma {:induction false} SpentForEver(s: State, autostart: bool, acts: seq<Act>, from: nat, session: Id)
    requires Inv(s) && Processes(s) && LiveRun(s, autostart, acts) && Spent(s, session)
    requires NoneFor(s, from, session) && from <= |s.past.starts|
    ensures NoneFor(Run(s, autostart, acts), from, session)
    decreases |acts|
  {
    hide Inv; hide Processes; hide Step; hide Spent; hide NoneFor; hide FromLive;
    if acts != [] {
      StepKeepsInv(s, autostart, acts[0]);
      StepKeepsProcesses(s, autostart, acts[0]);
      SpentStep(s, autostart, acts[0], session);
      NoneForStep(s, autostart, acts[0], from, session);
      SpentForEver(Step(s, autostart, acts[0]), autostart, acts[1..], from, session);
    }
  }

  /**
   * When an agent that was greeted before dials again on another socket, no
   * restore sends a start to that process ever after: the running one gives up
   * and the new socket gets none, so what was left of the list stays unsent
   * until the agent restarts.
   */
  lemma RedialEndsRestores(s: State, autostart: bool, node: Id, session: Id, link: Id, acts: seq<Act>)
    requires Inv(s) && Processes(s) && link !in s.past.sockets
    requires node in s.agents.live && s.agents.live[node] == Some(session) && AskedOnce(s, session)
    requires LiveRun(Step(s, autostart, Handshake(node, Some(session), link)), autostart, acts)
    ensures var t := Step(s, autostart, Handshake(node, Some(session), link));
            NoneFor(Run(t, autostart, acts), |s.past.starts|, session)
  {
    var a := Handshake(node, Some(session), link);
    var t := Step(s, autostart, a);
    RedialSpends(s, autostart, node, session, link);
    hide Step;
    StepKeepsInv(s, autostart, a);
    StepKeepsProcesses(s, autostart, a);
    SpentForEver(t, autostart, acts, |s.past.starts|, session);
  }

  lemma RedialTakesOver(s: State, autostart: bool, node: Id, session: Id, link: Id)
    requires Wired(s) && Greeted(s) && link !in s.past.sockets
    requires node in s.agents.live && s.agents.live[node] == Some(session)
    ensures var t := Step(s, autostart, Handshake(node, Some(session), link));
            && t.past.starts == s.past.starts && node in t.hub.registry && t.hub.registry[node] == link
            && s.past.triggered <= t.past.triggered
            && forall l | l in s.past.sockets :: l in t.past.sockets && t.past.sockets[l] == s.past.sockets[l]
  {
    assert s.agents.live[node].value in s.agents.used;
  }

  lemma RedialSpends(s: State, autostart: bool, node: Id, session: Id, link: Id)
    requires Inv(s) && Processes(s) && link !in s.past.sockets
    requires node in s.agents.live && s.agents.live[node] == Some(session) && AskedOnce(s, session)
    ensures var t := Step(s, autostart, Handshake(node, Some(session), link));
            Spent(t, session) && t.past.starts == s.past.starts
  {
    hide Step; hide Local; hide StartsOnce; hide Recorded;
    var a := Handshake(node, Some(session), link);
    var t := Step(s, autostart, a);
    StepKeepsProcesses(s, autostart, a);
    RedialTakesOver(s, autostart, node, session, link);
    var first :| first in s.past.triggered && SaysHello(s, first, session);
    assert s.past.sockets[first].node == node;
    assert Once(t);
    hide Wired; hide Greeted; hide Once;
    assert first in t.past.triggered && SaysHello(t, first, session) && first != link;
    forall l | l in t.past.triggered && l in t.past.sockets && t.past.sockets[l].session == Some(session)
      ensures !SpeaksFor(t, l)
    {
      OnlyFirst(t, first, l, session);
    }
  }

  lemma OnlyFirst(t: State, first: Id, l: Id, session: Id)
    requires Once(t) && first in t.past.triggered && SaysHello(t, first, session)
    requires l in t.past.triggered && l in t.past.sockets && t.past.sockets[l].session == Some(session)
    ensures l == first
  {
    assert l != first ==> !SameProcess(t, l, first);
  }
}
