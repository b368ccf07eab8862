/** What the hub promises about restores, over every interleaving of hub restarts, agent restarts,
    redials, operator actions, lost and late events and the restore's own stagger. */
module RestoreGuarantees {
  import opened Options
  import opened NodeProtocol
  import opened NodeProtocolSafety

  /**
   * Which handshakes ask for a restore, over every order in which they are
   * handled: one on a declared node asks exactly if, since each earlier one of
   * its own session there, another session was greeted on that node.
   */
  lemma AsksExactly(autostart: bool, acts: seq<Act>, i: nat)
    requires i < |Run(Initial, autostart, acts).past.hellos|
    ensures var s := Run(Initial, autostart, acts);
            var link := s.past.hellos[i];
            && link in s.past.sockets
            && (s.past.sockets[link].session.Some? ==>
                  (link in s.past.triggered <==>
                     s.past.sockets[link].declared
                     && forall j | 0 <= j < i && SameHello(s, j, i) :: exists k :: j < k < i && OtherHello(s, k, i)))
            && (s.past.sockets[link].session.None? ==> (link in s.past.triggered <==> s.past.sockets[link].declared))
  {
    InitialInv();
    RunKeepsOrdered(Initial, autostart, acts);
    AskedBecause(Run(Initial, autostart, acts), i);
  }

  /** An earlier greeting of the same session on the same node. */
  predicate SameHello(s: State, j: nat, i: nat)
    requires j < |s.past.hellos| && i < |s.past.hellos| && s.past.hellos[i] in s.past.sockets
  {
    var link := s.past.sockets[s.past.hellos[i]];
    Declares(s.past.sockets, s.past.hellos[j], link.node) && s.past.sockets[s.past.hellos[j]].session == link.session
  }

  /** A greeting of another session, or of none, on the same node. */
  predicate OtherHello(s: State, k: nat, i: nat)
    requires k < |s.past.hellos| && i < |s.past.hellos| && s.past.hellos[i] in s.past.sockets
  {
    var link := s.past.sockets[s.past.hellos[i]];
    Declares(s.past.sockets, s.past.hellos[k], link.node) && s.past.sockets[s.past.hellos[k]].session != link.session
  }

  lemma AskedBecause(s: State, i: nat)
    requires Ordered(s) && i < |s.past.hellos|
    ensures s.past.hellos[i] in s.past.sockets
    ensures var link := s.past.sockets[s.past.hellos[i]];
            && (link.session.Some? ==>
                  (s.past.hellos[i] in s.past.triggered <==>
                     link.declared
                     && forall j | 0 <= j < i && SameHello(s, j, i) :: exists k :: j < k < i && OtherHello(s, k, i)))
            && (link.session.None? ==> (s.past.hellos[i] in s.past.triggered <==> link.declared))
  {
    assert s.past.hellos[i] in s.past.hellos;
    assert s.past.hellos[i] in s.past.triggered <==> Asks(s, i);
    hide Ordered; hide LastHello; hide Distinct;
    var link := s.past.sockets[s.past.hellos[i]];
    if link.session.Some? && Asks(s, i) {
      forall j | 0 <= j < i && SameHello(s, j, i) ensures exists k :: j < k < i && OtherHello(s, k, i) {
        AnotherBetween(s, j, i);
      }
    } else if link.session.Some? && link.declared {
      SameWasLast(s, i);
    }
  }

  lemma AnotherBetween(s: State, j: nat, i: nat)
    requires j < i < |s.past.hellos| && Asks(s, i) && s.past.sockets[s.past.hellos[i]].session.Some?
    requires SameHello(s, j, i)
    ensures exists k :: j < k < i && OtherHello(s, k, i)
  {
    var last := LastHello(s.past.sockets, s.past.hellos, i, s.past.sockets[s.past.hellos[i]].node);
    hide LastHello;
    assert last.Some? && j < last.value && OtherHello(s, last.value, i);
  }

  lemma SameWasLast(s: State, i: nat)
    requires i < |s.past.hellos| && s.past.hellos[i] in s.past.sockets && !Asks(s, i)
    requires s.past.sockets[s.past.hellos[i]].session.Some? && s.past.sockets[s.past.hellos[i]].declared
    ensures exists j :: 0 <= j < i && SameHello(s, j, i) && forall k :: j < k < i ==> !OtherHello(s, k, i)
  {
    var last := LastHello(s.past.sockets, s.past.hellos, i, s.past.sockets[s.past.hellos[i]].node);
    hide LastHello;
    assert last.Some? && SameHello(s, last.value, i);
  }

  /** With handshakes of live processes only, a process that reached its declared node asked for a
      restore exactly once in its life, and one that did not never asked: redials and hub restarts
      add none. */
  lemma OneRestorePerProcess(autostart: bool, acts: seq<Act>, session: Id)
    requires LiveRun(Initial, autostart, acts)
    ensures var s := Run(Initial, autostart, acts);
            && (AskedOnce(s, session) <==> exists link :: SaysHello(s, link, session))
            && forall j, k | j in s.past.triggered && k in s.past.triggered && j != k :: !SameProcess(s, j, k)
  {
    InitialInv();
    RunKeepsProcesses(Initial, autostart, acts);
    var s := Run(Initial, autostart, acts);
    if link :| SaysHello(s, link, session) {
      assert AskedOnce(s, session);
    }
    if AskedOnce(s, session) {
      var first :| first in s.past.triggered && SaysHello(s, first, session);
    }
  }

  /** One restore sends each instance's start at most once; and so do all restores of one process
      together, if handshakes come from live processes. */
  lemma OneStartPerProcess(autostart: bool, acts: seq<Act>, j: nat, k: nat)
    requires j < k < |Run(Initial, autostart, acts).past.starts|
    ensures var s := Run(Initial, autostart, acts);
            s.past.starts[j].inst == s.past.starts[k].inst ==>
              && s.past.starts[j].link != s.past.starts[k].link
              && (LiveRun(Initial, autostart, acts) ==> !SameProcess(s, s.past.starts[j].link, s.past.starts[k].link))
  {
    InitialInv();
    RunKeepsInv(Initial, autostart, acts);
    if LiveRun(Initial, autostart, acts) { RunKeepsProcesses(Initial, autostart, acts); }
    hide Local;
  }

  /** The start is sent on a socket that asked for a restore, for an instance armed at that moment, on
      the node of the socket it goes out on, and that socket is the one then registered for it. */
  ghost predicate Due(s: State, start: Start) {
    && start.link in s.hub.links && start.link in s.past.sockets && start.link in s.past.triggered
    && Armed(s.db.rows, start.inst)
    && var node := s.past.sockets[start.link].node;
       && s.db.rows[start.inst].node == node
       && node in s.hub.registry && s.hub.registry[node] == start.link
  }

  lemma StepSendsOnlyDue(s: State, autostart: bool, a: Act)
    requires Inv(s)
    ensures var t := Step(s, autostart, a);
            || t.past.starts == s.past.starts
            || exists start :: t.past.starts == s.past.starts + [start] && Due(s, start)
  {
    if IsQuiet(a) {
      hide Step;
      QuietStep(s, autostart, a);
    } else if a.RestorePass? {
      var t := Step(s, autostart, a);
      if t.past.starts != s.past.starts {
        var r := s.hub.restores[a.link];
        var start := Start(r.pending[r.index], a.link);
        assert r.pending[r.index] in r.pending;
        assert HomeIs(s, start.inst, start.link);
        assert t.past.starts == s.past.starts + [start] && Due(s, start);
      }
    }
  }

  /** Every start a restore ever sent was due when it was sent. */
  lemma {:induction false} EveryStartWasDue(s: State, autostart: bool, acts: seq<Act>, k: nat) returns (i: nat)
    requires Inv(s) && |s.past.starts| <= k < |Run(s, autostart, acts).past.starts|
    ensures i < |acts| && Due(Run(s, autostart, acts[..i]), Run(s, autostart, acts).past.starts[k])
    decreases |acts|
  {
    hide Inv; hide Step; hide Due;
    var t := Step(s, autostart, acts[0]);
    StepSendsOnlyDue(s, autostart, acts[0]);
    StepKeepsInv(s, autostart, acts[0]);
    StartsKept(t, autostart, acts[1..]);
    if k < |t.past.starts| {
      i := 0;
    } else {
      i := EveryStartWasDue(t, autostart, acts[1..], k);
      i := i + 1;
      assert acts[..i][0] == acts[0] && acts[..i][1..] == acts[1..][..i - 1];
    }
  }

  lemma {:induction false} StartsKept(s: State, autostart: bool, acts: seq<Act>)
    requires Inv(s)
    ensures s.past.starts <= Run(s, autostart, acts).past.starts
    decreases |acts|
  {
    hide Inv; hide Step; hide Due;
    if acts != [] {
      StepSendsOnlyDue(s, autostart, acts[0]);
      StepKeepsInv(s, autostart, acts[0]);
      StartsKept(Step(s, autostart, acts[0]), autostart, acts[1..]);
    }
  }

  /** The operator asks for the instance to run. */
  predicate Arms(a: Act, inst: Id) {
    match a
    case PowerBegin(_, i, arms) => i == inst && arms
    case SetArmed(i, armed) => i == inst && armed
    case CreateInstance(i, _, armed) => i == inst && armed
    case _ => false
  }

  /** A socket that lost its node never gets it back. */
  lemma StaysSilent(s: State, autostart: bool, a: Act, link: Id)
    requires Inv(s) && link in s.past.sockets && !SpeaksFor(s, link)
    ensures var t := Step(s, autostart, a);
            link in t.past.sockets && t.past.sockets[link] == s.past.sockets[link] && !SpeaksFor(t, link)
  {
    hide Local; hide StartsOnce;
    if IsQuiet(a) {
      hide Step; hide Wired; hide RowsKept; hide NodesKept;
      QuietStep(s, autostart, a);
    } else {
      hide NextPass; hide IsPending;
    }
  }

  /** The request can still come to write the flag: it was accepted, or its socket can still bring the
      acceptance. */
  predicate Answerable(s: State, request: Id) {
    request in s.hub.powers && (s.hub.powers[request].accepted || SpeaksFor(s, s.hub.powers[request].link))
  }

  ghost predicate ArmingInFlight(s: State, inst: Id) {
    exists request ::
      Answerable(s, request) && s.hub.powers[request].inst == inst && s.hub.powers[request].arms
  }

  /** Where the requests in flight after an act come from. */
  lemma PowersFrom(s: State, autostart: bool, a: Act, request: Id)
    requires Wired(s) && request in Step(s, autostart, a).hub.powers
    ensures var p := Step(s, autostart, a).hub.powers[request];
            if request in s.hub.powers then
              var q := s.hub.powers[request];
              p == q.(accepted := p.accepted) && (p.accepted ==> Answerable(s, request))
            else a.PowerBegin? && a.inst == p.inst && a.arms == p.arms
  {
    hide NextPass; hide IsPending; hide Claim;
  }

  lemma ArmedFrom(s: State, autostart: bool, a: Act, inst: Id)
    requires !Armed(s.db.rows, inst) && Armed(Step(s, autostart, a).db.rows, inst)
    ensures Arms(a, inst) || ArmingInFlight(s, inst)
  {
    hide NextPass; hide IsPending; hide Claim; hide Owns; hide SpeaksFor;
    if a.PowerDone? && a.request in s.hub.powers {
      assert s.hub.powers[a.request].accepted ==> Answerable(s, a.request);
    }
  }

  lemma LinkKnown(s: State, request: Id)
    requires Wired(s) && request in s.hub.powers
    ensures s.hub.powers[request].link in s.past.sockets
  {
  }

  lemma StepStaysDisarmed(s: State, autostart: bool, a: Act, inst: Id)
    requires Inv(s) && !Armed(s.db.rows, inst) && !ArmingInFlight(s, inst) && !Arms(a, inst)
    ensures var t := Step(s, autostart, a); !Armed(t.db.rows, inst) && !ArmingInFlight(t, inst)
  {
    hide Step;
    var t := Step(s, autostart, a);
    if Armed(t.db.rows, inst) { ArmedFrom(s, autostart, a, inst); }
    assert Wired(s);
    hide Local; hide StartsOnce; hide Inv; hide Wired;
    forall request | Answerable(t, request) && t.hub.powers[request].inst == inst
      ensures !t.hub.powers[request].arms
    {
      PowersFrom(s, autostart, a, request);
      if request in s.hub.powers && !Answerable(s, request) {
        assert s.hub.powers[request].link in s.past.sockets by { InvWired(s); LinkKnown(s, request); }
        StaysSilent(s, autostart, a, s.hub.powers[request].link);
      }
    }
  }

  /** A disarmed instance is sent no start by any restore, and stays disarmed, until the operator
      asks for it again. */
  lemma {:induction false} DisarmedIsNeverStarted(s: State, autostart: bool, acts: seq<Act>, inst: Id)
    requires Inv(s) && !Armed(s.db.rows, inst) && !ArmingInFlight(s, inst)
    requires forall k :: 0 <= k < |acts| ==> !Arms(acts[k], inst)
    ensures var t := Run(s, autostart, acts);
            && !Armed(t.db.rows, inst)
            && |s.past.starts| <= |t.past.starts|
            && forall k :: |s.past.starts| <= k < |t.past.starts| ==> t.past.starts[k].inst != inst
    decreases |acts|
  {
    hide Inv; hide Step;
    if acts != [] {
      var t := Step(s, autostart, acts[0]);
      StepStaysDisarmed(s, autostart, acts[0], inst);
      StepSendsOnlyDue(s, autostart, acts[0]);
      StepKeepsInv(s, autostart, acts[0]);
      StartsKept(t, autostart, acts[1..]);
      DisarmedIsNeverStarted(t, autostart, acts[1..], inst);
    }
  }

  /** An answerable request arms its instance once it is answered and written. */
  lemma AnswerArms(s: State, autostart: bool, request: Id)
    requires Answerable(s, request) && s.hub.powers[request].arms && s.hub.powers[request].inst in s.db.rows
    ensures var acts := [PowerAccepted(request), PowerDone(request)];
            Armed(Run(s, autostart, acts).db.rows, s.hub.powers[request].inst)
  {
    var a, b := PowerAccepted(request), PowerDone(request);
    var t := Step(s, autostart, a);
    assert t.hub.powers[request] == s.hub.powers[request].(accepted := true) && t.db == s.db;
    assert [a, b][1..] == [b] && [b][1..] == [];
    assert Run(t, autostart, [b]) == Run(Step(t, autostart, b), autostart, []);
  }

  /**
   * A disarmed instance can become armed again with no further operator request exactly when it
   * is still declared and a start or restart of it is in flight that was accepted already or went
   * out on the socket still registered: the flag is written when the agent accepts, so a start
   * overtaken by a stop arms the instance after the stop disarmed it.
   */
  lemma RearmedExactly(s: State, autostart: bool, inst: Id)
    requires Inv(s) && !Armed(s.db.rows, inst)
    ensures (exists acts: seq<Act> :: (forall k :: 0 <= k < |acts| ==> !Arms(acts[k], inst))
               && Armed(Run(s, autostart, acts).db.rows, inst))
        <==> inst in s.db.rows && ArmingInFlight(s, inst)
  {
    hide Run;
    if inst in s.db.rows && ArmingInFlight(s, inst) {
      var request :|
        Answerable(s, request) && s.hub.powers[request].inst == inst && s.hub.powers[request].arms;
      AnswerArms(s, autostart, request);
      var acts := [PowerAccepted(request), PowerDone(request)];
      assert forall k :: 0 <= k < |acts| ==> !Arms(acts[k], inst);
    } else {
      forall acts: seq<Act> | forall k :: 0 <= k < |acts| ==> !Arms(acts[k], inst)
        ensures !Armed(Run(s, autostart, acts).db.rows, inst)
      {
        if inst in s.db.rows || inst !in s.db.usedRows {
          DisarmedIsNeverStarted(s, autostart, acts, inst);
        } else {
          UndeclaredStaysDisarmed(s, autostart, acts, inst);
        }
      }
    }
  }

  lemma StepStaysUndeclared(s: State, autostart: bool, a: Act, inst: Id)
    requires Inv(s) && inst !in s.db.rows && inst in s.db.usedRows
    ensures var t := Step(s, autostart, a); inst !in t.db.rows && inst in t.db.usedRows
  {
    if IsQuiet(a) {
      hide Step;
      QuietStep(s, autostart, a);
    }
  }

  lemma {:induction false} UndeclaredStaysDisarmed(s: State, autostart: bool, acts: seq<Act>, inst: Id)
    requires Inv(s) && inst !in s.db.rows && inst in s.db.usedRows
    ensures !Armed(Run(s, autostart, acts).db.rows, inst)
    decreases |acts|
  {
    hide Inv; hide Step;
    if acts != [] {
      StepStaysUndeclared(s, autostart, acts[0], inst);
      StepKeepsInv(s, autostart, acts[0]);
      UndeclaredStaysDisarmed(Step(s, autostart, acts[0]), autostart, acts[1..], inst);
    }
  }

  /**
   * An event arriving on any open socket disarms its instance exactly when it reports a clean exit
   * and the instance is declared on that socket's node, and changes no other row: the ownership
   * cache neither lets a foreign event through nor holds a genuine one back.
   */
  lemma EventDisarmsExactly(s: State, autostart: bool, link: Id, inst: Id, cleanExit: bool, other: Id)
    requires Inv(s) && link in s.hub.links
    ensures var t := Step(s, autostart, StateEvent(link, inst, cleanExit));
            && t.db.rows.Keys == s.db.rows.Keys
            && (other in s.db.rows ==>
                  && t.db.rows[other].node == s.db.rows[other].node
                  && (t.db.rows[other].armed <==>
                        s.db.rows[other].armed
                        && !(cleanExit && other == inst && s.db.rows[other].node == s.past.sockets[link].node)))
  {
    hide StartsOnce;
  }

  /** What a report does to any row: only a clean exit matters, and only to the instance it names on the
      node it comes from. */
  lemma ReportDisarmsExactly(rows: map<Id, Row>, node: Id, inst: Id, cleanExit: bool, other: Id)
    ensures var after := NoteCleanExit(rows, node, inst, cleanExit);
            && after.Keys == rows.Keys && (other in rows ==> after[other].node == rows[other].node)
            && (Armed(after, other) <==>
                  Armed(rows, other) && !(cleanExit && other == inst && rows[other].node == node))
  {
  }

  /** Why the handshake must come from the live process: had an older process's hello been handled
      after a newer one's, it would ask for a restore a second time. */
  lemma StaleHelloRestoresTwice(node: Id, older: Id, newer: Id, j: Id, k: Id, l: Id)
    requires older != newer && j != k && k != l && j != l
    ensures var s := Step(Initial, true, CreateNode(node));
            var once := Greet(s, true, node, Some(older), j);
            var after := Greet(Greet(once, true, node, Some(newer), k), true, node, Some(older), l);
            j in after.past.triggered && l in after.past.triggered && SameProcess(after, j, l)
  {
  }
}
