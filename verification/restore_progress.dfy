/** That a restore which was asked for comes about, and what it has done when it is over. */
module RestoreProgress {
  import opened Options
  import opened NodeProtocol
  import opened NodeProtocolSafety
  import opened RestoreGuarantees
  import opened RestoreCompleteness

  lemma {:induction false} RunAppend(s: State, autostart: bool, a: seq<Act>, b: seq<Act>)
    ensures Run(s, autostart, a + b) == Run(Run(s, autostart, a), autostart, b)
    decreases |a|
  {
    hide Step;
    if a == [] {
      assert a + b == b;
    } else {
      assert (a + b)[1..] == a[1..] + b;
      RunAppend(Step(s, autostart, a[0]), autostart, a[1..], b);
    }
  }

  // A handshake and its restore.

  /** The handshake can be handled: its socket is new and its process, if it names one, has existed. */
  predicate CanGreet(s: State, session: Option<Id>, link: Id) {
    link !in s.past.sockets && (session.Some? ==> session.value in s.agents.used)
  }

  /** Since each earlier greeting of the same process on the node, another was greeted there. */
  ghost predicate IsNews(s: State, i: nat)
    requires i < |s.past.hellos| && s.past.hellos[i] in s.past.sockets
  {
    s.past.sockets[s.past.hellos[i]].session.Some? ==>
      forall j | 0 <= j < i && SameHello(s, j, i) :: exists k :: j < k < i && OtherHello(s, k, i)
  }

  lemma GreetQueues(s: State, autostart: bool, node: Id, session: Option<Id>, link: Id)
    requires Wired(s) && CanGreet(s, session, link)
    ensures var t := Step(s, autostart, Handshake(node, session, link));
            && SpeaksFor(t, link) && t.past.sockets[link] == Link(node, session, node in s.db.nodes)
            && t.past.hellos == s.past.hellos + [link]
            && (link in t.hub.restores <==> autostart && link in t.past.triggered)
            && (link in t.hub.restores ==> t.hub.restores[link].Queued?)
  {
  }

  /**
   * Over every run, and whichever socket the node had before: a handshake takes
   * the node over, and right after it a restore is queued on its socket exactly
   * if restores are switched on, the node is declared and the process is news
   * there.
   */
  lemma HandshakeQueuesExactly(autostart: bool, acts: seq<Act>, node: Id, session: Option<Id>, link: Id)
    requires CanGreet(Run(Initial, autostart, acts), session, link)
    ensures var s := Run(Initial, autostart, acts);
            var t := Step(s, autostart, Handshake(node, session, link));
            var i := |s.past.hellos|;
            && SpeaksFor(t, link) && |t.past.hellos| == i + 1 && t.past.hellos[i] == link
            && (link in t.hub.restores <==> autostart && node in s.db.nodes && IsNews(t, i))
            && (link in t.hub.restores ==> t.hub.restores[link] == Queued)
  {
    hide Run; hide Inv; hide Ordered;
    var s := Run(Initial, autostart, acts);
    InitialInv();
    RunKeepsInv(Initial, autostart, acts);
    RunKeepsOrdered(Initial, autostart, acts);
    InvWired(s);
    StepKeepsOrdered(s, autostart, Handshake(node, session, link));
    GreetQueues(s, autostart, node, session, link);
    hide Step; hide Wired;
    AskedBecause(Step(s, autostart, Handshake(node, session, link)), |s.past.hellos|);
  }

  lemma SilentStep(s: State, a: Act)
    requires s.hub.restores == map[]
    ensures var t := Step(s, false, a); t.hub.restores == map[] && t.past.starts == s.past.starts
  {
    hide IsPending; hide Owns; hide SpeaksFor; hide DatabaseStep;
  }

  /** With restores switched off none ever sends a start. */
  lemma {:induction false} SwitchedOffStartsNothing(s: State, acts: seq<Act>)
    requires s.hub.restores == map[]
    ensures Run(s, false, acts).past.starts == s.past.starts
    decreases |acts|
  {
    hide Step;
    if acts != [] {
      SilentStep(s, acts[0]);
      SwitchedOffStartsNothing(Step(s, false, acts[0]), acts[1..]);
    }
  }

  // What a restore has done when it is over.

  /** The instance is armed on the node now and after every act of the run. */
  ghost predicate ArmedThroughout(s: State, autostart: bool, acts: seq<Act>, inst: Id, node: Id)
    decreases |acts|
  {
    && Armed(s.db.rows, inst) && s.db.rows[inst].node == node
    && (acts != [] ==> ArmedThroughout(Step(s, autostart, acts[0]), autostart, acts[1..], inst, node))
  }

  /** The socket lost its node, or the start was sent, or the restore has the instance still ahead. */
  ghost predicate OnTrack(s: State, link: Id, inst: Id) {
    || !SpeaksFor(s, link)
    || Start(inst, link) in s.past.starts
    || (link in s.hub.restores && (s.hub.restores[link].Queued? || Ahead(s.hub.restores[link], inst)))
  }

  ghost predicate Ahead(r: Restore, inst: Id)
    requires r.Going?
  {
    exists k :: r.index <= k < |r.pending| && r.pending[k] == inst
  }

  lemma PassOnTrack(s: State, link: Id, inst: Id)
    requires SpeaksFor(s, link) && link in s.hub.restores && s.hub.restores[link].Going?
    requires Ahead(s.hub.restores[link], inst) && Armed(s.db.rows, inst)
    ensures OnTrack(RestorePassStep(s, link), link, inst)
  {
    var r := s.hub.restores[link];
    var k :| r.index <= k < |r.pending| && r.pending[k] == inst;
    var t := RestorePassStep(s, link);
    if k == r.index {
      assert t.past.starts == s.past.starts + [Start(inst, link)];
      assert t.past.starts[|s.past.starts|] == Start(inst, link);
    } else {
      assert t.hub.restores[link] == Going(r.pending, r.index + 1);
    }
  }

  lemma BeginOnTrack(s: State, link: Id, order: seq<Id>, inst: Id)
    requires link in s.past.sockets && link in s.hub.restores && s.hub.restores[link].Queued?
    requires Armed(s.db.rows, inst) && s.db.rows[inst].node == s.past.sockets[link].node
    ensures OnTrack(RestoreBeginStep(s, link, order), link, inst)
  {
    if IsPending(s.db.rows, s.past.sockets[link].node, order) {
      var k :| 0 <= k < |order| && order[k] == inst;
      var t := RestoreBeginStep(s, link, order);
      assert t.hub.restores[link].pending[k] == inst;
    }
  }

  /** Acts that are not the restore's own end it only by ending the socket. */
  lemma OthersLeave(s: State, autostart: bool, a: Act, link: Id)
    requires Inv(s) && SpeaksFor(s, link)
    requires a != RestorePass(link) && !(a.RestoreBegin? && a.link == link)
    ensures var t := Step(s, autostart, a);
            && s.past.starts <= t.past.starts
            && (SpeaksFor(t, link) && link in s.hub.restores ==>
                  link in t.hub.restores && t.hub.restores[link] == s.hub.restores[link])
  {
    hide Local; hide StartsOnce; hide IsPending; hide Owns; hide DatabaseStep; hide Claim;
  }

  lemma StepOnTrack(s: State, autostart: bool, a: Act, link: Id, inst: Id)
    requires Inv(s) && link in s.past.sockets && OnTrack(s, link, inst)
    requires Armed(s.db.rows, inst) && s.db.rows[inst].node == s.past.sockets[link].node
    ensures OnTrack(Step(s, autostart, a), link, inst)
  {
    hide Inv; hide Ahead; hide SpeaksFor; hide RestorePassStep; hide RestoreBeginStep;
    var t := Step(s, autostart, a);
    StepSendsOnlyDue(s, autostart, a);
    if !SpeaksFor(s, link) {
      StaysSilent(s, autostart, a, link);
    } else if Start(inst, link) in s.past.starts {
      hide Step;
      assert Start(inst, link) in t.past.starts;
    } else if a == RestorePass(link) {
      if s.hub.restores[link].Going? {
        PassOnTrack(s, link, inst);
      } else {
        assert t == s by { QueuedWaits(s, link); }
      }
    } else if a.RestoreBegin? && a.link == link {
      if s.hub.restores[link].Queued? {
        BeginOnTrack(s, link, a.order, inst);
      } else {
        assert t == s by { BegunOnce(s, link, a.order); }
      }
    } else {
      hide Step;
      OthersLeave(s, autostart, a, link);
    }
  }

  lemma QueuedWaits(s: State, link: Id)
    requires link in s.hub.restores && s.hub.restores[link].Queued?
    ensures RestorePassStep(s, link) == s
  {
  }

  lemma BegunOnce(s: State, link: Id, order: seq<Id>)
    requires link in s.hub.restores && s.hub.restores[link].Going?
    ensures RestoreBeginStep(s, link, order) == s
  {
  }

  /**
   * In every run from a queued restore on, whatever happens: once the restore
   * is over and its socket still speaks for the node, every instance that was
   * armed there all the time has been sent its start.
   */
  lemma {:induction false} FinishedRestoreMissesNone(s: State, autostart: bool, acts: seq<Act>, link: Id, inst: Id)
    requires Inv(s) && link in s.past.sockets && OnTrack(s, link, inst)
    requires ArmedThroughout(s, autostart, acts, inst, s.past.sockets[link].node)
    ensures var t := Run(s, autostart, acts);
            OnTrack(t, link, inst)
            && (SpeaksFor(t, link) && link !in t.hub.restores ==> Start(inst, link) in t.past.starts)
    decreases |acts|
  {
    hide Inv; hide Step; hide SpeaksFor;
    if acts != [] {
      StepKeepsInv(s, autostart, acts[0]);
      StepOnTrack(s, autostart, acts[0], link, inst);
      SocketsSame(s, autostart, acts[0]);
      FinishedRestoreMissesNone(Step(s, autostart, acts[0]), autostart, acts[1..], link, inst);
    }
  }

  // That it can get there.

  lemma {:induction false} Listing(insts: set<Id>) returns (order: seq<Id>)
    ensures Distinct(order) && forall inst :: inst in order <==> inst in insts
    decreases insts
  {
    order := [];
    if insts != {} {
      var inst :| inst in insts;
      var rest := Listing(insts - {inst});
      order := [inst] + rest;
      assert forall i :: i in order <==> i == inst || i in rest;
    }
  }

  predicate OwnActs(acts: seq<Act>, link: Id) {
    forall i :: 0 <= i < |acts| ==> (acts[i].RestoreBegin? || acts[i].RestorePass?) && acts[i].link == link
  }

  lemma {:induction false} PassesFinish(s: State, autostart: bool, link: Id, pending: seq<Id>, index: nat)
      returns (acts: seq<Act>)
    requires At(s, link, pending, index) && index <= |pending|
    ensures OwnActs(acts, link)
    ensures var t := Run(s, autostart, acts);
            SpeaksFor(t, link) && link !in t.hub.restores && t.db == s.db
    decreases |pending| - index
  {
    if index == |pending| {
      acts := [RestorePass(link)];
      var t := Step(s, autostart, RestorePass(link));
      assert acts[1..] == [];
      assert Run(s, autostart, acts) == t;
    } else {
      OnePass(s, autostart, link, pending, index);
      hide Step; hide SpeaksFor;
      var rest := PassesFinish(Step(s, autostart, RestorePass(link)), autostart, link, pending, index + 1);
      acts := [RestorePass(link)] + rest;
      assert acts[1..] == rest;
    }
  }

  lemma {:induction false} OwnActsKeepArmed(s: State, autostart: bool, acts: seq<Act>, link: Id, inst: Id, node: Id)
    requires OwnActs(acts, link) && Armed(s.db.rows, inst) && s.db.rows[inst].node == node
    ensures ArmedThroughout(s, autostart, acts, inst, node)
    decreases |acts|
  {
    if acts != [] {
      assert acts[0].RestoreBegin? || acts[0].RestorePass?;
      assert Step(s, autostart, acts[0]).db == s.db;
      OwnActsKeepArmed(Step(s, autostart, acts[0]), autostart, acts[1..], link, inst, node);
    }
  }

  lemma BeginsSomehow(s: State, autostart: bool, link: Id) returns (order: seq<Id>)
    requires SpeaksFor(s, link) && link in s.hub.restores && s.hub.restores[link] == Queued
    ensures var t := Step(s, autostart, RestoreBegin(link, order));
            At(t, link, order, 0) && t.db == s.db
  {
    var node := s.past.sockets[link].node;
    order := Listing(set inst | inst in s.db.rows && s.db.rows[inst].armed && s.db.rows[inst].node == node);
    assert IsPending(s.db.rows, node, order);
  }

  /** A queued restore whose socket speaks for the node can run to its end by its own acts alone, and
      has then sent a start to every instance armed on the node. */
  lemma QueuedRestoreCanFinish(s: State, autostart: bool, link: Id) returns (acts: seq<Act>)
    requires Inv(s) && SpeaksFor(s, link) && link in s.hub.restores && s.hub.restores[link] == Queued
    ensures OwnActs(acts, link)
    ensures var t := Run(s, autostart, acts);
            && link !in t.hub.restores && t.db == s.db
            && forall inst | Armed(s.db.rows, inst) && s.db.rows[inst].node == s.past.sockets[link].node ::
                 Start(inst, link) in t.past.starts
  {
    var order := BeginsSomehow(s, autostart, link);
    hide Step; hide Inv; hide ArmedThroughout;
    var begun := Step(s, autostart, RestoreBegin(link, order));
    var passes := PassesFinish(begun, autostart, link, order, 0);
    acts := [RestoreBegin(link, order)] + passes;
    assert acts[1..] == passes;
    forall inst | Armed(s.db.rows, inst) && s.db.rows[inst].node == s.past.sockets[link].node
      ensures Start(inst, link) in Run(s, autostart, acts).past.starts
    {
      OwnActsKeepArmed(s, autostart, acts, link, inst, s.past.sockets[link].node);
      FinishedRestoreMissesNone(s, autostart, acts, link, inst);
    }
  }
}
