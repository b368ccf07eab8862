/**
 * Which connection speaks for a node, over any run of registrations,
 * disconnections and socket teardowns (agents/registry.py, AgentRegistry, and
 * the end of agent_endpoint in api/agent_ws.py).
 */
module ConnectionLifecycle {

  datatype Act<C> =
    | Register(node: string, conn: C)
    | Teardown(node: string, conn: C)   // the socket's frame pump has ended
    | Disconnect(node: string)          // revocation

  ghost predicate Speaks<C>(agents: map<string, C>, node: string, conn: C) {
    node in agents && agents[node] == conn
  }

  function Step<C(==)>(agents: map<string, C>, a: Act<C>): map<string, C> {
    match a
    case Register(node, conn) => agents[node := conn]
    case Teardown(node, conn) => if node in agents && agents[node] == conn then agents - {node} else agents
    case Disconnect(node) => agents - {node}
  }

  /** The connections whose calls in flight an act rejects. */
  function Rejected<C(==)>(agents: map<string, C>, a: Act<C>): set<C> {
    match a
    case Register(node, conn) => if node in agents && agents[node] != conn then {agents[node]} else {}
    case Teardown(node, conn) => {conn}
    case Disconnect(node) => if node in agents then {agents[node]} else {}
  }

  /** Whose calls an act rejects: a torn down connection's own, those of a connection that another one
      displaces and those of one that is revoked. Registering the one that speaks already rejects none. */
  lemma RejectedExactly<C>(agents: map<string, C>, a: Act<C>, conn: C)
    ensures conn in Rejected(agents, a) <==>
              || (a.Teardown? && a.conn == conn)
              || (Speaks(agents, a.node, conn) && !Speaks(Step(agents, a), a.node, conn))
  {
  }

  function Run<C(==)>(acts: seq<Act<C>>): map<string, C> {
    if acts == [] then map[] else Step(Run(acts[..|acts| - 1]), acts[|acts| - 1])
  }

  /** `conn` was registered for `node` at `i` and nothing since took that away. */
  ghost predicate NewestSince<C>(acts: seq<Act<C>>, node: string, conn: C, i: nat) {
    && i < |acts|
    && acts[i] == Register(node, conn)
    && forall j :: i < j < |acts| ==>
         !(acts[j].Register? && acts[j].node == node)
         && acts[j] != Disconnect(node)
         && acts[j] != Teardown(node, conn)
  }

  /**
   * The connection that speaks for a node is exactly the last one registered
   * for it, and only until its own teardown or a revocation: the teardown of a
   * displaced connection takes nothing from the newer one.
   */
  lemma {:induction false} NewestConnectionSpeaks<C>(acts: seq<Act<C>>, node: string, conn: C)
    ensures Speaks(Run(acts), node, conn) <==> exists i :: NewestSince(acts, node, conn, i)
  {
    if acts == [] { return; }
    var n := |acts| - 1;
    var most, a := acts[..n], acts[n];
    NewestConnectionSpeaks(most, node, conn);
    if Speaks(Run(acts), node, conn) {
      if a == Register(node, conn) {
        assert NewestSince(acts, node, conn, n);
      } else {
        var i :| NewestSince(most, node, conn, i);
        assert NewestSince(acts, node, conn, i);
      }
    }
    if i: nat :| NewestSince(acts, node, conn, i) {
      if i < n { assert NewestSince(most, node, conn, i); }
    }
  }

  /**
   * A connection that no longer speaks for its node had its calls in flight
   * rejected at some point after it registered, so none waits on a dead socket.
   */
  lemma {:induction false} DisplacedCallsRejected<C>(acts: seq<Act<C>>, i: nat) returns (j: nat)
    requires i < |acts| && acts[i].Register?
    requires !Speaks(Run(acts), acts[i].node, acts[i].conn)
    ensures i < j < |acts| && acts[i].conn in Rejected(Run(acts[..j]), acts[j])
  {
    var n := |acts| - 1;
    if i < n && !Speaks(Run(acts[..n]), acts[i].node, acts[i].conn) {
      j := DisplacedCallsRejected(acts[..n], i);
      assert acts[..n][..j] == acts[..j];
    } else {
      j := n;
    }
  }
}

/** The registry and its connections as objects. */
module AgentRegistries {
  import opened AgentCalls
  import ConnectionLifecycle
  import opened EventQueues

  /** The future a call waits on. */
  class Reply {
    const id: string
    var answer: Answer

    constructor (id: string)
      ensures this.id == id && answer == Unset
    {
      this.id, answer := id, Unset;
    }

    /** set_result or set_exception, unless already done. */
    method Offer(event: Answer)
      modifies this
      ensures answer == Settle(old(answer), event)
    {
      if answer.Unset? { answer := event; }
    }
  }

  class AgentConnection {
    const node: string
    var pending: map<string, Reply>
    var closed: bool

    ghost predicate Valid()
      reads this, pending.Values
    {
      forall id :: id in pending ==> pending[id].id == id
    }

    constructor (node: string)
      ensures Valid() && this.node == node && pending == map[] && !closed
    {
      this.node, pending, closed := node, map[], false;
    }

    /** call, up to the write: the future is registered under the new id. */
    method BeginCall(id: string) returns (reply: Reply)
      requires Valid() && id !in pending
      modifies this`pending
      ensures Valid() && fresh(reply) && reply.id == id && reply.answer == Unset
      ensures pending == old(pending)[id := reply]
    {
      reply := new Reply(id);
      pending := pending[id := reply];
    }

    /** The end of every call, however it ends. */
    method EndCall(id: string)
      requires Valid()
      modifies this`pending
      ensures Valid() && pending == old(pending) - {id}
    {
      pending := pending - {id};
    }

    /** An answer settles the future of its own id and no other. */
    method Resolve(response: Response)
      requires Valid()
      modifies pending.Values
      ensures Valid()
      ensures forall id :: id in pending ==>
                pending[id].answer ==
                  if id == response.id then Settle(old(pending[id].answer), Answered(response))
                  else old(pending[id].answer)
    {
      if response.id in pending {
        pending[response.id].Offer(Answered(response));
      }
    }

    /** Rejects every call in flight: each future that was unsettled is broken, the others keep
        their answer, and the table is empty. */
    method FailAll()
      requires Valid()
      modifies this`pending, pending.Values
      ensures Valid() && pending == map[]
      ensures forall id :: id in old(pending) ==>
                old(pending)[id].answer == Settle(old(pending[id].answer), Broken)
    {
      var left := pending.Keys;
      while left != {}
        invariant left <= pending.Keys && pending == old(pending) && Valid()
        invariant forall id :: id in pending ==>
                    pending[id].answer ==
                      if id in left then old(pending[id].answer) else Settle(old(pending[id].answer), Broken)
        decreases left
      {
        var id :| id in left;
        pending[id].Offer(Broken);
        left := left - {id};
      }
      pending := map[];
    }

    method Close()
      requires Valid()
      modifies this, pending.Values
      ensures Valid() && closed && pending == map[]
      ensures forall id :: id in old(pending) ==>
                old(pending)[id].answer == Settle(old(pending[id].answer), Broken)
    {
      closed := true;
      FailAll();
    }
  }

  /** The backlog of one UI subscriber. */
  class Subscriber {
    var queue: seq<string>

    predicate Valid() reads this {
      |queue| <= EVENT_QUEUE_MAX
    }

    constructor ()
      ensures Valid() && queue == []
    {
      queue := [];
    }

    method Sink(event: string)
      requires Valid()
      modifies this
      ensures Valid() && queue == EventQueues.Offer(old(queue), event)
    {
      if |queue| == EVENT_QUEUE_MAX {
        queue := queue[1..];
      }
      queue := queue + [event];
    }
  }

  class AgentRegistry {
    var agents: map<string, AgentConnection>
    var subscribers: map<string, set<Subscriber>>

    ghost predicate Valid()
      reads this, agents.Values, set n, id | n in agents && id in agents[n].pending :: agents[n].pending[id]
    {
      && (forall n :: n in agents ==> agents[n].node == n && agents[n].Valid())
      && (forall n :: n in subscribers ==> subscribers[n] != {})
    }

    constructor ()
      ensures Valid() && agents == map[] && subscribers == map[]
    {
      agents, subscribers := map[], map[];
    }

    /** Newest wins. The displaced connection's calls are rejected, and it is handed back to be closed. */
    method Register(conn: AgentConnection) returns (displaced: AgentConnection?)
      requires Valid() && conn.Valid()
      modifies this`agents,
               (if conn.node in agents && agents[conn.node] != conn
                then {agents[conn.node]} + agents[conn.node].pending.Values else {})
      ensures Valid()
      ensures agents == ConnectionLifecycle.Step(old(agents), ConnectionLifecycle.Register(conn.node, conn))
      ensures (if displaced == null then {} else {displaced})
              == ConnectionLifecycle.Rejected(old(agents), ConnectionLifecycle.Register(conn.node, conn))
      ensures displaced != null ==>
                displaced.pending == map[]
                && forall id :: id in old(agents[conn.node].pending) ==>
                     old(agents[conn.node].pending)[id].answer
                     == Settle(old(agents[conn.node].pending[id].answer), Broken)
    {
      displaced := null;
      if conn.node in agents && agents[conn.node] != conn {
        displaced := agents[conn.node];
        displaced.FailAll();
      }
      agents := agents[conn.node := conn];
    }

    /** The end of a socket's frame pump. */
    method Teardown(conn: AgentConnection)
      requires Valid() && conn.Valid()
      modifies this`agents, conn`pending, conn.pending.Values
      ensures Valid()
      ensures agents == ConnectionLifecycle.Step(old(agents), ConnectionLifecycle.Teardown(conn.node, conn))
      ensures conn.pending == map[]
      ensures forall id :: id in old(conn.pending) ==>
                old(conn.pending)[id].answer == Settle(old(conn.pending[id].answer), Broken)
    {
      if conn.node in agents && agents[conn.node] == conn {
        agents := agents - {conn.node};
        conn.FailAll();
      } else {
        conn.FailAll();
      }
    }

    /** Revocation of a node. */
    method Disconnect(node: string) returns (closed: AgentConnection?)
      requires Valid()
      modifies this`agents,
               (if node in agents then {agents[node]} + agents[node].pending.Values else {})
      ensures Valid()
      ensures agents == ConnectionLifecycle.Step(old(agents), ConnectionLifecycle.Disconnect(node))
      ensures (if closed == null then {} else {closed})
              == ConnectionLifecycle.Rejected(old(agents), ConnectionLifecycle.Disconnect(node))
      ensures closed != null ==>
                closed.closed && closed.pending == map[]
                && forall id :: id in old(agents[node].pending) ==>
                     old(agents[node].pending)[id].answer == Settle(old(agents[node].pending[id].answer), Broken)
    {
      closed := null;
      if node in agents {
        closed := agents[node];
        agents := agents - {node};
        closed.Close();
      }
    }

    method Subscribe(node: string, sink: Subscriber)
      requires Valid()
      modifies this`subscribers
      ensures Valid()
      ensures subscribers ==
              old(subscribers)[node := (if node in old(subscribers) then old(subscribers)[node] else {}) + {sink}]
    {
      var subs := if node in subscribers then subscribers[node] else {};
      subscribers := subscribers[node := subs + {sink}];
    }

    /** The end of a subscription leaves no empty entry behind. */
    method Unsubscribe(node: string, sink: Subscriber)
      requires Valid()
      modifies this`subscribers
      ensures Valid()
      ensures forall n, s :: (n in subscribers && s in subscribers[n])
                <==> (n in old(subscribers) && s in old(subscribers)[n] && !(n == node && s == sink))
      ensures subscribers.Keys <= old(subscribers.Keys)
    {
      if node in subscribers {
        var subs := subscribers[node] - {sink};
        if subs == {} {
          assert forall s :: s in subscribers[node] && s != sink ==> s in subs;
          subscribers := subscribers - {node};
        } else {
          subscribers := subscribers[node := subs];
        }
      }
    }

    /** Every sink of the node gets the event once, whichever of the others raise; no other sink sees it. */
    method Publish(node: string, event: string, raising: set<Subscriber>)
      requires node in subscribers ==> forall s :: s in subscribers[node] ==> s.Valid()
      modifies if node in subscribers then subscribers[node] else {}
      ensures node in subscribers ==> forall s :: s in subscribers[node] ==>
                old(s.Valid()) && s.Valid()
                && s.queue == if s in raising then old(s.queue) else EventQueues.Offer(old(s.queue), event)
    {
      if node !in subscribers { return; }
      var left := subscribers[node];
      while left != {}
        invariant left <= subscribers[node] && subscribers == old(subscribers)
        invariant forall s :: s in subscribers[node] ==> s.Valid() && old(s.Valid())
        invariant forall s :: s in subscribers[node] ==>
                    s.queue ==
                    if s in left || s in raising then old(s.queue) else EventQueues.Offer(old(s.queue), event)
        decreases left
      {
        var s :| s in left;
        left := left - {s};
        if s in raising { continue; }
        s.Sink(event);
      }
    }
  }
}
