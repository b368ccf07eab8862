/** The hub's side of a restore as it runs: the database it writes, the ownership cache of a socket
    and the restore loop, proved against NodeProtocol. */
module Restores {
  import opened Options
  import opened NodeProtocol
  import opened NodeProtocolSafety

  class HubDatabase {
    var rows: map<Id, Row>
    var nodes: map<Id, Option<Id>>

    constructor ()
      ensures rows == map[] && nodes == map[]
    {
      rows, nodes := map[], map[];
    }

    method ClaimAgentSession(node: Id, session: Option<Id>) returns (restarted: bool)
      modifies this`nodes
      ensures (restarted, nodes) == Claim(old(nodes), node, session)
    {
      if node !in nodes { return false; }
      if session.None? {
        nodes := nodes[node := None];
        return true;
      }
      restarted := nodes[node] != session;
      nodes := nodes[node := session];
    }

    method NoteCleanExit(node: Id, inst: Id, cleanExit: bool)
      modifies this`rows
      ensures rows == NodeProtocol.NoteCleanExit(old(rows), node, inst, cleanExit)
    {
      if !cleanExit { return; }
      if inst in rows && rows[inst].node == node && rows[inst].armed {
        rows := rows[inst := rows[inst].(armed := false)];
      }
    }

    /** power, after the agent accepted. */
    method RecordPower(inst: Id, arms: bool)
      modifies this`rows
      ensures rows == Declare(old(rows), inst, arms)
    {
      if inst in rows {
        rows := rows[inst := rows[inst].(armed := arms)];
      }
    }
  }

  /** One open socket with its cache of owned instances. */
  class AgentSocket {
    const node: Id
    var owned: set<Id>

    constructor (node: Id)
      ensures this.node == node && owned == {}
    {
      this.node, owned := node, {};
    }

    method Owns(db: HubDatabase, inst: Id) returns (yes: bool)
      modifies this`owned
      ensures yes <==> inst in old(owned) || (inst in db.rows && db.rows[inst].node == node)
      ensures owned == if yes then old(owned) + {inst} else old(owned)
    {
      if inst in owned { return true; }
      yes := inst in db.rows && db.rows[inst].node == node;
      if yes {
        owned := owned + {inst};
      }
    }

    /** A state event of the agent, through the ownership check to the declared flag. */
    method OnStateEvent(db: HubDatabase, inst: Id, cleanExit: bool) returns (admitted: bool)
      modifies this`owned, db`rows
      ensures admitted <==> inst in old(owned) || (inst in old(db.rows) && old(db.rows)[inst].node == node)
      ensures owned == if admitted then old(owned) + {inst} else old(owned)
      ensures db.rows ==
              if admitted then NodeProtocol.NoteCleanExit(old(db.rows), node, inst, cleanExit) else old(db.rows)
    {
      admitted := Owns(db, inst);
      if admitted {
        db.NoteCleanExit(node, inst, cleanExit);
      }
    }
  }

  /** What one pass of the restore finds when it runs, after its stagger. */
  datatype View = View(rows: map<Id, Row>, registry: map<Id, Id>)

  /** The socket speaks for the node at every pass before `stop`. */
  ghost predicate CurrentUntil(views: seq<View>, node: Id, link: Id, stop: nat)
    requires stop <= |views|
  {
    forall k :: 0 <= k < stop ==> node in views[k].registry && views[k].registry[node] == link
  }

  /** The instances of a list that are armed when their own pass comes. */
  function ArmedAtPass(pending: seq<Id>, views: seq<View>, stop: nat): (sent: seq<Id>)
    requires stop <= |pending| && stop <= |views|
  {
    if stop == 0 then []
    else ArmedAtPass(pending, views, stop - 1)
         + (if Armed(views[stop - 1].rows, pending[stop - 1]) then [pending[stop - 1]] else [])
  }

  /** restore: the passes up to `stop` were made; it ended there because the list was done or the
      socket no longer spoke for the node. */
  method Restore(node: Id, link: Id, agentRestarted: bool, autostart: bool, pending: seq<Id>, views: seq<View>)
    returns (sent: seq<Id>, stop: nat)
    requires |views| == |pending|
    ensures stop <= |pending| && sent == ArmedAtPass(pending, views, stop)
    ensures agentRestarted && autostart ==> CurrentUntil(views, node, link, stop)
    ensures agentRestarted && autostart && stop < |pending| ==> !CurrentUntil(views, node, link, stop + 1)
    ensures !agentRestarted || !autostart ==> stop == 0
  {
    sent, stop := [], 0;
    if !agentRestarted { return; }
    if !autostart { return; }
    while stop < |pending|
      invariant stop <= |pending|
      invariant CurrentUntil(views, node, link, stop)
      invariant sent == ArmedAtPass(pending, views, stop)
    {
      var view := views[stop];
      if !(node in view.registry && view.registry[node] == link) { return; }
      if Armed(view.rows, pending[stop]) {
        sent := sent + [pending[stop]];
      }
      stop := stop + 1;
    }
  }

  /** A restore sends each armed instance of its list once, in the order of the list, and nothing else. */
  lemma {:induction false} SentInOrder(pending: seq<Id>, views: seq<View>, stop: nat) returns (at: seq<nat>)
    requires stop <= |pending| && stop <= |views|
    ensures var sent := ArmedAtPass(pending, views, stop);
            && |at| == |sent|
            && (forall j, k :: 0 <= j < k < |at| ==> at[j] < at[k])
            && (forall k :: 0 <= k < |at| ==> at[k] < stop && sent[k] == pending[at[k]])
            && (forall i :: 0 <= i < stop ==> (i in at <==> Armed(views[i].rows, pending[i])))
  {
    at := [];
    if stop > 0 {
      at := SentInOrder(pending, views, stop - 1);
      if Armed(views[stop - 1].rows, pending[stop - 1]) {
        at := at + [stop - 1];
      }
    }
  }

  // The loop against the whole system.

  /** The next pass of the restore of `link` goes on. */
  predicate GoesOn(s: State, link: Id) {
    && link in s.hub.restores && link in s.past.sockets && s.hub.restores[link].Going?
    && !NextPass(s, link, s.hub.restores[link]).Abandon?
  }

  /** What the passes of one restore find, over a run of everything else around them. */
  ghost function Views(s: State, autostart: bool, acts: seq<Act>, link: Id): seq<View>
    decreases |acts|
  {
    if acts == [] then []
    else (if acts[0] == RestorePass(link) && GoesOn(s, link) then [View(s.db.rows, s.hub.registry)] else [])
         + Views(Step(s, autostart, acts[0]), autostart, acts[1..], link)
  }

  function SentOn(starts: seq<Start>, link: Id): seq<Id> {
    if starts == [] then []
    else SentOn(starts[..|starts| - 1], link)
         + if starts[|starts| - 1].link == link then [starts[|starts| - 1].inst] else []
  }

  lemma SentOnAppend(starts: seq<Start>, start: Start, link: Id)
    ensures SentOn(starts + [start], link) == SentOn(starts, link) + if start.link == link then [start.inst] else []
  {
    assert (starts + [start])[..|starts|] == starts;
  }

  /** The pass that goes on moves to the next instance and sends exactly if this one is armed. */
  lemma PassGoesOn(s: State, link: Id)
    requires GoesOn(s, link)
    ensures var r := s.hub.restores[link];
            var t := RestorePassStep(s, link);
            && r.index < |r.pending|
            && link in t.hub.restores && t.hub.restores[link] == Going(r.pending, r.index + 1)
            && link in t.past.sockets
            && SentOn(t.past.starts, link)
               == SentOn(s.past.starts, link)
                  + if Armed(s.db.rows, r.pending[r.index]) then [r.pending[r.index]] else []
  {
    var r := s.hub.restores[link];
    SentOnAppend(s.past.starts, Start(r.pending[r.index], link), link);
  }

  ghost predicate Untouched(s: State, t: State, link: Id) {
    && link in t.past.sockets
    && (link in t.hub.restores ==> link in s.hub.restores && t.hub.restores[link] == s.hub.restores[link])
    && SentOn(t.past.starts, link) == SentOn(s.past.starts, link)
  }

  lemma OtherPass(s: State, other: Id, link: Id)
    requires link in s.past.sockets && !(other == link && GoesOn(s, link))
    ensures Untouched(s, RestorePassStep(s, other), link)
  {
    if GoesOn(s, other) {
      var r := s.hub.restores[other];
      SentOnAppend(s.past.starts, Start(r.pending[r.index], other), link);
    }
  }

  /** No other act sends anything on this socket; at most it ends the restore. */
  lemma OtherActs(s: State, autostart: bool, a: Act, link: Id)
    requires Inv(s) && link in s.past.sockets && !(a == RestorePass(link) && GoesOn(s, link))
    requires link in s.hub.restores ==> s.hub.restores[link].Going?
    ensures Untouched(s, Step(s, autostart, a), link)
  {
    hide Local; hide StartsOnce; hide RestorePassStep; hide GoesOn;
    if IsQuiet(a) {
      hide Step; hide Wired; hide RowsKept; hide NodesKept;
      QuietStep(s, autostart, a);
    } else if a.RestorePass? {
      OtherPass(s, a.link, link);
    }
  }

  lemma {:induction false} EndedSendsNothing(s: State, autostart: bool, acts: seq<Act>, link: Id)
    requires Inv(s) && link in s.past.sockets && link !in s.hub.restores
    ensures Views(s, autostart, acts, link) == []
    ensures SentOn(Run(s, autostart, acts).past.starts, link) == SentOn(s.past.starts, link)
    decreases |acts|
  {
    hide Inv; hide Step;
    if acts != [] {
      OtherActs(s, autostart, acts[0], link);
      StepKeepsInv(s, autostart, acts[0]);
      EndedSendsNothing(Step(s, autostart, acts[0]), autostart, acts[1..], link);
    }
  }

  lemma {:induction false} ArmedCons(pending: seq<Id>, views: seq<View>, n: nat)
    requires 0 < n <= |pending| && n <= |views|
    ensures ArmedAtPass(pending, views, n)
         == (if Armed(views[0].rows, pending[0]) then [pending[0]] else [])
            + ArmedAtPass(pending[1..], views[1..], n - 1)
  {
    if n > 1 { ArmedCons(pending, views, n - 1); }
  }

  /**
   * In any run of the system, whatever happens between the passes, what a
   * restore sends on its socket is what the loop sends for the views its passes
   * found: the loop is a faithful account of the interleaved restore.
   */
  lemma {:induction false} LoopIsTheRestore(s: State, autostart: bool, acts: seq<Act>, link: Id)
    requires Inv(s) && link in s.hub.restores && s.hub.restores[link].Going? && link in s.past.sockets
    requires s.hub.restores[link].index <= |s.hub.restores[link].pending|
    ensures var r := s.hub.restores[link];
            var views := Views(s, autostart, acts, link);
            var rest := r.pending[r.index..];
            && |views| <= |rest|
            && SentOn(Run(s, autostart, acts).past.starts, link)
               == SentOn(s.past.starts, link) + ArmedAtPass(rest, views, |views|)
    decreases |acts|
  {
    hide Inv; hide Step; hide GoesOn; hide SentOn; hide ArmedAtPass; hide Armed;
    if acts == [] {
      NoPasses(s.hub.restores[link]);
      return;
    }
    var r := s.hub.restores[link];
    var t := Step(s, autostart, acts[0]);
    StepKeepsInv(s, autostart, acts[0]);
    if acts[0] == RestorePass(link) && GoesOn(s, link) {
      assert t == RestorePassStep(s, link) by { PassIsStep(s, autostart, link); }
      PassGoesOn(s, link);
      LoopIsTheRestore(t, autostart, acts[1..], link);
      var views := Views(s, autostart, acts, link);
      assert views == [View(s.db.rows, s.hub.registry)] + Views(t, autostart, acts[1..], link);
      assert views[1..] == Views(t, autostart, acts[1..], link);
      assert r.pending[r.index..][1..] == r.pending[r.index + 1..];
      ArmedCons(r.pending[r.index..], views, |views|);
    } else {
      OtherActs(s, autostart, acts[0], link);
      assert Views(s, autostart, acts, link) == Views(t, autostart, acts[1..], link);
      if link in t.hub.restores {
        LoopIsTheRestore(t, autostart, acts[1..], link);
      } else {
        EndedSendsNothing(t, autostart, acts[1..], link);
        NoPasses(r);
      }
    }
  }

  lemma NoPasses(r: Restore)
    requires r.Going? && r.index <= |r.pending|
    ensures ArmedAtPass(r.pending[r.index..], [], 0) == []
  {
  }

  lemma PassIsStep(s: State, autostart: bool, link: Id)
    ensures Step(s, autostart, RestorePass(link)) == RestorePassStep(s, link)
  {
  }
}
