/**
 * Commands sent to an agent and the answers that come back
 * (agents/registry.py, AgentConnection).
 *
 * A call registers a future under its command id, writes the frame, waits for
 * the future with a timeout and always removes its own entry.  Answers, the
 * loss of the connection, timeouts and cancellation arrive in any order in
 * between.  Ids are unique: a Begin that reuses one does nothing.
 */
module AgentCalls {

  datatype Response = Response(id: string, body: string)

  /** What the call's future holds. */
  datatype Answer = Unset | Answered(response: Response) | Broken

  datatype Outcome = Got(response: Response) | Lost | SendFailed | TimedOut | Cancelled

  datatype Phase = Writing | Awaiting | Finished(outcome: Outcome)

  datatype Call = Call(answer: Answer, phase: Phase)

  datatype State = State(calls: map<string, Call>, pending: set<string>)

  datatype Act =
    | Begin(id: string)          // the future is registered, the write starts
    | Written(id: string)        // the write returned: the call waits
    | WriteFails(id: string)     // the write raised
    | Arrives(response: Response)
    | DropAll                    // the connection was lost, closed or replaced
    | Wake(id: string)           // the waiting call sees its future settled
    | Expire(id: string)         // the wait timed out
    | Cancel(id: string)         // the calling task was cancelled

  /** A future is settled once; later settlements change nothing. */
  function Settle(was: Answer, event: Answer): Answer {
    if was.Unset? then event else was
  }

  const Start := State(map[], {})

  predicate Unfinished(s: State, id: string) {
    id in s.calls && !s.calls[id].phase.Finished?
  }

  function Finish(s: State, id: string, outcome: Outcome): State
    requires id in s.calls
  {
    State(s.calls[id := s.calls[id].(phase := Finished(outcome))], s.pending - {id})
  }

  function SettleAll(s: State): State {
    State(map id | id in s.calls ::
            if id in s.pending then s.calls[id].(answer := Settle(s.calls[id].answer, Broken)) else s.calls[id],
          {})
  }

  function Step(s: State, a: Act): State {
    match a
    case Begin(id) =>
      if id in s.calls then s else State(s.calls[id := Call(Unset, Writing)], s.pending + {id})
    case Written(id) =>
      if id in s.calls && s.calls[id].phase.Writing?
      then s.(calls := s.calls[id := s.calls[id].(phase := Awaiting)]) else s
    case WriteFails(id) =>
      if id in s.calls && s.calls[id].phase.Writing? then Finish(s, id, SendFailed) else s
    case Arrives(r) =>
      if r.id in s.pending && r.id in s.calls
      then s.(calls := s.calls[r.id := s.calls[r.id].(answer := Settle(s.calls[r.id].answer, Answered(r)))])
      else s
    case DropAll => SettleAll(s)
    case Wake(id) =>
      if id !in s.calls || !s.calls[id].phase.Awaiting? then s else
      (match s.calls[id].answer
       case Unset => s
       case Answered(r) => Finish(s, id, Got(r))
       case Broken => Finish(s, id, Lost))
    case Expire(id) =>
      if id in s.calls && s.calls[id].phase.Awaiting? then Finish(s, id, TimedOut) else s
    case Cancel(id) =>
      if Unfinished(s, id) then Finish(s, id, Cancelled) else s
  }

  function Run(s: State, acts: seq<Act>): State {
    if acts == [] then s else Step(Run(s, acts[..|acts| - 1]), acts[|acts| - 1])
  }

  ghost predicate Inv(s: State) {
    && s.pending <= s.calls.Keys
    && forall id | id in s.calls ::
         var c := s.calls[id];
         && (c.phase.Finished? ==> id !in s.pending)
         && (!c.phase.Finished? && id !in s.pending ==> !c.answer.Unset?)
         && (id in s.pending ==> !c.answer.Broken?)
         && (c.answer.Answered? ==> c.answer.response.id == id)
         && (c.phase.Finished? && c.phase.outcome.Got? ==> c.answer == Answered(c.phase.outcome.response))
         && (c.phase.Finished? && c.phase.outcome.Lost? ==> c.answer.Broken?)
  }

  lemma StepKeepsInv(s: State, a: Act)
    requires Inv(s)
    ensures Inv(Step(s, a))
  {
  }

  lemma StartInv()
    ensures Inv(Start)
  {
  }

  lemma {:induction false} CallInv(acts: seq<Act>)
    ensures Inv(Run(Start, acts))
  {
    hide Step;
    hide Inv;
    if acts == [] {
      StartInv();
    } else {
      CallInv(acts[..|acts| - 1]);
      StepKeepsInv(Run(Start, acts[..|acts| - 1]), acts[|acts| - 1]);
    }
  }

  /**
   * A call that is still running after the connection was lost can always
   * finish: once its frame is written, waking it ends it, with an answer to its
   * own id or with the loss of the connection.
   */
  lemma NoCallIsStranded(acts: seq<Act>, id: string)
    requires Unfinished(Run(Start, acts + [DropAll]), id)
    ensures var s := Run(Start, acts + [DropAll] + [Written(id)] + [Wake(id)]);
            && id in s.calls && s.calls[id].phase.Finished?
            && (s.calls[id].phase.outcome.Lost?
                || exists r :: s.calls[id].phase.outcome == Got(r) && r.id == id)
  {
    var one, two := acts + [DropAll], acts + [DropAll] + [Written(id)];
    var three := acts + [DropAll] + [Written(id)] + [Wake(id)];
    CallInv(one);
    assert one[..|one| - 1] == acts;
    assert two[..|two| - 1] == one;
    assert three[..|three| - 1] == two;
    CallInv(three);
    var s := Run(Start, three);
    assert id in s.calls && s.calls[id].phase.Finished? by {
      var s1, s2 := Run(Start, one), Run(Start, two);
      assert s2 == Step(s1, Written(id)) && s == Step(s2, Wake(id));
      assert id !in s1.pending;
      assert !s1.calls[id].answer.Unset?;
      assert s2.calls[id].phase.Awaiting?;
    }
    if s.calls[id].phase.outcome.Got? {
      assert s.calls[id].phase.outcome == Got(s.calls[id].phase.outcome.response);
    }
  }

  /** What one act makes of a call: how each ending comes about, and when an act leaves it running. */
  lemma EndsExactly(s: State, a: Act, id: string)
    requires Unfinished(s, id)
    ensures var before, t := s.calls[id], Step(s, a);
            && id in t.calls
            && (t.calls[id].phase == Finished(SendFailed) <==> a == WriteFails(id) && before.phase == Writing)
            && (t.calls[id].phase == Finished(TimedOut) <==> a == Expire(id) && before.phase == Awaiting)
            && (t.calls[id].phase == Finished(Cancelled) <==> a == Cancel(id))
            && (t.calls[id].phase == Finished(Lost) <==>
                  a == Wake(id) && before.phase == Awaiting && before.answer == Broken)
            && (forall r :: t.calls[id].phase == Finished(Got(r)) <==>
                  a == Wake(id) && before.phase == Awaiting && before.answer == Answered(r))
            && (Unfinished(t, id) ==>
                  t.calls[id].phase == if a == Written(id) then Awaiting else before.phase)
  {
  }

  /** The one act that may bring a call to this end. */
  function EndingAct(id: string, outcome: Outcome): Act {
    match outcome
    case SendFailed => WriteFails(id)
    case TimedOut => Expire(id)
    case Cancelled => Cancel(id)
    case _ => Wake(id)
  }

  /** Over any run a call has its outcome because it was running and the act of that ending then
      found it as the ending needs it: being written for a failed write, waiting for a timeout,
      settled for an answer or a loss. */
  lemma {:induction false} OutcomeBecause(acts: seq<Act>, id: string, outcome: Outcome) returns (i: nat)
    requires id in Run(Start, acts).calls && Run(Start, acts).calls[id].phase == Finished(outcome)
    ensures i < |acts| && acts[i] == EndingAct(id, outcome) && Unfinished(Run(Start, acts[..i]), id)
    ensures var c := Run(Start, acts[..i]).calls[id];
            match outcome
            case SendFailed => c.phase == Writing
            case TimedOut => c.phase == Awaiting
            case Cancelled => true
            case Lost => c.phase == Awaiting && c.answer == Broken
            case Got(r) => c.phase == Awaiting && c.answer == Answered(r)
  {
    hide Inv;
    var n := |acts| - 1;
    var s := Run(Start, acts[..n]);
    if Unfinished(s, id) {
      i := n;
      EndsExactly(s, acts[n], id);
    } else {
      i := OutcomeBecause(acts[..n], id, outcome);
      assert acts[..n][..i] == acts[..i];
    }
  }

  /** Exactly one outcome: whatever arrives later, a finished call keeps it. */
  lemma {:induction false} OutcomeIsFinal(acts: seq<Act>, later: seq<Act>, id: string, outcome: Outcome)
    requires id in Run(Start, acts).calls
    requires Run(Start, acts).calls[id].phase == Finished(outcome)
    ensures id in Run(Start, acts + later).calls
    ensures Run(Start, acts + later).calls[id].phase == Finished(outcome)
  {
    if later == [] {
      assert acts + later == acts;
    } else {
      OutcomeIsFinal(acts, later[..|later| - 1], id, outcome);
      assert (acts + later)[..|acts + later| - 1] == acts + later[..|later| - 1];
    }
  }

  /** The first act that settles the future of `id`. */
  function FirstSettling(acts: seq<Act>, id: string): Answer {
    if acts == [] then Unset
    else if acts[0].DropAll? then Broken
    else if acts[0].Arrives? && acts[0].response.id == id then Answered(acts[0].response)
    else FirstSettling(acts[1..], id)
  }

  lemma {:induction false} FirstSettlingAppend(acts: seq<Act>, a: Act, id: string)
    ensures FirstSettling(acts + [a], id) == Settle(FirstSettling(acts, id), FirstSettling([a], id))
  {
    if acts == [] {
      assert acts + [a] == [a];
    } else {
      assert (acts + [a])[1..] == acts[1..] + [a];
      FirstSettlingAppend(acts[1..], a, id);
    }
  }

  /** What the call has seen, given the first act that settles its future. */
  predicate Reflects(s: State, id: string, first: Answer) {
    && id in s.calls
    && var c := s.calls[id];
    match c.phase
    case Finished(Got(r)) => first == Answered(r) && r.id == id
    case Finished(Lost) => first == Broken
    case Finished(_) => true
    case _ => c.answer == first
  }

  lemma ReflectsStep(s: State, a: Act, id: string, first: Answer)
    requires Inv(s) && Reflects(s, id, first)
    ensures Reflects(Step(s, a), id, Settle(first, FirstSettling([a], id)))
  {
  }

  /**
   * The first answer to a call's own id, or the first loss of the connection,
   * whichever came first after the call began, is what the call gets: late,
   * duplicate and foreign answers never change it.
   */
  lemma {:induction false} FirstAnswerWins(before: seq<Act>, after: seq<Act>, id: string)
    requires Begin(id) !in before
    ensures Reflects(Run(Start, before + [Begin(id)] + after), id, FirstSettling(after, id))
  {
    var acts := before + [Begin(id)] + after;
    if after == [] {
      assert acts[..|acts| - 1] == before;
      BegunExactly(before, id);
    } else {
      hide Step;
      hide Inv;
      hide Reflects;
      hide FirstSettling;
      var most := after[..|after| - 1];
      assert acts[..|acts| - 1] == before + [Begin(id)] + most;
      assert after == most + [after[|after| - 1]];
      FirstAnswerWins(before, most, id);
      FirstSettlingAppend(most, after[|after| - 1], id);
      CallInv(before + [Begin(id)] + most);
      ReflectsStep(Run(Start, before + [Begin(id)] + most), after[|after| - 1], id, FirstSettling(most, id));
    }
  }

  lemma {:induction false} BegunExactly(acts: seq<Act>, id: string)
    ensures id in Run(Start, acts).calls <==> Begin(id) in acts
  {
    if acts != [] {
      var n := |acts| - 1;
      BegunExactly(acts[..n], id);
      assert acts == acts[..n] + [acts[n]];
    }
  }

  /** The connection was dropped at some point after the call `id` began. */
  ghost predicate DroppedSinceBegin(acts: seq<Act>, id: string) {
    exists i, j :: 0 <= i < j < |acts| && acts[i] == Begin(id) && acts[j] == DropAll
  }

  /**
   * The pending table holds exactly the calls that began, have not finished and
   * have seen no loss of the connection since.
   */
  lemma {:induction false} PendingExactly(acts: seq<Act>, id: string)
    ensures id in Run(Start, acts).pending
        <==> Unfinished(Run(Start, acts), id) && !DroppedSinceBegin(acts, id)
  {
    if acts != [] {
      var n := |acts| - 1;
      var most, s := acts[..n], Run(Start, acts[..n]);
      PendingExactly(most, id);
      BegunExactly(most, id);
      CallInv(most);
      DroppedStep(most, acts[n], id);
      assert acts == most + [acts[n]];
    }
  }

  lemma DroppedStep(acts: seq<Act>, a: Act, id: string)
    ensures DroppedSinceBegin(acts + [a], id)
        <==> DroppedSinceBegin(acts, id) || (a.DropAll? && Begin(id) in acts)
  {
    var all := acts + [a];
    if DroppedSinceBegin(acts, id) {
      var i, j :| 0 <= i < j < |acts| && acts[i] == Begin(id) && acts[j] == DropAll;
      assert all[i] == Begin(id) && all[j] == DropAll;
    }
    if a.DropAll? && Begin(id) in acts {
      var i :| 0 <= i < |acts| && acts[i] == Begin(id);
      assert all[i] == Begin(id) && all[|acts|] == DropAll;
    }
    if DroppedSinceBegin(all, id) {
      var i, j :| 0 <= i < j < |all| && all[i] == Begin(id) && all[j] == DropAll;
      assert acts[i] == Begin(id);
      if j < |acts| { assert acts[j] == DropAll; }
    }
  }
}
