/** How transfers end: the end marker is never held back, a stream that ends without a cancel is
    delivered whole, and a cancel ends both hops. */
module TransferEndings {
  import opened TransferFlow

  /** What put decides, and what it leaves behind: only data waits, and only behind a full window;
      the end marker is queued at once unless the transfer was cancelled. */
  lemma PutExactly(c: Context, item: Item)
    ensures var (after, now) := PutBegin(c, item);
            && (now == Refused <==> c.cancel)
            && (now == MustWait <==> !c.cancel && item.Data? && c.queued >= 8 * 1024 * 1024)
            && after.cancel == c.cancel
            && after.queue == (if now == Accepted then c.queue + [item] else c.queue)
            && after.queued == c.queued + (if now == Accepted && item.Data? then |item.bytes| else 0)
            && (after.parked <==> c.parked || now == MustWait)
  {
  }

  /** What get does: the first item is handed out and its bytes leave the window, and the producer's
      future is resolved and dropped exactly when the backlog is then at the mark or below, or the
      transfer is cancelled. */
  lemma GetExactly(c: Context)
    requires c.queue != []
    ensures var (after, item, released) := Get(c);
            && [item] + after.queue == c.queue && after.cancel == c.cancel
            && after.queued == c.queued - (if item.Data? then |item.bytes| else 0)
            && (released <==> c.parked && (c.cancel || after.queued <= 4 * 1024 * 1024))
            && (after.parked <==> c.parked && !released)
  {
  }

  // ---- The end of a stream ---------------------------------------------------------------

  /** Once the stream has ended, its end marker is the last thing queued until it is read. */
  ghost predicate EndQueued(s: Bridge) {
    s.producer.Ended? && !s.ctx.cancel && s.consumer.Running? ==>
      s.ctx.queue != [] && s.ctx.queue[|s.ctx.queue| - 1].Eof?
  }

  lemma StepEndQueued(s: Bridge, a: Act, largest: nat)
    requires Inv(s, largest) && EndQueued(s)
    ensures EndQueued(Step(s, a))
  {
    hide Conserved; hide WithinWindow; hide WakeupKept;
  }

  lemma {:induction false} RunEndQueued(s: Bridge, acts: seq<Act>, largest: nat)
    requires Inv(s, largest) && EndQueued(s) && ChunksUpTo(acts, largest)
    ensures Inv(Run(s, acts), largest) && EndQueued(Run(s, acts))
    decreases |acts|
  {
    hide Inv; hide EndQueued; hide Step;
    if acts != [] {
      StepInv(s, acts[0], largest);
      StepEndQueued(s, acts[0], largest);
      RunEndQueued(Step(s, acts[0]), acts[1..], largest);
    }
  }

  ghost predicate EndsWithMarker(queue: seq<Item>) {
    queue != [] && queue[|queue| - 1].Eof? && OnlyData(queue[..|queue| - 1])
  }

  /** Reading on to the marker delivers everything that was accepted and ends normally. */
  lemma {:induction false} TakesFinish(s: Bridge, largest: nat)
    requires Inv(s, largest) && !s.ctx.cancel && s.consumer.Running? && EndsWithMarker(s.ctx.queue)
    ensures var t := Run(s, Takes(|s.ctx.queue|));
            t.consumer == Done(true) && t.delivered == t.accepted == s.accepted
    decreases |s.ctx.queue|
  {
    var q := s.ctx.queue;
    var next := Step(s, Take);
    TakeInv(s, largest);
    assert next.ctx.queue == q[1..] && next.accepted == s.accepted;
    assert ([Take] + Takes(|q| - 1))[1..] == Takes(|q| - 1);
    if |q| == 1 {
      assert next.consumer == Done(true);
      assert Takes(0) == [];
    } else {
      assert q[..|q| - 1][0] == q[0] && q[1..][..|q| - 2] == q[..|q| - 1][1..];
      TakesFinish(next, largest);
    }
  }

  lemma {:induction false} RunAppend(s: Bridge, a: seq<Act>, b: seq<Act>)
    ensures Run(s, a + b) == Run(Run(s, a), b)
    decreases |a|
  {
    hide Step;
    if a == [] {
      assert a + b == b;
    } else {
      assert (a + b)[1..] == a[1..] + b;
      RunAppend(Step(s, a[0]), a[1..], b);
    }
  }

  lemma RunOne(s: Bridge, a: Act)
    ensures Run(s, [a]) == Step(s, a)
  {
    assert [a][1..] == [];
  }

  /** How a transfer that nobody cancels goes on to its end from the producer's last chunk. */
  function Finish(s: Bridge): seq<Act> {
    match s.producer
    case Streaming => [StreamEnds] + Takes(|s.ctx.queue| + 1)
    case Waiting(_, _) => Takes(|s.ctx.queue|) + ([Wake] + ([StreamEnds] + Takes(2)))
    case Ended => Takes(|s.ctx.queue|)
  }

  lemma StreamingFinishes(s: Bridge, largest: nat)
    requires Inv(s, largest) && !s.ctx.cancel && s.consumer.Running? && s.producer.Streaming?
    ensures var t := Run(s, [StreamEnds] + Takes(|s.ctx.queue| + 1));
            t.consumer == Done(true) && t.delivered == t.accepted == s.accepted
  {
    var t := Step(s, StreamEnds);
    StepInv(s, StreamEnds, largest);
    assert t.ctx.queue == s.ctx.queue + [Eof] && t.ctx.queue[..|s.ctx.queue|] == s.ctx.queue;
    hide Inv; hide Step; hide Takes;
    TakesFinish(t, largest);
    assert ([StreamEnds] + Takes(|s.ctx.queue| + 1))[1..] == Takes(|s.ctx.queue| + 1);
  }

  lemma WaitingFinishes(s: Bridge, largest: nat)
    requires Inv(s, largest) && !s.ctx.cancel && s.consumer.Running? && s.producer.Waiting?
    ensures var t := Run(s, Finish(s));
            && t.consumer == Done(true) && t.delivered == t.accepted == s.accepted + s.producer.bytes
  {
    var n := |s.ctx.queue|;
    ReleasedExactly(s, n, largest);
    assert s.ctx.queue[n..] == [] && Size([]) == 0;
    var t := Run(s, Takes(n));
    TakesKeepInv(s, n, largest);
    var u := Step(t, Wake);
    StepInv(t, Wake, largest);
    assert t.accepted == s.accepted && t.producer == Waiting(s.producer.bytes, true);
    assert u.ctx.queue == [Data(s.producer.bytes)] && u.producer.Streaming?;
    assert u.accepted == s.accepted + s.producer.bytes;
    hide Inv; hide Step; hide Takes; hide Run;
    StreamingFinishes(u, largest);
    var end := [StreamEnds] + Takes(2);
    RunOne(t, Wake);
    RunAppend(t, [Wake], end);
    RunAppend(s, Takes(n), [Wake] + end);
  }

  lemma {:induction false} TakesKeepInv(s: Bridge, k: nat, largest: nat)
    requires Inv(s, largest)
    ensures Inv(Run(s, Takes(k)), largest) && Run(s, Takes(k)).accepted == s.accepted
    decreases k
  {
    hide Inv;
    if k > 0 {
      StepInv(s, Take, largest);
      assert ([Take] + Takes(k - 1))[1..] == Takes(k - 1);
      TakesKeepInv(Step(s, Take), k - 1, largest);
    }
  }

  /** The chunk a parked producer still has to get accepted. */
  function Held(s: Bridge): Chunk {
    if s.producer.Waiting? then s.producer.bytes else []
  }

  /** No transfer gets stuck. From every state that a run can reach without a cancel and with a
      consumer that still reads, the stream can end there, and reading on then delivers every byte
      accepted and the one chunk held back, and finishes normally. */
  lemma EveryStreamCanFinish(direction: Direction, acts: seq<Act>, largest: nat)
    requires ChunksUpTo(acts, largest)
    ensures var s := Run(Start(direction), acts);
            !s.ctx.cancel && s.consumer.Running? ==>
              var t := Run(s, Finish(s));
              t.consumer == Done(true) && t.delivered == t.accepted == s.accepted + Held(s)
  {
    var s := Run(Start(direction), acts);
    StartInv(direction, largest);
    RunEndQueued(Start(direction), acts, largest);
    if !s.ctx.cancel && s.consumer.Running? {
      assert s.accepted + [] == s.accepted;
      hide Run; hide Takes;
      match s.producer
      case Streaming => StreamingFinishes(s, largest);
      case Waiting(_, _) => WaitingFinishes(s, largest);
      case Ended => TakesFinish(s, largest);
    }
  }

  // ---- A cancel --------------------------------------------------------------------------

  /** What cancels a transfer, and that nothing takes it back. */
  lemma CancelsExactly(s: Bridge, a: Act)
    ensures Step(s, a).ctx.cancel <==>
              || s.ctx.cancel || a == CancelRequest
              || (a == ConsumerCancelled && s.direction == Download && s.consumer.Running?)
              || (a == CommandFailed && s.direction == Upload)
    ensures a == ConsumerCancelled && s.direction == Download ==> Step(s, a).consumer.Done?
    ensures a == ConsumerGone ==> Step(s, a).consumer.Done?
    ensures a == Abort || (a == StreamEnds && s.producer == Streaming) ==> Step(s, a).producer == Ended
  {
  }

  ghost predicate HoldsMarker(queue: seq<Item>) {
    exists i :: 0 <= i < |queue| && queue[i].Eof?
  }

  lemma {:induction false} TakesEnd(s: Bridge)
    requires HoldsMarker(s.ctx.queue)
    ensures Run(s, Takes(|s.ctx.queue|)).consumer.Done?
    decreases |s.ctx.queue|
  {
    var q := s.ctx.queue;
    var next := Step(s, Take);
    assert ([Take] + Takes(|q| - 1))[1..] == Takes(|q| - 1);
    if next.consumer.Done? {
      StaysDone(next, |q| - 1);
    } else {
      var i :| 0 <= i < |q| && q[i].Eof?;
      assert i > 0 && next.ctx.queue == q[1..] && q[1..][i - 1] == q[i];
      TakesEnd(next);
    }
  }

  lemma {:induction false} StaysDone(s: Bridge, k: nat)
    requires s.consumer.Done?
    ensures Run(s, Takes(k)) == s
    decreases k
  {
    if k > 0 {
      assert ([Take] + Takes(k - 1))[1..] == Takes(k - 1);
      StaysDone(s, k - 1);
    }
  }

  /** A cancel request ends the consuming hop within the gets that the queue and the marker take. */
  lemma CancelEndsConsumer(s: Bridge)
    ensures Run(s, [CancelRequest] + Takes(|s.ctx.queue| + 1)).consumer.Done?
  {
    hide Run; hide Takes;
    var t := Step(s, CancelRequest);
    assert t.ctx.queue == s.ctx.queue + [Eof] && t.ctx.queue[|s.ctx.queue|].Eof?;
    hide Step;
    TakesEnd(t);
    RunOne(s, CancelRequest);
    RunAppend(s, [CancelRequest], Takes(|s.ctx.queue| + 1));
  }

  /** And once cancelled the producing hop ends, as soon as it has a chunk to offer or its wait is over. */
  lemma CancelEndsProducer(s: Bridge, bytes: Chunk)
    requires s.ctx.cancel
    ensures Run(s, [Offer(bytes)] + [Wake]).producer == Ended
  {
    var t := Step(s, Offer(bytes));
    assert s.producer.Waiting? ==> t == s;
    assert Step(t, Wake).producer == Ended;
    hide Step;
    RunOne(s, Offer(bytes));
    RunOne(t, Wake);
    RunAppend(s, [Offer(bytes)], [Wake]);
  }

  lemma StepAfterCancel(s: Bridge, a: Act)
    requires s.ctx.cancel
    ensures var t := Step(s, a);
            && t.ctx.cancel && (t.consumer == Done(true) ==> s.consumer == Done(true))
            && t.direction == s.direction && (s.direction == Upload ==> t.delivered == s.delivered)
  {
  }

  /** After a cancel no transfer ends as complete any more, and an upload's agent is sent nothing
      more. */
  lemma {:induction false} NothingCompletesAfterCancel(s: Bridge, acts: seq<Act>)
    requires s.ctx.cancel && s.consumer != Done(true)
    ensures Run(s, acts).consumer != Done(true)
    ensures s.direction == Upload ==> Run(s, acts).delivered == s.delivered
    decreases |acts|
  {
    hide Step;
    if acts != [] {
      StepAfterCancel(s, acts[0]);
      NothingCompletesAfterCancel(Step(s, acts[0]), acts[1..]);
    }
  }
}
