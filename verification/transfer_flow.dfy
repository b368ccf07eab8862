/** Flow control of one large-file transfer: the pieces of TransferContext as functions, and
    the producing and consuming hops as interleaved steps.

    The hub bridges two HTTP hops with one queue. The producing hop is parked when a window of
    bytes is queued and is woken once half of it has drained; the end of the stream bypasses
    the window; cancelling refuses everything that is still offered. */
module TransferFlow {
  type Chunk = seq<bv8>

  /** Bytes queued at which a producer is parked (_WINDOW_BYTES), and the backlog at which it
      is woken (_RESUME_BYTES). */
  const WINDOW: nat := 8 * 1024 * 1024
  const RESUME: nat := WINDOW / 2

  datatype Item = Data(bytes: Chunk) | Eof

  /** Bytes held in a queue. */
  function Size(queue: seq<Item>): nat {
    if queue == [] then 0
    else (if queue[0].Data? then |queue[0].bytes| else 0) + Size(queue[1..])
  }

  /** The bytes held in a queue, in order. */
  function Content(queue: seq<Item>): Chunk {
    if queue == [] then []
    else (if queue[0].Data? then queue[0].bytes else []) + Content(queue[1..])
  }

  lemma {:induction false} SizeContentAppend(a: seq<Item>, b: seq<Item>)
    ensures Size(a + b) == Size(a) + Size(b)
    ensures Content(a + b) == Content(a) + Content(b)
  {
    if a == [] {
      assert a + b == b;
    } else {
      assert (a + b)[1..] == a[1..] + b;
      SizeContentAppend(a[1..], b);
    }
  }

  lemma SizeContentOne(x: Item)
    ensures Size([x]) == (if x.Data? then |x.bytes| else 0)
    ensures Content([x]) == (if x.Data? then x.bytes else [])
  {
    assert [x][1..] == [];
    assert Size([]) == 0 && Content([]) == [];
  }

  // ---- TransferContext -------------------------------------------------------------------

  /** `parked` is whether _resume is set: a future that the next wakeup resolves. */
  datatype Context = Context(queue: seq<Item>, queued: int, parked: bool, cancel: bool)

  /** What put does up to its first wait. */
  datatype PutNow = Refused | Accepted | MustWait

  function Append(c: Context, item: Item): Context {
    c.(queue := c.queue + [item], queued := c.queued + if item.Data? then |item.bytes| else 0)
  }

  function PutBegin(c: Context, item: Item): (Context, PutNow) {
    if c.cancel then (c, Refused)
    else if item.Data? && c.queued >= WINDOW then (c.(parked := true), MustWait)
    else (Append(c, item), Accepted)
  }

  /** The rest of a put that had to wait. `released` is whether its future was resolved. */
  function PutWake(c: Context, item: Item, released: bool): (Context, bool) {
    if !released || c.cancel then (c, false) else (Append(c, item), true)
  }

  /** _maybe_resume; the second component is whether the future was resolved. */
  function MaybeResume(c: Context): (Context, bool) {
    if c.parked && (c.queued <= RESUME || c.cancel) then (c.(parked := false), true) else (c, false)
  }

  function Get(c: Context): (Context, Item, bool)
    requires c.queue != []
  {
    var item := c.queue[0];
    var (after, released) := MaybeResume(
      c.(queue := c.queue[1..], queued := c.queued - if item.Data? then |item.bytes| else 0));
    (after, item, released)
  }

  // ---- The two hops ----------------------------------------------------------------------

  datatype Direction = Download | Upload

  /** The producing hop: reading its stream, waiting inside put, or past its final put. */
  datatype Producer = Streaming | Waiting(bytes: Chunk, released: bool) | Ended

  /** The consuming hop; `normal` is an end of stream read without a cancel. */
  datatype Consumer = Running | Done(normal: bool)

  /** The ghosts `accepted`, `taken` and `delivered` are the bytes put has queued, the bytes
      get has handed out, and the bytes the consuming hop has sent on. */
  datatype Bridge = Bridge(
    direction: Direction,
    ctx: Context,
    producer: Producer,
    consumer: Consumer,
    sent: nat,
    accepted: Chunk,
    taken: Chunk,
    delivered: Chunk)

  datatype Act =
    | Offer(bytes: Chunk)     // the producing hop read a chunk from its socket
    | Wake                    // its wait is over
    | StreamEnds              // end of its socket, or an error reading it: the final put
    | Abort                   // its task is cancelled: the final put
    | Take                    // the consuming hop gets an item
    | ConsumerCancelled       // a download's browser went away while the hop waited for a chunk
    | ConsumerGone            // the other end went away while the hop was not waiting: it is just closed
    | CancelRequest           // POST /transfers/{tid}/cancel
    | CommandFailed           // an upload whose agent command timed out or lost its connection

  function Start(direction: Direction): Bridge {
    Bridge(direction, Context([], 0, false, false), Streaming, Running, 0, [], [], [])
  }

  /** Both hops end with put(None). */
  function FinalPut(s: Bridge): Bridge {
    s.(ctx := PutBegin(s.ctx, Eof).0, producer := Ended)
  }

  function Accept(s: Bridge, ctx: Context, bytes: Chunk): Bridge {
    s.(ctx := ctx, producer := Streaming, accepted := s.accepted + bytes,
       sent := if s.direction.Upload? then s.sent + |bytes| else s.sent)
  }

  function TakeStep(s: Bridge): Bridge
    requires s.ctx.queue != []
  {
    var (ctx, item, released) := Get(s.ctx);
    var woken := s.(ctx := ctx,
                    producer := if released && s.producer.Waiting? then s.producer.(released := true) else s.producer);
    if item.Eof? then woken.(consumer := Done(!s.ctx.cancel))
    else
      var got := woken.(taken := s.taken + item.bytes);
      if s.direction.Upload? && s.ctx.cancel then got.(consumer := Done(false))
      else got.(delivered := s.delivered + item.bytes,
                sent := if s.direction.Download? then s.sent + |item.bytes| else s.sent)
  }

  /** One stretch between two awaits; a step that is not enabled changes nothing. */
  function Step(s: Bridge, a: Act): Bridge {
    match a
    case Offer(bytes) =>
      if !s.producer.Streaming? then s
      else
        var (ctx, now) := PutBegin(s.ctx, Data(bytes));
        (match now
         case Refused => FinalPut(s)
         case Accepted => Accept(s, ctx, bytes)
         case MustWait => s.(ctx := ctx, producer := Waiting(bytes, false)))
    case Wake =>
      if !s.producer.Waiting? || !(s.producer.released || s.ctx.cancel) then s
      else
        var (ctx, ok) := PutWake(s.ctx, Data(s.producer.bytes), s.producer.released);
        if ok then Accept(s, ctx, s.producer.bytes) else FinalPut(s)
    case StreamEnds => if s.producer.Streaming? then FinalPut(s) else s
    case Abort => if s.producer.Ended? then s else FinalPut(s)
    case Take => if s.consumer.Running? && s.ctx.queue != [] then TakeStep(s) else s
    case ConsumerCancelled =>
      if s.consumer.Running? && s.direction.Download? then
        s.(ctx := s.ctx.(cancel := true), consumer := Done(false))
      else s
    case ConsumerGone =>
      if s.consumer.Running? then s.(consumer := Done(false)) else s
    case CancelRequest => s.(ctx := Append(s.ctx.(cancel := true), Eof))
    case CommandFailed => if s.direction.Upload? then s.(ctx := s.ctx.(cancel := true)) else s
  }

  function Run(s: Bridge, acts: seq<Act>): Bridge
    decreases |acts|
  {
    if acts == [] then s else Run(Step(s, acts[0]), acts[1..])
  }

  // ---- The invariant ---------------------------------------------------------------------

  ghost predicate OnlyData(queue: seq<Item>) {
    forall i :: 0 <= i < |queue| ==> queue[i].Data?
  }

  /** `a` is a prefix of `b`. */
  ghost predicate Prefix(a: Chunk, b: Chunk) {
    |a| <= |b| && a == b[..|a|]
  }

  /** Bytes are neither lost, duplicated nor reordered. */
  ghost predicate Conserved(s: Bridge) {
    && s.ctx.queued == Size(s.ctx.queue)
    && s.accepted == s.taken + Content(s.ctx.queue)
    && Prefix(s.delivered, s.taken)
    && (s.direction.Download? || !s.ctx.cancel ==> s.delivered == s.taken)
    && s.sent == if s.direction.Download? then |s.delivered| else |s.accepted|
  }

  /** No chunk is larger than `largest`. */
  ghost predicate WithinWindow(s: Bridge, largest: nat) {
    && s.ctx.queued <= WINDOW - 1 + largest
    && (s.producer.Waiting? ==> |s.producer.bytes| <= largest)
  }

  /** A wakeup is pending exactly as long as the backlog is above the mark. */
  ghost predicate WakeupKept(s: Bridge) {
    && (s.ctx.parked ==> s.ctx.queued > RESUME)
    && (s.producer.Waiting? && !s.producer.released ==> s.ctx.parked)
    && (s.producer.Waiting? && s.producer.released ==> s.ctx.queued <= RESUME || s.ctx.cancel)
  }

  /** Without a cancel, the end of the stream is queued once, last, by a finished producer. */
  ghost predicate EofLast(s: Bridge) {
    var q := s.ctx.queue;
    && (!s.ctx.cancel ==>
          && (!s.producer.Ended? ==> OnlyData(q) && s.consumer != Done(true))
          && (q != [] ==> OnlyData(q[..|q| - 1])))
    && (s.consumer == Done(true) ==> s.producer.Ended? && s.delivered == s.accepted)
  }

  ghost predicate Inv(s: Bridge, largest: nat) {
    Conserved(s) && WithinWindow(s, largest) && WakeupKept(s) && EofLast(s)
  }

  predicate ChunksUpTo(acts: seq<Act>, largest: nat) {
    forall i :: 0 <= i < |acts| && acts[i].Offer? ==> |acts[i].bytes| <= largest
  }

  lemma StartInv(direction: Direction, largest: nat)
    ensures Inv(Start(direction), largest)
  {
  }

  lemma AppendFacts(c: Context, item: Item)
    ensures Size(Append(c, item).queue) == Size(c.queue) + (if item.Data? then |item.bytes| else 0)
    ensures Content(Append(c, item).queue) == Content(c.queue) + (if item.Data? then item.bytes else [])
  {
    SizeContentAppend(c.queue, [item]);
    SizeContentOne(item);
  }

  lemma AcceptInv(s: Bridge, bytes: Chunk, largest: nat)
    requires Inv(s, largest) && !s.producer.Ended? && !s.ctx.cancel && |bytes| <= largest && s.ctx.queued < WINDOW
    requires s.producer.Waiting? ==> s.producer.released
    ensures Inv(Accept(s, Append(s.ctx, Data(bytes)), bytes), largest)
  {
    AppendFacts(s.ctx, Data(bytes));
    var q := s.ctx.queue;
    assert (q + [Data(bytes)])[..|q|] == q;
    assert (s.taken + Content(q)) + bytes == s.taken + (Content(q) + bytes);
  }

  lemma FinalPutInv(s: Bridge, largest: nat)
    requires Inv(s, largest) && !s.producer.Ended?
    ensures Inv(FinalPut(s), largest)
  {
    AppendFacts(s.ctx, Eof);
    var q := s.ctx.queue;
    assert (q + [Eof])[..|q|] == q;
    assert Content(q) + [] == Content(q);
  }

  lemma CancelInv(s: Bridge, largest: nat)
    requires Inv(s, largest)
    ensures Inv(s.(ctx := Append(s.ctx.(cancel := true), Eof)), largest)
  {
    AppendFacts(s.ctx.(cancel := true), Eof);
    assert Content(s.ctx.queue) + [] == Content(s.ctx.queue);
  }

  lemma DataBeforeLast(q: seq<Item>)
    requires |q| > 1 && OnlyData(q[..|q| - 1])
    ensures q[0].Data?
  {
    assert q[..|q| - 1][0] == q[0];
  }

  lemma HeadFacts(q: seq<Item>)
    requires q != []
    ensures Size(q) == (if q[0].Data? then |q[0].bytes| else 0) + Size(q[1..])
    ensures Content(q) == (if q[0].Data? then q[0].bytes else []) + Content(q[1..])
    ensures |q| == 1 ==> Size(q[1..]) == 0 && Content(q[1..]) == []
  {
  }

  lemma TakeConserved(s: Bridge)
    requires Conserved(s) && s.consumer.Running? && s.ctx.queue != []
    ensures Conserved(TakeStep(s))
  {
    hide Size; hide Content;
    var q := s.ctx.queue;
    HeadFacts(q);
    if q[0].Data? {
      assert s.taken + (q[0].bytes + Content(q[1..])) == (s.taken + q[0].bytes) + Content(q[1..]);
    } else {
      assert [] + Content(q[1..]) == Content(q[1..]);
    }
  }

  lemma TakeEofLast(s: Bridge)
    requires Conserved(s) && EofLast(s) && s.consumer.Running? && s.ctx.queue != []
    ensures EofLast(TakeStep(s))
  {
    hide Size; hide Content;
    var q := s.ctx.queue;
    HeadFacts(q);
    if |q| > 1 {
      assert q[1..][..|q[1..]| - 1] == q[..|q| - 1][1..];
      if q[0].Eof? && !s.ctx.cancel { DataBeforeLast(q); }
    } else {
      assert q[1..] == [] && s.taken + [] == s.taken;
    }
  }

  lemma TakeInv(s: Bridge, largest: nat)
    requires Inv(s, largest) && s.consumer.Running? && s.ctx.queue != []
    ensures Inv(TakeStep(s), largest)
  {
    TakeConserved(s);
    TakeEofLast(s);
    hide Size; hide Content; hide Conserved; hide EofLast;
  }

  lemma StepInv(s: Bridge, a: Act, largest: nat)
    requires Inv(s, largest) && (a.Offer? ==> |a.bytes| <= largest)
    ensures Inv(Step(s, a), largest)
  {
    match a
    case Offer(bytes) =>
      if s.producer.Streaming? {
        if s.ctx.cancel { FinalPutInv(s, largest); }
        else if s.ctx.queued < WINDOW { AcceptInv(s, bytes, largest); }
      }
    case Wake =>
      if s.producer.Waiting? && (s.producer.released || s.ctx.cancel) {
        if s.producer.released && !s.ctx.cancel { AcceptInv(s, s.producer.bytes, largest); }
        else { FinalPutInv(s, largest); }
      }
    case StreamEnds => if s.producer.Streaming? { FinalPutInv(s, largest); }
    case Abort => if !s.producer.Ended? { FinalPutInv(s, largest); }
    case Take => if s.consumer.Running? && s.ctx.queue != [] { TakeInv(s, largest); }
    case CancelRequest => CancelInv(s, largest);
    case _ =>
  }

  lemma {:induction false} RunInv(s: Bridge, acts: seq<Act>, largest: nat)
    requires Inv(s, largest) && ChunksUpTo(acts, largest)
    ensures Inv(Run(s, acts), largest)
    decreases |acts|
  {
    hide Inv;
    if acts != [] {
      StepInv(s, acts[0], largest);
      RunInv(Step(s, acts[0]), acts[1..], largest);
    }
  }

  // ---- What a transfer guarantees --------------------------------------------------------

  /** In every reachable state, through parking, waking, the end of the stream and cancelling:
      the counter is the queued bytes and stays under the window plus one chunk; what the
      consuming hop sent on is a prefix, in order, of what the producing hop got accepted; and
      a stream that ended without a cancel delivered all of it. */
  lemma TransferGuarantees(direction: Direction, acts: seq<Act>, largest: nat)
    requires ChunksUpTo(acts, largest)
    ensures var s := Run(Start(direction), acts);
            && s.ctx.queued == Size(s.ctx.queue) <= WINDOW - 1 + largest
            && Prefix(s.delivered, s.accepted)
            && (s.consumer == Done(true) ==> s.delivered == s.accepted)
            && (direction.Download? ==> s.sent == |s.delivered|)
            && (direction.Upload? ==> s.sent == |s.accepted|)
  {
    StartInv(direction, largest);
    RunInv(Start(direction), acts, largest);
    RunDirection(Start(direction), acts);
    var s := Run(Start(direction), acts);
    assert s.accepted[..|s.delivered|] == s.taken[..|s.delivered|];
  }

  lemma {:induction false} RunDirection(s: Bridge, acts: seq<Act>)
    ensures Run(s, acts).direction == s.direction
    decreases |acts|
  {
    if acts != [] { RunDirection(Step(s, acts[0]), acts[1..]); }
  }

  function Takes(k: nat): seq<Act> {
    if k == 0 then [] else [Take] + Takes(k - 1)
  }

  lemma {:induction false} SizeSuffix(queue: seq<Item>, k: nat)
    requires k <= |queue|
    ensures Size(queue[k..]) <= Size(queue)
  {
    assert queue == queue[..k] + queue[k..];
    SizeContentAppend(queue[..k], queue[k..]);
  }

  /** No lost wakeup. A producer that is waiting, unreleased and uncancelled, is released by
      exactly the get that brings the backlog down to the mark: after k gets it is released if
      and only if the rest of the queue fits. */
  lemma {:induction false} ReleasedExactly(s: Bridge, k: nat, largest: nat)
    requires Inv(s, largest) && s.producer.Waiting? && !s.ctx.cancel && s.consumer.Running?
    requires k <= |s.ctx.queue|
    ensures var r := Run(s, Takes(k));
            && r.ctx.queue == s.ctx.queue[k..] && !r.ctx.cancel && r.consumer.Running?
            && r.producer == Waiting(s.producer.bytes, s.producer.released || Size(s.ctx.queue[k..]) <= RESUME)
    decreases k
  {
    if k == 0 {
      assert s.ctx.queue[0..] == s.ctx.queue;
    } else {
      var q := s.ctx.queue;
      assert q[0].Data?;
      TakeInv(s, largest);
      var next := Step(s, Take);
      assert next.ctx.queue == q[1..] && q[1..][k - 1..] == q[k..];
      SizeSuffix(q[1..], k - 1);
      ReleasedExactly(next, k - 1, largest);
      assert ([Take] + Takes(k - 1))[1..] == Takes(k - 1);
    }
  }

  /** A waiting, uncancelled producer always faces queued data, and as many gets as there are
      queued items release it. */
  lemma WaitingIsReleased(s: Bridge, largest: nat)
    requires Inv(s, largest) && s.producer.Waiting? && !s.producer.released && !s.ctx.cancel && s.consumer.Running?
    ensures s.ctx.queue != []
    ensures Run(s, Takes(|s.ctx.queue|)).producer == Waiting(s.producer.bytes, true)
  {
    ReleasedExactly(s, |s.ctx.queue|, largest);
    assert s.ctx.queue[|s.ctx.queue|..] == [];
  }

  lemma StepCancelled(s: Bridge, a: Act)
    requires s.ctx.cancel
    ensures var r := Step(s, a);
            r.ctx.cancel && r.accepted == s.accepted && Size(r.ctx.queue) <= Size(s.ctx.queue)
  {
    if a.CancelRequest? {
      AppendFacts(s.ctx.(cancel := true), Eof);
    }
  }

  /** After a cancel nothing more is accepted, ever; and a producer still waiting can leave at
      once. */
  lemma {:induction false} NothingAcceptedAfterCancel(s: Bridge, acts: seq<Act>)
    requires s.ctx.cancel
    ensures Run(s, acts).ctx.cancel && Run(s, acts).accepted == s.accepted
    ensures Size(Run(s, acts).ctx.queue) <= Size(s.ctx.queue)
    ensures Step(s, Wake).producer == if s.producer.Waiting? then Ended else s.producer
    decreases |acts|
  {
    if acts != [] {
      StepCancelled(s, acts[0]);
      NothingAcceptedAfterCancel(Step(s, acts[0]), acts[1..]);
    }
  }

  predicate LeftAlone(acts: seq<Act>) {
    forall i :: 0 <= i < |acts| ==> !acts[i].CancelRequest? && !acts[i].ConsumerGone?
  }

  lemma {:induction false} EmptyStaysEmpty(s: Bridge, acts: seq<Act>)
    requires s.direction.Upload? && s.ctx.cancel && s.ctx.queue == [] && LeftAlone(acts)
    ensures Run(s, acts).consumer == s.consumer
    decreases |acts|
  {
    if acts != [] { EmptyStaysEmpty(Step(s, acts[0]), acts[1..]); }
  }

  /** An upload whose agent command failed is cancelled without an end of stream being queued.
      Whether its consuming hop still ends by itself is decided by the queue at that moment:
      any queued item ends it, and with none it waits for ever unless it is cancelled again or
      its agent goes away. */
  lemma FailedUploadConsumer(s: Bridge)
    requires s.direction.Upload? && s.ctx.cancel && s.consumer.Running?
    ensures (exists acts :: LeftAlone(acts) && Run(s, acts).consumer.Done?) <==> s.ctx.queue != []
  {
    if s.ctx.queue != [] {
      assert [Take][1..] == [];
      assert Run(Step(s, Take), []) == Step(s, Take);
      assert LeftAlone([Take]) && Run(s, [Take]).consumer.Done?;
    } else {
      forall acts | LeftAlone(acts) ensures Run(s, acts).consumer.Running? {
        EmptyStaysEmpty(s, acts);
      }
    }
  }

  // ---- A producer whose consumer is gone -------------------------------------------------

  /** Nobody cancels the transfer, fails its command or aborts its producer. */
  predicate NoRescue(acts: seq<Act>) {
    forall i :: 0 <= i < |acts| ==>
      !acts[i].CancelRequest? && !acts[i].CommandFailed? && !acts[i].Abort? && !acts[i].ConsumerCancelled?
  }

  lemma StepParked(s: Bridge, a: Act)
    requires s.producer.Waiting? && !s.producer.released && !s.ctx.cancel && s.consumer.Done?
    requires !a.CancelRequest? && !a.CommandFailed? && !a.Abort? && !a.ConsumerCancelled?
    ensures Step(s, a) == s
  {
  }

  lemma {:induction false} ParkedForEver(s: Bridge, acts: seq<Act>)
    requires s.producer.Waiting? && !s.producer.released && !s.ctx.cancel && s.consumer.Done?
    requires NoRescue(acts)
    ensures Run(s, acts) == s
    decreases |acts|
  {
    hide Step;
    if acts != [] {
      StepParked(s, acts[0]);
      ParkedForEver(s, acts[1..]);
    }
  }

  lemma {:induction false} TakesThenWake(s: Bridge, k: nat)
    requires Run(s, Takes(k)).producer.Waiting? && Run(s, Takes(k)).producer.released
    ensures !Run(s, Takes(k) + [Wake]).producer.Waiting?
    decreases k
  {
    if k == 0 {
      assert Takes(0) + [Wake] == [Wake] && [Wake][1..] == [];
    } else {
      assert (Takes(k) + [Wake])[1..] == Takes(k - 1) + [Wake] && Takes(k)[1..] == Takes(k - 1);
      TakesThenWake(Step(s, Take), k - 1);
    }
  }

  lemma {:induction false} TakesAreNoRescue(k: nat)
    ensures NoRescue(Takes(k)) && NoRescue(Takes(k) + [Wake])
  {
    if k > 0 { TakesAreNoRescue(k - 1); }
  }

  /** A parked producer can go on by itself, without a cancel, a failed command or an abort, exactly
      if it was released or cancelled already or somebody still reads: once the consuming hop has
      been closed without a cancel, the producer waits for good. */
  lemma ParkedLeavesExactly(s: Bridge, largest: nat)
    requires Inv(s, largest) && s.producer.Waiting?
    ensures (exists acts :: NoRescue(acts) && !Run(s, acts).producer.Waiting?)
        <==> s.producer.released || s.ctx.cancel || s.consumer.Running?
  {
    hide Inv;
    if s.producer.released || s.ctx.cancel {
      assert Takes(0) + [Wake] == [Wake] && [Wake][1..] == [];
      assert Run(s, [Wake]) == Run(Step(s, Wake), []);
      TakesAreNoRescue(0);
      assert NoRescue([Wake]) && !Run(s, [Wake]).producer.Waiting?;
    } else if s.consumer.Running? {
      var k := |s.ctx.queue|;
      WaitingIsReleased(s, largest);
      TakesThenWake(s, k);
      TakesAreNoRescue(k);
      assert NoRescue(Takes(k) + [Wake]);
    } else {
      forall acts | NoRescue(acts) ensures Run(s, acts).producer.Waiting? {
        ParkedForEver(s, acts);
      }
    }
  }

  /** Such a state comes about: a whole window is queued, one more chunk is offered, and then the other
      end goes away while nobody waits for a chunk. */
  lemma ParkedComesAbout(direction: Direction, window: Chunk, more: Chunk)
    requires |window| >= WINDOW
    ensures var s := Run(Start(direction), [Offer(window), Offer(more), ConsumerGone]);
            s.producer == Waiting(more, false) && !s.ctx.cancel && s.consumer == Done(false)
  {
    var s1 := Step(Start(direction), Offer(window));
    assert s1.ctx == Context([Data(window)], |window|, false, false) && s1.producer.Streaming?;
    var s2 := Step(s1, Offer(more));
    var s3 := Step(s2, ConsumerGone);
    hide Step;
    assert [Offer(window), Offer(more), ConsumerGone][1..] == [Offer(more), ConsumerGone];
    assert [Offer(more), ConsumerGone][1..] == [ConsumerGone] && [ConsumerGone][1..] == [];
    assert Run(s2, [ConsumerGone]) == Run(s3, []);
    assert Run(s1, [Offer(more), ConsumerGone]) == Run(s2, [ConsumerGone]);
  }

  /** And so does an upload whose command fails with nothing queued: its consuming hop waits for good. */
  lemma StrandedComesAbout()
    ensures var s := Run(Start(Upload), [CommandFailed]);
            s.ctx.cancel && s.ctx.queue == [] && s.consumer.Running?
  {
    assert [CommandFailed][1..] == [];
    assert Run(Start(Upload), [CommandFailed]) == Run(Step(Start(Upload), CommandFailed), []);
  }
}
