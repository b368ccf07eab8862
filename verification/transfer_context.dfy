/** The transfer bookkeeping as the hub keeps it: a context object whose put, get and finish
    update its fields, with a future object for the parked producer, and the registry of live
    contexts. The methods are proved against the functions of TransferFlow. */
module TransferContexts {
  import opened Options
  import opened TransferFlow

  type Time = real

  /** asyncio.Future, as far as it matters here: resolved or not. */
  class Future {
    var done: bool
    constructor ()
      ensures !done
    {
      done := false;
    }
  }

  class TransferContext {
    const id: string
    const created: Time
    var queue: seq<Item>
    var queued: int
    var resume: Future?
    var cancel: bool
    var state: string
    var error: Option<string>
    var finishedAt: Option<Time>

    function Value(): Context
      reads this
    {
      Context(queue, queued, resume != null, cancel)
    }

    /** A future is dropped in the same stretch that resolves it. */
    predicate Valid()
      reads this, if resume == null then {} else {resume}
    {
      resume != null ==> !resume.done
    }

    constructor (id: string, now: Time)
      ensures Valid() && Value() == Context([], 0, false, false)
      ensures this.id == id && created == now && finishedAt == None && resume == null
    {
      this.id, created := id, now;
      queue, queued, resume, cancel := [], 0, null, false;
      state, error, finishedAt := "pending", None, None;
    }

    /** put, up to its first wait. A producer that must wait waits on the returned future. */
    method PutBegin(item: Item) returns (now: PutNow, waiter: Future?)
      requires Valid()
      modifies this`queue, this`queued, this`resume
      ensures Valid() && (Value(), now) == TransferFlow.PutBegin(old(Value()), item)
      ensures now.MustWait? <==> waiter != null
      ensures waiter != null ==> waiter == resume && !waiter.done
      ensures old(resume) != null ==> resume == old(resume)
    {
      if cancel { return Refused, null; }
      if item.Data? && queued >= WINDOW {
        if resume == null {
          resume := new Future();
        }
        return MustWait, resume;
      }
      if item.Data? {
        queued := queued + |item.bytes|;
      }
      queue := queue + [item];
      return Accepted, null;
    }

    /** The rest of a put that waited. */
    method PutWake(item: Item, waiter: Future) returns (ok: bool)
      requires Valid()
      modifies this`queue, this`queued
      ensures Valid() && (Value(), ok) == TransferFlow.PutWake(old(Value()), item, waiter.done)
    {
      if !waiter.done { return false; }
      if cancel { return false; }
      if item.Data? {
        queued := queued + |item.bytes|;
      }
      queue := queue + [item];
      return true;
    }

    method MaybeResume()
      requires Valid()
      modifies this`resume, if resume == null then {} else {resume}
      ensures Valid()
      ensures Value() == TransferFlow.MaybeResume(old(Value())).0
      ensures TransferFlow.MaybeResume(old(Value())).1 ==> resume == null && old(resume) != null && old(resume).done
      ensures !TransferFlow.MaybeResume(old(Value())).1 ==> resume == old(resume)
    {
      if resume != null && (queued <= RESUME || cancel) {
        if !resume.done {
          resume.done := true;
        }
        resume := null;
      }
    }

    /** get, once the queue has something. The future of a waiting producer is resolved exactly
        when the step says so. */
    method Get() returns (item: Item)
      requires Valid() && queue != []
      modifies this`queue, this`queued, this`resume, if resume == null then {} else {resume}
      ensures Valid() && (resume == null || resume == old(resume))
      ensures var (after, first, released) := TransferFlow.Get(old(Value()));
              && Value() == after && item == first
              && (old(resume) != null ==> old(resume).done == released)
    {
      item := queue[0];
      queue := queue[1..];
      if item.Data? {
        queued := queued - |item.bytes|;
      }
      MaybeResume();
    }

    /** One turn of a consuming hop: while it waits the producing hop queues `arrived`, and if there
        is anything then, the first of it is taken. */
    method WaitAndGet(arrived: seq<Item>) returns (got: Option<Item>)
      requires Valid()
      modifies this`queue, this`queued, this`resume, if resume == null then {} else {resume}
      ensures Valid() && (resume == null || resume == old(resume))
      ensures var all := old(queue) + arrived;
              && (got.None? <==> all == [])
              && (all != [] ==> got == Some(all[0]))
              && queue == if all == [] then [] else all[1..]
    {
      hide Size;
      queue, queued := queue + arrived, queued + Size(arrived);
      got := None;
      if queue != [] {
        var item := Get();
        got := Some(item);
      }
    }

    /** transfer_cancel, but for the end marker, which is queued with what else arrives. */
    method CancelRequest(now: Time)
      modifies this`cancel, this`state, this`error, this`finishedAt
      ensures cancel && state == "cancelled" && finishedAt.Some?
    {
      cancel := true;
      Finish("cancelled", None, now);
    }

    /** finish: the latest outcome is shown, the first finishing time is kept. */
    method Finish(state: string, error: Option<string>, now: Time)
      modifies this`state, this`error, this`finishedAt
      ensures this.state == state && this.error == error
      ensures finishedAt == if old(finishedAt).Some? then old(finishedAt) else Some(now)
    {
      this.state := state;
      this.error := error;
      if finishedAt.None? {
        finishedAt := Some(now);
      }
    }
  }

  lemma NoChunk()
    ensures OnlyData([]) && Content([]) == []
  {
  }

  lemma NextChunk(all: seq<Item>, k: nat)
    requires k < |all| && all[k].Data? && OnlyData(all[..k])
    ensures OnlyData(all[..k + 1]) && Content(all[..k + 1]) == Content(all[..k]) + all[k].bytes
  {
    SizeContentAppend(all[..k], [all[k]]);
    SizeContentOne(all[k]);
    assert all[..k + 1] == all[..k] + [all[k]];
  }

  /** What is queued during one turn: the producing hop's items and, on a cancel request, an end
      marker to wake the consumer. */
  datatype Turn = Turn(items: seq<Item>, cancelled: bool)

  function Queued(turn: Turn): seq<Item> {
    turn.items + if turn.cancelled then [Eof] else []
  }

  /** What arrives over all turns, in order. */
  function Arrived(turns: seq<Turn>): seq<Item> {
    if turns == [] then [] else Arrived(turns[..|turns| - 1]) + Queued(turns[|turns| - 1])
  }

  /** Everything queued arrives, and a cancel request leaves an end marker behind what came before it. */
  lemma {:induction false} CancelIsMarked(turns: seq<Turn>, n: nat)
    requires n < |turns|
    ensures Arrived(turns[..n]) + turns[n].items <= Arrived(turns)
    ensures turns[n].cancelled ==> Arrived(turns[..n]) + turns[n].items + [Eof] <= Arrived(turns)
  {
    var m := |turns| - 1;
    if n < m {
      CancelIsMarked(turns[..m], n);
      assert turns[..m][..n] == turns[..n];
    }
  }

  predicate AnyCancelled(turns: seq<Turn>) {
    exists i :: 0 <= i < |turns| && turns[i].cancelled
  }

  /** The first k items are data and have been sent on. */
  ghost predicate SentOn(all: seq<Item>, k: nat, delivered: Chunk, sent: nat) {
    k <= |all| && OnlyData(all[..k]) && delivered == Content(all[..k]) && sent == |delivered|
  }

  lemma SentOnNext(all: seq<Item>, k: nat, delivered: Chunk, sent: nat)
    requires k < |all| && all[k].Data? && SentOn(all, k, delivered, sent)
    ensures SentOn(all, k + 1, delivered + all[k].bytes, sent + |all[k].bytes|)
  {
    NextChunk(all, k);
  }

  lemma SentOnLonger(all: seq<Item>, more: seq<Item>, k: nat, delivered: Chunk, sent: nat)
    requires SentOn(all, k, delivered, sent)
    ensures SentOn(all + more, k, delivered, sent)
  {
    assert (all + more)[..k] == all[..k];
  }

  lemma NothingSent(all: seq<Item>)
    ensures SentOn(all, 0, [], 0)
  {
    NoChunk();
  }

  lemma NothingArrived(turns: seq<Turn>)
    ensures Arrived(turns[..0]) == [] && !AnyCancelled(turns[..0])
  {
  }

  lemma MoreArrived(turns: seq<Turn>, n: nat)
    requires n < |turns|
    ensures Arrived(turns[..n + 1]) == Arrived(turns[..n]) + Queued(turns[n])
    ensures AnyCancelled(turns[..n + 1]) <==> AnyCancelled(turns[..n]) || turns[n].cancelled
  {
    assert turns[..n + 1][..n] == turns[..n] && turns[..n + 1][n] == turns[n];
    if AnyCancelled(turns[..n]) {
      var i :| 0 <= i < n && turns[..n][i].cancelled;
      assert turns[..n + 1][i].cancelled;
    }
    if AnyCancelled(turns[..n + 1]) {
      var i :| 0 <= i < n + 1 && turns[..n + 1][i].cancelled;
      if i < n { assert turns[..n][i].cancelled; }
    }
  }

  /** What arrives in a turn goes behind what is queued; the next item to send is the first queued. */
  lemma ArrivalTurn(all: seq<Item>, turns: seq<Turn>, n: nat, k: nat, first: seq<Item>, delivered: Chunk, sent: nat)
    requires n < |turns| && SentOn(all, k, delivered, sent) && all == first + Arrived(turns[..n])
    ensures k <= |all|
    ensures var longer := all + Queued(turns[n]);
            && longer == first + Arrived(turns[..n + 1])
            && SentOn(longer, k, delivered, sent)
            && all[k..] + Queued(turns[n]) == longer[k..]
            && (longer[k..] != [] ==>
                  k < |longer| && longer[k..][0] == longer[k] && longer[k..][1..] == longer[k + 1..])
  {
    MoreArrived(turns, n);
    SentOnLonger(all, Queued(turns[n]), k, delivered, sent);
  }

  /**
   * The body of a download.  Each turn waits while the producing hop queues what
   * it will and the transfer may be cancelled, then takes one item; when the
   * turns run out the task is cancelled while waiting.  What is sent on is
   * always the data queued first, in order, up to the end marker if one was
   * reached, and `sent` is its length.  It finishes as done exactly if a marker
   * was reached and nobody had cancelled by then.
   */
  method SendAll(ctx: TransferContext, turns: seq<Turn>, now: Time)
    returns (delivered: Chunk, sent: nat, ended: bool, made: nat, ghost k: nat)
    requires ctx.Valid()
    modifies ctx, if ctx.resume == null then {} else {ctx.resume}
    ensures ctx.Valid() && made <= |turns| && (!ended ==> made == |turns|)
    ensures SentOn(old(ctx.queue) + Arrived(turns[..made]), k, delivered, sent)
    ensures ended ==>
              var all := old(ctx.queue) + Arrived(turns[..made]);
              k < |all| && all[k].Eof?
    ensures ctx.cancel <==> old(ctx.cancel) || !ended || AnyCancelled(turns[..made])
    ensures ctx.state == if ctx.cancel then "cancelled" else "done"
    ensures ctx.finishedAt.Some?
  {
    hide Content; hide OnlyData; hide Size; hide SentOn; hide Arrived; hide Append; hide Prefix; hide AnyCancelled;
    hide Queued;
    delivered, sent, k, ended := [], 0, 0, false;
    ghost var first := ctx.queue;
    ghost var all := first;
    NothingSent(all);
    NothingArrived(turns);
    assert first + [] == first;
    made := 0;
    while made < |turns| && !ended
      invariant ctx.Valid() && made <= |turns|
      invariant ctx.cancel <==> old(ctx.cancel) || AnyCancelled(turns[..made])
      invariant ctx.resume == null || ctx.resume == old(ctx.resume)
      invariant all == first + Arrived(turns[..made])
      invariant k <= |all| && SentOn(all, k, delivered, sent)
      invariant !ended ==> ctx.queue == all[k..]
      invariant ended ==> k < |all| && all[k].Eof?
    {
      var turn := turns[made];
      ArrivalTurn(all, turns, made, k, first, delivered, sent);
      MoreArrived(turns, made);
      all := all + Queued(turn);
      if turn.cancelled {
        ctx.CancelRequest(now);
      }
      var got := ctx.WaitAndGet(Queued(turn));
      if got.Some? {
        if got.value.Eof? {
          ended := true;
        } else {
          SentOnNext(all, k, delivered, sent);
          sent := sent + |got.value.bytes|;
          delivered := delivered + got.value.bytes;
          k := k + 1;
        }
      }
      made := made + 1;
    }
    if !ended {
      ctx.cancel := true;
    }
    ctx.Finish(if ctx.cancel then "cancelled" else "done", None, now);
  }

  class TransferRegistry {
    const MAX_AGE: Time := 21600.0
    const FINISHED_TTL: Time := 90.0
    var live: map<string, TransferContext>

    predicate Stale(t: TransferContext, now: Time)
      reads t`finishedAt
    {
      || now - t.created > MAX_AGE
      || (t.finishedAt.Some? && now - t.finishedAt.value > FINISHED_TTL)
    }

    constructor ()
      ensures live == map[]
    {
      live := map[];
    }

    /** _sweep: drop exactly the stale contexts. */
    method Sweep(now: Time)
      modifies this`live
      ensures live == map id | id in old(live) && !Stale(old(live)[id], now) :: old(live)[id]
      ensures forall id :: id in live <==>
                && id in old(live) && now - old(live)[id].created <= 21600.0
                && (old(live)[id].finishedAt.Some? ==> now - old(live)[id].finishedAt.value <= 90.0)
    {
      var stale := set id | id in live && Stale(live[id], now);
      var left := stale;
      while left != {}
        invariant left <= stale
        invariant live == map id | id in old(live) && (id !in stale || id in left) :: old(live)[id]
        decreases left
      {
        var id :| id in left;
        live := live - {id};
        left := left - {id};
      }
    }

    /** create: a client-chosen id never displaces a transfer that still holds it. */
    method Create(id: string, now: Time) returns (made: TransferContext?)
      modifies this`live
      ensures made == null <==>
                && id in old(live) && now - old(live)[id].created <= 21600.0
                && (old(live)[id].finishedAt.Some? ==> now - old(live)[id].finishedAt.value <= 90.0)
      ensures made != null ==> fresh(made) && made.id == id && id in live && live[id] == made
      ensures forall other :: other in old(live) && !Stale(old(live)[other], now) ==>
                other in live && live[other] == old(live)[other]
    {
      Sweep(now);
      if id in live {
        return null;
      }
      made := new TransferContext(id, now);
      live := live[id := made];
    }
  }
}
