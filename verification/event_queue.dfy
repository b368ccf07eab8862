/**
 * The backlog of one event subscriber (agents/registry.py, stream): a bounded
 * queue that drops its oldest event when a new one finds it full.
 */
module EventQueues {
  import opened Selections

  const EVENT_QUEUE_MAX: nat := 1500

  /** The sink: never blocks, never exceeds the bound. */
  function Offer<E>(queue: seq<E>, event: E): (after: seq<E>)
    requires |queue| <= EVENT_QUEUE_MAX
    ensures |after| <= EVENT_QUEUE_MAX
    ensures after != [] && after[|after| - 1] == event
  {
    (if |queue| == EVENT_QUEUE_MAX then queue[1..] else queue) + [event]
  }

  datatype Act<E> = Publish(event: E) | Take

  /** One subscriber: all events published since it subscribed, those it was handed, its backlog. */
  datatype Stream<E> = Stream(published: seq<E>, delivered: seq<E>, queue: seq<E>)

  function Subscribed<E>(): Stream<E> {
    Stream([], [], [])
  }

  function Step<E>(s: Stream<E>, a: Act<E>): (after: Stream<E>)
    requires |s.queue| <= EVENT_QUEUE_MAX
    ensures |after.queue| <= EVENT_QUEUE_MAX
  {
    match a
    case Publish(event) => Stream(s.published + [event], s.delivered, Offer(s.queue, event))
    case Take => if s.queue == [] then s else Stream(s.published, s.delivered + [s.queue[0]], s.queue[1..])
  }

  function Run<E>(s: Stream<E>, acts: seq<Act<E>>): (after: Stream<E>)
    requires |s.queue| <= EVENT_QUEUE_MAX
    ensures |after.queue| <= EVENT_QUEUE_MAX
    decreases |acts|
  {
    if acts == [] then s else Run(Step(s, acts[0]), acts[1..])
  }

  /** `at` says where in the published events each delivered one stands. */
  ghost predicate Places<E>(s: Stream<E>, at: seq<nat>) {
    && Increasing(at)
    && |at| == |s.delivered|
    && |s.queue| <= |s.published|
    && (forall k :: 0 <= k < |at| ==> at[k] < |s.published| - |s.queue| && s.published[at[k]] == s.delivered[k])
    && s.queue == s.published[|s.published| - |s.queue|..]
  }

  /**
   * Over any run the backlog is a contiguous suffix of what was published since
   * the subscription, and what was delivered is an in-order selection of the
   * events before it.
   */
  lemma {:induction false} BacklogIsSuffix<E>(s: Stream<E>, acts: seq<Act<E>>, at: seq<nat>) returns (after: seq<nat>)
    requires |s.queue| <= EVENT_QUEUE_MAX && Places(s, at)
    ensures Places(Run(s, acts), after)
    decreases |acts|
  {
    if acts == [] { return at; }
    var next := if acts[0].Take? && s.queue != [] then at + [|s.published| - |s.queue|] else at;
    StepPlaces(s, acts[0], at);
    after := BacklogIsSuffix(Step(s, acts[0]), acts[1..], next);
  }

  lemma StepPlaces<E>(s: Stream<E>, a: Act<E>, at: seq<nat>)
    requires |s.queue| <= EVENT_QUEUE_MAX && Places(s, at)
    ensures Places(Step(s, a), if a.Take? && s.queue != [] then at + [|s.published| - |s.queue|] else at)
  {
    match a
    case Publish(event) => PublishPlaces(s, event, at);
    case Take => if s.queue != [] { TakePlaces(s, at); }
  }

  lemma PublishPlaces<E>(s: Stream<E>, event: E, at: seq<nat>)
    requires |s.queue| <= EVENT_QUEUE_MAX && Places(s, at)
    ensures Places(Step(s, Publish(event)), at)
  {
    hide Increasing;
    var t, cut := Step(s, Publish(event)), |s.published| - |s.queue|;
    assert t.published[cut..] == s.queue + [event];
    if |s.queue| == EVENT_QUEUE_MAX {
      assert t.published[cut + 1..] == s.queue[1..] + [event];
    }
  }

  lemma TakePlaces<E>(s: Stream<E>, at: seq<nat>)
    requires 0 < |s.queue| <= EVENT_QUEUE_MAX && Places(s, at)
    ensures Places(Step(s, Take), at + [|s.published| - |s.queue|])
  {
    var cut := |s.published| - |s.queue|;
    assert s.published[cut] == s.queue[0];
    assert s.queue[1..] == s.published[cut + 1..];
  }

  /** Events a run drops: the publications that find the queue full. */
  function Drops<E>(s: Stream<E>, acts: seq<Act<E>>): nat
    requires |s.queue| <= EVENT_QUEUE_MAX
    decreases |acts|
  {
    if acts == [] then 0
    else (if acts[0].Publish? && |s.queue| == EVENT_QUEUE_MAX then 1 else 0) + Drops(Step(s, acts[0]), acts[1..])
  }

  /** Nothing is lost or duplicated but by those drops, each of which loses one event. */
  lemma {:induction false} EventsConserved<E>(s: Stream<E>, acts: seq<Act<E>>)
    requires |s.queue| <= EVENT_QUEUE_MAX
    ensures var t := Run(s, acts);
            |t.published| - |t.delivered| - |t.queue|
            == |s.published| - |s.delivered| - |s.queue| + Drops(s, acts)
    decreases |acts|
  {
    if acts != [] { EventsConserved(Step(s, acts[0]), acts[1..]); }
  }

  /**
   * A subscriber that keeps up loses nothing, and only such a one: delivered
   * followed by backlog is all that was published iff no publication found the
   * queue full.
   */
  lemma {:induction false} LosslessExactly<E>(acts: seq<Act<E>>)
    ensures var t := Run(Subscribed(), acts);
            t.delivered + t.queue == t.published <==> Drops(Subscribed(), acts) == 0
  {
    hide Run;
    hide Drops;
    hide Places;
    var s := Subscribed<E>();
    var t := Run(s, acts);
    EventsConserved(s, acts);
    assert Places(s, []) by { SubscribedPlaces<E>(); }
    var at := BacklogIsSuffix(s, acts, []);
    if Drops(s, acts) == 0 {
      NoGaps(t, at);
    } else {
      assert |t.delivered + t.queue| < |t.published|;
    }
  }

  lemma SubscribedPlaces<E>()
    ensures Places(Subscribed<E>(), [])
  {
  }

  lemma NoGaps<E>(t: Stream<E>, at: seq<nat>)
    requires Places(t, at) && |t.published| == |t.delivered| + |t.queue|
    ensures t.delivered + t.queue == t.published
  {
    Onto(at, |t.delivered|);
    assert t.delivered == t.published[..|t.delivered|];
  }

  /** An increasing selection of n numbers below n is 0, 1, …, n-1. */
  lemma Onto(at: seq<nat>, n: nat)
    requires Increasing(at) && |at| == n && forall k :: 0 <= k < n ==> at[k] < n
    ensures forall k :: 0 <= k < n ==> at[k] == k
  {
    forall k | 0 <= k < n ensures at[k] == k {
      AtLeast(at, k);
      AtMost(at, n, k);
    }
  }

  lemma AtMost(at: seq<nat>, n: nat, k: nat)
    requires Increasing(at) && k < |at| == n && forall j :: 0 <= j < n ==> at[j] < n
    ensures at[k] <= k
    decreases n - k
  {
    if k < n - 1 { AtMost(at, n, k + 1); }
  }
}
