/** What the restart policy leaves behind: the list of relaunches the monitor made, and how
    many of them can fall into one crash window.

    The policy keeps two separate counters (crashes of runs that came up, and launches that
    never came up). Neither bounds the relaunches alone; this module proves what they bound
    together, from two shape facts about the history and nothing else. */
module RelaunchHistory {
  type Time = real

  /** Exits of runs that came up are forgotten after this long (_CRASH_WINDOW_S). */
  const CRASH_WINDOW: Time := 60.0
  /** More recent exits than this and the monitor gives up (_CRASH_LIMIT). */
  const CRASH_LIMIT: nat := 5
  /** Launches in a row that never came up before the monitor gives up (_LAUNCH_FAILURE_LIMIT). */
  const LAUNCH_FAILURE_LIMIT: nat := 3

  /** One relaunch by the monitor: when it was decided, whether the run it replaces had come up,
      and whether a run counted as never having come up announced itself after the decision,
      which clears the failure count. */
  datatype Relaunch = Relaunch(at: Time, afterReady: bool, late: bool)

  /** The times still inside the crash window at `now`, in order. */
  function Recent(times: seq<Time>, now: Time): seq<Time> {
    if times == [] then []
    else if now - times[0] < CRASH_WINDOW then [times[0]] + Recent(times[1..], now)
    else Recent(times[1..], now)
  }

  /** The decision times of the relaunches that replaced a run which had come up. */
  function ReadyTimes(h: seq<Relaunch>): seq<Time> {
    if h == [] then []
    else (if h[0].afterReady then [h[0].at] else []) + ReadyTimes(h[1..])
  }

  /** A relaunch after which failures are counted from zero. */
  predicate Restarts(x: Relaunch) {
    x.afterReady || x.late
  }

  /** How many relaunches of a history had their failure count cleared late. */
  function Lates(h: seq<Relaunch>): nat {
    if h == [] then 0 else (if h[0].late then 1 else 0) + Lates(h[1..])
  }

  /** How many relaunches at the end of the history replaced runs that never came up, since the
      count was last cleared. */
  function TrailingFailures(h: seq<Relaunch>): nat {
    if h == [] || Restarts(h[|h| - 1]) then 0
    else 1 + TrailingFailures(h[..|h| - 1])
  }

  ghost predicate Sorted(h: seq<Relaunch>) {
    forall i, j :: 0 <= i < j < |h| ==> h[i].at <= h[j].at
  }

  /** Six relaunches of runs that came up never fit into one window. */
  ghost predicate CrashesSpaced(crashes: seq<Time>) {
    forall i, j :: 0 <= i && j == i + CRASH_LIMIT && j < |crashes| ==> crashes[j] - crashes[i] >= CRASH_WINDOW
  }

  /** No LAUNCH_FAILURE_LIMIT relaunches in a row replaced runs that never came up, unless the
      count was cleared in between. */
  ghost predicate FailuresBroken(h: seq<Relaunch>) {
    forall i, j, k :: 0 <= i && j == i + 1 && k == i + 2 && k < |h| ==>
      Restarts(h[i]) || Restarts(h[j]) || h[k].afterReady
  }

  ghost predicate Bounded(h: seq<Relaunch>) {
    Sorted(h) && CrashesSpaced(ReadyTimes(h)) && FailuresBroken(h)
  }

  // ---- Recent ----------------------------------------------------------------------------

  /** Pruning keeps exactly the times less than a minute old. */
  lemma {:induction false} RecentExactly(times: seq<Time>, now: Time, t: Time)
    ensures t in Recent(times, now) <==> t in times && now - t < 60.0
  {
    if times != [] {
      RecentExactly(times[1..], now, t);
      assert times == [times[0]] + times[1..];
    }
  }

  lemma {:induction false} RecentAppend(a: seq<Time>, b: seq<Time>, now: Time)
    ensures Recent(a + b, now) == Recent(a, now) + Recent(b, now)
  {
    if a == [] {
      assert a + b == b;
    } else {
      assert (a + b)[1..] == a[1..] + b;
      RecentAppend(a[1..], b, now);
    }
  }

  /** Pruning early changes nothing that a later pruning would have kept. */
  lemma {:induction false} RecentTwice(times: seq<Time>, early: Time, late: Time)
    requires early <= late
    ensures Recent(Recent(times, early), late) == Recent(times, late)
  {
    if times != [] {
      RecentTwice(times[1..], early, late);
      if early - times[0] < CRASH_WINDOW {
        var rest := Recent(times[1..], early);
        assert ([times[0]] + rest)[1..] == rest;
      }
    }
  }

  lemma {:induction false} RecentAll(times: seq<Time>, now: Time)
    requires forall i :: 0 <= i < |times| ==> now - times[i] < CRASH_WINDOW
    ensures Recent(times, now) == times
  {
    if times != [] {
      assert forall i :: 0 <= i < |times[1..]| ==> times[1..][i] == times[i + 1];
      RecentAll(times[1..], now);
    }
  }

  lemma {:induction false} RecentNone(times: seq<Time>, now: Time)
    requires forall i :: 0 <= i < |times| ==> now - times[i] >= CRASH_WINDOW
    ensures Recent(times, now) == []
  {
    if times != [] {
      assert forall i :: 0 <= i < |times[1..]| ==> times[1..][i] == times[i + 1];
      RecentNone(times[1..], now);
    }
  }

  /** Some clock reading is late enough for every recorded exit to be forgotten. */
  lemma {:induction false} EventuallyForgotten(times: seq<Time>) returns (now: Time)
    ensures Recent(times, now) == []
  {
    now := 0.0;
    for i := 0 to |times|
      invariant forall j :: 0 <= j < i ==> now - times[j] >= CRASH_WINDOW
    {
      if now - times[i] < CRASH_WINDOW { now := times[i] + CRASH_WINDOW; }
    }
    RecentNone(times, now);
  }

  // ---- ReadyTimes ------------------------------------------------------------------------

  lemma {:induction false} ReadyTimesAppend(a: seq<Relaunch>, b: seq<Relaunch>)
    ensures ReadyTimes(a + b) == ReadyTimes(a) + ReadyTimes(b)
  {
    if a == [] {
      assert a + b == b;
    } else {
      assert (a + b)[1..] == a[1..] + b && (a + b)[0] == a[0];
      ReadyTimesAppend(a[1..], b);
      var first := if a[0].afterReady then [a[0].at] else [];
      assert first + (ReadyTimes(a[1..]) + ReadyTimes(b)) == (first + ReadyTimes(a[1..])) + ReadyTimes(b);
    }
  }

  lemma {:induction false} ReadyTimesWithin(h: seq<Relaunch>, lo: Time, hi: Time)
    requires forall i :: 0 <= i < |h| ==> lo <= h[i].at <= hi
    ensures forall i :: 0 <= i < |ReadyTimes(h)| ==> lo <= ReadyTimes(h)[i] <= hi
  {
    if h != [] {
      assert forall i :: 0 <= i < |h[1..]| ==> h[1..][i] == h[i + 1];
      ReadyTimesWithin(h[1..], lo, hi);
    }
  }

  lemma {:induction false} ReadyTimesSorted(h: seq<Relaunch>)
    requires Sorted(h)
    ensures forall i, j :: 0 <= i < j < |ReadyTimes(h)| ==> ReadyTimes(h)[i] <= ReadyTimes(h)[j]
  {
    if h != [] {
      var t := h[1..];
      assert forall i :: 0 <= i < |t| ==> t[i] == h[i + 1];
      ReadyTimesSorted(t);
      ReadyTimesWithin(t, h[0].at, h[|h| - 1].at);
    }
  }

  // ---- The bound -------------------------------------------------------------------------

  lemma {:induction false} LatesAppend(a: seq<Relaunch>, b: seq<Relaunch>)
    ensures Lates(a + b) == Lates(a) + Lates(b)
  {
    if a == [] {
      assert a + b == b;
    } else {
      assert (a + b)[1..] == a[1..] + b && (a + b)[0] == a[0];
      LatesAppend(a[1..], b);
    }
  }

  lemma FailuresBrokenLater(h: seq<Relaunch>, n: nat)
    requires FailuresBroken(h) && n <= |h|
    ensures FailuresBroken(h[n..])
  {
    assert forall i :: 0 <= i < |h[n..]| ==> h[n..][i] == h[n + i];
  }

  /** Between relaunches of runs that came up there is room for two that did not, and every
      clearing of the count makes room for two more. */
  lemma {:induction false} FailuresBetweenCrashes(h: seq<Relaunch>)
    requires FailuresBroken(h)
    ensures |h| <= 3 * |ReadyTimes(h)| + 2 + 2 * Lates(h)
  {
    if |h| >= 3 {
      var n := if Restarts(h[0]) then 1 else if Restarts(h[1]) then 2 else 3;
      FailuresBrokenLater(h, n);
      FailuresBetweenCrashes(h[n..]);
      CountsOfFirst(h);
      CountsOfFirst(h[1..]);
      CountsOfFirst(h[2..]);
      assert h[1..][1..] == h[2..] && h[2..][1..] == h[3..];
    }
  }

  lemma CountsOfFirst(h: seq<Relaunch>)
    requires h != []
    ensures |ReadyTimes(h)| == |ReadyTimes(h[1..])| + if h[0].afterReady then 1 else 0
    ensures Lates(h) == Lates(h[1..]) + if h[0].late then 1 else 0
  {
  }

  lemma StretchOfCrashes(before: seq<Time>, crashes: seq<Time>, after: seq<Time>)
    requires CrashesSpaced(before + (crashes + after))
    ensures CrashesSpaced(crashes)
  {
    var all := before + (crashes + after);
    forall i, j | 0 <= i && j == i + CRASH_LIMIT && j < |crashes| ensures crashes[j] - crashes[i] >= CRASH_WINDOW {
      assert all[|before| + i] == crashes[i] && all[|before| + j] == crashes[j];
    }
  }

  lemma StretchOfShape(h: seq<Relaunch>, a: nat, b: nat)
    requires Sorted(h) && FailuresBroken(h) && a <= b <= |h|
    ensures Sorted(h[a..b]) && FailuresBroken(h[a..b])
  {
    assert forall i :: 0 <= i < b - a ==> h[a..b][i] == h[a + i];
  }

  /** A stretch of a bounded history is bounded. */
  lemma StretchOf(h: seq<Relaunch>, a: nat, b: nat)
    requires Bounded(h) && a <= b <= |h|
    ensures Bounded(h[a..b])
  {
    hide Sorted;
    hide FailuresBroken;
    hide CrashesSpaced;
    hide ReadyTimes;
    var mid := h[a..b];
    StretchOfShape(h, a, b);
    assert h == h[..a] + (mid + h[b..]);
    ReadyTimesAppend(h[..a], mid + h[b..]);
    ReadyTimesAppend(mid, h[b..]);
    StretchOfCrashes(ReadyTimes(h[..a]), ReadyTimes(mid), ReadyTimes(h[b..]));
  }

  lemma SixCrashesSpread(crashes: seq<Time>)
    requires CrashesSpaced(crashes) && |crashes| > CRASH_LIMIT
    ensures crashes[CRASH_LIMIT] - crashes[0] >= CRASH_WINDOW
  {
  }

  /** Any stretch of the history shorter than the crash window holds at most 5 relaunches of runs
      that came up, and between and around them 2 of runs that did not, plus 2 for every time the
      failure count was cleared late: 17 in all when it never was. */
  lemma StretchBound(h: seq<Relaunch>, a: nat, b: nat)
    requires Bounded(h)
    requires a < b <= |h| && h[b - 1].at - h[a].at < CRASH_WINDOW
    ensures |ReadyTimes(h[a..b])| <= CRASH_LIMIT
    ensures b - a <= 3 * |ReadyTimes(h[a..b])| + 2 + 2 * Lates(h[a..b])
    ensures b - a <= 17 + 2 * Lates(h[a..b])
  {
    var mid := h[a..b];
    StretchOf(h, a, b);
    ReadyTimesWithin(mid, h[a].at, h[b - 1].at);
    var r := ReadyTimes(mid);
    if |r| > CRASH_LIMIT { SixCrashesSpread(r); }
    FailuresBetweenCrashes(mid);
  }

  /** The relaunches of a history that fall into the half-open window from w on. */
  function Inside(h: seq<Relaunch>, w: Time): set<int> {
    set i | 0 <= i < |h| && w <= h[i].at < w + CRASH_WINDOW
  }

  /** Those of them whose failure count was cleared late. */
  function LateInside(h: seq<Relaunch>, w: Time): set<int> {
    set i | i in Inside(h, w) && h[i].late
  }

  /** The same bound for every half-open window, wherever it is placed. */
  lemma WindowBound(h: seq<Relaunch>, w: Time)
    requires Bounded(h)
    ensures |Inside(h, w)| <= 17 + 2 * |LateInside(h, w)|
  {
    var inside := Inside(h, w);
    if inside != {} {
      var a := Least(inside);
      var b := Greatest(inside);
      StretchBound(h, a, b + 1);
      SizeBetween(inside, a, b);
      assert forall i :: a <= i <= b ==> i in inside by {
        assert Sorted(h);
      }
      LatesAreIndices(h, a, b + 1, LateInside(h, w));
    }
  }

  lemma {:induction false} LatesAreIndices(h: seq<Relaunch>, a: nat, b: nat, late: set<int>)
    requires a <= b <= |h| && forall i :: a <= i < b && h[i].late ==> i in late
    ensures Lates(h[a..b]) <= |late|
    decreases b - a
  {
    if a < b {
      assert h[a..b][1..] == h[a + 1..b];
      LatesAreIndices(h, a + 1, b, late - {a});
      if h[a].late { assert late == (late - {a}) + {a}; }
      else if a !in late { assert late - {a} == late; }
      else { assert late == (late - {a}) + {a}; }
    }
  }

  /** Indices of cleared relaunches are never more than there are. */
  lemma {:induction false} IndicesAreLates(h: seq<Relaunch>, late: set<int>)
    requires forall i :: i in late ==> 0 <= i < |h| && h[i].late
    ensures |late| <= Lates(h)
    decreases |h|
  {
    if h == [] {
      if late != {} { var x := Member(late); }
    } else {
      var n := |h| - 1;
      assert h == h[..n] + [h[n]];
      LatesAppend(h[..n], [h[n]]);
      assert Lates([h[n]]) == if h[n].late then 1 else 0;
      IndicesAreLates(h[..n], late - {n});
      if n in late { assert late == (late - {n}) + {n}; } else { assert late - {n} == late; }
    }
  }

  lemma Member<T>(s: set<T>) returns (x: T)
    requires s != {}
    ensures x in s
  {
    x :| x in s;
  }

  lemma {:induction false} Least(s: set<int>) returns (m: int)
    requires s != {}
    ensures m in s && forall x :: x in s ==> m <= x
    decreases s
  {
    m := Member(s);
    var rest := s - {m};
    assert forall x :: x in s ==> x == m || x in rest;
    if rest != {} {
      var n := Least(rest);
      m := if m < n then m else n;
    }
  }

  lemma {:induction false} Greatest(s: set<int>) returns (m: int)
    requires s != {}
    ensures m in s && forall x :: x in s ==> x <= m
    decreases s
  {
    m := Member(s);
    var rest := s - {m};
    assert forall x :: x in s ==> x == m || x in rest;
    if rest != {} {
      var n := Greatest(rest);
      m := if m > n then m else n;
    }
  }

  lemma {:induction false} SizeBetween(s: set<int>, lo: int, hi: int)
    requires lo <= hi + 1 && forall x :: x in s ==> lo <= x <= hi
    ensures |s| <= hi - lo + 1
    decreases hi - lo
  {
    if lo <= hi {
      SizeBetween(s - {hi}, lo, hi - 1);
      if hi in s {
        assert s == (s - {hi}) + {hi};
      } else {
        assert s - {hi} == s;
      }
    } else {
      if s != {} { var x := Member(s); }
    }
  }

  // ---- Growing a history -----------------------------------------------------------------

  /** The crash counter is exactly the recent exits: `base` is what it held before the first
      recorded exit, `exits` are the recorded ones, in order. */
  ghost predicate CountsRecentExits(crashTimes: seq<Time>, base: seq<Time>, exits: seq<Time>) {
    if exits == [] then crashTimes == base
    else crashTimes == Recent(base + exits, exits[|exits| - 1])
  }

  lemma RecentOne(now: Time)
    ensures Recent([now], now) == [now]
  {
    assert [now][1..] == [];
  }

  /** Recording an exit keeps the crash counter exact. */
  lemma RecordExit(crashTimes: seq<Time>, base: seq<Time>, exits: seq<Time>, now: Time)
    requires CountsRecentExits(crashTimes, base, exits)
    requires exits != [] ==> exits[|exits| - 1] <= now
    ensures CountsRecentExits(Recent(crashTimes, now) + [now], base, exits + [now])
    ensures |Recent(crashTimes, now)| >= |Recent(exits, now)|
  {
    RecentOne(now);
    hide Recent;
    if exits == [] {
      assert base + [] == base;
    } else {
      RecentTwice(base + exits, exits[|exits| - 1], now);
    }
    RecentAppend(base, exits, now);
    assert base + (exits + [now]) == (base + exits) + [now];
    RecentAppend(base + exits, [now], now);
    assert (exits + [now])[|exits + [now]| - 1] == now;
  }

  lemma AppendCrashTime(crashes: seq<Time>, now: Time)
    requires CrashesSpaced(crashes)
    requires forall i, j :: 0 <= i < j < |crashes| ==> crashes[i] <= crashes[j]
    requires forall i :: 0 <= i < |crashes| ==> crashes[i] <= now
    requires |Recent(crashes, now)| + 1 <= CRASH_LIMIT
    ensures CrashesSpaced(crashes + [now])
  {
    if |crashes| >= CRASH_LIMIT {
      var cut := |crashes| - CRASH_LIMIT;
      if now - crashes[cut] < CRASH_WINDOW {
        var tail := crashes[cut..];
        assert crashes == crashes[..cut] + tail;
        RecentAppend(crashes[..cut], tail, now);
        assert forall i :: 0 <= i < |tail| ==> tail[i] == crashes[cut + i] && crashes[cut] <= crashes[cut + i];
        RecentAll(tail, now);
      }
    }
  }

  lemma AppendSorted(h: seq<Relaunch>, x: Relaunch)
    requires Sorted(h) && (h != [] ==> h[|h| - 1].at <= x.at)
    ensures Sorted(h + [x])
  {
  }

  /** A relaunch of a run that came up, allowed by the crash limit, keeps the history bounded. */
  lemma AppendCrash(h: seq<Relaunch>, now: Time)
    requires Bounded(h) && (h != [] ==> h[|h| - 1].at <= now)
    requires |Recent(ReadyTimes(h), now)| + 1 <= CRASH_LIMIT
    ensures Bounded(h + [Relaunch(now, true, false)])
    ensures ReadyTimes(h + [Relaunch(now, true, false)]) == ReadyTimes(h) + [now]
    ensures TrailingFailures(h + [Relaunch(now, true, false)]) == 0
  {
    var x := Relaunch(now, true, false);
    ReadyTimesAppend(h, [x]);
    assert ReadyTimes([x]) == [now];
    ReadyTimesSorted(h);
    if h != [] { ReadyTimesWithin(h, h[0].at, h[|h| - 1].at); }
    AppendCrashTime(ReadyTimes(h), now);
    AppendSorted(h, x);
  }

  lemma NoTwoTrailing(h: seq<Relaunch>)
    requires TrailingFailures(h) <= 1 && |h| >= 2
    ensures Restarts(h[|h| - 1]) || Restarts(h[|h| - 2])
  {
    assert h[..|h| - 1][|h| - 2] == h[|h| - 2];
  }

  lemma AppendBroken(h: seq<Relaunch>, x: Relaunch)
    requires FailuresBroken(h)
    requires |h| >= 2 ==> Restarts(h[|h| - 1]) || Restarts(h[|h| - 2]) || x.afterReady
    ensures FailuresBroken(h + [x])
  {
  }

  /** A relaunch of a run that never came up, allowed by the failure limit, keeps the history
      bounded. */
  lemma AppendFailure(h: seq<Relaunch>, now: Time)
    requires Bounded(h) && (h != [] ==> h[|h| - 1].at <= now)
    requires TrailingFailures(h) + 1 < LAUNCH_FAILURE_LIMIT
    ensures Bounded(h + [Relaunch(now, false, false)])
    ensures ReadyTimes(h + [Relaunch(now, false, false)]) == ReadyTimes(h)
    ensures TrailingFailures(h + [Relaunch(now, false, false)]) == TrailingFailures(h) + 1
  {
    hide FailuresBroken;
    hide Sorted;
    hide CrashesSpaced;
    var x := Relaunch(now, false, false);
    assert ReadyTimes([x]) == [];
    assert TrailingFailures(h + [x]) == TrailingFailures(h) + 1 by { assert (h + [x])[..|h|] == h; }
    if |h| >= 2 { NoTwoTrailing(h); }
    AppendSorted(h, x);
    AppendBroken(h, x);
    hide ReadyTimes;
    hide TrailingFailures;
    ReadyTimesAppend(h, [x]);
    assert ReadyTimes(h) + [] == ReadyTimes(h);
  }

  /** Clearing the count of the last relaunch late keeps the history bounded. */
  lemma ClearLast(h: seq<Relaunch>, x: Relaunch)
    requires Bounded(h + [x]) && !x.afterReady
    ensures Bounded(h + [x.(late := true)])
    ensures ReadyTimes(h + [x.(late := true)]) == ReadyTimes(h + [x])
    ensures TrailingFailures(h + [x.(late := true)]) == 0
  {
    var y := x.(late := true);
    ReadyTimesAppend(h, [x]);
    ReadyTimesAppend(h, [y]);
    assert ReadyTimes([x]) == [] && ReadyTimes([y]) == [];
    var g, f := h + [x], h + [y];
    assert forall i :: 0 <= i < |f| ==> f[i].at == g[i].at && f[i].afterReady == g[i].afterReady;
    assert forall i :: 0 <= i < |f| && Restarts(g[i]) ==> Restarts(f[i]);
  }
}
