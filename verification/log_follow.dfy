/**
 * Following a log file (logtail.py): polls at arbitrary moments, reads of
 * arbitrary size, rotation, truncation.
 */
module LogFollow {
  import opened Options

  type Bytes = seq<bv8>

  const NEWLINE: bv8 := 10

  /** What one poll finds: the file's identity and size, and, if it can be opened, all it holds by
      the time it is read, which may be more than the size said. */
  datatype View = View(ident: int, size: nat, content: Option<Bytes>)

  /** What split leaves after the last newline. */
  function Tail(s: Bytes): Bytes {
    if s == [] || s[|s| - 1] == NEWLINE then [] else Tail(s[..|s| - 1]) + [s[|s| - 1]]
  }

  /** The pieces split finds before that, one for each newline. */
  function Lines(s: Bytes): seq<Bytes> {
    if s == [] then []
    else if s[|s| - 1] == NEWLINE then Lines(s[..|s| - 1]) + [Tail(s[..|s| - 1])]
    else Lines(s[..|s| - 1])
  }

  lemma {:induction false} TailIsUnfinished(s: Bytes)
    ensures NEWLINE !in Tail(s)
  {
    if s != [] { TailIsUnfinished(s[..|s| - 1]); }
  }

  lemma {:induction false} UnfinishedHasNoLines(s: Bytes)
    requires NEWLINE !in s
    ensures Lines(s) == [] && Tail(s) == s
  {
    if s != [] {
      assert s[|s| - 1] in s && forall c :: c in s[..|s| - 1] ==> c in s;
      UnfinishedHasNoLines(s[..|s| - 1]);
      assert s == s[..|s| - 1] + [s[|s| - 1]];
    }
  }

  lemma OneMore(s: Bytes, c: bv8)
    ensures Lines(s + [c]) == if c == NEWLINE then Lines(s) + [Tail(s)] else Lines(s)
    ensures Tail(s + [c]) == if c == NEWLINE then [] else Tail(s) + [c]
  {
    assert (s + [c])[..|s|] == s;
  }

  /** Splitting in two steps: the unfinished tail of the first goes in front of the second. */
  lemma {:induction false} SplitAppend(a: Bytes, b: Bytes)
    ensures Lines(a + b) == Lines(a) + Lines(Tail(a) + b)
    ensures Tail(a + b) == Tail(Tail(a) + b)
  {
    hide Lines; hide Tail;
    if b == [] {
      TailIsUnfinished(a);
      UnfinishedHasNoLines(Tail(a));
      assert a + b == a && Tail(a) + b == Tail(a);
    } else {
      var most, c := b[..|b| - 1], b[|b| - 1];
      assert a + b == a + most + [c] && Tail(a) + b == Tail(a) + most + [c];
      SplitAppend(a, most);
      OneMore(a + most, c);
      OneMore(Tail(a) + most, c);
    }
  }

  function Unsplit(lines: seq<Bytes>): Bytes {
    if lines == [] then [] else Unsplit(lines[..|lines| - 1]) + lines[|lines| - 1] + [NEWLINE]
  }

  /** A text is its lines, each with its newline, and then its tail; none of them holds a newline. */
  lemma {:induction false} SplitExactly(s: Bytes)
    ensures Unsplit(Lines(s)) + Tail(s) == s
    ensures NEWLINE !in Tail(s) && forall k :: 0 <= k < |Lines(s)| ==> NEWLINE !in Lines(s)[k]
  {
    if s != [] {
      var most, c := s[..|s| - 1], s[|s| - 1];
      SplitExactly(most);
      assert s == most + [c];
      if c == NEWLINE {
        assert Lines(s)[..|Lines(s)| - 1] == Lines(most);
      }
    }
  }

  datatype Follower = Follower(pos: nat, ident: Option<int>, buf: Bytes, started: bool)

  /** One poll that found the file: where reading starts, and what it yields. */
  function Poll(f: Follower, v: View): (Follower, seq<Bytes>) {
    var g := if f.ident.Some? && f.ident != Some(v.ident) then f.(pos := 0, buf := []) else f;
    var h := if !g.started then g.(pos := v.size, started := true)
             else if v.size < g.pos then g.(pos := 0, buf := [])
             else g;
    var i := h.(ident := Some(v.ident));
    if v.size > i.pos && v.content.Some? then
      var chunk := if i.pos <= |v.content.value| then v.content.value[i.pos..] else [];
      (i.(pos := if i.pos <= |v.content.value| then |v.content.value| else i.pos, buf := Tail(i.buf + chunk)),
       Lines(i.buf + chunk))
    else (i, [])
  }

  function Follow(f: Follower, views: seq<View>): (Follower, seq<Bytes>)
    decreases |views|
  {
    if views == [] then (f, [])
    else
      var (g, lines) := Poll(f, views[0]);
      var (h, more) := Follow(g, views[1..]);
      (h, lines + more)
  }

  function Fresh(fromStart: bool): Follower {
    Follower(0, None, [], fromStart)
  }

  /** The file only grows while it is watched: one identity, every size at least what was there
      before and at most what is there by the time of the read, and nothing written ever changes. */
  ghost predicate Grows(seen: Bytes, ident: int, views: seq<View>)
    decreases |views|
  {
    views != [] ==>
      var v := views[0];
      && v.ident == ident
      && |seen| <= v.size
      && (v.content.Some? ==> v.size <= |v.content.value| && seen <= v.content.value)
      && Grows(if v.content.Some? then v.content.value else seen, ident, views[1..])
  }

  /** The follower has read `seen` from `base` on, and `yielded` is every complete line of that. */
  ghost predicate InStep(f: Follower, ident: int, base: nat, seen: Bytes) {
    && f.started && f.ident == Some(ident)
    && base <= f.pos <= |seen|
    && f.buf == Tail(seen[base..f.pos])
  }

  /** What a poll of a growing file comes to: it reads on from where it was, or nothing. */
  lemma PollReadsOn(f: Follower, v: View, ident: int, base: nat, seen: Bytes)
    requires InStep(f, ident, base, seen) && Grows(seen, ident, [v])
    ensures v.ident == ident && |seen| <= v.size
    ensures v.content.Some? ==> v.size <= |v.content.value| && seen <= v.content.value
    ensures Poll(f, v) ==
              if v.size > f.pos && v.content.Some? then
                var chunk := v.content.value[f.pos..];
                (f.(pos := |v.content.value|, buf := Tail(f.buf + chunk)), Lines(f.buf + chunk))
              else (f, [])
  {
    hide Tail; hide Lines;
  }

  lemma PollInStep(f: Follower, v: View, ident: int, base: nat, seen: Bytes)
    requires InStep(f, ident, base, seen) && Grows(seen, ident, [v])
    ensures var (g, lines) := Poll(f, v);
            var now := if v.content.Some? then v.content.value else seen;
            && InStep(g, ident, base, now)
            && g.pos == (if v.size > f.pos && v.content.Some? then |now| else f.pos)
            && Lines(now[base..g.pos]) == Lines(now[base..f.pos]) + lines
  {
    PollReadsOn(f, v, ident, base, seen);
    hide Poll; hide Tail; hide Lines; hide Grows;
    if v.size > f.pos && v.content.Some? {
      ReadingOn(v.content.value, base, f.pos);
    }
    var now := if v.content.Some? then v.content.value else seen;
    assert now[base..f.pos] == seen[base..f.pos];
  }

  lemma ReadingOn(now: Bytes, base: nat, pos: nat)
    requires base <= pos <= |now|
    ensures Lines(now[base..|now|]) == Lines(now[base..pos]) + Lines(Tail(now[base..pos]) + now[pos..])
    ensures Tail(now[base..|now|]) == Tail(Tail(now[base..pos]) + now[pos..])
  {
    hide Tail; hide Lines;
    SplitAppend(now[base..pos], now[pos..]);
    assert now[base..pos] + now[pos..] == now[base..|now|];
  }

  /**
   * While the file only grows, the lines yielded are exactly the complete lines
   * of the bytes consumed, each once and in order, and the buffer is the
   * unfinished rest: how the bytes were split into reads leaves no trace.
   */
  lemma {:induction false} GrowingFile(f: Follower, ident: int, base: nat, seen: Bytes, views: seq<View>)
    requires InStep(f, ident, base, seen) && Grows(seen, ident, views)
    ensures var (g, lines) := Follow(f, views);
            var last := Last(seen, views);
            && InStep(g, ident, base, last) && f.pos <= g.pos
            && Lines(last[base..g.pos]) == Lines(last[base..f.pos]) + lines
    decreases |views|
  {
    hide Poll; hide Lines; hide Tail;
    if views != [] {
      var v := views[0];
      var now := if v.content.Some? then v.content.value else seen;
      assert Grows(seen, ident, [v]) by { assert [v][1..] == []; }
      PollInStep(f, v, ident, base, seen);
      var (g, lines) := Poll(f, v);
      GrowingFile(g, ident, base, now, views[1..]);
      LastKeeps(now, ident, views[1..]);
      var last := Last(seen, views);
      assert last[base..g.pos] == now[base..g.pos] && last[base..f.pos] == now[base..f.pos];
    }
  }

  /** The file's content as last seen. */
  function Last(seen: Bytes, views: seq<View>): Bytes
    decreases |views|
  {
    if views == [] then seen
    else Last(if views[0].content.Some? then views[0].content.value else seen, views[1..])
  }

  lemma {:induction false} LastKeeps(seen: Bytes, ident: int, views: seq<View>)
    requires Grows(seen, ident, views)
    ensures seen <= Last(seen, views)
    decreases |views|
  {
    if views != [] {
      LastKeeps(if views[0].content.Some? then views[0].content.value else seen, ident, views[1..]);
    }
  }

  /** Two followers of one growing file that have read equally far have yielded the same lines and
      hold the same rest, whatever their polls were. */
  lemma SplitsLeaveNoTrace(ident: int, content: Bytes, one: seq<View>, two: seq<View>)
    requires one != [] && two != [] && Grows([], ident, one) && Grows([], ident, two)
    requires Last([], one) <= content && Last([], two) <= content
    requires Follow(Fresh(true), one).0.pos == Follow(Fresh(true), two).0.pos
    ensures Follow(Fresh(true), one).1 == Follow(Fresh(true), two).1
    ensures Follow(Fresh(true), one).0.buf == Follow(Fresh(true), two).0.buf
  {
    FromStart(ident, one);
    FromStart(ident, two);
    var n := Follow(Fresh(true), one).0.pos;
    assert Last([], one)[..n] == content[..n] == Last([], two)[..n];
  }

  lemma FromStart(ident: int, views: seq<View>)
    requires views != [] && Grows([], ident, views)
    ensures var (g, lines) := Follow(Fresh(true), views);
            var last := Last([], views);
            g.pos <= |last| && lines == Lines(last[..g.pos]) && g.buf == Tail(last[..g.pos])
  {
    var f := Fresh(true).(ident := Some(ident));
    assert Poll(Fresh(true), views[0]) == Poll(f, views[0]);
    assert Follow(Fresh(true), views) == Follow(f, views);
    GrowingFile(f, ident, 0, [], views);
    var (g, lines) := Follow(f, views);
    var last := Last([], views);
    assert last[0..0] == [] && last[0..g.pos] == last[..g.pos];
  }

  /** A follower that did not ask for the start begins at the end of what it first finds: it yields
      only what is appended later. */
  lemma FromEnd(v: View, ident: int)
    requires v.ident == ident
    ensures Poll(Fresh(false), v) == (Follower(v.size, Some(ident), [], true), [])
  {
  }

  /** What the supervisor does: a follower that begins at the end of what it first finds yields, while
      the file only grows, exactly the complete lines of what is appended after that. */
  lemma FollowsAppended(v: View, seen: Bytes, views: seq<View>)
    requires |seen| == v.size && Grows(seen, v.ident, views)
    ensures var (g, lines) := Follow(Fresh(false), [v] + views);
            var last := Last(seen, views);
            v.size <= g.pos <= |last| && lines == Lines(last[v.size..g.pos]) && g.buf == Tail(last[v.size..g.pos])
  {
    FromEnd(v, v.ident);
    var f := Follower(v.size, Some(v.ident), [], true);
    assert ([v] + views)[1..] == views;
    assert seen[v.size..v.size] == [];
    GrowingFile(f, v.ident, v.size, seen, views);
    var (g, lines) := Follow(f, views);
    assert [] + lines == lines;
    assert Last(seen, views)[v.size..v.size] == [];
  }

  /** A replaced file is read from its top, exactly as a new follower would. */
  lemma RotationRestarts(f: Follower, v: View)
    requires f.started && f.ident.Some? && f.ident != Some(v.ident)
    ensures Poll(f, v) == Poll(Fresh(true), v)
  {
  }

  /** So is one truncated below what was read. */
  lemma TruncationRestarts(f: Follower, v: View)
    requires f.started && f.ident == Some(v.ident) && v.size < f.pos
    ensures Poll(f, v) == Poll(Fresh(true), v)
  {
  }

  lemma {:induction false} FollowAppend(f: Follower, one: seq<View>, two: seq<View>)
    ensures var (g, lines) := Follow(f, one);
            Follow(f, one + two) == (Follow(g, two).0, lines + Follow(g, two).1)
    decreases |one|
  {
    hide Poll;
    if one == [] {
      assert one + two == two;
      assert [] + Follow(f, two).1 == Follow(f, two).1;
    } else {
      assert (one + two)[1..] == one[1..] + two;
      var (g, lines) := Poll(f, one[0]);
      FollowAppend(g, one[1..], two);
      var (h, more) := Follow(g, one[1..]);
      assert lines + (more + Follow(h, two).1) == (lines + more) + Follow(h, two).1;
    }
  }

  /** A poll that finds another file, or this one shorter than what was read. */
  predicate FindsNewFile(f: Follower, v: View) {
    f.started && f.ident.Some? && (f.ident != Some(v.ident) || v.size < f.pos)
  }

  /** Over any polls, a new file starts a new account: what is yielded from there on is what a
      follower of that file alone, from its top, would yield, and the unfinished rest of the old
      file is dropped. */
  lemma NewFileNewAccount(f: Follower, one: seq<View>, two: seq<View>)
    requires two != [] && FindsNewFile(Follow(f, one).0, two[0])
    ensures Follow(f, one + two).1 == Follow(f, one).1 + Follow(Fresh(true), two).1
    ensures Follow(f, one + two).0 == Follow(Fresh(true), two).0
  {
    FollowAppend(f, one, two);
    var g := Follow(f, one).0;
    if g.ident != Some(two[0].ident) {
      RotationRestarts(g, two[0]);
    } else {
      TruncationRestarts(g, two[0]);
    }
  }

  /** rstrip of carriage returns. */
  function Chomp(line: Bytes): Bytes {
    if line != [] && line[|line| - 1] == 13 then Chomp(line[..|line| - 1]) else line
  }

  /** Stripping takes the carriage returns at the end of the line, all of them and nothing else. */
  lemma {:induction false} ChompExactly(line: Bytes)
    ensures Chomp(line) <= line
    ensures forall i :: |Chomp(line)| <= i < |line| ==> line[i] == 13
    ensures Chomp(line) != [] ==> Chomp(line)[|Chomp(line)| - 1] != 13
  {
    if line != [] && line[|line| - 1] == 13 {
      ChompExactly(line[..|line| - 1]);
    }
  }

  /** Each line stripped, none added or dropped. */
  lemma {:induction false} ChompedExactly(lines: seq<Bytes>)
    ensures |Chomped(lines)| == |lines|
    ensures forall i :: 0 <= i < |lines| ==> Chomped(lines)[i] == Chomp(lines[i])
  {
    if lines != [] { ChompedExactly(lines[..|lines| - 1]); }
  }

  function Chomped(lines: seq<Bytes>): seq<Bytes> {
    if lines == [] then [] else Chomped(lines[..|lines| - 1]) + [Chomp(lines[|lines| - 1])]
  }

  class LogFollower {
    var pos: nat
    var ident: Option<int>
    var buf: Bytes
    var started: bool

    function Value(): Follower
      reads this
    {
      Follower(pos, ident, buf, started)
    }

    constructor (fromStart: bool)
      ensures Value() == Fresh(fromStart)
    {
      pos, ident, buf, started := 0, None, [], fromStart;
    }

    /** One turn of the loop; a file that cannot be found changes nothing. */
    method PollOnce(found: Option<View>) returns (yielded: seq<Bytes>)
      modifies this
      ensures found.None? ==> Value() == old(Value()) && yielded == []
      ensures found.Some? ==>
                Value() == Poll(old(Value()), found.value).0 && yielded == Chomped(Poll(old(Value()), found.value).1)
    {
      yielded := [];
      if found.None? { return; }
      var v := found.value;
      if ident.Some? && ident != Some(v.ident) {
        pos, buf := 0, [];
      }
      ident := Some(v.ident);
      if !started {
        pos, started := v.size, true;
      } else if v.size < pos {
        pos, buf := 0, [];
      }
      if v.size > pos && v.content.Some? {
        var chunk := [];
        if pos <= |v.content.value| {
          chunk, pos := v.content.value[pos..], |v.content.value|;
        }
        buf := buf + chunk;
        var lines := Lines(buf);
        buf := Tail(buf);
        var n := 0;
        while n < |lines|
          invariant n <= |lines|
          invariant yielded == Chomped(lines[..n])
        {
          assert lines[..n + 1][..n] == lines[..n];
          yielded := yielded + [Chomp(lines[n])];
          n := n + 1;
        }
        assert lines[..n] == lines;
      }
    }
  }
}
