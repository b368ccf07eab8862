/**
 * The server-binary updater (updater.py): a guarded download into a temporary
 * file, a backup of the current jar, an atomic swap, and pruning of old backups.
 */
module Updater {
  import opened Options
  import opened FileTrees

  const MAX_BYTES: nat := 500 * 1024 * 1024
  const KEEP_BACKUPS: nat := 5

  /** One look at the network: the time spent so far, and what the read then gives; an empty chunk
      is the end of the body and None a failed read. */
  datatype Read = Read(elapsed: int, chunk: Option<Content>)

  /** The chunks before the first empty one. */
  function Body(input: seq<Read>): (body: seq<Content>)
    ensures |body| <= |input|
  {
    if input == [] || input[0].chunk == None || input[0].chunk == Some([]) then []
    else [input[0].chunk.value] + Body(input[1..])
  }

  /** The body ended properly, every read in time. */
  predicate Complete(input: seq<Read>, timeout: int) {
    && input != [] && input[0].elapsed <= timeout && input[0].chunk.Some?
    && (input[0].chunk == Some([]) || Complete(input[1..], timeout))
  }

  lemma {:induction false} JoinedPrepend(a: Content, rest: seq<Content>)
    ensures Joined([a] + rest) == a + Joined(rest)
  {
    if rest == [] {
      assert [a] + rest == [a];
      assert Joined([a]) == Joined([]) + a;
    } else {
      assert ([a] + rest)[..|rest|] == [a] + rest[..|rest| - 1];
      JoinedPrepend(a, rest[..|rest| - 1]);
    }
  }

  /**
   * A download succeeds exactly when the body ends in time, fits the limit and
   * has the expected digest; the file then holds the body and nothing else, and
   * the digest was taken over those very bytes.
   */
  method Download(input: seq<Read>, digest: Content -> string, expected: string, timeout: int, maxBytes: nat)
    returns (ok: bool, file: Content)
    ensures ok <==>
              Complete(input, timeout) && |Joined(Body(input))| <= maxBytes && digest(Joined(Body(input))) == expected
    ensures ok ==> file == Joined(Body(input))
    ensures |file| <= maxBytes
  {
    hide Body; hide Complete; hide Joined;
    var n, total := 0, 0;
    file := [];
    Unread(input, 0, timeout);
    while n < |input|
      invariant n <= |input|
      invariant total == |file| <= maxBytes
      invariant Joined(Body(input)) == file + Joined(Body(input[n..]))
      invariant Complete(input, timeout) <==> Complete(input[n..], timeout)
    {
      var read := input[n];
      Unread(input, n, timeout);
      if read.elapsed > timeout || read.chunk.None? { return false, file; }
      if read.chunk.value == [] {
        assert file + [] == file;
        return digest(file) == expected, file;
      }
      total := total + |read.chunk.value|;
      if total > maxBytes { return false, file; }
      file := file + read.chunk.value;
      n := n + 1;
    }
    Unread(input, |input|, timeout);
    ok := false;
  }

  /** A body is complete exactly if some read is its end and no read up to there failed or came late;
      it is then the chunks before that one. */
  lemma {:induction false} CompleteExactly(input: seq<Read>, timeout: int)
    ensures Complete(input, timeout) <==>
              exists n :: 0 <= n < |input| && EndsAt(input, timeout, n)
    ensures forall n :: 0 <= n < |input| && EndsAt(input, timeout, n) ==>
              |Body(input)| == n && forall k :: 0 <= k < n ==> Some(Body(input)[k]) == input[k].chunk
  {
    if input != [] {
      CompleteExactly(input[1..], timeout);
      forall n | 0 <= n < |input| && EndsAt(input, timeout, n)
        ensures Complete(input, timeout)
        ensures |Body(input)| == n && forall k :: 0 <= k < n ==> Some(Body(input)[k]) == input[k].chunk
      {
        if n > 0 { assert EndsAt(input[1..], timeout, n - 1); }
      }
      if Complete(input, timeout) {
        if input[0].chunk == Some([]) {
          assert EndsAt(input, timeout, 0);
        } else {
          var n :| 0 <= n < |input[1..]| && EndsAt(input[1..], timeout, n);
          assert EndsAt(input, timeout, n + 1);
        }
      }
    }
  }

  /** Read n is the first empty chunk, and everything up to it came in time. */
  predicate EndsAt(input: seq<Read>, timeout: int, n: nat)
    requires n < |input|
  {
    && input[n].chunk == Some([])
    && (forall k :: 0 <= k < n ==> input[k].chunk.Some? && input[k].chunk != Some([]))
    && forall k :: 0 <= k <= n ==> input[k].elapsed <= timeout
  }

  /** What one more read contributes to the body. */
  lemma Unread(input: seq<Read>, n: nat, timeout: int)
    requires n <= |input|
    ensures n == 0 ==> input[n..] == input
    ensures n == |input| ==> !Complete(input[n..], timeout)
    ensures n < |input| && (input[n].elapsed > timeout || input[n].chunk.None?) ==> !Complete(input[n..], timeout)
    ensures n < |input| && input[n].elapsed <= timeout && input[n].chunk == Some([]) ==>
              Complete(input[n..], timeout) && Joined(Body(input[n..])) == []
    ensures n < |input| && input[n].elapsed <= timeout && input[n].chunk.Some? && input[n].chunk.value != [] ==>
              && (Complete(input[n..], timeout) <==> Complete(input[n + 1..], timeout))
              && Joined(Body(input[n..])) == input[n].chunk.value + Joined(Body(input[n + 1..]))
  {
    if n < |input| && input[n].chunk.Some? {
      assert input[n..][1..] == input[n + 1..];
      JoinedPrepend(input[n].chunk.value, Body(input[n + 1..]));
    }
  }

  /** A listing names every file once. */
  ghost predicate Lists(files: seq<string>, names: set<string>) {
    (forall f :: f in files <==> f in names) && (forall j, k :: 0 <= j < k < |files| ==> files[j] != files[k])
  }

  /** The names that pruning spares whatever happens. */
  function Newest(files: seq<string>): seq<string> {
    if |files| > KEEP_BACKUPS then files[|files| - KEEP_BACKUPS..] else files
  }

  datatype Result = Updated(backup: Option<string>) | Refused | Failed

  /** Which steps raise. */
  datatype Faults = Faults(mkdir: bool, copyStops: Option<nat>, swap: bool, listing: bool, unlink: bool)

  class InstanceRoot {
    var jar: Option<Content>
    var tmp: Option<Content>
    var backups: map<string, Content>
    // Everything else under the root: worlds, plugins, configuration.
    var others: map<Path, Content>

    constructor (jar: Option<Content>, backups: map<string, Content>, others: map<Path, Content>)
      ensures this.jar == jar && tmp == None && this.backups == backups && this.others == others
    {
      this.jar, tmp, this.backups, this.others := jar, None, backups, others;
    }

    /** _prune_backups. `files` is the sorted listing; the newest KEEP_BACKUPS always stay, and every older
        one goes unless it cannot be deleted. */
    method PruneBackups(files: seq<string>, stuck: set<string>)
      requires Lists(files, backups.Keys)
      modifies this`backups
      ensures forall b :: b in backups <==> b in old(backups) && (b in Newest(files) || b in stuck)
      ensures forall b :: b in backups ==> backups[b] == old(backups)[b]
    {
      var n, gone := 0, if |files| > KEEP_BACKUPS then |files| - KEEP_BACKUPS else 0;
      while n < gone
        invariant n <= gone
        invariant forall k :: 0 <= k < |files| ==> (files[k] in backups <==> k >= n || files[k] in stuck)
        invariant forall b :: b in backups ==> b in old(backups) && backups[b] == old(backups)[b]
      {
        if files[n] !in stuck {
          backups := backups - {files[n]};
        }
        n := n + 1;
      }
      assert Newest(files) == files[gone..];
    }

    /** A copy of the current jar beside it, whole or cut short. */
    method BackUp(stamp: string, stops: Option<nat>) returns (ok: bool)
      requires jar.Some?
      modifies this`backups
      ensures ok <==> stops.None?
      ensures backups.Keys == old(backups.Keys) + {stamp} && (ok ==> backups[stamp] == jar.value)
      ensures forall b :: b in old(backups) && b != stamp ==> backups[b] == old(backups)[b]
    {
      var whole := stops.None? || stops.value > |jar.value|;
      backups := backups[stamp := if whole then jar.value else jar.value[..stops.value]];
      ok := stops.None?;
    }

    /**
     * The swap.  Reported done: the jar holds exactly the downloaded bytes and
     * the replaced one was copied aside first; its copy is kept if its name is
     * among the newest.  Reported failed: the original is untouched, unless the
     * step that raised came after the swap; that is the listing of old backups,
     * and only then is a failed update installed.  Nothing but the jar, its
     * backups and the temporary file is touched; the temporary file is left only
     * by an update that did not swap it in and could not delete it.
     */
    method ApplyUpdate(input: seq<Read>, digest: Content -> string, expected: string, timeout: int, allowCreate: bool,
                       stamp: string, sorted: set<string> -> seq<string>, stuck: set<string>, f: Faults)
      returns (r: Result)
      requires tmp == None
      requires forall names :: Lists(sorted(names), names)
      modifies this`jar, this`tmp, this`backups
      ensures tmp.Some? ==> r.Failed? && f.unlink && jar == old(jar)
      ensures r.Refused? <==> old(jar).None? && !allowCreate
      ensures var swapped := !r.Refused? && !f.mkdir && Delivers(input, digest, expected, timeout)
                             && (old(jar).Some? ==> f.copyStops.None?) && !f.swap;
              && (r.Updated? <==> swapped && !f.listing)
              && jar == if swapped then Some(Joined(Body(input))) else old(jar)
      ensures r.Updated? ==> (r.backup == if old(jar).Some? then Some(stamp) else None)
      ensures var names := old(backups.Keys) + if old(jar).Some? then {stamp} else {};
              r.Updated? ==> forall b :: b in backups <==> b in names && (b in Newest(sorted(names)) || b in stuck)
      ensures r.Updated? && stamp in backups && old(jar).Some? ==> backups[stamp] == old(jar).value
      ensures !r.Updated? ==> old(backups.Keys) <= backups.Keys <= old(backups.Keys) + {stamp}
      ensures forall b :: b in backups && b in old(backups) && b != stamp ==> backups[b] == old(backups)[b]
    {
      hide Body; hide Complete; hide Joined; hide Newest; hide Lists;
      if jar.None? && !allowCreate { return Refused; }
      if f.mkdir { return Failed; }
      var ok, file := Download(input, digest, expected, timeout, MAX_BYTES);
      tmp := Some(file);
      var backup: Option<string> := None;
      if ok && jar.Some? {
        backup := Some(stamp);
        ok := BackUp(stamp, f.copyStops);
      }
      if ok && !f.swap {
        jar, tmp := tmp, None;
        if !f.listing {
          assert backups.Keys == old(backups.Keys) + if old(jar).Some? then {stamp} else {};
          PruneBackups(sorted(backups.Keys), stuck);
          return Updated(backup);
        }
      }
      if !f.unlink {
        tmp := None;
      }
      r := Failed;
    }
  }

  /** The server delivers a whole body in time, within the limit, with the expected digest. */
  predicate Delivers(input: seq<Read>, digest: Content -> string, expected: string, timeout: int) {
    Complete(input, timeout) && |Joined(Body(input))| <= MAX_BYTES && digest(Joined(Body(input))) == expected
  }
}
