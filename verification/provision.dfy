/**
 * Creating a server (provision.py): everything that may stop it, what the
 * cleanup undoes, and what a cancelled command leaves behind.
 */
module Provisioning {
  import opened Options

  /** The directory the server is to live in. Its contents are named entries. */
  datatype Place = Missing | NotADirectory | Directory(entries: set<string>)

  datatype Software = Paper | Vanilla | Velocity | Unsupported

  predicate NeedsEula(s: Software) {
    s.Paper? || s.Vanilla?
  }

  function ConfigFiles(s: Software): set<string> {
    match s
    case Velocity => {"velocity.toml"}
    case Unsupported => {}
    case _ => {"server.properties"}
  }

  /** How a step ends: by itself, with an exception, or because the command's task was cancelled. */
  datatype Ending = Fine | Raises | Cancelled

  datatype Result = Created | Refused | Failed | Abandoned

  /** One look during the first run: the session is there or not, and what the directory holds. */
  datatype Look = Look(clock: int, alive: bool, entries: set<string>)

  datatype FirstRun = Generated | DiedAtOnce | TimedOut | Incomplete

  /** The first run is over at a look that finds the session gone or every configuration file there. */
  predicate Over(look: Look, expected: set<string>) {
    !look.alive || expected <= look.entries
  }

  ghost predicate OverInTime(looks: seq<Look>, expected: set<string>, deadline: int) {
    exists k :: 0 <= k < |looks| && Over(looks[k], expected) && forall j :: 0 <= j <= k ==> looks[j].clock < deadline
  }

  /**
   * The polling loop.  Configuration counts as generated exactly when the
   * launch did not fail with files missing, some look before the deadline found
   * the run over, and every file is there at the end.
   */
  method GenerateConfig(kind: Software, launchFailed: bool, atLaunch: set<string>, looks: seq<Look>,
                        deadline: int, atEnd: set<string>)
    returns (r: FirstRun)
    requires looks != [] && looks[|looks| - 1].clock >= deadline
    ensures r.DiedAtOnce? <==> launchFailed && !(ConfigFiles(kind) <= atLaunch)
    ensures !r.DiedAtOnce? ==> (r.TimedOut? <==> !OverInTime(looks, ConfigFiles(kind), deadline))
    ensures r.Generated? <==>
              && !(launchFailed && !(ConfigFiles(kind) <= atLaunch))
              && OverInTime(looks, ConfigFiles(kind), deadline) && ConfigFiles(kind) <= atEnd
    ensures r.Generated? && (kind.Paper? || kind.Vanilla?) ==> "server.properties" in atEnd
    ensures r.Generated? && kind.Velocity? ==> "velocity.toml" in atEnd
  {
    var expected := ConfigFiles(kind);
    if launchFailed && !(expected <= atLaunch) { return DiedAtOnce; }
    var finished, n := false, 0;
    while looks[n].clock < deadline && !finished
      invariant 0 <= n < |looks|
      invariant forall j :: 0 <= j < n ==> looks[j].clock < deadline
      invariant !finished ==> forall j :: 0 <= j < n ==> !Over(looks[j], expected)
      invariant finished ==> Over(looks[n], expected) && looks[n].clock < deadline
      decreases |looks| - n, !finished
    {
      if !looks[n].alive {
        finished := true;
      } else if expected <= looks[n].entries {
        finished := true;
      } else {
        n := n + 1;
      }
    }
    if !finished {
      assert !OverInTime(looks, expected, deadline);
      return TimedOut;
    }
    assert OverInTime(looks, expected, deadline);
    if !(expected <= atEnd) { return Incomplete; }
    r := Generated;
  }

  /** Entry k survives: it cannot be deleted, or a plain file listed before it cannot. */
  ghost predicate Spared(listing: seq<string>, dirs: set<string>, stuck: set<string>, k: nat)
    requires k < |listing|
  {
    listing[k] in stuck || exists j :: 0 <= j < k && listing[j] in stuck && listing[j] !in dirs
  }

  /** What the cleanup has to work with: the order it lists the directory in, which entries are
      directories, and what cannot be deleted. */
  datatype Cleaning = Cleaning(
    listing: set<string> -> seq<string>, dirs: set<string>, stuck: set<string>, rootStuck: bool)

  ghost predicate Lists(c: Cleaning) {
    forall es ::
      && (forall e :: e in c.listing(es) <==> e in es)
      && (forall j, k :: 0 <= j < k < |c.listing(es)| ==> c.listing(es)[j] != c.listing(es)[k])
  }

  /** What a creation has written when a step raises; an eula.txt whose writing raised may be there. */
  function Written(update: Ending, updateLeaves: set<string>, run: Ending, runLeaves: set<string>, partial: bool)
    : set<string>
  {
    updateLeaves + (if update.Fine? then runLeaves else {})
    + (if update.Fine? && run.Fine? && partial then {"eula.txt"} else {})
  }

  class Site {
    var place: Place
    // The ids being provisioned, held out of the restart policy.
    var provisioning: set<string>

    constructor (place: Place)
      ensures this.place == place && provisioning == {}
    {
      this.place, provisioning := place, {};
    }

    /** Everything in the directory is ours, and the directory too if it was missing. What cannot be
        deleted stays, silently. When only emptying it, `listing` gives the order, and a plain file
        that cannot be deleted ends the loop, so everything listed after it stays as well. */
    method CleanUp(remove: bool, listing: seq<string>, dirs: set<string>, stuck: set<string>, rootStuck: bool)
      requires place.Directory? && forall e :: e in listing <==> e in place.entries
      requires forall j, k :: 0 <= j < k < |listing| ==> listing[j] != listing[k]
      modifies this`place
      ensures place.Missing? <==> remove && !rootStuck && old(place).entries * stuck == {}
      ensures !place.Missing? ==> place.Directory? && place.entries <= old(place).entries
      ensures remove && !place.Missing? ==> place.entries == old(place).entries * stuck
      ensures !remove ==> forall k :: 0 <= k < |listing| ==>
                (listing[k] in place.entries <==> Spared(listing, dirs, stuck, k))
      ensures place.Directory? && place.entries != {} <==> old(place).entries * stuck != {}
    {
      if remove {
        var left := place.entries * stuck;
        place := if left == {} && !rootStuck then Missing else Directory(left);
        return;
      }
      ghost var entries := place.entries;
      var n := 0;
      while n < |listing|
        invariant n <= |listing| && place.Directory? && place.entries <= entries
        invariant forall k :: 0 <= k < n ==> (listing[k] in place.entries <==> listing[k] in stuck)
        invariant forall k :: n <= k < |listing| ==> listing[k] in place.entries
        invariant forall k :: 0 <= k < n ==> !(listing[k] in stuck && listing[k] !in dirs)
      {
        if listing[n] !in stuck {
          place := Directory(place.entries - {listing[n]});
        } else if listing[n] !in dirs {
          assert forall k :: n <= k < |listing| ==> Spared(listing, dirs, stuck, k);
          assert listing[n] in place.entries && listing[n] in entries * stuck;
          return;
        }
        n := n + 1;
      }
      assert place.entries == entries * stuck by {
        assert forall e :: e in entries ==> e in listing;
      }
    }

    /**
     * A refused creation leaves the place exactly as it found it, and so does a
     * failed one if all it wrote can be deleted, and only then; the id is free.
     * A cancelled one skips the cleanup: whatever the steps so far wrote stays.
     */
    method Create(id: string, hasNodeRoot: bool, kind: Software, acceptEula: bool, jailed: bool,
                  mkdirRaises: bool, update: Ending, updateLeaves: set<string>,
                  run: Ending, runLeaves: set<string>, eulaRaises: bool, eulaPartial: bool, c: Cleaning)
      returns (r: Result)
      requires id !in provisioning && Lists(c)
      modifies this
      ensures r.Refused? <==> !hasNodeRoot || kind.Unsupported? || !jailed
                              || ((kind.Paper? || kind.Vanilla?) && !acceptEula)
                              || old(place).NotADirectory? || (old(place).Directory? && old(place).entries != {})
      ensures r.Refused? ==> place == old(place)
      ensures r.Failed? ==>
                var written := Written(update, updateLeaves, run, runLeaves, NeedsEula(kind) && eulaPartial);
                (place == old(place) <==>
                   mkdirRaises || (written * c.stuck == {} && !(old(place).Missing? && c.rootStuck)))
      ensures r.Failed? && !mkdirRaises ==>
                var written := Written(update, updateLeaves, run, runLeaves, NeedsEula(kind) && eulaPartial);
                && !place.NotADirectory?
                && (place.Directory? && place.entries != {} <==> written * c.stuck != {})
      ensures provisioning == old(provisioning)
      ensures r.Abandoned? ==> place == Directory(updateLeaves + if update.Cancelled? then {} else runLeaves)
      ensures r.Created? ==>
                place == Directory(updateLeaves + runLeaves + if kind.Velocity? then {} else {"eula.txt"})
      ensures !r.Refused? ==>
                && (r.Abandoned? <==> !mkdirRaises && (update.Cancelled? || (update.Fine? && run.Cancelled?)))
                && (r.Created? <==> !mkdirRaises && update.Fine? && run.Fine? && !(NeedsEula(kind) && eulaRaises))
    {
      if !hasNodeRoot || kind.Unsupported? || (NeedsEula(kind) && !acceptEula) || !jailed { return Refused; }
      var existed := !place.Missing?;
      if existed && !place.Directory? { return Refused; }
      if existed && place.entries != {} { return Refused; }
      provisioning := provisioning + {id};
      var ending := Raises;
      if !mkdirRaises {
        if !existed { place := Directory({}); }
        place, ending := Directory(updateLeaves), update;
        if update.Fine? {
          place, ending := Directory(updateLeaves + runLeaves), run;
          if run.Fine? && NeedsEula(kind) {
            if eulaRaises {
              ending := Raises;
              if eulaPartial { place := Directory(place.entries + {"eula.txt"}); }
            } else {
              place := Directory(place.entries + {"eula.txt"});
            }
          }
        }
        if ending.Raises? {
          assert place.entries == Written(update, updateLeaves, run, runLeaves, NeedsEula(kind) && eulaPartial);
          CleanUp(!existed, c.listing(place.entries), c.dirs, c.stuck, c.rootStuck);
        }
      }
      provisioning := provisioning - {id};
      r := if ending.Fine? then Created else if ending.Cancelled? then Abandoned else Failed;
    }

    /** A creation that was cancelled blocks its own retry exactly when it had written something; one
        that failed does so exactly when something it wrote, or with it the directory it made, could
        not be deleted and is not empty. */
    method Retry(id: string, kind: Software, update: Ending, updateLeaves: set<string>, run: Ending,
                 runLeaves: set<string>, c: Cleaning)
      returns (first: Result, second: Result)
      requires id !in provisioning && !kind.Unsupported? && Lists(c)
      requires place.Missing? || place == Directory({})
      modifies this
      ensures first.Failed? ==>
                (second.Refused? <==> Written(update, updateLeaves, run, runLeaves, false) * c.stuck != {})
      ensures first.Failed? && !second.Refused? ==> second.Created?
      ensures first.Abandoned? ==>
                (second.Refused? <==> updateLeaves + (if update.Cancelled? then {} else runLeaves) != {})
    {
      first := Create(id, true, kind, true, true, false, update, updateLeaves, run, runLeaves, false, false, c);
      second := Create(id, true, kind, true, true, false, Fine, updateLeaves, Fine, runLeaves, false, false, c);
    }
  }
}
