/**
 * Installing a Java runtime (java.py, install and _sweep), with a failure
 * possible at every step.
 */
module JavaInstalls {
  import opened Options

  /** What can stand in the managed directory: the stable path of a release, and the dot-names of
      one install, told apart by its tag. */
  datatype Name = Managed(feature: nat) | Archive(tag: string) | Staging(tag: string) | Old(tag: string)

  /** A runtime as the probe sees it, or anything that is not one. */
  datatype Item = Runtime(build: string, major: Option<nat>, starts: bool) | Debris

  predicate Verified(i: Item, feature: nat) {
    i.Runtime? && i.starts && i.major == Some(feature)
  }

  predicate IsLeftover(n: Name) {
    !n.Managed?
  }

  /** Which steps raise, before or after the downloaded file exists, and what cannot be deleted.
      Directories that cannot are passed over; for a file it raises. `listing` is whether the
      directory can be listed at all. */
  datatype Faults = Faults(
    mkdir: bool, listing: bool, connect: bool, download: bool, unpack: bool, moveAside: bool, moveIn: bool,
    putBack: bool, stuck: set<Name>)

  /** The sweep comes to a leftover file it cannot delete. */
  predicate SweepRaises(items: map<Name, Item>, installing: set<nat>, f: Faults) {
    |installing| <= 1 && f.listing && exists n :: n in items && n.Archive? && n in f.stuck
  }

  /** Nothing raised before the runtime is moved into place: it was fetched, it starts, and it is
      exactly the release asked for. */
  predicate Prepared(items: map<Name, Item>, installing: set<nat>, content: Item, feature: nat, f: Faults) {
    && !f.mkdir && !SweepRaises(items, installing, f) && !f.connect && !f.download && !f.unpack
    && content.Runtime? && content.starts && content.major == Some(feature)
  }

  datatype Result = Refused | Installed(runtime: Item) | Failed

  function At(items: map<Name, Item>, n: Name): Option<Item> {
    if n in items then Some(items[n]) else None
  }

  class JavaDir {
    var items: map<Name, Item>
    var installing: set<nat>

    constructor ()
      ensures items == map[] && installing == {}
    {
      items, installing := map[], {};
    }

    /** Drops what an agent killed mid-install left, only while this is the sole install running and
        the directory can be listed. Directories that cannot be deleted stay; a file that cannot
        raises, with what was not reached yet still there. */
    method Sweep(f: Faults) returns (ok: bool)
      modifies this`items
      ensures ok <==> !SweepRaises(old(items), installing, f)
      ensures forall n: Name :: n.Managed? ==> At(items, n) == At(old(items), n)
      ensures forall n :: n in items ==> n in old(items) && items[n] == old(items)[n]
      ensures |installing| > 1 || !f.listing ==> items == old(items)
      ensures |installing| <= 1 && f.listing && ok ==>
                forall n: Name :: n in old(items) && !n.Managed? ==> (n in items <==> n in f.stuck)
    {
      ok := true;
      if |installing| > 1 || !f.listing { return; }
      var left := set n | n in items && IsLeftover(n);
      while left != {}
        invariant forall n :: n in left <==> n in items && IsLeftover(n) && !(n in f.stuck && n !in left)
        invariant forall n :: n in old(items) && IsLeftover(n) && n !in left ==>
                    (n in items <==> n in f.stuck) && !(n.Archive? && n in f.stuck)
        invariant left <= old(items).Keys
        invariant forall n: Name :: n.Managed? ==> At(items, n) == At(old(items), n)
        invariant forall n :: n in items ==> n in old(items) && items[n] == old(items)[n]
        decreases left
      {
        var n :| n in left;
        if n in f.stuck && n.Archive? { return false; }
        if n !in f.stuck {
          items := items - {n};
        }
        left := left - {n};
      }
    }

    /** The part of an install that may raise anywhere: download, unpack, probe, move into place. It
        works exactly if nothing raised and the runtime starts and says it is that release. */
    method Attempt(feature: nat, tag: string, content: Item, f: Faults) returns (ok: bool)
      requires Archive(tag) !in items && Staging(tag) !in items && Old(tag) !in items
      modifies this`items
      ensures ok <==>
                && Prepared(old(items), installing, content, feature, f)
                && !(f.moveAside && Managed(feature) in old(items)) && !f.moveIn
      ensures ok ==> At(items, Managed(feature)) == Some(content)
      ensures ok ==> content.Runtime? && content.starts && content.major == Some(feature)
      ensures !ok ==>
                At(items, Managed(feature)) ==
                if Prepared(old(items), installing, content, feature, f) && !f.moveAside && f.moveIn && f.putBack
                then None else At(old(items), Managed(feature))
      ensures Archive(tag) in items <==> !f.mkdir && !SweepRaises(old(items), installing, f) && !f.connect
      ensures forall n: Name :: n.Managed? && n != Managed(feature) ==> At(items, n) == At(old(items), n)
      ensures forall n ::
                n in items && !n.Managed? && n !in {Archive(tag), Staging(tag), Old(tag)} ==> n in old(items)
    {
      if f.mkdir { return false; }
      var swept := Sweep(f);
      if !swept { return false; }
      if f.connect { return false; }
      items := items[Archive(tag) := Debris];
      if f.download { return false; }
      items := items[Staging(tag) := if f.unpack then Debris else content];
      if f.unpack { return false; }
      if !Verified(content, feature) { return false; }
      ok := MoveIn(feature, tag, content, f);
    }

    /** The verified runtime takes the release path; if it cannot, the old one is put back. */
    method MoveIn(feature: nat, tag: string, content: Item, f: Faults) returns (ok: bool)
      requires Staging(tag) in items && items[Staging(tag)] == content && Old(tag) !in items
      modifies this`items
      ensures ok <==> !(f.moveAside && Managed(feature) in old(items)) && !f.moveIn
      ensures At(items, Managed(feature)) ==
              if ok then Some(content)
              else if !f.moveAside && f.moveIn && f.putBack then None
              else At(old(items), Managed(feature))
      ensures forall n :: n !in {Managed(feature), Staging(tag), Old(tag)} ==>
                (n in items <==> n in old(items)) && (n in items ==> items[n] == old(items)[n])
    {
      var final := Managed(feature);
      if final in items {
        if f.moveAside { return false; }
        items := items[Old(tag) := items[final]] - {final};
      }
      if f.moveIn {
        if Old(tag) in items && final !in items && !f.putBack {
          items := items[final := items[Old(tag)]] - {Old(tag)};
        }
        return false;
      }
      items := items[final := items[Staging(tag)]][Staging(tag) := Debris];
      ok := true;
    }

    /**
     * The release path afterwards holds what it held or a runtime probed as
     * exactly that major.  It is lost only when the new one could not be moved
     * in and the old one could not be put back.  Of the install's own names only
     * what cannot be deleted is left, other releases are untouched, and the
     * release can be installed again exactly when the downloaded archive is gone.
     */
    method Install(feature: nat, requestOk: bool, tag: string, content: Item, f: Faults) returns (r: Result)
      requires Archive(tag) !in items && Staging(tag) !in items && Old(tag) !in items
      modifies this
      ensures r.Refused? <==> !requestOk || feature in old(installing)
      ensures r.Refused? ==> items == old(items) && installing == old(installing)
      ensures r.Installed? ==> r.runtime == content
      ensures r.Installed? ==> content.Runtime? && content.starts && content.major == Some(feature)
      ensures !r.Refused? ==>
                (r.Installed? <==>
                   && Prepared(old(items), old(installing) + {feature}, content, feature, f)
                   && !(f.moveAside && Managed(feature) in old(items)) && !f.moveIn && Archive(tag) !in f.stuck)
      ensures At(items, Managed(feature)) in {At(old(items), Managed(feature)), None, Some(content)}
      ensures At(items, Managed(feature)) == Some(content) && At(old(items), Managed(feature)) != Some(content) ==>
                content.Runtime? && content.starts && content.major == Some(feature)
      ensures r.Installed? ==> At(items, Managed(feature)) == Some(content)
      ensures Managed(feature) !in items && Managed(feature) in old(items) ==> f.moveIn && f.putBack && !f.moveAside
      ensures r.Failed? && At(items, Managed(feature)) !in {None, At(old(items), Managed(feature))} ==>
                Archive(tag) in items
      ensures Archive(tag) in items <==>
                && !r.Refused? && Archive(tag) in f.stuck
                && !f.mkdir && !SweepRaises(old(items), old(installing) + {feature}, f) && !f.connect
      ensures !r.Refused? ==> installing == old(installing) + if Archive(tag) in items then {feature} else {}
      ensures forall n :: n in {Staging(tag), Old(tag)} && n in items ==> n in f.stuck
      ensures forall n: Name :: n.Managed? && n != Managed(feature) ==> At(items, n) == At(old(items), n)
      ensures forall n ::
                n in items && !n.Managed? && n !in {Archive(tag), Staging(tag), Old(tag)} ==> n in old(items)
    {
      if !requestOk { return Refused; }
      if feature in installing { return Refused; }
      installing := installing + {feature};
      var ok := Attempt(feature, tag, content, f);
      // finally
      items := items - ({Staging(tag), Old(tag)} - f.stuck);
      if Archive(tag) in items && Archive(tag) in f.stuck {
        r := Failed;
      } else {
        items := items - {Archive(tag)};
        installing := installing - {feature};
        r := if ok then Installed(content) else Failed;
      }
    }
  }

  /** A release whose archive could not be deleted refuses every later install, whatever it brings; any
      other outcome leaves it open. */
  method StuckRelease(d: JavaDir, feature: nat, tag: string, again: string, content: Item, f: Faults, g: Faults)
    returns (left: bool, r: Result)
    requires Archive(tag) !in d.items && Staging(tag) !in d.items && Old(tag) !in d.items
    requires tag != again && Archive(again) !in d.items && Staging(again) !in d.items && Old(again) !in d.items
    requires feature !in d.installing
    modifies d
    ensures r.Refused? <==> left
    ensures left <==>
              && Archive(tag) in f.stuck
              && !f.mkdir && !SweepRaises(old(d.items), old(d.installing) + {feature}, f) && !f.connect
  {
    var first := d.Install(feature, true, tag, content, f);
    left := Archive(tag) in d.items;
    r := d.Install(feature, true, again, content, g);
  }
}
