/**
 * Extraction of a planned archive (archive.py, _finish and the planning loops
 * of _do_zip and _do_tar): conflict check, one temporary file per member,
 * rollback when any step raises.
 */
module Extraction {
  import opened Options
  import opened FileTrees
  import opened Selections

  datatype Entry =
    | FileEntry(target: Path, rel: string, content: Content)
    | DirEntry(target: Path, rel: string)

  /** What goes wrong at one entry, if anything: the parents are only partly made, the copy into
      the temporary file stops midway, or the final rename is refused. */
  datatype Fault = Fine | MkdirFails(made: nat) | WriteFails(partial: Content) | ReplaceFails

  datatype Outcome =
    | Conflicts(paths: seq<string>, count: nat)
    | Extracted(count: nat)
    | Raised

  const MAX_CONFLICTS: nat := 200

  /** by_rel after planning: each name stands for the last member that bears it. */
  function ByRel(plan: seq<Entry>): map<string, Entry> {
    if plan == [] then map[] else ByRel(plan[..|plan| - 1])[plan[|plan| - 1].rel := plan[|plan| - 1]]
  }

  /** The bytes write_one copies for an entry's name; none when the name stands for a directory. */
  function Source(byRel: map<string, Entry>, e: Entry): Option<Content> {
    if e.rel in byRel && byRel[e.rel].FileEntry? then Some(byRel[e.rel].content) else None
  }

  /** The last of the given entries that wrote `p`, and what it wrote. */
  function LastWrite(plan: seq<Entry>, byRel: map<string, Entry>, p: Path): Option<Content> {
    if plan == [] then None
    else
      var e := plan[|plan| - 1];
      if e.FileEntry? && e.target == p && Source(byRel, e).Some? then Source(byRel, e)
      else LastWrite(plan[..|plan| - 1], byRel, p)
  }

  function Targets(plan: seq<Entry>): set<Path> {
    set e | e in plan && e.FileEntry? :: e.target
  }

  /** Names of the file entries whose target already exists, in plan order. */
  function Clashes(plan: seq<Entry>, t: Tree): seq<string> {
    if plan == [] then []
    else Clashes(plan[..|plan| - 1], t)
         + (if plan[|plan| - 1].FileEntry? && plan[|plan| - 1].target in t then [plan[|plan| - 1].rel] else [])
  }

  /** A temporary name is fresh: nothing stands there and no target lies at or below it. */
  ghost predicate FreshPart(part: Path, plan: seq<Entry>, t: Tree) {
    part !in t && forall e :: e in plan ==> !IsPrefix(part, e.target)
  }

  function Parent(p: Path): Path {
    if p == [] then [] else p[..|p| - 1]
  }

  /** The directory an entry needs: itself, or the one its file goes into. */
  function HomeOf(e: Entry): Path {
    if e.DirEntry? then e.target else Parent(e.target)
  }

  /** The fault does not come into play at this entry. */
  predicate Harmless(fault: Fault, e: Entry, byRel: map<string, Entry>) {
    && !(fault.MkdirFails? && fault.made <= |HomeOf(e)|)
    && (e.FileEntry? ==> !fault.WriteFails? && !(fault.ReplaceFails? && Source(byRel, e).Some?))
  }

  /** No file stands on the way to the entry's directory, and no directory where its file goes. */
  ghost predicate Unobstructed(t: Tree, e: Entry, byRel: map<string, Entry>) {
    && PassableTo(t, HomeOf(e))
    && (e.FileEntry? && Source(byRel, e).Some? ==> e.target != [] && !DirAt(t, e.target))
  }

  class Disk {
    var tree: Tree

    constructor (tree: Tree)
      ensures this.tree == tree
    {
      this.tree := tree;
    }

    /** mkdir(parents=True, exist_ok=True). It raises at a file on the way, or when cut short. */
    method MakeDirs(p: Path, fault: Fault) returns (ok: bool)
      modifies this
      ensures forall q :: FileAt(tree, q) == FileAt(old(tree), q)
      ensures forall q :: q in old(tree) ==> q in tree && tree[q] == old(tree)[q]
      ensures forall q :: q in tree && q !in old(tree) ==> IsPrefix(q, p)
      ensures ok ==> forall k :: 0 <= k <= |p| ==> DirAt(tree, p[..k])
      ensures ok ==> forall q :: DirAt(tree, q) <==> DirAt(old(tree), q) || IsPrefix(q, p)
      ensures ok <==> !(fault.MkdirFails? && fault.made <= |p|) && PassableTo(old(tree), p)
    {
      var n := 0;
      ghost var was := tree;
      while n <= |p|
        invariant n <= |p| + 1
        invariant forall q :: q in was ==> q in tree && tree[q] == was[q]
        invariant forall q :: q in tree && q !in was ==> tree[q].Dir? && IsPrefix(q, p)
        invariant forall k :: 0 <= k < n ==> DirAt(tree, p[..k])
        invariant forall k :: 0 <= k < n ==> FileAt(was, p[..k]) == None
        invariant fault.MkdirFails? ==> n <= fault.made
      {
        if fault.MkdirFails? && n >= fault.made { return false; }
        if FileAt(tree, p[..n]) != None {
          assert !PassableTo(was, p);
          return false;
        }
        if p[..n] !in tree {
          tree := tree[p[..n] := Dir];
        }
        n := n + 1;
      }
      ok := true;
    }

    /** One file entry: the parents, the temporary file, the rename, and the end of the temporary file,
        which is left only if the entry failed and it cannot be deleted. */
    method WriteEntry(e: Entry, byRel: map<string, Entry>, part: Path, fault: Fault, stuck: set<Path>)
      returns (ok: bool)
      requires e.FileEntry? && !IsPrefix(part, e.target) && part !in tree
      modifies this
      ensures part in tree ==> !ok && part in stuck
      ensures DirsKept(old(tree), tree)
      ensures forall q :: q in tree && q !in old(tree) ==> IsPrefix(q, e.target) || q == part
      ensures forall q :: q != part ==>
                FileAt(tree, q) ==
                if ok && q == e.target && Source(byRel, e).Some? then Source(byRel, e) else FileAt(old(tree), q)
      ensures ok <==> Harmless(fault, e, byRel) && Unobstructed(old(tree), e, byRel)
      ensures ok ==> forall q :: DirAt(tree, q) <==> DirAt(old(tree), q) || IsPrefix(q, HomeOf(e))
    {
      var was := tree;
      ok := MakeDirs(Parent(e.target), fault);
      assert forall q :: IsPrefix(q, Parent(e.target)) ==> IsPrefix(q, e.target);
      if !ok { return; }
      ghost var made := tree;
      ok := Deliver(e.target, Source(byRel, e), part, fault, stuck);
      forall q | q != part
        ensures FileAt(tree, q) ==
                if ok && q == e.target && Source(byRel, e).Some? then Source(byRel, e) else FileAt(was, q)
        ensures DirAt(tree, q) <==> DirAt(made, q)
        ensures q in tree ==> q in made || q == e.target
      {
        assert NodeAt(tree, q) ==
          if ok && Source(byRel, e).Some? && q == e.target then Some(File(Source(byRel, e).value)) else NodeAt(made, q);
      }
    }

    /** The copy into the temporary file, the rename, and the end of the temporary file. */
    method Deliver(target: Path, source: Option<Content>, part: Path, fault: Fault, stuck: set<Path>)
      returns (ok: bool)
      requires part != target && part !in tree
      modifies this
      ensures ok <==> !fault.WriteFails? && (source.Some? ==> !fault.ReplaceFails? && !DirAt(old(tree), target))
      ensures forall q :: q != part ==>
                NodeAt(tree, q) ==
                if ok && source.Some? && q == target then Some(File(source.value)) else NodeAt(old(tree), q)
      ensures part in tree <==> !ok && part in stuck
      ensures part in tree ==> tree[part].File?
    {
      ok := true;
      if fault.WriteFails? {
        tree := tree[part := File(fault.partial)];
        ok := false;
      } else {
        if source.Some? {
          tree := tree[part := File(source.value)];
        }
        if part in tree {
          if fault.ReplaceFails? || DirAt(tree, target) {
            ok := false;
          } else {
            tree := tree[target := tree[part]] - {part};
          }
        }
      }
      if part !in stuck {
        tree := tree - {part};
      }
    }

    method ExtractEntry(e: Entry, byRel: map<string, Entry>, part: Path, fault: Fault, stuck: set<Path>)
      returns (ok: bool)
      requires !IsPrefix(part, e.target) && part !in tree
      modifies this
      ensures part in tree ==> !ok && part in stuck
      ensures forall q :: q in tree && q !in old(tree) ==> IsPrefix(q, e.target) || q == part
      ensures DirsKept(old(tree), tree)
      ensures ok ==> Extracts(old(tree), tree, e, byRel)
      ensures !ok ==> forall q :: q != part ==> FileAt(tree, q) == FileAt(old(tree), q)
      ensures ok <==> Harmless(fault, e, byRel) && Unobstructed(old(tree), e, byRel)
      ensures ok ==> forall q :: DirAt(tree, q) <==> DirAt(old(tree), q) || IsPrefix(q, HomeOf(e))
    {
      if e.DirEntry? {
        ok := MakeDirs(e.target, fault);
        assert e.target[..|e.target|] == e.target;
      } else {
        ok := WriteEntry(e, byRel, part, fault, stuck);
      }
    }

    /** unlink of every created target, newest first; one that is not a file, or cannot be deleted, is
        passed over. */
    method RollBack(created: seq<Path>, stuck: set<Path>)
      modifies this
      ensures forall q :: FileAt(tree, q) == if q in created && q !in stuck then None else FileAt(old(tree), q)
      ensures forall q :: q in tree ==> q in old(tree) && tree[q] == old(tree)[q]
      ensures DirsKept(old(tree), tree)
    {
      var n := |created|;
      while n > 0
        invariant 0 <= n <= |created|
        invariant forall q ::
                    FileAt(tree, q) == if q in created[n..] && q !in stuck then None else FileAt(old(tree), q)
        invariant forall q :: q in tree ==> q in old(tree) && tree[q] == old(tree)[q]
        invariant DirsKept(old(tree), tree)
      {
        n := n - 1;
        assert created[n..] == [created[n]] + created[n + 1..];
        if FileAt(tree, created[n]).Some? && created[n] !in stuck {
          tree := tree - {created[n]};
        }
      }
    }

    /**
     * All or nothing, file by file.  Refused: nothing changes and the clashing
     * names are returned.  Done: every path holds what the last entry writing
     * it wrote; that happens exactly if no fault comes into play at any entry
     * and nothing is in its way, neither from before nor from the entries
     * before it.  Raised at some entry: the files the entries before it created
     * are gone again, but for those that cannot be deleted, and the others hold
     * what those entries left.  Directories are only added, and a temporary file
     * is left only if it cannot be deleted.
     */
    method Finish(plan: seq<Entry>, overwrite: bool, parts: seq<Path>, faults: seq<Fault>, stuck: set<Path>)
      returns (r: Outcome)
      requires |parts| == |plan| == |faults|
      requires forall part :: part in parts ==> FreshPart(part, plan, tree)
      modifies this
      ensures r.Conflicts? <==> Clashes(plan, old(tree)) != [] && !overwrite
      ensures r.Conflicts? ==> tree == old(tree) && Reports(r, Clashes(plan, old(tree)))
      ensures r.Extracted? <==>
                && (Clashes(plan, old(tree)) == [] || overwrite)
                && forall i :: 0 <= i < |plan| ==>
                     Harmless(faults[i], plan[i], ByRel(plan)) && ClearFor(plan, i, old(tree))
      ensures r.Extracted? ==>
                Done(plan, old(tree), tree) && Made(plan, |plan|, old(tree), tree) && r.count == FileCount(plan)
      ensures r.Raised? ==> exists n :: 0 <= n < |plan| && StoppedAt(plan, old(tree), tree, n, parts, stuck)
      ensures DirsKept(old(tree), tree)
      ensures forall part :: part in parts && part in tree ==> r.Raised? && part in stuck
    {
      hide Applied; hide StoppedAt; hide LastWrite; hide ByRel; hide Extracts; hide Targets;
      hide Harmless; hide Unobstructed; hide ClearFor; hide Made; hide DirAt; hide HomeOf;
      ghost var was := tree;
      var preexisting := set e | e in plan && e.FileEntry? && e.target in tree :: e.target;
      var conflicts := Clashes(plan, tree);
      if conflicts != [] && !overwrite {
        var shown := if |conflicts| < MAX_CONFLICTS then |conflicts| else MAX_CONFLICTS;
        return Conflicts(conflicts[..shown], |conflicts|);
      }
      var byRel := ByRel(plan);
      var created, count, n := [], 0, 0;
      AppliedToNone(plan, was);
      MadeNone(plan, was);
      while n < |plan|
        invariant n <= |plan| && count == FileCount(plan[..n])
        invariant Applied(plan, n, was, tree) && Made(plan, n, was, tree)
        invariant forall i :: 0 <= i < n ==> Harmless(faults[i], plan[i], byRel) && ClearFor(plan, i, was)
        invariant forall q :: q in created <==> q in Targets(plan[..n]) && q !in was
        invariant DirsKept(was, tree)
        invariant forall part :: part in parts ==> FreshPart(part, plan, tree)
      {
        var e := plan[n];
        assert parts[n] in parts && plan[n] in plan;
        ghost var before := tree;
        ClearIsUnobstructed(plan, n, was, tree);
        var ok := ExtractEntry(e, byRel, parts[n], faults[n], stuck);
        if !ok {
          RollBack(created, stuck);
          AppliedGivesStopped(plan, n, was, before, tree, parts, stuck);
          return Raised;
        }
        if e.FileEntry? {
          if e.target !in preexisting {
            created := created + [e.target];
          }
          count := count + 1;
        }
        AppliedStep(plan, n, was, before, tree);
        MadeStep(plan, n, was, before, tree);
        CountStep(plan, n);
        n := n + 1;
      }
      AppliedToAll(plan, was, tree);
      return Extracted(count);
    }
  }

  ghost predicate DirsKept(was: Tree, now: Tree) {
    forall q :: DirAt(was, q) ==> DirAt(now, q)
  }

  function Overwritten(t: Tree, write: Option<Content>, p: Path): Option<Content> {
    if write.Some? then write else FileAt(t, p)
  }

  function FileCount(plan: seq<Entry>): nat {
    if plan == [] then 0 else FileCount(plan[..|plan| - 1]) + if plan[|plan| - 1].FileEntry? then 1 else 0
  }

  predicate Reports(r: Outcome, clashes: seq<string>) {
    && r.Conflicts?
    && r.count == |clashes|
    && r.paths == if |clashes| < MAX_CONFLICTS then clashes else clashes[..MAX_CONFLICTS]
  }

  ghost predicate Done(plan: seq<Entry>, was: Tree, now: Tree) {
    && (forall q :: FileAt(now, q) == Overwritten(was, LastWrite(plan, ByRel(plan), q), q))
    && (forall e :: e in plan && e.DirEntry? ==> DirAt(now, e.target))
  }

  /** An entry that was extracted: its file holds what its name stands for, or it is a directory. */
  ghost predicate Extracts(was: Tree, now: Tree, e: Entry, byRel: map<string, Entry>) {
    if e.DirEntry? then DirAt(now, e.target) && forall q :: FileAt(now, q) == FileAt(was, q)
    else forall q :: FileAt(now, q) == Overwritten(was, if q == e.target then Source(byRel, e) else None, q)
  }

  /** The first n entries have been extracted. */
  ghost predicate Applied(plan: seq<Entry>, n: nat, was: Tree, now: Tree)
    requires n <= |plan|
  {
    && (forall q :: FileAt(now, q) == Overwritten(was, LastWrite(plan[..n], ByRel(plan), q), q))
    && (forall e :: e in plan[..n] && e.DirEntry? ==> DirAt(now, e.target))
  }

  /** The directories are those there were and those the first n entries need. */
  ghost predicate Made(plan: seq<Entry>, n: nat, was: Tree, now: Tree)
    requires n <= |plan|
  {
    forall q :: DirAt(now, q) <==> DirAt(was, q) || NeededBefore(plan, n, q)
  }

  ghost predicate NeededBefore(plan: seq<Entry>, n: nat, q: Path)
    requires n <= |plan|
  {
    exists j :: 0 <= j < n && IsPrefix(q, HomeOf(plan[j]))
  }

  /** What stands at q once the first n entries are extracted. */
  function Standing(plan: seq<Entry>, n: nat, was: Tree, q: Path): Option<Content>
    requires n <= |plan|
  {
    Overwritten(was, LastWrite(plan[..n], ByRel(plan), q), q)
  }

  /** Nothing is in the way of entry n: no file, old or just written, on the way to its directory,
      and no directory, old or just made, where its file goes. */
  ghost predicate ClearFor(plan: seq<Entry>, n: nat, was: Tree)
    requires n < |plan|
  {
    var e := plan[n];
    && (forall k :: 0 <= k <= |HomeOf(e)| ==> Standing(plan, n, was, HomeOf(e)[..k]) == None)
    && (e.FileEntry? && Source(ByRel(plan), e).Some? ==>
          e.target != [] && !DirAt(was, e.target) && !NeededBefore(plan, n, e.target))
  }

  lemma MadeNone(plan: seq<Entry>, was: Tree)
    ensures Made(plan, 0, was, was)
  {
  }

  lemma MadeStep(plan: seq<Entry>, n: nat, was: Tree, before: Tree, now: Tree)
    requires n < |plan| && Made(plan, n, was, before)
    requires forall q :: DirAt(now, q) <==> DirAt(before, q) || IsPrefix(q, HomeOf(plan[n]))
    ensures Made(plan, n + 1, was, now)
  {
    hide DirAt; hide IsPrefix; hide HomeOf;
    forall q ensures DirAt(now, q) <==> DirAt(was, q) || NeededBefore(plan, n + 1, q) {
      assert DirAt(before, q) <==> DirAt(was, q) || NeededBefore(plan, n, q);
      if NeededBefore(plan, n + 1, q) {
        var j :| 0 <= j < n + 1 && IsPrefix(q, HomeOf(plan[j]));
        assert j < n ==> NeededBefore(plan, n, q);
      }
    }
  }

  lemma ClearIsUnobstructed(plan: seq<Entry>, n: nat, was: Tree, now: Tree)
    requires n < |plan| && Applied(plan, n, was, now) && Made(plan, n, was, now)
    ensures Unobstructed(now, plan[n], ByRel(plan)) <==> ClearFor(plan, n, was)
  {
    hide LastWrite; hide ByRel; hide Source; hide DirAt; hide FileAt; hide NeededBefore; hide HomeOf;
    var home := HomeOf(plan[n]);
    forall k | 0 <= k <= |home| ensures Standing(plan, n, was, home[..k]) == FileAt(now, home[..k]) {
    }
  }

  lemma AppliedToNone(plan: seq<Entry>, was: Tree)
    ensures Applied(plan, 0, was, was) && Targets(plan[..0]) == {} && FileCount(plan[..0]) == 0
  {
    assert plan[..0] == [];
  }

  lemma AppliedToAll(plan: seq<Entry>, was: Tree, now: Tree)
    requires Applied(plan, |plan|, was, now)
    ensures Done(plan, was, now) && FileCount(plan[..|plan|]) == FileCount(plan)
  {
    assert plan[..|plan|] == plan;
  }

  lemma AppliedDirs(plan: seq<Entry>, n: nat, before: Tree, now: Tree)
    requires n < |plan| && DirsKept(before, now) && (plan[n].DirEntry? ==> DirAt(now, plan[n].target))
    requires forall e :: e in plan[..n] && e.DirEntry? ==> DirAt(before, e.target)
    ensures forall e :: e in plan[..n + 1] && e.DirEntry? ==> DirAt(now, e.target)
  {
    hide DirAt;
    assert plan[..n + 1] == plan[..n] + [plan[n]];
    forall f | f in plan[..n + 1] && f.DirEntry? ensures DirAt(now, f.target) {
      if f in plan[..n] { assert DirAt(before, f.target); }
    }
  }

  lemma AppliedStep(plan: seq<Entry>, n: nat, was: Tree, before: Tree, now: Tree)
    requires n < |plan| && Applied(plan, n, was, before)
    requires Extracts(before, now, plan[n], ByRel(plan)) && DirsKept(before, now)
    ensures Applied(plan, n + 1, was, now)
  {
    hide FileAt; hide DirAt; hide ByRel; hide Source; hide LastWrite;
    AppliedDirs(plan, n, before, now);
    hide DirsKept;
    forall q ensures FileAt(now, q) == Overwritten(was, LastWrite(plan[..n + 1], ByRel(plan), q), q) {
      assert FileAt(before, q) == Overwritten(was, LastWrite(plan[..n], ByRel(plan), q), q);
      LastWriteStep(plan, n, ByRel(plan), q);
    }
  }

  lemma LastWriteStep(plan: seq<Entry>, n: nat, byRel: map<string, Entry>, p: Path)
    requires n < |plan|
    ensures LastWrite(plan[..n + 1], byRel, p) ==
              if plan[n].FileEntry? && plan[n].target == p && Source(byRel, plan[n]).Some? then Source(byRel, plan[n])
              else LastWrite(plan[..n], byRel, p)
  {
    assert plan[..n + 1][..n] == plan[..n];
  }

  lemma CountStep(plan: seq<Entry>, n: nat)
    requires n < |plan|
    ensures FileCount(plan[..n + 1]) == FileCount(plan[..n]) + if plan[n].FileEntry? then 1 else 0
    ensures Targets(plan[..n + 1]) == Targets(plan[..n]) + if plan[n].FileEntry? then {plan[n].target} else {}
  {
    assert plan[..n + 1][..n] == plan[..n] && plan[..n + 1] == plan[..n] + [plan[n]];
    TargetsAppend(plan[..n], plan[n]);
  }

  lemma AppliedGivesStopped(plan: seq<Entry>, n: nat, was: Tree, before: Tree, now: Tree, parts: seq<Path>,
                            stuck: set<Path>)
    requires n < |plan| && Applied(plan, n, was, before)
    requires forall q :: q !in parts ==>
               FileAt(now, q) ==
               if q in Targets(plan[..n]) && q !in was && q !in stuck then None else FileAt(before, q)
    ensures StoppedAt(plan, was, now, n, parts, stuck)
  {
  }

  /** Entry n raised. Temporary files aside, the files the entries before it created are absent again,
      unless they cannot be deleted, and the others hold what those entries left. */
  ghost predicate StoppedAt(plan: seq<Entry>, was: Tree, now: Tree, n: nat, parts: seq<Path>, stuck: set<Path>)
    requires n < |plan|
  {
    forall q :: q !in parts ==>
      FileAt(now, q) ==
      if q in Targets(plan[..n]) && q !in was && q !in stuck then None
      else Overwritten(was, LastWrite(plan[..n], ByRel(plan), q), q)
  }

  lemma TargetsAppend(plan: seq<Entry>, e: Entry)
    ensures Targets(plan + [e]) == Targets(plan) + if e.FileEntry? then {e.target} else {}
  {
    assert forall f :: f in plan + [e] <==> f in plan || f == e;
  }

  /** One name, one target: the target is resolved from the name. */
  ghost predicate Resolved(plan: seq<Entry>) {
    forall e, f :: e in plan && f in plan && e.rel == f.rel ==> e.target == f.target
  }

  /** Entry i is the last of the plan that names its target. */
  ghost predicate LastNaming(plan: seq<Entry>, i: nat)
    requires i < |plan|
  {
    forall j :: i < j < |plan| ==> plan[j].target != plan[i].target
  }

  /** Entry i is the last that bears the name. */
  ghost predicate LastBearing(plan: seq<Entry>, i: nat, rel: string) {
    i < |plan| && plan[i].rel == rel && forall j :: i < j < |plan| ==> plan[j].rel != rel
  }

  lemma {:induction false} ByRelIsLast(plan: seq<Entry>, rel: string)
    ensures rel in ByRel(plan) ==> exists i: nat :: LastBearing(plan, i, rel) && plan[i] == ByRel(plan)[rel]
    ensures (exists e :: e in plan && e.rel == rel) ==> rel in ByRel(plan)
  {
    if plan != [] {
      var n := |plan| - 1;
      var most, e := plan[..n], plan[n];
      assert ByRel(plan) == ByRel(most)[e.rel := e];
      hide ByRel;
      ByRelIsLast(most, rel);
      assert plan == most + [e];
      if e.rel == rel {
        assert LastBearing(plan, n, rel);
      } else if rel in ByRel(plan) {
        var i: nat :| LastBearing(most, i, rel) && most[i] == ByRel(most)[rel];
        assert LastBearing(plan, i, rel) && plan[i] == most[i];
      }
    }
  }

  /** Whatever an entry wrote is the whole content of an entry for the same file. */
  lemma {:induction false} LastWriteIsWhole(plan: seq<Entry>, n: nat, p: Path)
    requires n <= |plan| && Resolved(plan)
    ensures var w := LastWrite(plan[..n], ByRel(plan), p);
            w.Some? ==>
              && p in Targets(plan[..n])
              && exists e :: e in plan && e.FileEntry? && e.target == p && e.content == w.value
  {
    if n > 0 {
      var e := plan[n - 1];
      assert plan[..n][..n - 1] == plan[..n - 1];
      LastWriteIsWhole(plan, n - 1, p);
      assert plan[..n] == plan[..n - 1] + [e];
      TargetsAppend(plan[..n - 1], e);
      ByRelIsLast(plan, e.rel);
    }
  }

  /** Which names a refusal reports: those of the file entries whose target exists, each once for every
      such entry, in the order of the plan. */
  lemma {:induction false} ClashesExactly(plan: seq<Entry>, t: Tree) returns (at: seq<nat>)
    ensures |at| == |Clashes(plan, t)| && Increasing(at)
    ensures forall k :: 0 <= k < |at| ==> at[k] < |plan| && Clashes(plan, t)[k] == plan[at[k]].rel
    ensures forall i :: 0 <= i < |plan| ==> (i in at <==> plan[i].FileEntry? && plan[i].target in t)
  {
    at := [];
    if plan != [] {
      var n := |plan| - 1;
      at := ClashesExactly(plan[..n], t);
      if plan[n].FileEntry? && plan[n].target in t { at := at + [n]; }
    }
  }

  lemma {:induction false} CountsFiles(plan: seq<Entry>)
    ensures FileCount(plan) == |set i | 0 <= i < |plan| && plan[i].FileEntry?|
  {
    if plan != [] {
      var n := |plan| - 1;
      CountsFiles(plan[..n]);
      var most := set i | 0 <= i < n && plan[..n][i].FileEntry?;
      assert (set i | 0 <= i < |plan| && plan[i].FileEntry?) == if plan[n].FileEntry? then most + {n} else most;
    }
  }

  /** After success every directory above an extracted entry is there. */
  lemma DirectoriesAbove(plan: seq<Entry>, was: Tree, now: Tree, i: nat, k: nat)
    requires Made(plan, |plan|, was, now) && i < |plan| && k < |plan[i].target|
    ensures DirAt(now, plan[i].target[..k])
  {
    assert IsPrefix(plan[i].target[..k], HomeOf(plan[i]));
    assert NeededBefore(plan, |plan|, plan[i].target[..k]);
  }

  /**
   * After success every target holds the content of the last entry of the plan
   * that names it, or is a directory if that entry is one.
   */
  lemma {:induction false} LastEntryWins(plan: seq<Entry>, was: Tree, now: Tree, i: nat)
    requires Done(plan, was, now) && Resolved(plan)
    requires i < |plan| && LastNaming(plan, i)
    ensures match plan[i]
            case FileEntry(target, _, content) => FileAt(now, target) == Some(content)
            case DirEntry(target, _) => DirAt(now, target)
  {
    if plan[i].FileEntry? {
      LastWriteOf(plan, |plan|, i);
      assert plan[..|plan|] == plan;
    }
  }

  lemma {:induction false} LastWriteOf(plan: seq<Entry>, n: nat, i: nat)
    requires Resolved(plan) && i < n <= |plan| && LastNaming(plan, i) && plan[i].FileEntry?
    ensures LastWrite(plan[..n], ByRel(plan), plan[i].target) == Some(plan[i].content)
  {
    assert plan[..n][..n - 1] == plan[..n - 1];
    if i < n - 1 {
      LastWriteOf(plan, n - 1, i);
    } else {
      ByRelIsLast(plan, plan[i].rel);
    }
  }

  /**
   * After a failure at any entry, temporary files aside: a planned file that did
   * not exist is absent again exactly unless an entry had written it and it
   * cannot be deleted, and then it holds the whole content of an entry; one that
   * did exist holds its old content or the whole content of an entry for it;
   * every other file is as it was.
   */
  lemma AllOrNothing(plan: seq<Entry>, was: Tree, now: Tree, n: nat, p: Path, parts: seq<Path>, stuck: set<Path>)
    requires n < |plan| && StoppedAt(plan, was, now, n, parts, stuck) && Resolved(plan) && p !in parts
    ensures p in Targets(plan) && p !in was ==>
              (FileAt(now, p) == None <==> p !in stuck || LastWrite(plan[..n], ByRel(plan), p) == None)
    ensures p in Targets(plan) && FileAt(now, p) != None ==>
              || FileAt(now, p) == FileAt(was, p)
              || exists e :: e in plan && e.FileEntry? && e.target == p && FileAt(now, p) == Some(e.content)
    ensures p in Targets(plan) && p in was && FileAt(now, p) == None ==> FileAt(was, p) == None
    ensures p !in Targets(plan) ==> FileAt(now, p) == FileAt(was, p)
  {
    LastWriteIsWhole(plan, n, p);
  }
}
