/** Before and beside the shared extraction (archive.py): planning a zip or tar, and the one-file gzip. */
module ArchiveSources {
  import opened Options
  import opened FileTrees
  import opened Selections
  import opened Extraction

  const MAX_EXTRACT_BYTES: nat := 20 * 1024 * 1024 * 1024
  const FREE_SPACE_MARGIN: nat := 512 * 1024 * 1024

  /** One member of the archive; `target` is what the jail resolves its name to, or None if refused. */
  datatype Member = Member(regular: bool, target: Option<Path>, rel: string, isDir: bool, content: Content, size: nat)

  datatype Planned = Planned(plan: seq<Entry>, byRel: map<string, Entry>) | UnsafeMember | OverBudget

  function EntryOf(m: Member): Entry
    requires m.target.Some?
  {
    if m.isDir then DirEntry(m.target.value, m.rel) else FileEntry(m.target.value, m.rel, m.content)
  }

  predicate Admissible(ms: seq<Member>) {
    forall i :: 0 <= i < |ms| && ms[i].regular ==> ms[i].target.Some?
  }

  /** What the members that count expand to. */
  function Size(ms: seq<Member>): nat {
    if ms == [] then 0 else Size(ms[..|ms| - 1]) + if ms[|ms| - 1].regular then ms[|ms| - 1].size else 0
  }

  /** Leaving out a member that is not regular changes nothing, and any other counts with its size. */
  lemma {:induction false} SizeWithout(a: seq<Member>, m: Member, b: seq<Member>)
    ensures Size(a + [m] + b) == Size(a + b) + if m.regular then m.size else 0
  {
    if b == [] {
      assert (a + [m] + b)[..|a|] == a && a + b == a;
    } else {
      var n := |b| - 1;
      assert (a + [m] + b)[..|a| + 1 + n] == a + [m] + b[..n] && (a + b)[..|a| + n] == a + b[..n];
      SizeWithout(a, m, b[..n]);
    }
  }

  /** _check_budget; `free` is None when the file system does not say. */
  predicate WithinBudget(total: nat, free: Option<nat>) {
    total <= MAX_EXTRACT_BYTES && (free.Some? ==> total + FREE_SPACE_MARGIN <= free.value)
  }

  /** The entry stands for the member: the same file or directory, with the member's own bytes. */
  predicate StandsFor(e: Entry, m: Member) {
    && m.target == Some(e.target) && e.rel == m.rel
    && match e
       case FileEntry(_, _, content) => !m.isDir && content == m.content
       case DirEntry(_, _) => m.isDir
  }

  /** The plan is the regular members, each once and in archive order; `at` says where they stand. */
  ghost predicate Plans(plan: seq<Entry>, members: seq<Member>, at: seq<nat>) {
    && |at| == |plan| && Increasing(at)
    && (forall k :: 0 <= k < |at| ==> at[k] < |members| && members[at[k]].regular && StandsFor(plan[k], members[at[k]]))
    && forall i :: 0 <= i < |members| && members[i].regular ==> i in at
  }

  lemma PlansNext(plan: seq<Entry>, members: seq<Member>, at: seq<nat>, n: nat)
    requires n < |members| && Plans(plan, members[..n], at)
    ensures !members[n].regular ==> Plans(plan, members[..n + 1], at)
    ensures members[n].regular && members[n].target.Some? ==>
              Plans(plan + [EntryOf(members[n])], members[..n + 1], at + [n])
  {
  }

  /** Exactly the members that are files or directories are planned, in archive order and with their
      own content. The archive is refused as a whole if any of them leaves the jail or together they
      exceed the limit or the free space less its margin. */
  method PlanArchive(members: seq<Member>, free: Option<nat>) returns (r: Planned, ghost at: seq<nat>)
    ensures r.UnsafeMember? <==> exists i :: 0 <= i < |members| && members[i].regular && members[i].target.None?
    ensures r.Planned? <==>
              && (forall i :: 0 <= i < |members| && members[i].regular ==> members[i].target.Some?)
              && Size(members) <= 20 * 1024 * 1024 * 1024
              && (free.Some? ==> Size(members) + 512 * 1024 * 1024 <= free.value)
    ensures r.Planned? ==> Plans(r.plan, members, at) && r.byRel == ByRel(r.plan)
  {
    hide Plans;
    var plan, byRel, total, n := [], map[], 0, 0;
    at := [];
    assert Plans(plan, members[..0], at) by { NothingPlanned(members); }
    while n < |members|
      invariant n <= |members| && Admissible(members[..n]) && total == Size(members[..n])
      invariant Plans(plan, members[..n], at) && byRel == ByRel(plan)
    {
      var m := members[n];
      assert members[..n + 1][..n] == members[..n];
      if m.regular && m.target.None? { return UnsafeMember, at; }
      PlansNext(plan, members, at, n);
      if m.regular {
        var entry := EntryOf(m);
        assert (plan + [entry])[..|plan|] == plan;
        assert entry.rel == m.rel;
        plan, at := plan + [entry], at + [n];
        byRel := byRel[m.rel := entry];
        total := total + m.size;
      }
      n := n + 1;
    }
    assert members[..n] == members;
    if !WithinBudget(total, free) { return OverBudget, at; }
    return Planned(plan, byRel), at;
  }

  lemma NothingPlanned(members: seq<Member>)
    ensures Plans([], members[..0], [])
  {
  }

  /** Member i is the last regular one that goes to its target. */
  ghost predicate LastFor(members: seq<Member>, i: nat)
    requires i < |members|
  {
    forall j :: i < j < |members| && members[j].regular ==> members[j].target != members[i].target
  }

  /** One name leads to one target. */
  ghost predicate NamesResolve(members: seq<Member>) {
    forall i, j :: 0 <= i < |members| && 0 <= j < |members| && members[i].rel == members[j].rel ==>
      members[i].target == members[j].target
  }

  lemma PlanResolves(plan: seq<Entry>, members: seq<Member>, at: seq<nat>)
    requires Plans(plan, members, at) && NamesResolve(members)
    ensures Resolved(plan)
  {
    forall e, f | e in plan && f in plan && e.rel == f.rel ensures e.target == f.target {
      var j :| 0 <= j < |plan| && plan[j] == e;
      var k :| 0 <= k < |plan| && plan[k] == f;
      assert StandsFor(plan[j], members[at[j]]) && StandsFor(plan[k], members[at[k]]);
    }
  }

  /** Where member i stands in the plan; it is the last there for its target as well. */
  lemma PlanPosition(plan: seq<Entry>, members: seq<Member>, at: seq<nat>, i: nat) returns (k: nat)
    requires Plans(plan, members, at) && i < |members| && members[i].regular && LastFor(members, i)
    ensures k < |plan| && StandsFor(plan[k], members[i]) && LastNaming(plan, k)
  {
    k :| 0 <= k < |at| && at[k] == i;
    forall j | k < j < |plan| ensures plan[j].target != plan[k].target {
      assert at[j] > i && StandsFor(plan[j], members[at[j]]);
    }
  }

  /** What a member leaves once extracted. */
  ghost predicate Placed(t: Tree, m: Member)
    requires m.target.Some?
  {
    if m.isDir then DirAt(t, m.target.value) else FileAt(t, m.target.value) == Some(m.content)
  }

  lemma MemberPlaced(plan: seq<Entry>, members: seq<Member>, at: seq<nat>, was: Tree, now: Tree, i: nat)
    requires Plans(plan, members, at) && NamesResolve(members) && Done(plan, was, now)
    requires i < |members| && members[i].regular && LastFor(members, i)
    ensures members[i].target.Some? && Placed(now, members[i])
  {
    var k := PlanPosition(plan, members, at, i);
    PlanResolves(plan, members, at);
    LastEntryWins(plan, was, now, k);
  }

  lemma MemberHome(plan: seq<Entry>, members: seq<Member>, at: seq<nat>, was: Tree, now: Tree, i: nat)
    requires Plans(plan, members, at) && Made(plan, |plan|, was, now)
    requires i < |members| && members[i].regular
    ensures members[i].target.Some?
    ensures forall k :: 0 <= k < |members[i].target.value| ==> DirAt(now, members[i].target.value[..k])
  {
    var n :| 0 <= n < |at| && at[n] == i;
    assert StandsFor(plan[n], members[i]);
    forall k | 0 <= k < |members[i].target.value| ensures DirAt(now, members[i].target.value[..k]) {
      DirectoriesAbove(plan, was, now, n, k);
    }
  }

  /** No regular file of the archive goes there. */
  ghost predicate Foreign(members: seq<Member>, q: Path) {
    forall i :: 0 <= i < |members| && members[i].regular && !members[i].isDir ==> members[i].target != Some(q)
  }

  lemma ForeignKept(plan: seq<Entry>, members: seq<Member>, at: seq<nat>, was: Tree, now: Tree, q: Path)
    requires Plans(plan, members, at) && NamesResolve(members) && Done(plan, was, now) && Foreign(members, q)
    ensures FileAt(now, q) == FileAt(was, q)
  {
    PlanResolves(plan, members, at);
    LastWriteIsWhole(plan, |plan|, q);
    assert plan[..|plan|] == plan;
    forall k | 0 <= k < |plan| ensures !(plan[k].FileEntry? && plan[k].target == q) {
      assert StandsFor(plan[k], members[at[k]]);
    }
    assert q !in Targets(plan);
  }

  /** Some regular file of the archive would replace what is there. */
  ghost predicate WouldReplace(members: seq<Member>, t: Tree) {
    exists i :: 0 <= i < |members| && members[i].regular && !members[i].isDir
                && members[i].target.Some? && members[i].target.value in t
  }

  lemma ClashesAreMembers(plan: seq<Entry>, members: seq<Member>, at: seq<nat>, t: Tree)
    requires Plans(plan, members, at)
    ensures Clashes(plan, t) != [] <==> WouldReplace(members, t)
  {
    var clashing := ClashesExactly(plan, t);
    if clashing != [] {
      var k := clashing[0];
      assert k in clashing && StandsFor(plan[k], members[at[k]]);
    }
    if WouldReplace(members, t) {
      var i :| 0 <= i < |members| && members[i].regular && !members[i].isDir
               && members[i].target.Some? && members[i].target.value in t;
      var k :| 0 <= k < |at| && at[k] == i;
      assert StandsFor(plan[k], members[i]);
    }
  }

  /**
   * Extracting a zip or tar, from its members to the tree. Refused for its
   * members or for what it would replace, nothing changes. Extracted, every
   * target holds exactly the bytes of the last regular member that goes there,
   * or is a directory if that one is, in directories that exist; and no other
   * file changes.
   */
  method ExtractArchive(disk: Disk, members: seq<Member>, free: Option<nat>, overwrite: bool, parts: seq<Path>,
                        faults: seq<Fault>, stuck: set<Path>) returns (r: Option<Outcome>)
    requires |parts| == |members| == |faults| && NamesResolve(members)
    requires forall part :: part in parts ==> part !in disk.tree
    requires forall part, i :: part in parts && 0 <= i < |members| && members[i].target.Some? ==>
               !IsPrefix(part, members[i].target.value)
    modifies disk
    ensures r.None? <==>
              || (exists i :: 0 <= i < |members| && members[i].regular && members[i].target.None?)
              || Size(members) > 20 * 1024 * 1024 * 1024
              || (free.Some? && Size(members) + 512 * 1024 * 1024 > free.value)
    ensures r.Some? ==> (r.value.Conflicts? <==> WouldReplace(members, old(disk.tree)) && !overwrite)
    ensures r.None? || r.value.Conflicts? ==> disk.tree == old(disk.tree)
    ensures r.Some? && r.value.Extracted? ==>
              forall i :: 0 <= i < |members| && members[i].regular ==>
                && members[i].target.Some?
                && (LastFor(members, i) ==> Placed(disk.tree, members[i]))
                && forall k :: 0 <= k < |members[i].target.value| ==> DirAt(disk.tree, members[i].target.value[..k])
    ensures r.Some? && r.value.Extracted? ==>
              forall q :: Foreign(members, q) ==> FileAt(disk.tree, q) == FileAt(old(disk.tree), q)
  {
    hide Plans; hide Done; hide Made; hide NamesResolve; hide LastFor; hide WouldReplace; hide ClearFor; hide Harmless;
    hide DirsKept; hide StoppedAt; hide Foreign; hide Placed; hide Size;
    ghost var was := disk.tree;
    var planned, at := PlanArchive(members, free);
    if !planned.Planned? { return None; }
    var plan := planned.plan;
    PartsFresh(plan, members, at, parts, was);
    ClashesAreMembers(plan, members, at, was);
    var outcome := disk.Finish(plan, overwrite, parts[..|plan|], faults[..|plan|], stuck);
    if outcome.Extracted? {
      forall i | 0 <= i < |members| && members[i].regular
        ensures members[i].target.Some?
        ensures LastFor(members, i) ==> Placed(disk.tree, members[i])
        ensures forall k :: 0 <= k < |members[i].target.value| ==> DirAt(disk.tree, members[i].target.value[..k])
      {
        MemberHome(plan, members, at, was, disk.tree, i);
        if LastFor(members, i) { MemberPlaced(plan, members, at, was, disk.tree, i); }
      }
      forall q | Foreign(members, q) ensures FileAt(disk.tree, q) == FileAt(was, q) {
        ForeignKept(plan, members, at, was, disk.tree, q);
      }
    }
    r := Some(outcome);
  }

  lemma PartsFresh(plan: seq<Entry>, members: seq<Member>, at: seq<nat>, parts: seq<Path>, t: Tree)
    requires Plans(plan, members, at) && |parts| == |members| && forall part :: part in parts ==> part !in t
    requires forall part, i :: part in parts && 0 <= i < |members| && members[i].target.Some? ==>
               !IsPrefix(part, members[i].target.value)
    ensures |plan| <= |members|
    ensures forall part :: part in parts[..|plan|] ==> FreshPart(part, plan, t)
  {
    if at != [] { AtLeast(at, |at| - 1); }
    forall part | part in parts[..|plan|] ensures FreshPart(part, plan, t) {
      assert part in parts;
      forall e | e in plan ensures !IsPrefix(part, e.target) {
        var k :| 0 <= k < |plan| && plan[k] == e;
        assert StandsFor(plan[k], members[at[k]]) && members[at[k]].target == Some(e.target);
      }
    }
  }

  datatype GzOutcome = GzConflict | GzExtracted | GzRaised

  /**
   * A single gzip stream.  It ends in one of three ways: refused or raised with
   * every path as it was, or done with the target holding the whole stream; it
   * is done exactly when nothing failed and the stream fits the limit, which is
   * enforced while copying because the stream does not declare its size.
   */
  method ExtractGz(disk: Disk, target: Path, part: Path, chunks: seq<Content>, readFailsAt: Option<nat>,
                   replaceFails: bool, overwrite: bool) returns (r: GzOutcome)
    requires part !in disk.tree && part != target
    requires forall c :: c in chunks ==> c != []
    modifies disk
    ensures r.GzConflict? <==> target in old(disk.tree) && !overwrite
    ensures !r.GzConflict? ==>
              (r.GzExtracted? <==>
                 && |Joined(chunks)| <= MAX_EXTRACT_BYTES
                 && (readFailsAt.Some? ==> readFailsAt.value > |chunks|)
                 && !replaceFails && !DirAt(old(disk.tree), target))
    ensures disk.tree == if r.GzExtracted? then old(disk.tree)[target := File(Joined(chunks))] else old(disk.tree)
  {
    if target in disk.tree && !overwrite { return GzConflict; }
    ghost var was := disk.tree;
    var ok, written, n, data := true, 0, 0, [];
    disk.tree := disk.tree[part := File([])];
    while n <= |chunks|
      invariant n <= |chunks| + 1
      invariant disk.tree == was[part := File(data)]
      invariant n <= |chunks| ==> data == Joined(chunks[..n]) && written == |data| <= MAX_EXTRACT_BYTES
      invariant n > |chunks| ==> data == Joined(chunks) && written == |data| <= MAX_EXTRACT_BYTES
      invariant readFailsAt.Some? ==> n <= readFailsAt.value
    {
      if readFailsAt == Some(n) { ok := false; break; }
      if n == |chunks| {
        assert chunks[..n] == chunks;
      } else {
        assert chunks[..n + 1][..n] == chunks[..n];
        written := written + |chunks[n]|;
        if written > MAX_EXTRACT_BYTES {
          JoinedGrows(chunks, n + 1);
          ok := false;
          break;
        }
        data := data + chunks[n];
        disk.tree := disk.tree[part := File(data)];
      }
      n := n + 1;
    }
    if ok {
      if replaceFails || DirAt(disk.tree, target) {
        ok := false;
      } else {
        disk.tree := disk.tree[target := disk.tree[part]] - {part};
      }
    }
    disk.tree := disk.tree - {part};
    r := if ok then GzExtracted else GzRaised;
  }
}
