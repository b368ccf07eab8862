/**
 * The path jail (files.py, archive.py): resolving a requested path against an
 * instance root through any arrangement of symbolic links.
 *
 * Resolution walks the components from the left, pops at "..", and splices in
 * the target of every link it meets, as pathname resolution does (section 4.13
 * of IEEE Std 1003.1-2017).  A walk through more links than its allowance, in
 * particular one that never ends, raises; what is proved holds for every
 * allowance.
 */
module PathJail {
  import opened Options
  import opened Texts

  type Path = seq<string>

  datatype Target = Target(absolute: bool, parts: seq<string>)

  type Links = map<Path, Target>

  function Resolve(links: Links, at: Path, todo: seq<string>, allowance: nat): Option<Path>
    decreases allowance, |todo|
  {
    if todo == [] then Some(at)
    else if todo[0] == ".." then Resolve(links, if at == [] then [] else at[..|at| - 1], todo[1..], allowance)
    else
      var next := at + [todo[0]];
      if next !in links then Resolve(links, next, todo[1..], allowance)
      else if allowance == 0 then None
      else Resolve(links, if links[next].absolute then [] else at, links[next].parts + todo[1..], allowance - 1)
  }

  /** No link anywhere on the way and nothing to pop: what opening this path touches is this path. */
  ghost predicate Real(links: Links, p: Path) {
    && (forall k :: 0 < k <= |p| ==> p[..k] !in links)
    && (forall k :: 0 <= k < |p| ==> p[k] != "..")
  }

  predicate IsPrefix(p: Path, q: Path) {
    |p| <= |q| && q[..|p|] == p
  }

  lemma RealChild(links: Links, p: Path, c: string)
    requires Real(links, p) && c != ".." && p + [c] !in links
    ensures Real(links, p + [c])
  {
    forall k | 0 < k <= |p| + 1 ensures (p + [c])[..k] !in links {
      if k <= |p| { assert (p + [c])[..k] == p[..k]; } else { assert (p + [c])[..k] == p + [c]; }
    }
  }

  lemma RealParent(links: Links, p: Path, n: nat)
    requires Real(links, p) && n <= |p|
    ensures Real(links, p[..n])
  {
    forall k | 0 < k <= n ensures p[..n][..k] !in links {
      assert p[..n][..k] == p[..k];
    }
  }

  /** What resolution returns has no link left in it. */
  lemma {:induction false} ResolvedIsReal(links: Links, at: Path, todo: seq<string>, allowance: nat)
    requires Real(links, at)
    ensures var r := Resolve(links, at, todo, allowance); r.Some? ==> Real(links, r.value)
    decreases allowance, |todo|
  {
    if todo != [] {
      if todo[0] == ".." {
        if at != [] { RealParent(links, at, |at| - 1); }
        ResolvedIsReal(links, if at == [] then [] else at[..|at| - 1], todo[1..], allowance);
      } else {
        var next := at + [todo[0]];
        if next !in links {
          RealChild(links, at, todo[0]);
          ResolvedIsReal(links, next, todo[1..], allowance);
        } else if allowance > 0 {
          ResolvedIsReal(links, if links[next].absolute then [] else at, links[next].parts + todo[1..], allowance - 1);
        }
      }
    }
  }

  /** Walking along a real path goes straight down it. */
  lemma {:induction false} WalkReal(links: Links, p: Path, k: nat, rest: seq<string>, allowance: nat)
    requires Real(links, p) && k <= |p|
    ensures Resolve(links, p[..k], p[k..] + rest, allowance) == Resolve(links, p, rest, allowance)
    decreases |p| - k
  {
    if k == |p| {
      assert p[..k] == p && p[k..] + rest == rest;
    } else {
      var todo := p[k..] + rest;
      assert todo[0] == p[k] && todo[1..] == p[k + 1..] + rest;
      assert p[..k] + [p[k]] == p[..k + 1];
      WalkReal(links, p, k + 1, rest, allowance);
    }
  }

  /** Opening a resolved path, which resolves it once more, reaches that very path. */
  lemma OpeningResolvedReachesIt(links: Links, todo: seq<string>, allowance: nat, again: nat)
    requires Resolve(links, [], todo, allowance).Some?
    ensures var p := Resolve(links, [], todo, allowance).value; Resolve(links, [], p, again) == Some(p)
  {
    ResolvedIsReal(links, [], todo, allowance);
    var p := Resolve(links, [], todo, allowance).value;
    WalkReal(links, p, 0, [], again);
    assert p[..0] == [] && p[0..] + [] == p;
  }

  /** A link is followed to where it leads: an absolute one to the path it holds, another to that path
      below the directory it stands in. */
  lemma LinkIsFollowed(links: Links, dir: Path, name: string, allowance: nat)
    requires name != ".." && dir + [name] in links && allowance > 0
    ensures var target := links[dir + [name]];
            var end := if target.absolute then target.parts else dir + target.parts;
            Real(links, end) && (target.absolute || Real(links, dir)) ==>
              Resolve(links, dir, [name], allowance) == Some(end)
  {
    var target := links[dir + [name]];
    var end := if target.absolute then target.parts else dir + target.parts;
    assert [name][1..] == [] && target.parts + [] == target.parts;
    if Real(links, end) && (target.absolute || Real(links, dir)) {
      var from := if target.absolute then [] else dir;
      assert end[..|from|] == from && end[|from|..] == target.parts && end[|from|..] + [] == target.parts;
      WalkReal(links, end, |from|, [], allowance - 1);
    }
  }

  /** A larger allowance never changes an answer. */
  lemma {:induction false} AllowanceIrrelevant(links: Links, at: Path, todo: seq<string>, less: nat, more: nat)
    requires less <= more && Resolve(links, at, todo, less).Some?
    ensures Resolve(links, at, todo, more) == Resolve(links, at, todo, less)
    decreases less, |todo|
  {
    if todo != [] {
      var next := at + [todo[0]];
      if todo[0] == ".." {
        AllowanceIrrelevant(links, if at == [] then [] else at[..|at| - 1], todo[1..], less, more);
      } else if next !in links {
        AllowanceIrrelevant(links, next, todo[1..], less, more);
      } else {
        var from := if links[next].absolute then [] else at;
        AllowanceIrrelevant(links, from, links[next].parts + todo[1..], less - 1, more - 1);
      }
    }
  }

  /** On a tree without links, resolution just drops nothing and goes straight down. */
  lemma {:induction false} NoLinksResolve(at: seq<string>, todo: seq<string>, allowance: nat)
    requires ".." !in todo
    ensures Resolve(map[], at, todo, allowance) == Some(at + todo)
    decreases |todo|
  {
    if todo == [] {
      assert at + todo == at;
    } else {
      assert todo[0] in todo;
      NoLinksResolve(at + [todo[0]], todo[1..], allowance);
      assert at + [todo[0]] + todo[1..] == at + todo;
    }
  }

  datatype Jailed = Inside(path: Path) | Escapes | Raises

  function LStrip(s: string): string {
    if s != "" && (s[0] == '/' || s[0] == '\\') then LStrip(s[1..]) else s
  }

  /** What is stripped is slashes and backslashes at the front, all of them. */
  lemma {:induction false} LStripExactly(s: string) returns (front: string)
    ensures s == front + LStrip(s) && forall i :: 0 <= i < |front| ==> front[i] in "/\\"
    ensures LStrip(s) != "" ==> LStrip(s)[0] !in "/\\"
  {
    front := "";
    if s != "" && (s[0] == '/' || s[0] == '\\') {
      front := LStripExactly(s[1..]);
      front := [s[0]] + front;
    }
  }

  /** resolve_within. */
  function ResolveWithin(links: Links, root: Path, rel: string, allowance: nat): Jailed {
    var home := Resolve(links, [], root, allowance);
    if home.None? then Raises
    else
      var candidate := Resolve(links, [], home.value + Components(LStrip(rel)), allowance);
      if candidate.None? then Raises
      else if IsPrefix(home.value, candidate.value) then Inside(candidate.value)
      else Escapes
  }

  /**
   * The jail, for any links: an accepted path lies in the real root, contains
   * no link, and opening it touches that path and no other; and a request is
   * accepted exactly when it leads there.
   */
  lemma JailHolds(links: Links, root: Path, rel: string, allowance: nat, again: nat)
    requires Resolve(links, [], root, allowance).Some?
    ensures var home := Resolve(links, [], root, allowance).value;
            var walked := Resolve(links, home, Components(LStrip(rel)), allowance);
            match ResolveWithin(links, root, rel, allowance)
            case Inside(p) =>
              IsPrefix(home, p) && Real(links, p) && Resolve(links, [], p, again) == Some(p) && walked == Some(p)
            case Escapes => walked.Some? && !IsPrefix(home, walked.value)
            case Raises => walked.None?
  {
    ResolvedIsReal(links, [], root, allowance);
    var home := Resolve(links, [], root, allowance).value;
    var rest := Components(LStrip(rel));
    WalkReal(links, home, 0, rest, allowance);
    assert home[..0] == [] && home[0..] + rest == home + rest;
    if ResolveWithin(links, root, rel, allowance).Inside? {
      ResolvedIsReal(links, [], home + rest, allowance);
      OpeningResolvedReachesIt(links, home + rest, allowance, again);
    }
  }

  /** What is created beside or below an accepted path by a plain name is inside too. */
  lemma ChildInside(links: Links, home: Path, p: Path, name: string)
    requires IsPrefix(home, p) && Real(links, p) && name != ".." && p + [name] !in links
    ensures IsPrefix(home, p + [name]) && Real(links, p + [name])
  {
    RealChild(links, p, name);
    assert (p + [name])[..|home|] == p[..|home|];
  }

  /** So is every directory that has to be made on the way to it: those above the root exist. */
  lemma ParentsInside(links: Links, home: Path, p: Path, k: nat)
    requires IsPrefix(home, p) && Real(links, p) && |home| <= k <= |p|
    ensures IsPrefix(home, p[..k]) && Real(links, p[..k])
    ensures forall j | 0 <= j <= |home| :: IsPrefix(p[..j], home)
  {
    RealParent(links, p, k);
    assert p[..k][..|home|] == p[..|home|];
    forall j | 0 <= j <= |home| ensures IsPrefix(p[..j], home) {
      assert home[..j] == p[..j];
    }
  }

  /**
   * An operation on a request acts on the entry that the request names, rather
   * than on what a link there leads to, exactly when that entry is not a link.
   * Rename and delete go through this, so on a link they move or remove its
   * target.
   */
  lemma ActsOnEntryExactly(links: Links, dir: Path, name: string, allowance: nat)
    requires Real(links, dir) && name != ".."
    ensures Resolve(links, dir, [name], allowance) == Some(dir + [name]) <==> dir + [name] !in links
  {
    var todo := [name];
    assert todo[1..] == [];
    if dir + [name] in links && Resolve(links, dir, todo, allowance).Some? {
      ResolvedIsReal(links, dir, todo, allowance);
      var p := Resolve(links, dir, todo, allowance).value;
      assert |p| > 0 ==> p[..|p|] == p;
    }
  }

  // Archive members.

  function Slashed(s: string): string {
    if s == "" then "" else [if s[0] == '\\' then '/' else s[0]] + Slashed(s[1..])
  }

  function LStripSlash(s: string): string {
    if s != "" && s[0] == '/' then LStripSlash(s[1..]) else s
  }

  /** _safe_target. */
  function SafeTarget(links: Links, root: Path, dest: string, member: string, allowance: nat): Jailed {
    var m := LStripSlash(Slashed(member));
    if m == "" || ".." in Components(m) then Escapes
    else ResolveWithin(links, root, if dest == "" || dest == "." then m else dest + "/" + m, allowance)
  }

  /** Backslashes are read as slashes, and nothing else changes. */
  lemma {:induction false} SlashedExactly(s: string, i: nat)
    ensures |Slashed(s)| == |s|
    ensures i < |s| ==> Slashed(s)[i] == if s[i] == '\\' then '/' else s[i]
  {
    if s != "" { SlashedExactly(s[1..], if i > 0 then i - 1 else 0); }
  }

  lemma SlashFirst(s: string)
    requires s != "" && s[0] == SLASH
    ensures Components(s) == Components(s[1..])
  {
    hide Components;
    ComponentsCut("", s[1..]);
    assert "" + ([SLASH] + s[1..]) == s;
    assert [] + Components(s[1..]) == Components(s[1..]);
  }

  /** Stripping slashes takes none of the components away. */
  lemma {:induction false} LStripSlashKeeps(s: string)
    ensures Components(LStripSlash(s)) == Components(s)
    ensures LStripSlash(s) != "" ==> LStripSlash(s)[0] != '/'
  {
    hide Components;
    if s != "" && s[0] == '/' {
      LStripSlashKeeps(s[1..]);
      SlashFirst(s);
    }
  }

  lemma {:induction false} LStripKeeps(s: string)
    requires s == "" || s[0] != '\\'
    requires forall i :: 0 <= i < |s| - 1 && s[i] == '/' ==> s[i + 1] != '\\'
    ensures Components(LStrip(s)) == Components(s)
  {
    hide Components;
    if s != "" && s[0] == '/' {
      LStripKeeps(s[1..]);
      SlashFirst(s);
    }
  }

  lemma NoBackslash(member: string)
    ensures forall i :: 0 <= i < |Slashed(member)| ==> Slashed(member)[i] != '\\'
  {
    forall i | 0 <= i < |Slashed(member)| ensures Slashed(member)[i] != '\\' {
      SlashedExactly(member, i);
    }
  }

  lemma {:induction false} LStripSlashIsSuffix(s: string) returns (k: nat)
    ensures k <= |s| && LStripSlash(s) == s[k..]
  {
    k := 0;
    if s != "" && s[0] == '/' {
      k := LStripSlashIsSuffix(s[1..]);
      k := k + 1;
    }
  }

  lemma NoDots(a: seq<string>, b: seq<string>)
    requires ".." !in a && ".." !in b
    ensures ".." !in a + b
  {
  }

  /** On a tree without links a member lands, below the directory the archive is in, at its own name
      with backslashes read as slashes; it is refused exactly if that name is empty or goes up. */
  lemma MemberLandsAtItsName(root: Path, dest: string, member: string, allowance: nat)
    requires ".." !in root && ".." !in Components(dest)
    requires forall i :: 0 <= i < |dest| ==> dest[i] != '\\'
    ensures var name := Components(Slashed(member));
            SafeTarget(map[], root, dest, member, allowance)
            == if LStripSlash(Slashed(member)) == "" || ".." in name then Escapes
               else Inside(root + (Components(dest) + name))
  {
    hide Resolve;
    var m := LStripSlash(Slashed(member));
    LStripSlashKeeps(Slashed(member));
    if m != "" && ".." !in Components(m) {
      var joined := if dest == "" || dest == "." then m else dest + "/" + m;
      var k := LStripSlashIsSuffix(Slashed(member));
      NoBackslash(member);
      assert forall i :: 0 <= i < |m| ==> m[i] != '\\';
      if dest == "" || dest == "." {
        DotIsNowhere();
        assert Components(dest) + Components(m) == Components(m);
      } else {
        ComponentsAppend(dest, m);
        assert dest + [SLASH] + m == joined;
      }
      LStripKeeps(joined);
      NoLinksResolve([], root, allowance);
      assert [] + root == root;
      var rest := Components(dest) + Components(m);
      NoDots(Components(dest), Components(m));
      NoDots(root, rest);
      NoLinksResolve([], root + rest, allowance);
      assert [] + (root + rest) == root + rest;
      assert (root + rest)[..|root|] == root;
    }
  }

  lemma DotIsNowhere()
    ensures Components("") == [] && Components(".") == []
  {
    FirstSlashOf(".", "");
    assert "." + "" == ".";
  }

  /** Where the temporary file of an extracted member stands: beside its target. */
  function PartOf(target: Path, part: string): Path {
    if target == [] then [part] else target[..|target| - 1] + [part]
  }

  /**
   * A temporary file is inside the jail exactly when the target is not the root
   * itself; its name is new, so it is not the root's own.
   */
  lemma PartInsideExactly(home: Path, target: Path, part: string)
    requires IsPrefix(home, target) && home != [] && part != home[|home| - 1]
    ensures IsPrefix(home, PartOf(target, part)) <==> target != home
  {
    if target == home {
      assert PartOf(target, part)[|home| - 1] == part;
    } else {
      assert PartOf(target, part)[..|home|] == target[..|home|];
    }
  }

  /** A member called "." is accepted, and its target is the root. */
  lemma DotMemberIsRoot(links: Links, root: Path, allowance: nat)
    requires Resolve(links, [], root, allowance).Some?
    ensures SafeTarget(links, root, ".", ".", allowance) == Inside(Resolve(links, [], root, allowance).value)
  {
    JailHolds(links, root, ".", allowance, 0);
    assert Slashed(".") == "." by { assert "."[1..] == ""; }
    FirstSlashOf(".", "");
    assert "." + "" == ".";
    assert Components(".") == [];
  }

  // The outer half: an instance root inside the node root.

  /** resolve_instance_root. */
  function ResolveInstanceRoot(links: Links, nodeRoot: Option<string>, instance: string, allowance: nat): Jailed {
    if instance == "" || instance[0] != '/' then Escapes
    else
      var resolved := Resolve(links, [], Components(instance), allowance);
      if resolved.None? then Raises
      else if nodeRoot.None? then Inside(resolved.value)
      else
        var root := Resolve(links, [], Components(nodeRoot.value), allowance);
        if root.None? then Raises
        else if IsPrefix(root.value, resolved.value) && root.value != resolved.value then Inside(resolved.value)
        else Escapes
  }

  /**
   * The outer jail, for any links: an accepted instance root was asked for as an
   * absolute path, contains no link, is what opening it reaches, and lies
   * strictly inside the real node root if there is one; and it is accepted
   * exactly when it leads there.
   */
  lemma OuterJailHolds(links: Links, nodeRoot: Option<string>, instance: string, allowance: nat, again: nat)
    ensures var walked := Resolve(links, [], Components(instance), allowance);
            var node := if nodeRoot.Some? then Resolve(links, [], Components(nodeRoot.value), allowance) else Some([]);
            match ResolveInstanceRoot(links, nodeRoot, instance, allowance)
            case Inside(p) =>
              && StartsAtRoot(instance) && walked == Some(p)
              && Real(links, p) && Resolve(links, [], p, again) == Some(p)
              && (nodeRoot.Some? ==> node.Some? && IsPrefix(node.value, p) && |node.value| < |p|)
            case Escapes =>
              || !StartsAtRoot(instance)
              || (nodeRoot.Some? && walked.Some? && node.Some?
                  && !(IsPrefix(node.value, walked.value) && |node.value| < |walked.value|))
            case Raises => StartsAtRoot(instance) && (walked.None? || node.None?)
  {
    if Resolve(links, [], Components(instance), allowance).Some? {
      ResolvedIsReal(links, [], Components(instance), allowance);
      OpeningResolvedReachesIt(links, Components(instance), allowance, again);
    }
  }

  predicate StartsAtRoot(path: string) {
    path != "" && path[0] == '/'
  }

  /** The two halves together: a file request in an accepted instance stays below the node root. */
  lemma NestedJails(links: Links, nodeRoot: string, instance: string, rel: string, allowance: nat)
    requires ResolveInstanceRoot(links, Some(nodeRoot), instance, allowance).Inside?
    requires ResolveWithin(links, Components(instance), rel, allowance).Inside?
    ensures var node := Resolve(links, [], Components(nodeRoot), allowance).value;
            var p := ResolveWithin(links, Components(instance), rel, allowance).path;
            Real(links, p) && IsPrefix(node, p) && node != p
  {
    JailHolds(links, Components(instance), rel, allowance, allowance);
    var node := Resolve(links, [], Components(nodeRoot), allowance).value;
    var base := Resolve(links, [], Components(instance), allowance).value;
    var p := ResolveWithin(links, Components(instance), rel, allowance).path;
    assert p[..|node|] == p[..|base|][..|node|];
  }
}
