/** Where a node's instances may live, as the hub checks it without seeing the node (roots.py). */
module Roots {
  import opened Options
  import opened Texts
  import PathJail

  datatype RootError = Empty | Nul | Relative | DotDot | OutsideNodeRoot

  datatype Result = Ok(path: string) | Bad(error: RootError)

  /** A POSIX path as pathlib keeps it: exactly two leading slashes stay two. */
  datatype Norm = Norm(double: bool, components: seq<string>)

  predicate StartsDouble(s: string) {
    |s| >= 2 && s[0] == SLASH && s[1] == SLASH && !(|s| >= 3 && s[2] == SLASH)
  }

  /** Exactly two slashes at the front count as such; one, three and more are one. */
  lemma DoubleExactly(slashes: string, name: string)
    requires slashes != "" && (forall i :: 0 <= i < |slashes| ==> slashes[i] == SLASH)
    requires name == "" || name[0] != SLASH
    ensures StartsDouble(slashes + name) <==> |slashes| == 2
  {
  }

  function NormOf(s: string): Norm {
    Norm(StartsDouble(s), Components(s))
  }

  function Render(n: Norm): string {
    (if n.double then "//" else "/") + Join(n.components)
  }

  function Normalise(path: string): Result {
    var raw := Strip(path);
    if raw == "" then Bad(Empty)
    else if 0 as char in raw then Bad(Nul)
    else if raw[0] != SLASH then Bad(Relative)
    else if ".." in Components(raw) then Bad(DotDot)
    else Ok(Render(NormOf(raw)))
  }

  ghost predicate ProperAll(cs: seq<string>) {
    forall i :: 0 <= i < |cs| ==> Proper(cs[i])
  }

  lemma RenderParses(n: Norm)
    requires ProperAll(n.components)
    ensures NormOf(Render(n)) == n && Render(n) != "" && Render(n)[0] == SLASH
  {
    var s := Render(n);
    var j := Join(n.components);
    ComponentsOfJoin(n.components);
    ComponentsAppend("", j);
    assert Components("") == [];
    assert "" + [SLASH] + j == "/" + j;
    if n.double {
      ComponentsAppend("", "/" + j);
      assert "" + [SLASH] + ("/" + j) == s;
    }
    if n.components != [] {
      assert Proper(n.components[0]);
      assert j[0] == n.components[0][0] && n.components[0][0] in n.components[0];
    }
  }

  /** A normalised path reads back as the same components: nothing was lost but empty and "." ones. */
  lemma NormaliseMeaning(path: string)
    requires Normalise(path).Ok?
    ensures NormOf(Normalise(path).path) == NormOf(Strip(path))
    ensures ".." !in Components(Normalise(path).path)
  {
    RenderParses(NormOf(Strip(path)));
  }

  /** Which paths are taken, and the first thing that is wrong with any other. */
  lemma AcceptsExactly(path: string)
    ensures var raw := Strip(path);
            && (Normalise(path).Ok? <==>
                  raw != "" && raw[0] == '/' && 0 as char !in raw && ".." !in Components(raw))
            && (Normalise(path) == Bad(Empty) <==> raw == "")
            && (Normalise(path) == Bad(Nul) <==> 0 as char in raw)
            && (Normalise(path) == Bad(Relative) <==> raw != "" && 0 as char !in raw && raw[0] != '/')
  {
  }

  /** With no root on the node only an unusable path is stranded; with one, so is every path that is
      not strictly below it. */
  lemma StrandedExactly(nodeRoot: Option<string>, instance: string)
    requires Normalise(instance).Ok?
    ensures nodeRoot.None? ==> !IsStranded(nodeRoot, instance) && CheckUnder(nodeRoot, instance) == Normalise(instance)
    ensures nodeRoot.Some? && Normalise(nodeRoot.value).Ok? ==>
              var root, path := NormOf(Strip(nodeRoot.value)), NormOf(Strip(instance));
              (!IsStranded(nodeRoot, instance) <==>
                 && root.double == path.double && |root.components| < |path.components|
                 && root.components == path.components[..|root.components|])
    ensures nodeRoot.Some? && Normalise(nodeRoot.value).Bad? ==> IsStranded(nodeRoot, instance)
  {
    NormaliseMeaning(instance);
    if nodeRoot.Some? && Normalise(nodeRoot.value).Ok? { NormaliseMeaning(nodeRoot.value); }
  }

  lemma {:induction false} NulSurvives(cs: seq<string>, c: char)
    requires c in Join(cs) && c != SLASH
    ensures exists i :: 0 <= i < |cs| && c in cs[i]
  {
    if |cs| == 1 {
      assert c in cs[0];
    } else if c !in cs[0] {
      NulSurvives(cs[1..], c);
      var i :| 0 <= i < |cs| - 1 && c in cs[1..][i];
      assert c in cs[i + 1];
    }
  }

  lemma {:induction false} ComponentsFromText(s: string, i: nat, c: char)
    requires i < |Components(s)| && c in Components(s)[i]
    ensures c in s
    decreases |s|
  {
    var k := FirstSlash(s);
    if k < |s| {
      var head := Keep(s[..k]);
      if i >= |head| { ComponentsFromText(s[k + 1..], i - |head|, c); }
    }
  }

  /** Normalising again changes nothing exactly when the result does not end in white space; a last
      component that does loses it on the second pass. */
  lemma IdempotentExactly(path: string)
    requires Normalise(path).Ok?
    ensures var q := Normalise(path).path;
            Normalise(q) == Ok(q) <==> !IsSpace(q[|q| - 1])
  {
    var n := NormOf(Strip(path));
    var q := Render(n);
    NormaliseMeaning(path);
    RenderParses(n);
    StripFixes(q);
    if 0 as char in q {
      assert 0 as char in Join(n.components);
      NulSurvives(n.components, 0 as char);
      var i :| 0 <= i < |n.components| && 0 as char in n.components[i];
      ComponentsFromText(Strip(path), i, 0 as char);
    }
    if IsSpace(q[|q| - 1]) {
      assert Strip(q) != q && |Strip(q)| < |q|;
      if Normalise(q).Ok? { NeverLonger(Strip(q)); }
    }
  }

  lemma {:induction false} JoinNeverLonger(s: string)
    ensures |Join(Components(s))| <= |s|
    decreases |s|
  {
    var k := FirstSlash(s);
    if k < |s| {
      JoinNeverLonger(s[k + 1..]);
      var rest := Components(s[k + 1..]);
      if Keep(s[..k]) != [] {
        assert ([s[..k]] + rest)[1..] == rest;
      } else {
        assert [] + rest == rest;
      }
    }
  }

  lemma NeverLonger(s: string)
    requires s != "" && s[0] == SLASH
    ensures |Render(NormOf(s))| <= |s|
  {
    var rest := s[1..];
    ComponentsAppend("", rest);
    assert "" + [SLASH] + rest == s;
    ComponentsCut("", "");
    assert Components(s) == Components(rest);
    JoinNeverLonger(rest);
    if StartsDouble(s) {
      ComponentsAppend("", rest[1..]);
      assert "" + [SLASH] + rest[1..] == rest;
      assert Components(rest) == Components(rest[1..]);
      JoinNeverLonger(rest[1..]);
    }
  }

  predicate IsStrictPrefix(p: seq<string>, q: seq<string>) {
    |p| < |q| && q[..|p|] == p
  }

  /** root is among the parents of path. */
  predicate IsParent(root: Norm, path: Norm) {
    root.double == path.double && IsStrictPrefix(root.components, path.components)
  }

  function CheckUnder(nodeRoot: Option<string>, instance: string): Result {
    var path := Normalise(instance);
    if path.Bad? || nodeRoot.None? then path
    else
      var root := Normalise(nodeRoot.value);
      if root.Bad? then root
      else if IsParent(NormOf(root.path), NormOf(path.path)) then path
      else Bad(OutsideNodeRoot)
  }

  function IsStranded(nodeRoot: Option<string>, instance: string): bool {
    CheckUnder(nodeRoot, instance).Bad?
  }

  // The hub's check against the agent's.

  /** A root as the agent reports it: absolute, resolved, and free of white space at its end. */
  predicate Reported(root: string) {
    root != "" && root[0] == SLASH && Strip(root) == root && ".." !in Components(root)
  }

  /**
   * Where the hub says yes, the agent says yes, on a tree without links: the
   * path the hub stores is then strictly below the node root for the agent too.
   */
  lemma HubImpliesAgent(root: string, instance: string, allowance: nat)
    requires Reported(root) && CheckUnder(Some(root), instance).Ok?
    ensures var path := CheckUnder(Some(root), instance).path;
            PathJail.ResolveInstanceRoot(map[], Some(root), path, allowance) == PathJail.Inside(Components(path))
  {
    var path := CheckUnder(Some(root), instance).path;
    NormaliseMeaning(instance);
    NormaliseMeaning(root);
    RenderParses(NormOf(Strip(instance)));
    PathJail.NoLinksResolve([], Components(path), allowance);
    PathJail.NoLinksResolve([], Components(root), allowance);
    assert [] + Components(path) == Components(path) && [] + Components(root) == Components(root);
  }

  /** Stripping an absolute path touches only what follows its last slash. */
  lemma StrippedText(root: string) returns (top: string, name: string, left: string)
    requires root != "" && root[0] == SLASH && Strip(root) != root
    ensures root == top + [SLASH] + name && Strip(root) == top + [SLASH] + left
    ensures SLASH !in name && left < name && IsSpace(name[|name| - 1])
  {
    hide Strip;
    assert root[0] in root;
    StripEnd(root);
    top, name := LastSlash(root);
    var s := Strip(root);
    assert root[|top|] == SLASH && |s| > |top|;
    left := s[|top| + 1..];
    assert s == root[..|s|] && left == root[|top| + 1..|s|] == name[..|left|];
    assert s == top + [SLASH] + left;
    assert root[|root| - 1] == name[|name| - 1];
  }

  /** So it touches only the last component. */
  lemma StrippedLast(root: string) returns (above: seq<string>, last: string, left: string)
    requires root != "" && root[0] == SLASH && Strip(root) != root
    ensures Components(root) == above + [last]
    ensures Components(Strip(root)) == above + Keep(left)
    ensures |left| < |last| && last != ".."
  {
    hide Components; hide Strip;
    var top;
    top, last, left := StrippedText(root);
    above := Components(top);
    ComponentsAppend(top, last);
    ComponentsAppend(top, left);
    ComponentsCut(last, "");
    ComponentsCut(left, "") by { assert forall c :: c in left ==> c in last; }
  }

  /** The instance that shows it: a directory of the stripped root. */
  lemma SpacedRootWitness(root: string, allowance: nat) returns (instance: string)
    requires root != "" && root[0] == SLASH && Strip(root) != root && Normalise(root).Ok?
    ensures CheckUnder(Some(root), instance) == Ok(instance)
    ensures PathJail.ResolveInstanceRoot(map[], Some(root), instance, allowance) == PathJail.Escapes
  {
    hide Components; hide Strip; hide PathJail.Resolve;
    var above, last, left := StrippedLast(root);
    var stripped := NormOf(Strip(root));
    var n := Norm(stripped.double, stripped.components + ["x"]);
    instance := Render(n);
    NormaliseMeaning(root);
    RenderParses(n);
    NoNul(root);
    EndsWithName(n, stripped.components, "x");
    StripFixes(instance);
    assert 0 as char !in instance by { NulOnlyFromComponents(root, n); }
    assert ".." !in n.components by { assert ".." !in Components(Strip(root)); }
    assert Normalise(instance) == Ok(instance);
    assert n.components[..|stripped.components|] == stripped.components;
    PathJail.NoLinksResolve([], n.components, allowance);
    assert ".." !in above + [last];
    PathJail.NoLinksResolve([], above + [last], allowance);
    assert [] + n.components == n.components && [] + (above + [last]) == above + [last];
    NotBelow(above, last, left);
  }

  lemma NulOnlyFromComponents(root: string, n: Norm)
    requires Normalise(root).Ok? && n.components == Components(Strip(root)) + ["x"]
    ensures 0 as char !in Render(n)
  {
    if 0 as char in Render(n) {
      NulSurvives(n.components, 0 as char);
      var i :| 0 <= i < |n.components| && 0 as char in n.components[i];
      ComponentsFromText(Strip(root), i, 0 as char);
    }
  }

  lemma NotBelow(above: seq<string>, last: string, left: string)
    requires |left| < |last|
    ensures var path := above + Keep(left) + ["x"];
            !(PathJail.IsPrefix(above + [last], path) && above + [last] != path)
  {
    var path := above + Keep(left) + ["x"];
    if |path| == |above| + 2 {
      assert path[..|above| + 1][|above|] == left;
      assert (above + [last])[|above|] == last;
    }
  }

  /**
   * When the hub's yes is the agent's yes, for an absolute root on a tree
   * without links: exactly when the root does not end in white space, which the
   * hub strips and the agent keeps, or the hub refuses every instance because
   * the stripped root itself is no usable path.
   */
  lemma HubImpliesAgentExactly(root: string, allowance: nat)
    requires root != "" && root[0] == SLASH
    ensures (forall instance :: CheckUnder(Some(root), instance).Ok? ==> AgentAccepts(root, instance, allowance))
        <==> Strip(root) == root || Normalise(root).Bad?
  {
    hide PathJail.ResolveInstanceRoot;
    if Normalise(root).Ok? {
      if Strip(root) == root {
        forall instance | CheckUnder(Some(root), instance).Ok? ensures AgentAccepts(root, instance, allowance) {
          HubImpliesAgent(root, instance, allowance);
        }
      } else {
        var instance := SpacedRootWitness(root, allowance);
        assert !AgentAccepts(root, instance, allowance);
      }
    }
  }

  /** The agent accepts the path the hub stores for the instance. */
  predicate AgentAccepts(root: string, instance: string, allowance: nat)
    requires CheckUnder(Some(root), instance).Ok?
  {
    PathJail.ResolveInstanceRoot(map[], Some(root), CheckUnder(Some(root), instance).path, allowance).Inside?
  }

  /** The converse holds exactly when root and path begin with equally many slashes: the agent reads
      two leading slashes as one, the hub does not. */
  lemma AgentImpliesHubExactly(root: string, path: string, allowance: nat)
    requires Reported(root) && Normalise(root).Ok? && Normalise(path) == Ok(path)
    requires PathJail.ResolveInstanceRoot(map[], Some(root), path, allowance).Inside?
    ensures CheckUnder(Some(root), path).Ok? <==> StartsDouble(root) == StartsDouble(path)
  {
    NormaliseMeaning(path);
    NormaliseMeaning(root);
    PathJail.NoLinksResolve([], Components(path), allowance);
    PathJail.NoLinksResolve([], Components(root), allowance);
    assert [] + Components(path) == Components(path) && [] + Components(root) == Components(root);
  }

  /** A root with a space at its end is another directory to the hub, which strips it: then the hub
      accepts what the agent refuses. */
  lemma SpacedRootDiffers(allowance: nat)
    ensures CheckUnder(Some("/s "), "/s/x").Ok?
    ensures PathJail.ResolveInstanceRoot(map[], Some("/s "), "/s/x", allowance) == PathJail.Escapes
  {
    hide Components; hide PathJail.Resolve; hide Strip;
    var root, spaced, path := Norm(false, ["s"]), Norm(false, ["s "]), Norm(false, ["s", "x"]);
    assert Render(root) == "/s" && Render(spaced) == "/s " && Render(path) == "/s/x";
    RenderParses(root);
    RenderParses(spaced);
    RenderParses(path);
    StripFixes("/s/x");
    assert Strip("/s ") == "/s" by { StripSpace(); }
    PathJail.NoLinksResolve([], ["s", "x"], allowance);
    PathJail.NoLinksResolve([], ["s "], allowance);
    assert [] + ["s", "x"] == ["s", "x"] && [] + ["s "] == ["s "];
    assert ["s", "x"][..1][0] == "s" && |"s "| == 2;
  }

  lemma StripSpace()
    ensures Strip("/s ") == "/s"
  {
    assert "/s "[..2] == "/s";
    StripFixes("/s");
  }

  // The directory of a new server.

  function ServerDir(nodeRoot: string, name: string): Result {
    var root := Normalise(nodeRoot);
    if root.Bad? then root else Normalise(root.path + "/" + name)
  }

  predicate IsAlnum(c: char) {
    'a' <= c <= 'z' || 'A' <= c <= 'Z' || '0' <= c <= '9'
  }

  /** The names the API admits: 1 to 64 of letters, digits, dot, dash, underscore, the first alphanumeric. */
  predicate ValidName(name: string) {
    && 1 <= |name| <= 64 && IsAlnum(name[0])
    && forall i :: 0 <= i < |name| ==> IsAlnum(name[i]) || name[i] in "._-"
  }

  lemma ValidNameIsComponent(name: string)
    requires ValidName(name)
    ensures Proper(name) && name != ".." && !IsSpace(name[|name| - 1]) && 0 as char !in name
    ensures Components(name) == [name]
  {
    assert SLASH !in name;
    ComponentsCut(name, "");
  }

  /** What the directory of a new server is: the root's components and the name. A root that is just
      "/" gains a second slash. */
  lemma ServerDirMeaning(nodeRoot: string, name: string)
    requires ValidName(name) && Normalise(nodeRoot).Ok?
    ensures ServerDir(nodeRoot, name).Ok?
    ensures var root := NormOf(Normalise(nodeRoot).path);
            NormOf(ServerDir(nodeRoot, name).path) == Below(root, name)
  {
    hide Components; hide Strip; hide Join; hide ValidName;
    ValidNameIsComponent(name);
    var n := NormOf(Strip(nodeRoot));
    NormaliseMeaning(nodeRoot);
    NoNul(nodeRoot);
    var s := Render(n) + "/" + name;
    assert s[|s| - 1] == name[|name| - 1];
    RenderParses(n);
    StripFixes(s);
    RenderBelow(n, name);
    RenderParses(Below(n, name));
  }

  function Below(root: Norm, name: string): Norm {
    Norm(if root.components == [] then !root.double else root.double, root.components + [name])
  }

  lemma RenderBelow(n: Norm, name: string)
    requires ProperAll(n.components) && Proper(name) && Components(name) == [name]
    ensures NormOf(Render(n) + "/" + name) == Below(n, name)
  {
    hide Components;
    var r := Render(n);
    var s := r + "/" + name;
    RenderParses(n);
    assert s == r + [SLASH] + name;
    ComponentsAppend(r, name);
    if n.components == [] {
      assert s == (if n.double then "///" else "//") + name;
    } else {
      assert Proper(n.components[0]) && n.components[0][0] in n.components[0];
      assert |r| >= 2 && (n.double ==> |r| >= 3);
    }
  }

  lemma NoNul(path: string)
    requires Normalise(path).Ok?
    ensures 0 as char !in Normalise(path).path
  {
    var n := NormOf(Strip(path));
    if 0 as char in Render(n) {
      NulSurvives(n.components, 0 as char);
      var i :| 0 <= i < |n.components| && 0 as char in n.components[i];
      ComponentsFromText(Strip(path), i, 0 as char);
    }
  }

  /** Two servers of a node never share a directory unless they share a name. */
  lemma ServerDirInjective(nodeRoot: string, a: string, b: string)
    requires ValidName(a) && ValidName(b) && Normalise(nodeRoot).Ok?
    ensures ServerDir(nodeRoot, a) == ServerDir(nodeRoot, b) ==> a == b
  {
    ServerDirMeaning(nodeRoot, a);
    ServerDirMeaning(nodeRoot, b);
    var root := NormOf(Normalise(nodeRoot).path);
    assert (root.components + [a])[|root.components|] == a;
    assert (root.components + [b])[|root.components|] == b;
  }

  /** The hub's own check passes the directory it composed exactly when the node root is not "/"
      itself: there it composes "//name", which it then reports as stranded. */
  lemma ServerDirUnderRootExactly(nodeRoot: string, name: string)
    requires ValidName(name) && Normalise(nodeRoot).Ok?
    ensures var dir := ServerDir(nodeRoot, name);
            dir.Ok? && (!IsStranded(Some(nodeRoot), dir.path) <==> NormOf(Normalise(nodeRoot).path).components != [])
  {
    ServerDirMeaning(nodeRoot, name);
    ValidNameIsComponent(name);
    var root := NormOf(Normalise(nodeRoot).path);
    var dir := ServerDir(nodeRoot, name).path;
    var raw := Normalise(nodeRoot).path + "/" + name;
    NormaliseMeaning(raw);
    EndsWithName(NormOf(Strip(raw)), root.components, name);
    IdempotentExactly(raw);
    assert (root.components + [name])[..|root.components|] == root.components;
  }

  lemma EndsWithName(n: Norm, above: seq<string>, name: string)
    requires n.components == above + [name] && name != ""
    ensures Render(n)[|Render(n)| - 1] == name[|name| - 1]
  {
    JoinEnds(n.components);
    assert n.components[|n.components| - 1] == name;
  }

  lemma {:induction false} JoinEnds(cs: seq<string>)
    requires cs != [] && cs[|cs| - 1] != ""
    ensures Join(cs) != "" && Join(cs)[|Join(cs)| - 1] == cs[|cs| - 1][|cs[|cs| - 1]| - 1]
  {
    if |cs| > 1 { JoinEnds(cs[1..]); }
  }
}
