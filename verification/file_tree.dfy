/** A directory tree as the agent's file operations see it: what stands at each path. A failing
    operation raises; the tree then holds whatever it had done so far. */
module FileTrees {
  import opened Options

  type Path = seq<string>
  type Content = seq<bv8>

  datatype Node = File(content: Content) | Dir

  type Tree = map<Path, Node>

  function FileAt(t: Tree, p: Path): Option<Content> {
    if p in t && t[p].File? then Some(t[p].content) else None
  }

  function NodeAt(t: Tree, p: Path): Option<Node> {
    if p in t then Some(t[p]) else None
  }

  predicate DirAt(t: Tree, p: Path) {
    p in t && t[p].Dir?
  }

  predicate IsPrefix(p: Path, q: Path) {
    |p| <= |q| && q[..|p|] == p
  }

  /** No path on the way to p is a file. */
  ghost predicate PassableTo(t: Tree, p: Path) {
    forall k :: 0 <= k <= |p| ==> FileAt(t, p[..k]) == None
  }

  /** The bytes of a stream read chunk by chunk. */
  function Joined(chunks: seq<Content>): Content {
    if chunks == [] then [] else Joined(chunks[..|chunks| - 1]) + chunks[|chunks| - 1]
  }

  lemma {:induction false} JoinedGrows(chunks: seq<Content>, n: nat)
    requires n <= |chunks|
    ensures |Joined(chunks[..n])| <= |Joined(chunks)|
    decreases |chunks| - n
  {
    if n < |chunks| {
      assert chunks[..n + 1][..n] == chunks[..n];
      JoinedGrows(chunks, n + 1);
    } else {
      assert chunks[..n] == chunks;
    }
  }
}
