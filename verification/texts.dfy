/** Text conventions the parsers share: white space, path separators. */
module Texts {

  /** str.isspace, for ASCII. */
  predicate IsSpace(c: char) { 9 <= c as int <= 13 || 28 <= c as int <= 32 }

  function Strip(s: string): (r: string)
    ensures r != "" ==> !IsSpace(r[0]) && !IsSpace(r[|r| - 1])
    ensures |r| <= |s|
  {
    if s != "" && IsSpace(s[0]) then Strip(s[1..])
    else if s != "" && IsSpace(s[|s| - 1]) then Strip(s[..|s| - 1])
    else s
  }

  /** Tab to carriage return, the separators 28 to 31, and the space. */
  lemma SpacesAre(c: char)
    ensures IsSpace(c) <==> c as int in {9, 10, 11, 12, 13, 28, 29, 30, 31, 32}
  {
  }

  ghost predicate AllSpace(s: string) {
    forall i :: 0 <= i < |s| ==> IsSpace(s[i])
  }

  /** Stripping takes white space off both ends and nothing else. */
  lemma {:induction false} StripExactly(s: string) returns (front: string, back: string)
    ensures s == front + Strip(s) + back && AllSpace(front) && AllSpace(back)
  {
    if s != "" && IsSpace(s[0]) {
      var rest;
      assert Strip(s) == Strip(s[1..]);
      hide Strip; hide IsSpace;
      rest, back := StripExactly(s[1..]);
      front := [s[0]] + rest;
      assert s == [s[0]] + (rest + Strip(s) + back) == front + Strip(s) + back;
    } else if s != "" && IsSpace(s[|s| - 1]) {
      var rest;
      assert Strip(s) == Strip(s[..|s| - 1]);
      hide Strip; hide IsSpace;
      front, rest := StripExactly(s[..|s| - 1]);
      back := rest + [s[|s| - 1]];
      assert s == s[..|s| - 1] + [s[|s| - 1]] == front + Strip(s) + back;
    } else {
      front, back := "", "";
      assert s == "" + s + "";
    }
  }

  lemma StripFixes(s: string)
    ensures Strip(s) == s <==> s == "" || (!IsSpace(s[0]) && !IsSpace(s[|s| - 1]))
  {
  }

  /** A text that does not begin with white space loses only white space at its end. */
  lemma {:induction false} StripEnd(s: string)
    requires s != "" && !IsSpace(s[0])
    ensures Strip(s) <= s && Strip(s) != ""
    ensures forall i :: |Strip(s)| <= i < |s| ==> IsSpace(s[i])
  {
    if IsSpace(s[|s| - 1]) { StripEnd(s[..|s| - 1]); }
  }

  // Slash-separated paths, read as pathlib does: empty and "." components vanish.

  const SLASH: char := '/'

  function FirstSlash(s: string): (k: nat)
    ensures k <= |s| && SLASH !in s[..k] && (k < |s| ==> s[k] == SLASH)
  {
    if s == "" || s[0] == SLASH then 0
    else
      var k := FirstSlash(s[1..]);
      assert s[..1 + k] == [s[0]] + s[1..][..k];
      1 + k
  }

  function Keep(c: string): seq<string> {
    if c == "" || c == "." then [] else [c]
  }

  function Components(s: string): (cs: seq<string>)
    ensures forall i :: 0 <= i < |cs| ==> Proper(cs[i])
  {
    var k := FirstSlash(s);
    if k == |s| then
      assert s[..k] == s;
      Keep(s)
    else Keep(s[..k]) + Components(s[k + 1..])
  }

  predicate Proper(c: string) {
    c != "" && c != "." && SLASH !in c
  }

  function Join(cs: seq<string>): string {
    if cs == [] then "" else if |cs| == 1 then cs[0] else cs[0] + [SLASH] + Join(cs[1..])
  }

  lemma {:induction false} FirstSlashOf(a: string, b: string)
    requires SLASH !in a && (b == "" || b[0] == SLASH)
    ensures FirstSlash(a + b) == |a|
  {
    if a == "" {
      assert a + b == b;
    } else {
      assert a[0] in a && (a + b)[0] == a[0] && (a + b)[1..] == a[1..] + b;
      FirstSlashOf(a[1..], b);
    }
  }

  /** One component and the rest. */
  lemma ComponentsCut(c: string, rest: string)
    requires SLASH !in c
    ensures Components(c) == Keep(c)
    ensures Components(c + ([SLASH] + rest)) == Keep(c) + Components(rest)
  {
    FirstSlashOf(c, "");
    assert c + "" == c;
    var s := c + ([SLASH] + rest);
    FirstSlashOf(c, [SLASH] + rest);
    assert s[..|c|] == c && s[|c| + 1..] == rest;
  }

  lemma {:induction false} ComponentsAppend(a: string, b: string)
    ensures Components(a + [SLASH] + b) == Components(a) + Components(b)
    decreases |a|
  {
    hide Components; hide Keep;
    var k := FirstSlash(a);
    if k == |a| {
      assert a[..k] == a && a + [SLASH] + b == a + ([SLASH] + b);
      ComponentsCut(a, b);
    } else {
      var c, rest := a[..k], a[k + 1..];
      assert a == c + ([SLASH] + rest);
      assert a + [SLASH] + b == c + ([SLASH] + (rest + [SLASH] + b));
      ComponentsCut(c, rest);
      ComponentsCut(c, rest + [SLASH] + b);
      ComponentsAppend(rest, b);
    }
  }

  lemma {:induction false} ComponentsOfJoin(cs: seq<string>)
    requires forall i :: 0 <= i < |cs| ==> Proper(cs[i])
    ensures Components(Join(cs)) == cs
  {
    if cs == [] {
      assert Components("") == [];
    } else {
      hide Components;
      var c := cs[0];
      ComponentsCut(c, "");
      if |cs| > 1 {
        ComponentsOfJoin(cs[1..]);
        ComponentsAppend(c, Join(cs[1..]));
        assert [c] + cs[1..] == cs;
      } else {
        assert cs == [c];
      }
    }
  }

  /** The last slash of a text, and what follows it. */
  lemma {:induction false} LastSlash(s: string) returns (above: string, last: string)
    requires SLASH in s
    ensures s == above + [SLASH] + last && SLASH !in last
  {
    var most, c := s[..|s| - 1], s[|s| - 1];
    assert s == most + [c];
    if c == SLASH {
      above, last := most, "";
      assert s == most + [SLASH] + "";
    } else {
      above, last := LastSlash(most);
      assert s == above + [SLASH] + (last + [c]);
      last := last + [c];
    }
  }
}
