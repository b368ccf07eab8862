/** Which file a start command executes, and the start command of a new server (serverjar.py). */
module ServerJar {
  import opened Options
  import opened Texts

  // Splitting a command line as a POSIX shell would.

  /** Outside quotes; inside a kind of quote; after a backslash outside or inside double quotes. */
  datatype Mode = Plain | Quoted(quote: char) | Escaped | EscapedInQuotes

  predicate IsBlank(c: char) { c == ' ' || c == '\t' || c == '\r' || c == '\n' }
  predicate IsQuote(c: char) { c == '"' || c == '\'' }

  /** The tokens of s, of which `token` is already read when `open`. None for an unbalanced quote or
      a backslash at the end. */
  function Lex(s: string, mode: Mode, token: string, open: bool): Option<seq<string>>
    decreases |s|
  {
    if s == "" then
      if !mode.Plain? then None else Some(if open then [token] else [])
    else
      var c, rest := s[0], s[1..];
      match mode
      case Plain =>
        if IsBlank(c) then
          if open then Cons(token, Lex(rest, Plain, "", false)) else Lex(rest, Plain, "", false)
        else if c == '\\' then Lex(rest, Escaped, token, true)
        else if IsQuote(c) then Lex(rest, Quoted(c), token, true)
        else Lex(rest, Plain, token + [c], true)
      case Quoted(q) =>
        if c == q then Lex(rest, Plain, token, true)
        else if c == '\\' && q == '"' then Lex(rest, EscapedInQuotes, token, true)
        else Lex(rest, mode, token + [c], true)
      case Escaped => Lex(rest, Plain, token + [c], true)
      case EscapedInQuotes =>
        Lex(rest, Quoted('"'), if c == '"' || c == '\\' then token + [c] else token + ['\\', c], true)
  }

  function Cons(t: string, ts: Option<seq<string>>): Option<seq<string>> {
    if ts.None? then None else Some([t] + ts.value)
  }

  /** str.split: the fallback for a command line the shell rules reject. */
  function Words(s: string, word: string): seq<string> {
    if s == "" then (if word == "" then [] else [word])
    else if IsSpace(s[0]) then (if word == "" then [] else [word]) + Words(s[1..], "")
    else Words(s[1..], word + [s[0]])
  }

  function Tokenize(command: string): seq<string> {
    var tokens := Lex(command, Plain, "", false);
    if tokens.Some? then tokens.value else Words(command, "")
  }

  // Resolving.

  datatype Executable = Explicit(path: string) | Parsed(path: string) | Unknown

  predicate AllowCreate(e: Executable) {
    e.Explicit?
  }

  predicate StartsWith(s: string, p: string) {
    |p| <= |s| && s[..|p|] == p
  }

  predicate EndsWith(s: string, p: string) {
    |p| <= |s| && s[|s| - |p|..] == p
  }

  predicate IsJava(token: string) {
    token == "java" || EndsWith(token, "/java")
  }

  predicate IsClassPathFlag(token: string) {
    token == "-cp" || token == "-classpath" || token == "--class-path"
  }

  function JarFlag(tokens: seq<string>): Option<string> {
    if tokens == [] then None
    else if tokens[0] == "-jar" && |tokens| > 1 then Some(tokens[1])
    else if StartsWith(tokens[0], "-jar=") then Some(tokens[0][5..])
    else JarFlag(tokens[1..])
  }

  function SplitColon(s: string, entry: string): seq<string> {
    if s == "" then [entry]
    else if s[0] == ':' then [entry] + SplitColon(s[1..], "")
    else SplitColon(s[1..], entry + [s[0]])
  }

  /** Entries of a class path that are jars and not wildcards. */
  function Jars(entries: seq<string>): seq<string> {
    if entries == [] then []
    else (if EndsWith(entries[0], ".jar") && '*' !in entries[0] then [entries[0]] else []) + Jars(entries[1..])
  }

  function ClassPathJar(tokens: seq<string>): Executable {
    if tokens == [] then Unknown
    else if IsClassPathFlag(tokens[0]) && |tokens| > 1 then
      var jars := Jars(SplitColon(tokens[1], ""));
      if |jars| == 1 then Parsed(jars[0]) else Unknown
    else ClassPathJar(tokens[1..])
  }

  function ResolveTokens(tokens: seq<string>): Executable {
    if !exists t :: t in tokens && IsJava(t) then Unknown
    else if exists t :: t in tokens && StartsWith(t, "@") then Unknown
    else
      var jar := JarFlag(tokens);
      if jar.Some? then Parsed(jar.value) else ClassPathJar(tokens)
  }

  function Resolve(command: string, jarPath: Option<string>): Executable {
    if jarPath.Some? && Strip(jarPath.value) != "" then Explicit(Strip(jarPath.value))
    else ResolveTokens(Tokenize(command))
  }

  // Building.

  function LaunchFor(software: string): Option<(string, bool)> {
    if software == "paper" then Some(("paper.jar", true))
    else if software == "vanilla" then Some(("server.jar", true))
    else if software == "velocity" then Some(("velocity.jar", false))
    else None
  }

  function JarForType(software: string): Option<string> {
    if LaunchFor(software).None? then None else Some(LaunchFor(software).value.0)
  }

  function MemoryFlag(memory: Option<string>): string {
    if memory.Some? && Strip(memory.value) != "" then "-Xmx" + Strip(memory.value) + " " else ""
  }

  function BuildStartCommand(software: string, memory: Option<string>): Option<string> {
    if LaunchFor(software).None? then None
    else
      var (jar, nogui) := LaunchFor(software).value;
      Some("java " + (MemoryFlag(memory) + ("-jar " + (jar + (if nogui then " nogui" else "")))))
  }

  // Tokens of what was built.

  /** A word the shell rules leave alone. */
  predicate IsPlain(w: string) {
    w != "" && forall i :: 0 <= i < |w| ==> !IsBlank(w[i]) && !IsQuote(w[i]) && w[i] != '\\'
  }

  lemma {:induction false} LexWord(w: string, rest: string, token: string, open: bool)
    requires (forall i :: 0 <= i < |w| ==> !IsBlank(w[i]) && !IsQuote(w[i]) && w[i] != '\\')
    requires w != "" || open
    ensures Lex(w + rest, Plain, token, open) == Lex(rest, Plain, token + w, true)
    decreases |w|
  {
    if w == "" {
      assert w + rest == rest && token + w == token;
    } else {
      assert (w + rest)[0] == w[0] && (w + rest)[1..] == w[1..] + rest;
      LexWord(w[1..], rest, token + [w[0]], true);
      assert token + [w[0]] + w[1..] == token + w;
    }
  }

  lemma WordThen(w: string, rest: string)
    requires IsPlain(w)
    ensures Lex(w + (" " + rest), Plain, "", false) == Cons(w, Lex(rest, Plain, "", false))
    ensures Lex(w, Plain, "", false) == Some([w])
  {
    LexWord(w, " " + rest, "", false);
    LexWord(w, "", "", false);
    assert "" + w == w && w + "" == w && (" " + rest)[1..] == rest;
  }

  /** No memory, or one plain word. */
  predicate MemoryOk(memory: Option<string>) {
    memory.Some? && Strip(memory.value) != "" ==> IsPlain(Strip(memory.value))
  }

  /** What the API admits as a memory size once stripped: digits and a unit. */
  predicate IsMemorySize(m: string) {
    |m| >= 2 && m[|m| - 1] in "KMGkmg" && forall i :: 0 <= i < |m| - 1 ==> '0' <= m[i] <= '9'
  }

  lemma MemorySizeIsPlain(memory: string)
    requires IsMemorySize(Strip(memory))
    ensures MemoryOk(Some(memory))
  {
    hide Strip;
    var m := Strip(memory);
    forall i | 0 <= i < |m| ensures !IsBlank(m[i]) && !IsQuote(m[i]) && m[i] != '\\' {
    }
  }

  /** Words with single spaces between them. */
  function Line(words: seq<string>): string {
    if words == [] then "" else if |words| == 1 then words[0] else words[0] + (" " + Line(words[1..]))
  }

  lemma LineCons(w: string, words: seq<string>)
    requires words != []
    ensures Line([w] + words) == w + (" " + Line(words))
  {
    assert ([w] + words)[1..] == words;
  }

  ghost predicate AllPlain(words: seq<string>) {
    forall i :: 0 <= i < |words| ==> IsPlain(words[i])
  }

  lemma {:induction false} LexLine(words: seq<string>)
    requires words != [] && AllPlain(words)
    ensures Lex(Line(words), Plain, "", false) == Some(words)
  {
    hide Lex; hide IsPlain;
    if |words| == 1 {
      WordThen(words[0], "");
      assert words == [words[0]];
    } else {
      WordThen(words[0], Line(words[1..]));
      LexLine(words[1..]);
      assert [words[0]] + words[1..] == words;
    }
  }

  function MemoryWords(memory: Option<string>): seq<string> {
    if memory.Some? && Strip(memory.value) != "" then ["-Xmx" + Strip(memory.value)] else []
  }

  function LaunchWords(jar: string, nogui: bool): seq<string> {
    ["-jar"] + ([jar] + if nogui then ["nogui"] else [])
  }

  function BuiltWords(memory: Option<string>, jar: string, nogui: bool): seq<string> {
    ["java"] + (MemoryWords(memory) + LaunchWords(jar, nogui))
  }

  lemma MemoryLine(memory: Option<string>, launch: seq<string>)
    requires launch != []
    ensures Line(MemoryWords(memory) + launch) == MemoryFlag(memory) + Line(launch)
  {
    hide Strip; hide Line;
    if MemoryWords(memory) != [] {
      LineCons("-Xmx" + Strip(memory.value), launch);
      assert MemoryFlag(memory) + Line(launch) == "-Xmx" + Strip(memory.value) + (" " + Line(launch));
    } else {
      assert MemoryWords(memory) + launch == launch;
    }
  }

  lemma BuiltLine(memory: Option<string>, jar: string, nogui: bool)
    ensures Line(BuiltWords(memory, jar, nogui))
         == "java " + (MemoryFlag(memory) + ("-jar " + (jar + (if nogui then " nogui" else ""))))
  {
    hide Line; hide MemoryWords; hide MemoryFlag;
    var end := [jar] + if nogui then ["nogui"] else [];
    LineOfEnd(jar, nogui);
    LineCons("-jar", end);
    var launch := LaunchWords(jar, nogui);
    assert Line(launch) == "-jar " + Line(end);
    MemoryLine(memory, launch);
    var words := MemoryWords(memory) + launch;
    LineCons("java", words);
    assert Line(["java"] + words) == "java " + Line(words);
  }

  lemma BuiltPlain(memory: Option<string>, jar: string, nogui: bool)
    requires MemoryOk(memory) && IsPlain(jar)
    ensures AllPlain(BuiltWords(memory, jar, nogui))
  {
    hide Strip;
    assert IsPlain("java") && IsPlain("-jar") && IsPlain("nogui");
    if MemoryWords(memory) != [] {
      var size := Strip(memory.value);
      var word := "-Xmx" + size;
      forall i | 0 <= i < |word| ensures !IsBlank(word[i]) && !IsQuote(word[i]) && word[i] != '\\' {
        assert word[i] == if i < 4 then "-Xmx"[i] else size[i - 4];
      }
    }
  }

  lemma BuiltTokens(software: string, memory: Option<string>)
    requires LaunchFor(software).Some? && MemoryOk(memory)
    ensures var (jar, nogui) := LaunchFor(software).value;
            Tokenize(BuildStartCommand(software, memory).value) == BuiltWords(memory, jar, nogui)
  {
    var (jar, nogui) := LaunchFor(software).value;
    assert IsPlain(jar);
    hide Lex; hide Line; hide IsPlain; hide MemoryFlag; hide MemoryWords;
    BuiltLine(memory, jar, nogui);
    BuiltPlain(memory, jar, nogui);
    LexLine(BuiltWords(memory, jar, nogui));
  }

  lemma LineOfEnd(jar: string, nogui: bool)
    ensures Line([jar] + if nogui then ["nogui"] else []) == jar + if nogui then " nogui" else ""
  {
    if nogui {
      LineCons(jar, ["nogui"]);
      assert jar + (" " + "nogui") == jar + " nogui";
    }
  }

  lemma NotStarting(w: string, p: string)
    requires w != "" && p != "" && w[0] != p[0]
    ensures !StartsWith(w, p)
  {
    if |p| <= |w| { assert w[..|p|][0] == w[0]; }
  }

  lemma {:induction false} JarFlagAfter(before: seq<string>, jar: string, after: seq<string>)
    requires forall i :: 0 <= i < |before| ==> before[i] != "-jar" && !StartsWith(before[i], "-jar=")
    ensures JarFlag(before + (["-jar"] + ([jar] + after))) == Some(jar)
  {
    var tokens := before + (["-jar"] + ([jar] + after));
    if before != [] {
      assert tokens[1..] == before[1..] + (["-jar"] + ([jar] + after)) && tokens[0] == before[0];
      JarFlagAfter(before[1..], jar, after);
    } else {
      assert tokens[0] == "-jar" && tokens[1] == jar;
    }
  }

  /** A java launch with a -jar, no other before it and no argument file, resolves to that jar. */
  lemma LaunchResolves(flags: seq<string>, jar: string, after: seq<string>)
    requires forall i :: 0 <= i < |flags| ==>
               flags[i] != "-jar" && !StartsWith(flags[i], "-jar=") && !StartsWith(flags[i], "@")
    requires !StartsWith(jar, "@") && forall i :: 0 <= i < |after| ==> !StartsWith(after[i], "@")
    ensures ResolveTokens(["java"] + (flags + (["-jar"] + ([jar] + after)))) == Parsed(jar)
  {
    var tokens := ["java"] + (flags + (["-jar"] + ([jar] + after)));
    assert tokens[0] == "java" && IsJava(tokens[0]);
    assert tokens == (["java"] + flags) + (["-jar"] + ([jar] + after));
    NotStarting("java", "-jar=");
    NotStarting("java", "@");
    NotStarting("-jar", "@");
    JarFlagAfter(["java"] + flags, jar, after);
  }

  lemma NotJarFlag(w: string)
    requires |w| > 1 && w[0] == '-' && w[1] == 'X'
    ensures w != "-jar" && !StartsWith(w, "-jar=") && !StartsWith(w, "@")
  {
    NotStarting(w, "@");
    if |w| >= 5 { assert w[..5][1] == w[1] && "-jar="[1] == 'j'; }
  }

  /** Whatever a new server is started with, the updater finds the jar that was installed for it. */
  lemma BuilderRoundTrip(software: string, memory: Option<string>)
    requires LaunchFor(software).Some? && MemoryOk(memory)
    ensures Resolve(BuildStartCommand(software, memory).value, None) == Parsed(JarForType(software).value)
  {
    hide Lex; hide Strip; hide Tokenize; hide ResolveTokens; hide BuildStartCommand;
    BuiltTokens(software, memory);
    var (jar, nogui) := LaunchFor(software).value;
    var words := MemoryWords(memory);
    forall i | 0 <= i < |words|
      ensures words[i] != "-jar" && !StartsWith(words[i], "-jar=") && !StartsWith(words[i], "@")
    {
      NotJarFlag(words[i]);
    }
    NotStarting(jar, "@");
    NotStarting("nogui", "@");
    LaunchResolves(words, jar, if nogui then ["nogui"] else []);
  }

  // Exactly what a command line may be.

  /** A character between double quotes: as it stands, or after a backslash. */
  datatype Mark = Char(c: char) | Marked(c: char)

  /** The pieces of a command line. */
  datatype Piece =
    | Blank(c: char)
    | Bare(c: char)
    | Backslashed(c: char)
    | Single(text: string)
    | Double(marks: seq<Mark>)

  predicate Legal(p: Piece) {
    match p
    case Blank(c) => c in {' ', '\t', '\r', '\n'}
    case Bare(c) => c !in {' ', '\t', '\r', '\n', '"', '\'', '\\'}
    case Backslashed(_) => true
    case Single(text) => '\'' !in text
    case Double(marks) => forall i :: 0 <= i < |marks| && marks[i].Char? ==> marks[i].c !in {'"', '\\'}
  }

  function MarksWritten(marks: seq<Mark>): string {
    if marks == [] then ""
    else (if marks[0].Char? then [marks[0].c] else ['\\', marks[0].c]) + MarksWritten(marks[1..])
  }

  /** A backslash between double quotes vanishes before a double quote and a backslash only. */
  function MarksMeant(marks: seq<Mark>): string {
    if marks == [] then ""
    else (if marks[0].Char? || marks[0].c in {'"', '\\'} then [marks[0].c] else ['\\', marks[0].c])
         + MarksMeant(marks[1..])
  }

  function Written(p: Piece): string {
    match p
    case Blank(c) => [c]
    case Bare(c) => [c]
    case Backslashed(c) => ['\\', c]
    case Single(text) => ['\''] + (text + ['\''])
    case Double(marks) => ['"'] + (MarksWritten(marks) + ['"'])
  }

  function Meant(p: Piece): string {
    match p
    case Blank(_) => ""
    case Bare(c) => [c]
    case Backslashed(c) => [c]
    case Single(text) => text
    case Double(marks) => MarksMeant(marks)
  }

  function WrittenAll(ps: seq<Piece>): string {
    if ps == [] then "" else Written(ps[0]) + WrittenAll(ps[1..])
  }

  /** The words the pieces make up: what stands between blanks, of which `token` is already there. */
  function WordsOf(ps: seq<Piece>, token: string, open: bool): seq<string> {
    if ps == [] then (if open then [token] else [])
    else if ps[0].Blank? then (if open then [token] else []) + WordsOf(ps[1..], "", false)
    else WordsOf(ps[1..], token + Meant(ps[0]), true)
  }

  ghost predicate AllLegal(ps: seq<Piece>) {
    forall i :: 0 <= i < |ps| ==> Legal(ps[i])
  }

  lemma {:induction false} LexSingle(text: string, rest: string, token: string)
    requires '\'' !in text
    ensures Lex(text + (['\''] + rest), Quoted('\''), token, true) == Lex(rest, Plain, token + text, true)
    decreases |text|
  {
    var s := text + (['\''] + rest);
    if text == "" {
      assert s[1..] == rest && token + "" == token;
    } else {
      assert text[0] in text && s[1..] == text[1..] + (['\''] + rest);
      LexSingle(text[1..], rest, token + [text[0]]);
      assert token + [text[0]] + text[1..] == token + text;
    }
  }

  lemma LexMark(m: Mark, more: string, token: string)
    requires m.Char? ==> m.c !in {'"', '\\'}
    ensures Lex(MarksWritten([m]) + more, Quoted('"'), token, true)
         == Lex(more, Quoted('"'), token + MarksMeant([m]), true)
  {
    var s := MarksWritten([m]) + more;
    assert [m][1..] == [] && MarksWritten([]) == "" && MarksMeant([]) == "";
    if m.Char? {
      assert s == [m.c] + more && s[1..] == more;
      assert MarksMeant([m]) == [m.c];
    } else {
      assert s == ['\\', m.c] + more && s[0] == '\\' && s[1..] == [m.c] + more && ([m.c] + more)[1..] == more;
      assert Lex(s, Quoted('"'), token, true) == Lex([m.c] + more, EscapedInQuotes, token, true);
      assert MarksMeant([m]) == if m.c in {'"', '\\'} then [m.c] else ['\\', m.c];
    }
  }

  lemma MarksCons(m: Mark, marks: seq<Mark>)
    ensures MarksWritten([m] + marks) == MarksWritten([m]) + MarksWritten(marks)
    ensures MarksMeant([m] + marks) == MarksMeant([m]) + MarksMeant(marks)
  {
    assert ([m] + marks)[1..] == marks && [m][1..] == [];
    assert MarksWritten([]) == "" && MarksMeant([]) == "";
  }

  lemma {:induction false} LexDouble(marks: seq<Mark>, rest: string, token: string)
    requires Legal(Double(marks))
    ensures Lex(MarksWritten(marks) + (['"'] + rest), Quoted('"'), token, true)
         == Lex(rest, Plain, token + MarksMeant(marks), true)
    decreases |marks|
  {
    hide Lex; hide MarksWritten; hide MarksMeant;
    var end := ['"'] + rest;
    if marks == [] {
      assert MarksWritten([]) == "" && MarksMeant([]) == "" by { NoMarks(); }
      assert "" + end == end && token + "" == token;
      LexCloseQuote(rest, token);
    } else {
      assert marks == [marks[0]] + marks[1..];
      MarksCons(marks[0], marks[1..]);
      var more := MarksWritten(marks[1..]) + end;
      assert MarksWritten(marks) + end == MarksWritten([marks[0]]) + more;
      LexMark(marks[0], more, token);
      LexDouble(marks[1..], rest, token + MarksMeant([marks[0]]));
      assert token + MarksMeant([marks[0]]) + MarksMeant(marks[1..]) == token + MarksMeant(marks);
    }
  }

  lemma NoMarks()
    ensures MarksWritten([]) == "" && MarksMeant([]) == ""
  {
  }

  /** Reading one piece. */
  lemma LexPiece(p: Piece, rest: string, token: string, open: bool)
    requires Legal(p)
    ensures Lex(Written(p) + rest, Plain, token, open)
         == if p.Blank? then (if open then Cons(token, Lex(rest, Plain, "", false)) else Lex(rest, Plain, "", false))
            else Lex(rest, Plain, token + Meant(p), true)
  {
    hide Lex;
    var s := Written(p) + rest;
    match p
    case Blank(c) => LexPlainChar(c, rest, token, open);
    case Bare(c) => LexPlainChar(c, rest, token, open);
    case Backslashed(c) =>
      LexBackslash(c, rest, token, open);
      assert s == ['\\', c] + rest;
    case Single(text) =>
      QuoteOpens('\'', text + (['\''] + rest), token, open);
      assert s == ['\''] + (text + (['\''] + rest));
      LexSingle(text, rest, token);
    case Double(marks) =>
      QuoteOpens('"', MarksWritten(marks) + (['"'] + rest), token, open);
      assert s == ['"'] + (MarksWritten(marks) + (['"'] + rest));
      LexDouble(marks, rest, token);
  }

  lemma LexPlainChar(c: char, rest: string, token: string, open: bool)
    requires !IsQuote(c) && c != '\\'
    ensures Lex([c] + rest, Plain, token, open)
         == if !IsBlank(c) then Lex(rest, Plain, token + [c], true)
            else if open then Cons(token, Lex(rest, Plain, "", false)) else Lex(rest, Plain, "", false)
  {
    assert ([c] + rest)[1..] == rest;
  }

  lemma LexBackslash(c: char, rest: string, token: string, open: bool)
    ensures Lex(['\\', c] + rest, Plain, token, open) == Lex(rest, Plain, token + [c], true)
  {
    var s := ['\\', c] + rest;
    assert s[0] == '\\' && s[1..] == [c] + rest && ([c] + rest)[1..] == rest;
    assert Lex(s, Plain, token, open) == Lex([c] + rest, Escaped, token, true);
  }

  lemma QuoteOpens(q: char, more: string, token: string, open: bool)
    requires q == '"' || q == '\''
    ensures Lex([q] + more, Plain, token, open) == Lex(more, Quoted(q), token, true)
  {
    assert ([q] + more)[1..] == more;
  }

  lemma {:induction false} LexPieces(ps: seq<Piece>, token: string, open: bool)
    requires AllLegal(ps) && (!open ==> token == "")
    ensures Lex(WrittenAll(ps), Plain, token, open) == Some(WordsOf(ps, token, open))
    decreases |ps|
  {
    if ps != [] {
      hide Lex; hide Written; hide Meant; hide Legal;
      var rest := WrittenAll(ps[1..]);
      assert Legal(ps[0]);
      LexPiece(ps[0], rest, token, open);
      if ps[0].Blank? {
        LexPieces(ps[1..], "", false);
        var words := WordsOf(ps[1..], "", false);
        assert [] + words == words;
      } else {
        LexPieces(ps[1..], token + Meant(ps[0]), true);
      }
    }
  }

  /** What stands before the end of a single quote. */
  lemma {:induction false} SingleEnds(s: string, token: string) returns (text: string, rest: string)
    requires Lex(s, Quoted('\''), token, true).Some?
    ensures s == text + (['\''] + rest) && '\'' !in text
    decreases |s|
  {
    if s[0] == '\'' {
      text, rest := "", s[1..];
      assert s == text + (['\''] + rest);
    } else {
      text, rest := SingleEnds(s[1..], token + [s[0]]);
      text := [s[0]] + text;
      assert s == text + (['\''] + rest);
    }
  }

  /** And before the end of a double one. */
  lemma {:induction false} DoubleEnds(s: string, token: string) returns (marks: seq<Mark>, rest: string)
    requires Lex(s, Quoted('"'), token, true).Some?
    ensures s == MarksWritten(marks) + (['"'] + rest) && Legal(Double(marks))
    decreases |s|
  {
    if s[0] == '"' {
      marks, rest := [], s[1..];
      assert s == "" + (['"'] + rest);
    } else {
      var m, more := Char(s[0]), s[1..];
      if s[0] == '\\' {
        assert Lex(s, Quoted('"'), token, true) == Lex(s[1..], EscapedInQuotes, token, true);
        m, more := Marked(s[1]), s[1..][1..];
        assert s == ['\\', s[1]] + more;
      } else {
        assert s == [s[0]] + more;
      }
      OneMark(m);
      assert s == MarksWritten([m]) + more;
      LexMark(m, more, token);
      hide Lex; hide MarksWritten;
      var later: seq<Mark>;
      later, rest := DoubleEnds(more, token + MarksMeant([m]));
      marks := [m] + later;
      MarksCons(m, later);
      assert s == MarksWritten([m]) + (MarksWritten(later) + (['"'] + rest));
    }
  }

  lemma OneMark(m: Mark)
    ensures MarksWritten([m]) == if m.Char? then [m.c] else ['\\', m.c]
  {
    assert [m][1..] == [] && MarksWritten([]) == "";
  }

  /** The first piece of a command line that can be read. */
  lemma FirstPiece(s: string, token: string, open: bool) returns (p: Piece, rest: string)
    requires s != "" && Lex(s, Plain, token, open).Some?
    ensures Legal(p) && s == Written(p) + rest && |rest| < |s|
  {
    var c := s[0];
    if IsBlank(c) {
      p, rest := Blank(c), s[1..];
      assert s == [c] + rest;
    } else if c == '\\' {
      assert Lex(s, Plain, token, open) == Lex(s[1..], Escaped, token, true);
      p, rest := Backslashed(s[1]), s[1..][1..];
      assert s == ['\\', s[1]] + rest;
    } else if c == '\'' {
      var text;
      text, rest := SingleEnds(s[1..], token);
      p := Single(text);
      assert s == [c] + s[1..] == ['\''] + (text + ['\'']) + rest;
    } else if c == '"' {
      var marks;
      marks, rest := DoubleEnds(s[1..], token);
      p := Double(marks);
      assert s == [c] + s[1..] == ['"'] + (MarksWritten(marks) + ['"']) + rest;
    } else {
      p, rest := Bare(c), s[1..];
      assert s == [c] + rest;
    }
  }

  lemma {:induction false} ReadAsPieces(s: string, token: string, open: bool) returns (ps: seq<Piece>)
    requires Lex(s, Plain, token, open).Some? && (!open ==> token == "")
    ensures AllLegal(ps) && WrittenAll(ps) == s
    decreases |s|
  {
    ps := [];
    if s != "" {
      var p, rest := FirstPiece(s, token, open);
      LexPiece(p, rest, token, open);
      hide Lex; hide Written; hide Meant; hide Legal;
      var later;
      if p.Blank? {
        later := ReadAsPieces(rest, "", false);
      } else {
        later := ReadAsPieces(rest, token + Meant(p), true);
      }
      ps := [p] + later;
      assert ps[1..] == later;
    }
  }

  /** The shell rules, exactly: a command line can be read if and only if it is written in legal pieces,
      and then its tokens are the words those pieces make up, however it is taken apart. */
  lemma LexExactly(command: string, tokens: seq<string>)
    ensures Lex(command, Plain, "", false) == Some(tokens) <==>
              exists ps :: AllLegal(ps) && WrittenAll(ps) == command && WordsOf(ps, "", false) == tokens
  {
    hide Lex; hide WordsOf; hide WrittenAll; hide AllLegal;
    if Lex(command, Plain, "", false) == Some(tokens) {
      var ps := ReadAsPieces(command, "", false);
      LexPieces(ps, "", false);
      assert AllLegal(ps) && WrittenAll(ps) == command && WordsOf(ps, "", false) == tokens;
    }
    if ps :| AllLegal(ps) && WrittenAll(ps) == command && WordsOf(ps, "", false) == tokens {
      LexPieces(ps, "", false);
    }
  }

  /** Tokens are those of the shell rules where they apply, and of white space otherwise. */
  lemma TokenizeExactly(command: string)
    ensures (exists ps :: AllLegal(ps) && WrittenAll(ps) == command && WordsOf(ps, "", false) == Tokenize(command))
            || ((forall ps :: AllLegal(ps) ==> WrittenAll(ps) != command) && Tokenize(command) == Words(command, ""))
  {
    hide Lex; hide WordsOf; hide WrittenAll; hide AllLegal;
    LexExactly(command, Tokenize(command));
    if Lex(command, Plain, "", false).None? {
      forall ps | AllLegal(ps) ensures WrittenAll(ps) != command {
        LexPieces(ps, "", false);
      }
    }
  }

  /** The command lines new servers are started with. */
  lemma BuiltExactly(software: string, memory: Option<string>)
    ensures var xmx := if memory.Some? && Strip(memory.value) != "" then "-Xmx" + Strip(memory.value) + " " else "";
            BuildStartCommand(software, memory) ==
            if software == "paper" then Some("java " + xmx + "-jar paper.jar nogui")
            else if software == "vanilla" then Some("java " + xmx + "-jar server.jar nogui")
            else if software == "velocity" then Some("java " + xmx + "-jar velocity.jar")
            else None
  {
    hide Strip;
    var xmx := MemoryFlag(memory);
    if software == "paper" {
      assert "-jar " + ("paper.jar" + " nogui") == "-jar paper.jar nogui";
    } else if software == "vanilla" {
      assert "-jar " + ("server.jar" + " nogui") == "-jar server.jar nogui";
    } else if software == "velocity" {
      assert "-jar " + ("velocity.jar" + "") == "-jar velocity.jar";
    }
    assert forall tail: string :: "java " + (xmx + tail) == "java " + xmx + tail;
  }

  // What is found, and when nothing is.

  /** The token at this position names a jar: a -jar with something after it, or "-jar=". */
  predicate GivesJar(tokens: seq<string>, i: nat)
    requires i < |tokens|
  {
    (tokens[i] == "-jar" && i + 1 < |tokens|) || (|tokens[i]| >= 5 && tokens[i][..5] == "-jar=")
  }

  function NamedAt(tokens: seq<string>, i: nat): string
    requires i < |tokens| && GivesJar(tokens, i)
  {
    if tokens[i] == "-jar" then tokens[i + 1] else tokens[i][5..]
  }

  /** The position is a class path flag with a class path after it. */
  predicate GivesClassPath(tokens: seq<string>, i: nat)
    requires i < |tokens|
  {
    i + 1 < |tokens| && tokens[i] in {"-cp", "-classpath", "--class-path"}
  }

  /** The first token that names a jar decides, wherever it stands; i is past the end if there is none. */
  lemma {:induction false} FirstJar(tokens: seq<string>) returns (i: nat)
    ensures i <= |tokens| && forall j :: 0 <= j < i ==> !GivesJar(tokens, j)
    ensures i == |tokens| ==> JarFlag(tokens) == None
    ensures i < |tokens| ==>
              GivesJar(tokens, i) && JarFlag(tokens) == Some(NamedAt(tokens, i))
  {
    i := 0;
    if tokens != [] && !GivesJar(tokens, 0) {
      var rest := tokens[1..];
      i := FirstJar(rest);
      i := i + 1;
      forall j | 0 < j < i ensures !GivesJar(tokens, j) {
        assert !GivesJar(rest, j - 1);
      }
    }
  }

  lemma {:induction false} FirstClassPath(tokens: seq<string>) returns (i: nat)
    ensures i <= |tokens| && forall j :: 0 <= j < i ==> !GivesClassPath(tokens, j)
    ensures i == |tokens| ==> ClassPathJar(tokens) == Unknown
    ensures i < |tokens| ==>
              && GivesClassPath(tokens, i)
              && var jars := Jars(SplitColon(tokens[i + 1], ""));
                 ClassPathJar(tokens) == if |jars| == 1 then Parsed(jars[0]) else Unknown
  {
    i := 0;
    if tokens != [] && !GivesClassPath(tokens, 0) {
      var rest := tokens[1..];
      i := FirstClassPath(rest);
      i := i + 1;
      forall j | 0 < j < i ensures !GivesClassPath(tokens, j) {
        assert !GivesClassPath(rest, j - 1);
      }
    }
  }

  /** What any tokens resolve to. Unknown without java or with an argument file; otherwise what the
      first token that names a jar names; and if none does, the only jar of the first class path. */
  lemma ResolvesExactly(tokens: seq<string>) returns (jar: nat, path: nat)
    ensures jar <= |tokens| && forall j :: 0 <= j < jar ==> !GivesJar(tokens, j)
    ensures path <= |tokens| && forall j :: 0 <= j < path ==> !GivesClassPath(tokens, j)
    ensures var hidden := (forall t :: t in tokens ==> !IsJava(t)) || exists t :: t in tokens && t != "" && t[0] == '@';
            && (hidden ==> ResolveTokens(tokens) == Unknown)
            && (!hidden && jar < |tokens| ==>
                  GivesJar(tokens, jar) && ResolveTokens(tokens) == Parsed(NamedAt(tokens, jar)))
            && (!hidden && jar == |tokens| && path < |tokens| ==>
                  && GivesClassPath(tokens, path)
                  && var jars := Jars(SplitColon(tokens[path + 1], ""));
                     ResolveTokens(tokens) == if |jars| == 1 then Parsed(jars[0]) else Unknown)
            && (!hidden && jar == |tokens| && path == |tokens| ==> ResolveTokens(tokens) == Unknown)
  {
    jar := FirstJar(tokens);
    path := FirstClassPath(tokens);
    assert forall t: string :: StartsWith(t, "@") <==> t != "" && t[0] == '@';
    hide JarFlag; hide ClassPathJar; hide Jars; hide SplitColon; hide IsJava; hide StartsWith;
  }

  /** java itself, or a path to it. */
  lemma JavaIs(token: string)
    ensures IsJava(token) <==> token == "java" || (|token| >= 5 && token[|token| - 5..] == "/java")
  {
  }

  /** The jars among some entries are those of the first and those of the rest, in order, and an entry
      is one exactly if it ends in ".jar" and holds no wildcard. */
  lemma {:induction false} JarsExactly(some: seq<string>, entry: string, more: seq<string>)
    ensures Jars(some + more) == Jars(some) + Jars(more)
    ensures Jars([entry]) == if |entry| >= 4 && entry[|entry| - 4..] == ".jar" && '*' !in entry then [entry] else []
  {
    assert [entry][1..] == [] && Jars([]) == [];
    if some == [] {
      assert some + more == more;
    } else {
      assert (some + more)[1..] == some[1..] + more;
      JarsExactly(some[1..], entry, more);
    }
  }

  function WithColons(entries: seq<string>): string {
    if entries == [] then "" else if |entries| == 1 then entries[0] else entries[0] + ":" + WithColons(entries[1..])
  }

  /** A class path is its entries with colons between them, and no entry holds one. */
  lemma {:induction false} SplitColonExactly(s: string, entry: string)
    requires ':' !in entry
    ensures var entries := SplitColon(s, entry);
            && entries != [] && WithColons(entries) == entry + s
            && forall i :: 0 <= i < |entries| ==> ':' !in entries[i]
    decreases |s|
  {
    if s == "" {
      assert entry + s == entry;
    } else if s[0] == ':' {
      SplitColonExactly(s[1..], "");
      var more := SplitColon(s[1..], "");
      assert ([entry] + more)[1..] == more;
      assert entry + ":" + s[1..] == entry + s && "" + s[1..] == s[1..];
    } else {
      SplitColonExactly(s[1..], entry + [s[0]]);
      assert entry + [s[0]] + s[1..] == entry + s;
    }
  }

  // The fallback.

  function Together(words: seq<string>): string {
    if words == [] then "" else words[0] + Together(words[1..])
  }

  function Solid(s: string): string {
    if s == "" then "" else (if IsSpace(s[0]) then "" else [s[0]]) + Solid(s[1..])
  }

  ghost predicate HasNoSpace(w: string) {
    forall i :: 0 <= i < |w| ==> !IsSpace(w[i])
  }

  /** The fallback keeps every character but white space, in order, in words that are never empty. */
  lemma {:induction false} WordsExactly(s: string, word: string)
    requires HasNoSpace(word)
    ensures Together(Words(s, word)) == word + Solid(s)
    ensures forall i :: 0 <= i < |Words(s, word)| ==> Words(s, word)[i] != "" && HasNoSpace(Words(s, word)[i])
    decreases |s|
  {
    if s == "" {
      assert word + "" == word;
      if word != "" { assert [word][1..] == []; }
    } else if IsSpace(s[0]) {
      WordsExactly(s[1..], "");
      var more := Words(s[1..], "");
      assert "" + Solid(s[1..]) == Solid(s[1..]);
      if word != "" { assert ([word] + more)[1..] == more; } else { assert [] + more == more; }
    } else {
      WordsExactly(s[1..], word + [s[0]]);
      assert word + [s[0]] + Solid(s[1..]) == word + ([s[0]] + Solid(s[1..]));
    }
  }

  /** White space always ends a word of the fallback. */
  lemma {:induction false} WordsCut(a: string, b: string, word: string)
    requires b != "" && IsSpace(b[0])
    ensures Words(a + b, word) == Words(a, word) + Words(b, "")
    decreases |a|
  {
    if a == "" {
      assert a + b == b;
      if word == "" { assert Words("", "") == []; }
    } else {
      assert (a + b)[0] == a[0] && (a + b)[1..] == a[1..] + b;
      if IsSpace(a[0]) {
        WordsCut(a[1..], b, "");
      } else {
        WordsCut(a[1..], b, word + [a[0]]);
      }
    }
  }

  // Quoted paths survive.

  function EscapeChar(c: char): string {
    if c == '"' || c == '\\' then ['\\', c] else [c]
  }

  /** A path as it stands in double quotes, with what needs it escaped. */
  function Escape(path: string): string {
    if path == "" then "" else EscapeChar(path[0]) + Escape(path[1..])
  }

  lemma LexQuotedChar(c: char, more: string, token: string)
    ensures Lex(EscapeChar(c) + more, Quoted('"'), token, true) == Lex(more, Quoted('"'), token + [c], true)
  {
    var s := EscapeChar(c) + more;
    if c == '"' || c == '\\' {
      assert s[0] == '\\' && s[1..] == [c] + more;
      assert Lex(s, Quoted('"'), token, true) == Lex([c] + more, EscapedInQuotes, token, true);
      assert ([c] + more)[1..] == more;
    } else {
      assert s[1..] == more;
    }
  }

  lemma LexCloseQuote(rest: string, token: string)
    ensures Lex(['"'] + rest, Quoted('"'), token, true) == Lex(rest, Plain, token, true)
  {
    assert (['"'] + rest)[1..] == rest;
  }

  lemma {:induction false} LexEscaped(path: string, rest: string, token: string)
    ensures Lex(Escape(path) + (['"'] + rest), Quoted('"'), token, true) == Lex(rest, Plain, token + path, true)
    decreases |path|
  {
    hide Lex; hide EscapeChar;
    var end := ['"'] + rest;
    if path == "" {
      assert "" + end == end && token + "" == token;
      LexCloseQuote(rest, token);
    } else {
      var c, more := path[0], Escape(path[1..]) + end;
      assert Escape(path) + end == EscapeChar(c) + more;
      LexQuotedChar(c, more, token);
      LexEscaped(path[1..], rest, token + [c]);
      assert token + [c] + path[1..] == token + path;
    }
  }

  /** A launch of a quoted path, whatever characters it holds, resolves to that path exactly unless it
      begins with "@", which reads as an argument file. */
  lemma QuotedPathSurvivesExactly(path: string)
    ensures Resolve("java" + (" " + ("-jar" + (" " + (['"'] + (Escape(path) + ['"']))))), None) == Parsed(path)
        <==> !StartsWith(path, "@")
  {
    var quoted := ['"'] + (Escape(path) + ['"']);
    QuotedIsOneToken(path);
    hide Lex; hide Escape; hide ResolveTokens;
    assert IsPlain("java") && IsPlain("-jar");
    WordThen("java", "-jar" + (" " + quoted));
    WordThen("-jar", quoted);
    var tokens := ["java"] + ([] + (["-jar"] + ([path] + [])));
    assert Tokenize("java" + (" " + ("-jar" + (" " + quoted)))) == tokens;
    if StartsWith(path, "@") {
      ArgumentFileIsUnknown(tokens, path);
    } else {
      LaunchResolves([], path, []);
    }
  }

  lemma QuotedIsOneToken(path: string)
    ensures Lex(['"'] + (Escape(path) + ['"']), Plain, "", false) == Some([path])
  {
    var quoted := ['"'] + (Escape(path) + ['"']);
    assert quoted[1..] == Escape(path) + (['"'] + "");
    LexEscaped(path, "", "");
    assert "" + path == path;
  }

  lemma ArgumentFileIsUnknown(tokens: seq<string>, t: string)
    requires t in tokens && StartsWith(t, "@")
    ensures ResolveTokens(tokens) == Unknown
  {
  }

  /** What a resolution may rest on: the word after -jar, the value of -jar=, or the only jar of the
      first class path. */
  ghost predicate Named(tokens: seq<string>, path: string) {
    || (exists i :: 0 <= i < |tokens| - 1 && tokens[i] == "-jar" && tokens[i + 1] == path)
    || "-jar=" + path in tokens
    || (exists i ::
          0 <= i < |tokens| - 1 && IsClassPathFlag(tokens[i]) && Jars(SplitColon(tokens[i + 1], "")) == [path])
  }

  /** It never guesses: a parsed path is one the command names, of a command that runs java and reads
      no argument file; and only a path the operator set may be created. */
  lemma NeverGuesses(command: string, jarPath: Option<string>)
    ensures var e := Resolve(command, jarPath);
            && (AllowCreate(e) <==> jarPath.Some? && Strip(jarPath.value) != "")
            && (e.Parsed? ==>
                  var tokens := Tokenize(command);
                  && Named(tokens, e.path)
                  && (exists t :: t in tokens && IsJava(t))
                  && forall t :: t in tokens ==> !StartsWith(t, "@"))
  {
    var tokens := Tokenize(command);
    JarFlagNamed(tokens);
    ClassPathNamed(tokens);
  }

  lemma {:induction false} JarFlagNamed(tokens: seq<string>)
    ensures JarFlag(tokens).Some? ==> Named(tokens, JarFlag(tokens).value)
  {
    if tokens != [] {
      if tokens[0] == "-jar" && |tokens| > 1 {
        assert tokens[0] == "-jar" && tokens[0 + 1] == JarFlag(tokens).value;
      } else if StartsWith(tokens[0], "-jar=") {
        assert tokens[0] == "-jar=" + tokens[0][5..];
      } else {
        JarFlagNamed(tokens[1..]);
        if JarFlag(tokens).Some? { NamedLater(tokens, JarFlag(tokens).value); }
      }
    }
  }

  lemma {:induction false} ClassPathNamed(tokens: seq<string>)
    ensures ClassPathJar(tokens).Parsed? ==> Named(tokens, ClassPathJar(tokens).path)
    ensures !ClassPathJar(tokens).Explicit?
  {
    if tokens != [] {
      if IsClassPathFlag(tokens[0]) && |tokens| > 1 {
        var jars := Jars(SplitColon(tokens[1], ""));
        if |jars| == 1 {
          assert jars == [jars[0]] && Jars(SplitColon(tokens[0 + 1], "")) == [jars[0]];
        }
      } else {
        ClassPathNamed(tokens[1..]);
        if ClassPathJar(tokens).Parsed? { NamedLater(tokens, ClassPathJar(tokens).path); }
      }
    }
  }

  lemma NamedLater(tokens: seq<string>, path: string)
    requires tokens != [] && Named(tokens[1..], path)
    ensures Named(tokens, path)
  {
    var rest := tokens[1..];
    if i :| 0 <= i < |rest| - 1 && rest[i] == "-jar" && rest[i + 1] == path {
      assert tokens[i + 1] == "-jar" && tokens[i + 1 + 1] == path;
    } else if "-jar=" + path in rest {
      assert "-jar=" + path in tokens;
    } else {
      var i :| 0 <= i < |rest| - 1 && IsClassPathFlag(rest[i]) && Jars(SplitColon(rest[i + 1], "")) == [path];
      assert IsClassPathFlag(tokens[i + 1]) && Jars(SplitColon(tokens[i + 1 + 1], "")) == [path];
    }
  }
}
