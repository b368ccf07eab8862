/** Which Java a server version needs (shared java.py): reading versions, the rule tables, picking. */
module JavaVersions {
  import opened Options
  import opened Texts

  type Version = seq<nat>

  // Reading a version.

  predicate IsDigit(c: char) { '0' <= c <= '9' }
  predicate AllDigits(s: string) {
    s != "" && forall i :: 0 <= i < |s| ==> IsDigit(s[i])
  }

  predicate Numbers(parts: seq<string>) {
    forall k :: 0 <= k < |parts| ==> AllDigits(parts[k])
  }

  function Value(s: string): nat
    requires AllDigits(s)
  {
    (if |s| == 1 then 0 else 10 * Value(s[..|s| - 1])) + (s[|s| - 1] as int - '0' as int)
  }

  function LeadingDigits(s: string): (n: nat)
    ensures n <= |s|
    ensures forall i :: 0 <= i < n ==> IsDigit(s[i])
    ensures n < |s| ==> !IsDigit(s[n])
  {
    if s == "" || !IsDigit(s[0]) then 0 else 1 + LeadingDigits(s[1..])
  }

  /** The longest dotted number at the front, as its parts, and what follows it. */
  function Scan(s: string): (r: Option<(seq<string>, string)>)
    ensures r.Some? ==> r.value.0 != [] && Numbers(r.value.0)
    decreases |s|
  {
    var n := LeadingDigits(s);
    if n == 0 then None
    else if n + 1 < |s| && s[n] == '.' && IsDigit(s[n + 1]) then
      var more := Scan(s[n + 1..]);
      if more.None? then None else Some(([s[..n]] + more.value.0, more.value.1))
    else Some(([s[..n]], s[n..]))
  }

  /** After the number: nothing, or a pre-release suffix. */
  predicate IsSuffix(s: string) {
    s == "" || s[0] == '-' || IsSpace(s[0])
  }

  function Values(parts: seq<string>): (v: Version)
    requires Numbers(parts)
    ensures |v| == |parts|
  {
    if parts == [] then [] else [Value(parts[0])] + Values(parts[1..])
  }

  function ParseVersion(version: string): Option<Version> {
    var r := Scan(Strip(version));
    if r.Some? && IsSuffix(r.value.1) then Some(Values(r.value.0)) else None
  }

  function Dotted(parts: seq<string>): string {
    if parts == [] then "" else if |parts| == 1 then parts[0] else parts[0] + "." + Dotted(parts[1..])
  }

  /** `version` is, spaces aside, a dotted number with the given parts and perhaps a suffix. */
  ghost predicate Reads(version: string, parts: seq<string>, suffix: string) {
    && parts != [] && Numbers(parts)
    && (suffix == "" || suffix[0] == '-' || IsSpace(suffix[0]))
    && Strip(version) == Dotted(parts) + suffix
  }

  lemma LeadingDigitsOf(d: string, rest: string)
    requires AllDigits(d)
    requires rest == "" || !IsDigit(rest[0])
    ensures LeadingDigits(d + rest) == |d|
  {
    var s := d + rest;
    assert forall i :: 0 <= i < |d| ==> IsDigit(s[i]);
    if rest != "" { assert s[|d|] == rest[0]; }
  }

  /** One step of the scan: a part, and what the rest of the text scans to. */
  lemma ScanPart(d: string, rest: string)
    requires AllDigits(d) && (rest == "" || !IsDigit(rest[0]))
    ensures Scan(d + rest) ==
              if |rest| > 1 && rest[0] == '.' && IsDigit(rest[1]) then
                var more := Scan(rest[1..]);
                if more.None? then None else Some(([d] + more.value.0, more.value.1))
              else Some(([d], rest))
  {
    var s := d + rest;
    LeadingDigitsOf(d, rest);
    assert s[..|d|] == d && s[|d|..] == rest && (rest != "" ==> s[|d| + 1..] == rest[1..]);
  }

  lemma {:induction false} ScanOfDotted(parts: seq<string>, suffix: string)
    requires parts != [] && Numbers(parts) && IsSuffix(suffix)
    ensures Scan(Dotted(parts) + suffix) == Some((parts, suffix))
  {
    hide Scan;
    var d := parts[0];
    if |parts| == 1 {
      ScanPart(d, suffix);
      assert [d] == parts;
    } else {
      var rest := Dotted(parts[1..]) + suffix;
      assert Dotted(parts) + suffix == d + ("." + rest);
      DottedStarts(parts[1..]);
      assert IsDigit(rest[0]);
      ScanPart(d, "." + rest);
      assert ("." + rest)[1..] == rest;
      ScanOfDotted(parts[1..], suffix);
      assert [d] + parts[1..] == parts;
    }
  }

  lemma DottedStarts(parts: seq<string>)
    requires parts != [] && Numbers(parts)
    ensures parts[0] != "" && Dotted(parts) != "" && Dotted(parts)[0] == parts[0][0]
  {
    assert AllDigits(parts[0]);
  }

  lemma DottedCons(d: string, parts: seq<string>)
    requires parts != []
    ensures Dotted([d] + parts) == d + "." + Dotted(parts)
  {
    assert ([d] + parts)[1..] == parts;
  }

  lemma {:induction false} ScanIsDotted(s: string)
    ensures var r := Scan(s); r.Some? ==> s == Dotted(r.value.0) + r.value.1
    decreases |s|
  {
    hide Dotted;
    var n := LeadingDigits(s);
    if n > 0 {
      var d, rest := s[..n], s[n..];
      assert s == d + rest;
      ScanPart(d, rest);
      DottedOne(d);
      if |rest| > 1 && rest[0] == '.' && IsDigit(rest[1]) {
        ScanIsDotted(rest[1..]);
        hide Scan;
        var more := Scan(rest[1..]);
        if more.Some? {
          DottedCons(d, more.value.0);
          assert rest == "." + (Dotted(more.value.0) + more.value.1);
          Regroup(d, Dotted(more.value.0), more.value.1);
        }
      }
    }
  }

  lemma DottedOne(d: string)
    ensures Dotted([d]) == d
  {
  }

  lemma Regroup(d: string, more: string, suffix: string)
    ensures d + ("." + (more + suffix)) == d + "." + more + suffix
  {
  }

  /** A version is understood exactly when it is a dotted number up to the end or a suffix, and then
      its reading is the values of the parts. */
  lemma ParsesExactly(version: string, v: Version)
    ensures ParseVersion(version) == Some(v) <==>
            exists parts, suffix :: Reads(version, parts, suffix) && v == Values(parts)
  {
    ScanIsDotted(Strip(version));
    var r := Scan(Strip(version));
    if ParseVersion(version) == Some(v) {
      assert Reads(version, r.value.0, r.value.1) && v == Values(r.value.0);
    }
    if parts, suffix :| Reads(version, parts, suffix) && v == Values(parts) {
      ScanOfDotted(parts, suffix);
    }
  }

  // Writing a version: what it renders to reads back as itself.

  function Digits(n: nat): (s: string)
    ensures AllDigits(s)
  {
    var last := [('0' as int + n % 10) as char];
    if n < 10 then last else Digits(n / 10) + last
  }

  function Rendered(v: Version): (parts: seq<string>)
    ensures |parts| == |v| && Numbers(parts)
  {
    if v == [] then [] else [Digits(v[0])] + Rendered(v[1..])
  }

  lemma {:induction false} ValueOfDigits(n: nat)
    ensures Value(Digits(n)) == n
  {
    var last := [('0' as int + n % 10) as char];
    if n < 10 {
      assert Digits(n) == last && last[..0] == "";
    } else {
      ValueOfDigits(n / 10);
      assert Digits(n)[..|Digits(n)| - 1] == Digits(n / 10);
    }
  }

  lemma {:induction false} ValuesOfRendered(v: Version)
    ensures Values(Rendered(v)) == v
  {
    if v != [] {
      ValueOfDigits(v[0]);
      ValuesOfRendered(v[1..]);
    }
  }

  lemma RoundTrip(v: Version)
    requires v != []
    ensures ParseVersion(Dotted(Rendered(v))) == Some(v)
  {
    var s := Dotted(Rendered(v));
    DottedStarts(Rendered(v));
    DottedEnds(Rendered(v));
    assert Strip(s) == s;
    assert s + "" == s;
    ScanOfDotted(Rendered(v), "");
    ValuesOfRendered(v);
  }

  lemma {:induction false} DottedEnds(parts: seq<string>)
    requires parts != [] && Numbers(parts)
    ensures Dotted(parts) != "" && IsDigit(Dotted(parts)[|Dotted(parts)| - 1])
  {
    assert AllDigits(parts[0]);
    if |parts| > 1 { DottedEnds(parts[1..]); }
  }

  // The lexicographic order.

  predicate AtMost(v: Version, w: Version) {
    if v == [] then true
    else if w == [] then false
    else v[0] < w[0] || (v[0] == w[0] && AtMost(v[1..], w[1..]))
  }

  lemma {:induction false} OrderTotal(v: Version, w: Version)
    ensures AtMost(v, w) || AtMost(w, v)
    ensures AtMost(v, w) && AtMost(w, v) ==> v == w
    ensures v == w ==> AtMost(v, w)
  {
    if v != [] && w != [] { OrderTotal(v[1..], w[1..]); }
  }

  lemma {:induction false} OrderTransitive(u: Version, v: Version, w: Version)
    requires AtMost(u, v) && AtMost(v, w)
    ensures AtMost(u, w)
  {
    if u != [] && v != [] && w != [] && u[0] == v[0] == w[0] {
      OrderTransitive(u[1..], v[1..], w[1..]);
    }
  }

  // The tables.

  datatype Rule = Rule(since: Version, minimum: int, recommended: int)

  datatype Requirement = Requirement(minimum: int, recommended: int, legacy: bool)

  const LEGACY_MAX := 8
  const MANAGED_FEATURES := [8, 17, 21, 25]

  const MINECRAFT := [
    Rule([1, 0], 8, 8), Rule([1, 17], 16, 17), Rule([1, 18], 17, 17), Rule([1, 20, 5], 21, 21), Rule([26, 1], 25, 25)]

  const VELOCITY := [
    Rule([1, 0], 8, 8), Rule([3, 0], 11, 17), Rule([3, 3], 17, 17), Rule([3, 5], 21, 21), Rule([4, 0], 25, 25)]

  function RulesFor(software: string): Option<seq<Rule>> {
    if software == "vanilla" || software == "paper" then Some(MINECRAFT)
    else if software == "velocity" then Some(VELOCITY)
    else None
  }

  /** Which table a software uses; of any other nothing is known. */
  lemma RulesExactly(software: string)
    ensures RulesFor(software) ==
            if software in {"vanilla", "paper"} then Some(MINECRAFT)
            else if software == "velocity" then Some(VELOCITY) else None
  {
  }

  /** Row b may follow row a. */
  predicate Follows(a: Rule, b: Rule) {
    AtMost(a.since, b.since) && a.since != b.since && a.minimum < b.minimum && a.recommended <= b.recommended
  }

  ghost predicate WellFormed(rules: seq<Rule>) {
    && rules != []
    && (forall i :: 0 < i < |rules| ==> Follows(rules[i - 1], rules[i]))
    && (forall i :: 0 <= i < |rules| ==>
          rules[i].minimum <= rules[i].recommended && rules[i].recommended in MANAGED_FEATURES)
  }

  lemma TablesWellFormed(software: string)
    ensures RulesFor(software).Some? ==> WellFormed(RulesFor(software).value)
  {
    MinecraftWellFormed();
    VelocityWellFormed();
    hide WellFormed;
  }

  lemma MinecraftWellFormed()
    ensures WellFormed(MINECRAFT)
  {
  }

  lemma VelocityWellFormed()
    ensures WellFormed(VELOCITY)
  {
  }

  lemma {:induction false} LaterRowsNeedMore(rules: seq<Rule>, i: nat, j: nat)
    requires WellFormed(rules) && i <= j < |rules|
    ensures rules[i].minimum <= rules[j].minimum && rules[i].recommended <= rules[j].recommended
  {
    if i < j { LaterRowsNeedMore(rules, i, j - 1); }
  }

  /** Row i is the greatest at or below the version, or the first row when none is. */
  ghost predicate Applies(rules: seq<Rule>, v: Version, i: nat) {
    && i < |rules|
    && (AtMost(rules[i].since, v) || i == 0)
    && forall j :: i < j < |rules| ==> !AtMost(rules[j].since, v)
  }

  function RequirementOf(rule: Rule): Requirement {
    Requirement(rule.minimum, rule.recommended, rule.minimum <= LEGACY_MAX)
  }

  /** The scan keeps the last row at or below the version; with an ascending table that is the greatest. */
  method RequirementFor(rules: seq<Rule>, v: Version) returns (r: Requirement)
    requires WellFormed(rules)
    ensures exists row: nat :: Applies(rules, v, row) && r == RequirementOf(rules[row])
    ensures r.legacy <==> r.minimum <= 8
    ensures exists rule :: rule in rules && r.minimum == rule.minimum && r.recommended == rule.recommended
  {
    var found: Option<Rule>, n := None, 0;
    ghost var row: nat := 0;
    while n < |rules|
      invariant n <= |rules| && row < |rules|
      invariant found == if AtMost(rules[row].since, v) && row < n then Some(rules[row]) else None
      invariant found.None? ==> row == 0 && forall j :: 0 <= j < n ==> !AtMost(rules[j].since, v)
      invariant forall j :: row < j < n ==> !AtMost(rules[j].since, v)
    {
      if AtMost(rules[n].since, v) {
        found, row := Some(rules[n]), n;
      }
      n := n + 1;
    }
    var chosen := if found.Some? then found.value else rules[0];
    r := RequirementOf(chosen);
    assert Applies(rules, v, row) && chosen in rules;
  }

  /** A later version never needs less. */
  lemma RequirementMonotone(rules: seq<Rule>, v: Version, w: Version, i: nat, j: nat)
    requires WellFormed(rules) && AtMost(v, w) && Applies(rules, v, i) && Applies(rules, w, j)
    ensures RequirementOf(rules[i]).minimum <= RequirementOf(rules[j]).minimum
    ensures RequirementOf(rules[i]).recommended <= RequirementOf(rules[j]).recommended
    ensures RequirementOf(rules[j]).legacy ==> RequirementOf(rules[i]).legacy
    ensures v == w ==> i == j
  {
    if j < i {
      OrderTransitive(rules[i].since, v, w);
    }
    if i <= j { LaterRowsNeedMore(rules, i, j); }
  }

  // Picking a runtime.

  predicate Satisfies(req: Requirement, major: int) {
    major >= req.minimum
  }

  function LeastSatisfying(req: Requirement, majors: seq<int>): Option<int> {
    if majors == [] then None
    else
      var least := LeastSatisfying(req, majors[1..]);
      if Satisfies(req, majors[0]) && (least.None? || majors[0] < least.value) then Some(majors[0]) else least
  }

  function Pick(req: Requirement, majors: seq<int>): Option<int> {
    if req.recommended in majors && Satisfies(req, req.recommended) then Some(req.recommended)
    else LeastSatisfying(req, majors)
  }

  lemma {:induction false} LeastExactly(req: Requirement, majors: seq<int>)
    ensures match LeastSatisfying(req, majors)
            case None => forall m :: m in majors ==> !Satisfies(req, m)
            case Some(least) => least in majors && Satisfies(req, least)
                                && forall m :: m in majors && Satisfies(req, m) ==> least <= m
  {
    if majors != [] {
      LeastExactly(req, majors[1..]);
      assert majors == [majors[0]] + majors[1..];
    }
  }

  /** `m` is what an operator would be offered: the recommended release, else the least that suffices. */
  ghost predicate IsBest(req: Requirement, majors: seq<int>, m: int) {
    && m in majors && Satisfies(req, m)
    && (m == req.recommended
        || (!(req.recommended in majors && Satisfies(req, req.recommended))
            && forall k :: k in majors && Satisfies(req, k) ==> m <= k))
  }

  lemma PicksBest(req: Requirement, majors: seq<int>)
    ensures Pick(req, majors).None? <==> forall m :: m in majors ==> !Satisfies(req, m)
    ensures forall m :: Pick(req, majors) == Some(m) <==> IsBest(req, majors, m)
  {
    LeastExactly(req, majors);
  }

  /** Neither order nor repetition of the offers matters. */
  lemma PickIndependent(req: Requirement, majors: seq<int>, others: seq<int>)
    requires forall m :: m in majors <==> m in others
    ensures Pick(req, majors) == Pick(req, others)
  {
    PicksBest(req, majors);
    PicksBest(req, others);
    if Pick(req, majors).Some? {
      assert IsBest(req, others, Pick(req, majors).value);
    }
  }

  /** The installable releases cover every row: whatever the version, the recommended one is picked. */
  lemma ManagedCoverEveryRow(software: string, row: nat)
    requires RulesFor(software).Some? && row < |RulesFor(software).value|
    ensures var req := RequirementOf(RulesFor(software).value[row]);
            Pick(req, MANAGED_FEATURES) == Some(req.recommended)
  {
    TablesWellFormed(software);
  }

  /** requirement: None when the software or the version cannot be told. Whatever it is, the release it
      recommends is among the installable ones and is what would be picked of them. */
  method Require(software: string, version: string) returns (r: Option<Requirement>)
    ensures r.None? <==> software !in {"vanilla", "paper", "velocity"} || ParseVersion(version).None?
    ensures r.Some? ==> exists row: nat :: Applies(RulesFor(software).value, ParseVersion(version).value, row)
                                      && r.value == RequirementOf(RulesFor(software).value[row])
    ensures r.Some? ==> Pick(r.value, MANAGED_FEATURES) == Some(r.value.recommended)
  {
    var rules, parsed := RulesFor(software), ParseVersion(version);
    if rules.None? || parsed.None? { return None; }
    TablesWellFormed(software);
    var req := RequirementFor(rules.value, parsed.value);
    ghost var row: nat :|
      Applies(rules.value, parsed.value, row) && req == RequirementOf(rules.value[row]);
    ManagedCoverEveryRow(software, row);
    r := Some(req);
  }

  // What a java binary says about itself (agent java.py, parse_major).

  /** "1.8.0_412" is 8, "21.0.5" is 21. */
  function ParseMajor(version: string): Option<nat> {
    var s := Strip(version);
    var n := LeadingDigits(s);
    if n == 0 then None
    else
      var first := Value(s[..n]);
      var m := if n < |s| && s[n] == '.' then LeadingDigits(s[n + 1..]) else 0;
      if first == 1 && m > 0 then Some(Value(s[n + 1..][..m])) else Some(first)
  }

  /** A release is read exactly if the version begins with a digit, and always from its first number
      or, for the old numbering, from the second. */
  lemma MajorExactly(version: string)
    ensures var s := Strip(version);
            && (ParseMajor(version).None? <==> s == "" || !('0' <= s[0] <= '9'))
            && (ParseMajor(version).Some? ==>
                  var n := LeadingDigits(s);
                  && n > 0 && AllDigits(s[..n])
                  && (n + 1 < |s| && s[n] == '.' && IsDigit(s[n + 1]) && Value(s[..n]) == 1 ==>
                        var m := LeadingDigits(s[n + 1..]);
                        m > 0 && AllDigits(s[n + 1..][..m]) && ParseMajor(version) == Some(Value(s[n + 1..][..m])))
                  && (!(n + 1 < |s| && s[n] == '.' && IsDigit(s[n + 1])) || Value(s[..n]) != 1 ==>
                        ParseMajor(version) == Some(Value(s[..n]))))
  {
    hide Strip; hide Value;
    var s := Strip(version);
    var n := LeadingDigits(s);
    if n < |s| && s[n] == '.' && n + 1 < |s| { assert s[n + 1..][0] == s[n + 1]; }
  }

  lemma MajorOfNumber(n: nat, rest: string)
    requires rest == "" || (!IsDigit(rest[0]) && !IsSpace(rest[|rest| - 1]))
    requires n != 1
    ensures ParseMajor(Digits(n) + rest) == Some(n)
  {
    hide Strip; hide LeadingDigits; hide Digits;
    ValueOfDigits(n);
    var d := Digits(n);
    var s := d + rest;
    assert LeadingDigits(s) == |d| && s[..|d|] == d by { LeadingDigitsOf(d, rest); }
    assert Strip(s) == s by { StripFixes(s); }
  }

  /** The old numbering: 1.n is n, whatever n is. */
  lemma MajorOfOneDot(n: nat, rest: string)
    requires rest == "" || (!IsDigit(rest[0]) && !IsSpace(rest[|rest| - 1]))
    ensures ParseMajor("1." + (Digits(n) + rest)) == Some(n)
  {
    hide Strip; hide LeadingDigits; hide Digits;
    ValueOfDigits(n);
    var d := Digits(n);
    var tail := d + rest;
    var s := "1." + tail;
    assert Strip(s) == s by { StripFixes(s); }
    assert LeadingDigits(tail) == |d| && tail[..|d|] == d by { LeadingDigitsOf(d, rest); }
    assert LeadingDigits(s) == 1 by {
      assert s == "1" + ("." + tail);
      LeadingDigitsOf("1", "." + tail);
    }
    assert s[..1] == "1" && s[1] == '.' && s[1 + 1..] == tail;
    assert Value("1") == 1;
  }
}
