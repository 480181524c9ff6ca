/** Skill versions and version constraints (internal/domain/version.go,
    internal/infrastructure/skill/version.go). */
module SkillVersion {
  import opened Text

  const MAX_INT: nat := 0x7fff_ffff_ffff_ffff

  datatype Version = Version(major: int, minor: int, patch: int, pre: string, build: string) {
    /** -1, 0 or 1 by major, minor and patch; pre-release and build are ignored. */
    function Compare(other: Version): int {
      if major != other.major then (if major < other.major then -1 else 1)
      else if minor != other.minor then (if minor < other.minor then -1 else 1)
      else if patch != other.patch then (if patch < other.patch then -1 else 1)
      else 0
    }

    function Print(): string {
      Decimal(major) + "." + Decimal(minor) + "." + Decimal(patch)
      + (if pre != "" then "-" + pre else "") + (if build != "" then "+" + build else "")
    }
  }

  /** `%d` of an int. */
  function Decimal(x: int): string {
    if x < 0 then "-" + Numeral(-x) else Numeral(x)
  }

  // ---------- parsing ----------

  predicate IsIdentChar(c: char) {
    IsDigit(c) || 'a' <= c <= 'z' || 'A' <= c <= 'Z' || c == '.' || c == '-'
  }

  predicate AllIdent(s: string) {
    forall i :: 0 <= i < |s| ==> IsIdentChar(s[i])
  }

  /** The longest prefix of digits. */
  function Digits(s: string): (d: string)
    ensures d <= s && AllDigits(d)
  {
    if s != "" && IsDigit(s[0]) then [s[0]] + Digits(s[1..]) else ""
  }

  function Idents(s: string): (d: string)
    ensures d <= s && AllIdent(d)
  {
    if s != "" && IsIdentChar(s[0]) then [s[0]] + Idents(s[1..]) else ""
  }

  /** strconv.Atoi on digits, its range error ignored: the value saturates. */
  function Atoi(d: string): nat
    requires AllDigits(d)
  {
    var n := NumeralValue(d);
    if n > MAX_INT then MAX_INT else n
  }

  /** The optional `+build` at the end. */
  function ParseBuild(s: string): Option<string> {
    if s == "" then Some("")
    else if s[0] == '+' && |s| > 1 && Idents(s[1..]) == s[1..] then Some(s[1..])
    else None
  }

  /** The optional `-pre` and then the build. */
  function ParseSuffix(s: string): Option<(string, string)> {
    if s != "" && s[0] == '-' then
      var pre := Idents(s[1..]);
      if pre == "" then None
      else match ParseBuild(s[1 + |pre|..]) case None => None case Some(build) => Some((pre, build))
    else match ParseBuild(s) case None => None case Some(build) => Some(("", build))
  }

  /** Three numerals separated by dots, and what follows. */
  function ParseTriple(s: string): Option<(string, string, string, string)> {
    var a := Digits(s);
    var s1 := s[|a|..];
    if a == "" || s1 == "" || s1[0] != '.' then None
    else
      var b := Digits(s1[1..]);
      var s2 := s1[1..][|b|..];
      if b == "" || s2 == "" || s2[0] != '.' then None
      else
        var c := Digits(s2[1..]);
        if c == "" then None else Some((a, b, c, s2[1..][|c|..]))
  }

  function TrimV(s: string): string {
    if s != "" && s[0] == 'v' then s[1..] else s
  }

  function ParseVersion(s: string): Option<Version> {
    match ParseTriple(TrimV(s))
    case None => None
    case Some((a, b, c, rest)) =>
      if !(AllDigits(a) && AllDigits(b) && AllDigits(c)) then None
      else match ParseSuffix(rest)
        case None => None
        case Some((pre, build)) => Some(Version(Atoi(a), Atoi(b), Atoi(c), pre, build))
  }

  // ---------- printing and parsing undo each other ----------

  predicate Printable(v: Version) {
    && 0 <= v.major <= MAX_INT && 0 <= v.minor <= MAX_INT && 0 <= v.patch <= MAX_INT
    && AllIdent(v.pre) && AllIdent(v.build)
  }

  lemma {:induction false} DigitsStop(d: string, rest: string)
    requires AllDigits(d) && (rest != "" ==> !IsDigit(rest[0]))
    ensures Digits(d + rest) == d
  {
    if d == "" {
      assert d + rest == rest;
    } else {
      assert (d + rest)[1..] == d[1..] + rest;
      DigitsStop(d[1..], rest);
    }
  }

  lemma {:induction false} IdentsStop(d: string, rest: string)
    requires AllIdent(d) && (rest != "" ==> !IsIdentChar(rest[0]))
    ensures Idents(d + rest) == d
  {
    if d == "" {
      assert d + rest == rest;
    } else {
      assert (d + rest)[1..] == d[1..] + rest;
      IdentsStop(d[1..], rest);
    }
  }

  function Suffix(pre: string, build: string): string {
    (if pre != "" then "-" + pre else "") + (if build != "" then "+" + build else "")
  }

  lemma BuildRoundTrip(build: string)
    requires AllIdent(build)
    ensures ParseBuild(if build != "" then "+" + build else "") == Some(build)
  {
    IdentsStop(build, "");
    assert build + "" == build;
    assert ("+" + build)[1..] == build;
  }

  lemma SuffixRoundTrip(pre: string, build: string)
    requires AllIdent(pre) && AllIdent(build)
    ensures ParseSuffix(Suffix(pre, build)) == Some((pre, build))
  {
    hide ParseBuild, Idents;
    var plus := if build != "" then "+" + build else "";
    BuildRoundTrip(build);
    if pre != "" {
      var s := "-" + (pre + plus);
      IdentsStop(pre, plus);
      assert s == Suffix(pre, build);
      assert s[1..] == pre + plus;
      assert s[1 + |pre|..] == plus;
    } else {
      assert Suffix(pre, build) == plus;
    }
  }

  lemma Reassociate(a: string, b: string, c: string, rest: string)
    ensures a + "." + b + "." + c + rest == a + ("." + (b + ("." + (c + rest))))
  {
  }

  lemma TripleRoundTrip(a: string, b: string, c: string, rest: string)
    requires AllDigits(a) && AllDigits(b) && AllDigits(c) && a != "" && b != "" && c != ""
    requires rest != "" ==> !IsDigit(rest[0])
    ensures ParseTriple(a + "." + b + "." + c + rest) == Some((a, b, c, rest))
  {
    hide Digits;
    var t2 := c + rest;
    var t1 := b + ("." + t2);
    var t0 := a + ("." + t1);
    DigitsStop(c, rest);
    DigitsStop(b, "." + t2);
    DigitsStop(a, "." + t1);
    Reassociate(a, b, c, rest);
    assert t0[|a|..] == "." + t1 && ("." + t1)[1..] == t1;
    assert t1[|b|..] == "." + t2 && ("." + t2)[1..] == t2;
    assert t2[|c|..] == rest;
  }

  /** Parsing what was printed gives the version back (sections 2, 9 and 10 of Semantic Versioning 2.0.0
      give the parts). */
  lemma ParsePrinted(v: Version)
    requires Printable(v)
    ensures ParseVersion(v.Print()) == Some(v)
  {
    hide ParseTriple, ParseSuffix, Numeral, NumeralValue;
    var a, b, c, rest := Numeral(v.major), Numeral(v.minor), Numeral(v.patch), Suffix(v.pre, v.build);
    SuffixRoundTrip(v.pre, v.build);
    TripleRoundTrip(a, b, c, rest);
    NumeralRoundTrip(v.major);
    NumeralRoundTrip(v.minor);
    NumeralRoundTrip(v.patch);
    PrintShape(v);
    assert IsDigit(v.Print()[0]);
  }

  lemma PrintShape(v: Version)
    requires v.major >= 0 && v.minor >= 0 && v.patch >= 0
    ensures v.Print() == Numeral(v.major) + "." + Numeral(v.minor) + "." + Numeral(v.patch) + Suffix(v.pre, v.build)
  {
    hide Numeral;
  }

  /** No leading zero, and in the range of an int. */
  predicate CanonicalNumeral(d: string)
    requires AllDigits(d)
  {
    d != "" && (d == "0" || d[0] != '0') && NumeralValue(d) <= MAX_INT
  }

  lemma {:induction false} NumeralValuePositive(d: string)
    requires AllDigits(d) && d != "" && d[0] != '0'
    ensures NumeralValue(d) > 0
  {
    if |d| > 1 {
      NumeralValuePositive(d[..|d| - 1]);
    } else {
      assert d[..0] == "";
    }
  }

  lemma {:induction false} CanonicalIsNumeral(d: string)
    requires AllDigits(d) && d != "" && (d == "0" || d[0] != '0')
    ensures Numeral(NumeralValue(d)) == d
  {
    var init := d[..|d| - 1];
    if |d| == 1 {
      assert init == "";
    } else {
      CanonicalIsNumeral(init);
      NumeralValuePositive(init);
      assert d == init + [d[|d| - 1]];
    }
  }

  lemma {:induction false} NumeralIsCanonical(n: nat)
    ensures Numeral(n) == "0" || Numeral(n)[0] != '0'
  {
    if n >= 10 {
      NumeralIsCanonical(n / 10);
    }
  }

  lemma NumeralOfAtoi(d: string)
    requires AllDigits(d) && d != ""
    ensures Numeral(Atoi(d)) == d <==> CanonicalNumeral(d)
  {
    if CanonicalNumeral(d) {
      CanonicalIsNumeral(d);
    } else if Numeral(Atoi(d)) == d {
      NumeralIsCanonical(Atoi(d));
      NumeralRoundTrip(Atoi(d));
    }
  }

  lemma TripleShape(s: string)
    requires ParseTriple(s).Some?
    ensures var (a, b, c, rest) := ParseTriple(s).value;
            && s == a + "." + b + "." + c + rest && AllDigits(a) && AllDigits(b) && AllDigits(c)
            && a != "" && b != "" && c != ""
  {
    hide Digits;
    var (a, b, c, rest) := ParseTriple(s).value;
    var s1 := s[|a|..];
    var u1 := s1[1..];
    var s2 := u1[|b|..];
    var u2 := s2[1..];
    assert s == a + s1;
    assert s1 == "." + u1;
    assert u1 == b + s2;
    assert s2 == "." + u2;
    assert u2 == c + rest;
    Reassociate(a, b, c, rest);
  }

  lemma SuffixShape(s: string)
    requires ParseSuffix(s).Some?
    ensures Suffix(ParseSuffix(s).value.0, ParseSuffix(s).value.1) == s
  {
    hide ParseBuild, Idents;
    if s != "" && s[0] == '-' {
      var pre := Idents(s[1..]);
      var t := s[1 + |pre|..];
      BuildShape(t);
      assert s == "-" + pre + t;
    } else {
      BuildShape(s);
      assert "" + s == s;
    }
  }

  lemma BuildShape(s: string)
    requires ParseBuild(s).Some?
    ensures s == if ParseBuild(s).value != "" then "+" + ParseBuild(s).value else ""
  {
    hide Idents;
    if s != "" {
      assert s == "+" + s[1..];
    }
  }

  /** Printing what was parsed gives the text back exactly if it had no `v` prefix and its three
      numerals were canonical. */
  lemma PrintParsed(s: string)
    requires ParseVersion(s).Some?
    ensures var (a, b, c, _) := ParseTriple(TrimV(s)).value;
            ParseVersion(s).value.Print() == s
            <==> (s[0] != 'v' && CanonicalNumeral(a) && CanonicalNumeral(b) && CanonicalNumeral(c))
  {
    hide ParseTriple, ParseSuffix, Numeral, NumeralValue, CanonicalNumeral;
    var t := TrimV(s);
    var (a, b, c, rest) := ParseTriple(t).value;
    var v := ParseVersion(s).value;
    TripleShape(t);
    SuffixShape(rest);
    NumeralOfAtoi(a);
    NumeralOfAtoi(b);
    NumeralOfAtoi(c);
    PrintShape(v);
    SuffixHead(rest);
    SameTriple(Numeral(Atoi(a)), Numeral(Atoi(b)), Numeral(Atoi(c)), a, b, c, rest);
    assert IsDigit(v.Print()[0]);
  }

  /** The dotted form shows its three numerals. */
  lemma SameTriple(a': string, b': string, c': string, a: string, b: string, c: string, rest: string)
    requires AllDigits(a) && AllDigits(b) && AllDigits(c) && a != "" && b != "" && c != ""
    requires AllDigits(a') && AllDigits(b') && AllDigits(c') && a' != "" && b' != "" && c' != ""
    requires rest != "" ==> !IsDigit(rest[0])
    ensures a' + "." + b' + "." + c' + rest == a + "." + b + "." + c + rest <==> a' == a && b' == b && c' == c
  {
    hide ParseTriple;
    TripleRoundTrip(a', b', c', rest);
    TripleRoundTrip(a, b, c, rest);
  }

  lemma SuffixHead(s: string)
    requires ParseSuffix(s).Some?
    ensures s != "" ==> !IsDigit(s[0])
  {
  }

  // ---------- order and constraints ----------

  /** `Compare` orders the triples: it is antisymmetric and transitive, and zero exactly on equal triples. */
  lemma CompareIsPreorder(a: Version, b: Version, c: Version)
    ensures a.Compare(b) == -b.Compare(a) && -1 <= a.Compare(b) <= 1
    ensures a.Compare(b) <= 0 && b.Compare(c) <= 0 ==> a.Compare(c) <= 0
    ensures a.Compare(b) == 0 <==> (a.major, a.minor, a.patch) == (b.major, b.minor, b.patch)
  {
  }

  /** The order of triples: major first, then minor, then patch. */
  predicate Before(a: Version, b: Version) {
    a.major < b.major || (a.major == b.major && (a.minor < b.minor || (a.minor == b.minor && a.patch < b.patch)))
  }

  lemma CompareIsLexicographic(a: Version, b: Version)
    ensures a.Compare(b) == if Before(a, b) then -1 else if Before(b, a) then 1 else 0
  {
  }

  datatype Operator = Exact | Caret | Tilde

  datatype Constraint = Constraint(operator: Operator, version: Version) {
    predicate Satisfies(v: Version) {
      match operator
      case Exact => v.Compare(version) == 0
      case Caret => v.major == version.major && v.Compare(version) >= 0
      case Tilde => v.major == version.major && v.minor == version.minor && v.Compare(version) >= 0
    }
  }

  function ParseConstraint(text: string): Option<Constraint> {
    var c := TrimSpace(text);
    if forall i :: 0 <= i < |c| ==> c[i] !in "^~>=<" then
      match ParseVersion(c) case None => None case Some(v) => Some(Constraint(Exact, v))
    else if c[0] == '^' then
      match ParseVersion(c[1..]) case None => None case Some(v) => Some(Constraint(Caret, v))
    else if c[0] == '~' then
      match ParseVersion(c[1..]) case None => None case Some(v) => Some(Constraint(Tilde, v))
    else None
  }

  function Triple(major: int, minor: int, patch: int): Version {
    Version(major, minor, patch, "", "")
  }

  /** A caret accepts exactly from the version up to the next major one, a tilde up to the next minor
      one; versions that are parsed have no negative parts. */
  lemma ConstraintsAreIntervals(c: Constraint, v: Version)
    requires v.major >= 0 && v.minor >= 0 && v.patch >= 0
    requires c.version.major >= 0 && c.version.minor >= 0 && c.version.patch >= 0
    ensures c.operator == Caret ==>
              (c.Satisfies(v) <==> v.Compare(c.version) >= 0 && v.Compare(Triple(c.version.major + 1, 0, 0)) < 0)
    ensures c.operator == Tilde ==>
              (c.Satisfies(v)
               <==> v.Compare(c.version) >= 0 && v.Compare(Triple(c.version.major, c.version.minor + 1, 0)) < 0)
  {
  }

  /** `best` is the first of the largest satisfying versions. */
  ghost predicate IsResolution(available: seq<Version>, c: Constraint, best: nat) {
    && best < |available| && c.Satisfies(available[best])
    && (forall i :: 0 <= i < best && c.Satisfies(available[i]) ==> available[i].Compare(available[best]) < 0)
    && (forall i :: best < i < |available| && c.Satisfies(available[i]) ==> available[i].Compare(available[best]) <= 0)
  }

  ghost predicate Resolves(available: seq<Version>, c: Constraint, v: Version) {
    exists at: nat :: at < |available| && IsResolution(available, c, at) && v == available[at]
  }

  lemma NewBest(available: seq<Version>, c: Constraint, i: nat, r: Option<Version>, at: nat)
    requires i < |available| && c.Satisfies(available[i])
    requires r.None? ==> forall k :: 0 <= k < i ==> !c.Satisfies(available[k])
    requires r.Some? ==>
               IsResolution(available[..i], c, at) && r.value == available[at] && available[i].Compare(r.value) > 0
    ensures IsResolution(available[..i + 1], c, i)
  {
    forall k | 0 <= k < i && c.Satisfies(available[k]) ensures available[k].Compare(available[i]) < 0 {
      assert available[..i][k] == available[k];
      CompareIsPreorder(available[i], available[k], available[at]);
      CompareIsPreorder(available[k], available[at], available[i]);
    }
  }

  lemma KeepBest(available: seq<Version>, c: Constraint, i: nat, at: nat)
    requires i < |available| && IsResolution(available[..i], c, at)
    requires c.Satisfies(available[i]) ==> available[i].Compare(available[at]) <= 0
    ensures IsResolution(available[..i + 1], c, at)
  {
    forall k | at < k < i + 1 && c.Satisfies(available[k]) ensures available[k].Compare(available[at]) <= 0 {
      if k < i {
        assert available[..i][k] == available[k];
      }
    }
    assert forall k :: 0 <= k < at ==> available[..i][k] == available[k];
  }

  /** The first of the largest versions that satisfy the constraint of the text; none if the text is no
      constraint or nothing satisfies it. */
  ghost predicate Resolution(available: seq<Version>, text: string, r: Option<Version>) {
    var c := ParseConstraint(text);
    if c.Some? && exists i :: 0 <= i < |available| && c.value.Satisfies(available[i])
    then r.Some? && Resolves(available, c.value, r.value)
    else r.None?
  }

  method ResolveVersion(available: seq<Version>, text: string) returns (r: Option<Version>)
    ensures Resolution(available, text, r)
  {
    hide ParseConstraint, IsResolution, Version.Compare, Constraint.Satisfies;
    var parsed := ParseConstraint(text);
    r := None;
    ghost var at := 0;
    if parsed.None? {
      return;
    }
    var c := parsed.value;
    for i := 0 to |available|
      invariant r.None? ==> forall k :: 0 <= k < i ==> !c.Satisfies(available[k])
      invariant r.Some? ==> at < i && IsResolution(available[..i], c, at) && r.value == available[at]
    {
      var v := available[i];
      if c.Satisfies(v) {
        if r.None? || v.Compare(r.value) > 0 {
          NewBest(available, c, i, r, at);
          r, at := Some(v), i;
        } else {
          KeepBest(available, c, i, at);
        }
      } else if r.Some? {
        KeepBest(available, c, i, at);
      }
    }
    assert available[..|available|] == available;
    if r.Some? {
      ResolutionSatisfies(available, c, at);
    }
  }

  lemma ResolutionSatisfies(available: seq<Version>, c: Constraint, at: nat)
    requires IsResolution(available, c, at)
    ensures at < |available| && c.Satisfies(available[at])
  {
  }
}
