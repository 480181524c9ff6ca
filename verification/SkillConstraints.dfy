/** What the texts of versions and constraints mean (internal/domain/version.go,
    internal/infrastructure/skill/version.go). */
module SkillConstraints {
  import opened Text
  import opened SkillVersion

  // ---------- which texts are versions ----------

  /** Three numerals between dots, then perhaps a pre-release and a build. */
  ghost predicate IsVersionText(s: string, a: string, b: string, c: string, pre: string, build: string) {
    && a != "" && b != "" && c != "" && AllDigits(a) && AllDigits(b) && AllDigits(c)
    && AllIdent(pre) && AllIdent(build) && s == a + "." + b + "." + c + Suffix(pre, build)
  }

  lemma SuffixStart(pre: string, build: string)
    ensures Suffix(pre, build) != "" ==> !IsDigit(Suffix(pre, build)[0])
  {
  }

  lemma TextParses(s: string, a: string, b: string, c: string, pre: string, build: string)
    requires IsVersionText(s, a, b, c, pre, build)
    ensures ParseVersion(s) == Some(Version(Atoi(a), Atoi(b), Atoi(c), pre, build)) == ParseVersion("v" + s)
  {
    hide ParseTriple, ParseSuffix, Suffix, NumeralValue;
    SuffixStart(pre, build);
    TripleRoundTrip(a, b, c, Suffix(pre, build));
    SuffixRoundTrip(pre, build);
    assert s[0] == a[0] && ("v" + s)[1..] == s;
    assert TrimV(s) == s && TrimV("v" + s) == s;
  }

  lemma SuffixIsIdent(s: string)
    requires ParseSuffix(s).Some?
    ensures AllIdent(ParseSuffix(s).value.0) && AllIdent(ParseSuffix(s).value.1)
  {
  }

  /** Exactly these texts, with or without a `v` in front, are versions. */
  lemma ParsesExactly(s: string)
    ensures ParseVersion(s).Some?
       <==> exists t, a, b, c, pre, build :: IsVersionText(t, a, b, c, pre, build) && (s == t || s == "v" + t)
  {
    hide ParseTriple, ParseSuffix, Suffix;
    if ParseVersion(s).Some? {
      var t := TrimV(s);
      var (a, b, c, rest) := ParseTriple(t).value;
      TripleShape(t);
      SuffixShape(rest);
      SuffixIsIdent(rest);
      var (pre, build) := ParseSuffix(rest).value;
      assert IsVersionText(t, a, b, c, pre, build);
      assert s == t || s == "v" + t;
    }
    forall t, a, b, c, pre, build | IsVersionText(t, a, b, c, pre, build) && (s == t || s == "v" + t)
      ensures ParseVersion(s).Some?
    {
      TextParses(t, a, b, c, pre, build);
    }
  }

  // ---------- constraints as they are written ----------

  predicate VersionChar(c: char) {
    IsIdentChar(c) || c == '+'
  }

  predicate AllVersionChars(s: string) {
    forall i :: 0 <= i < |s| ==> VersionChar(s[i])
  }

  lemma DigitsAreVersionChars(d: string)
    requires AllDigits(d)
    ensures AllVersionChars(d)
  {
  }

  lemma ConcatVersionChars(a: string, b: string)
    requires AllVersionChars(a) && AllVersionChars(b)
    ensures AllVersionChars(a + b)
  {
  }

  lemma SuffixVersionChars(pre: string, build: string)
    requires AllIdent(pre) && AllIdent(build)
    ensures AllVersionChars(Suffix(pre, build))
  {
    assert AllVersionChars("-" + pre) && AllVersionChars("+" + build);
    ConcatVersionChars(if pre != "" then "-" + pre else "", if build != "" then "+" + build else "");
  }

  lemma PrintChars(v: Version)
    requires Printable(v)
    ensures v.Print() != "" && AllVersionChars(v.Print()) && Trimmed(v.Print()) && Trimmed("^" + v.Print())
    ensures Trimmed("~" + v.Print())
  {
    hide Numeral, Suffix, IsSpace, VersionChar;
    PrintShape(v);
    var a, b, c, rest := Numeral(v.major), Numeral(v.minor), Numeral(v.patch), Suffix(v.pre, v.build);
    DigitsAreVersionChars(a);
    DigitsAreVersionChars(b);
    DigitsAreVersionChars(c);
    SuffixVersionChars(v.pre, v.build);
    DotIsVersionChar();
    ConcatVersionChars(a, ".");
    ConcatVersionChars(a + ".", b);
    ConcatVersionChars(a + "." + b, ".");
    ConcatVersionChars(a + "." + b + ".", c);
    ConcatVersionChars(a + "." + b + "." + c, rest);
    var s := v.Print();
    NoSpaceInVersion(s[0]);
    NoSpaceInVersion(s[|s| - 1]);
  }

  lemma DotIsVersionChar()
    ensures AllVersionChars(".")
  {
  }

  lemma NoSpaceInVersion(c: char)
    ensures VersionChar(c) ==> !IsSpace(c) && c !in "^~>=<"
    ensures !IsSpace('^') && !IsSpace('~')
  {
  }

  lemma NoOperator(s: string)
    requires AllVersionChars(s)
    ensures forall i :: 0 <= i < |s| ==> s[i] !in "^~>=<"
  {
    forall i | 0 <= i < |s| ensures s[i] !in "^~>=<" {
      NoSpaceInVersion(s[i]);
    }
  }

  /** A version is an exact constraint, a caret or a tilde in front makes it a range; space around is ignored. */
  lemma ConstraintOfText(v: Version, x: string, y: string)
    requires Printable(v) && AllSpace(x) && AllSpace(y)
    ensures ParseConstraint(x + v.Print() + y) == Some(Constraint(Exact, v))
    ensures ParseConstraint(x + ("^" + v.Print()) + y) == Some(Constraint(Caret, v))
    ensures ParseConstraint(x + ("~" + v.Print()) + y) == Some(Constraint(Tilde, v))
  {
    hide TrimSpace, ParseVersion, AllSpace, Trimmed, AllVersionChars, Version.Print, IsSpace;
    var s := v.Print();
    PrintChars(v);
    NoOperator(s);
    ParsePrinted(v);
    TrimAround(x, s, y);
    TrimAround(x, "^" + s, y);
    TrimAround(x, "~" + s, y);
    assert ("^" + s)[0] == '^' && ("^" + s)[1..] == s && ("~" + s)[0] == '~' && ("~" + s)[1..] == s;
  }

  // ---------- what they resolve to ----------

  ghost predicate Offered(available: seq<Version>, inside: Version -> bool, i: nat) {
    i < |available| && inside(available[i])
  }

  /** The first of the largest of the available versions that are inside; none if none is. */
  ghost predicate IsFirstBest(available: seq<Version>, inside: Version -> bool, r: Option<Version>) {
    if exists i: nat :: Offered(available, inside, i)
    then exists at: nat ::
           && Offered(available, inside, at) && r == Some(available[at])
           && (forall i: nat :: i < at && Offered(available, inside, i) ==> Before(available[i], available[at]))
           && (forall i: nat :: i > at && Offered(available, inside, i) ==> !Before(available[at], available[i]))
    else r == None
  }

  /** From `low` on, and before `high`. */
  function Between(low: Version, high: Version): Version -> bool {
    (w: Version) => !Before(w, low) && Before(w, high)
  }

  function SameTriple(v: Version): Version -> bool {
    (w: Version) => (w.major, w.minor, w.patch) == (v.major, v.minor, v.patch)
  }

  lemma ResolvesBy(available: seq<Version>, text: string, r: Option<Version>, c: Constraint, inside: Version -> bool)
    requires Resolution(available, text, r) && ParseConstraint(text) == Some(c)
    requires forall i :: 0 <= i < |available| ==> (inside(available[i]) <==> c.Satisfies(available[i]))
    ensures IsFirstBest(available, inside, r)
  {
    hide ParseConstraint, Constraint.Satisfies, Version.Compare, Before;
    if exists i :: 0 <= i < |available| && c.Satisfies(available[i]) {
      var j :| 0 <= j < |available| && c.Satisfies(available[j]);
      assert Offered(available, inside, j);
      var at: nat :| at < |available| && IsResolution(available, c, at) && r.value == available[at];
      assert Offered(available, inside, at);
      forall i: nat | i < |available|
        ensures available[i].Compare(available[at]) < 0 ==> Before(available[i], available[at])
      {
        CompareIsLexicographic(available[i], available[at]);
      }
      forall i: nat | i < |available|
        ensures available[i].Compare(available[at]) <= 0 ==> !Before(available[at], available[i])
      {
        CompareIsLexicographic(available[i], available[at]);
        CompareIsLexicographic(available[at], available[i]);
        CompareIsPreorder(available[i], available[at], available[i]);
      }
    }
  }

  /** Parsed versions have no negative parts. */
  ghost predicate AllNatural(available: seq<Version>) {
    forall i :: 0 <= i < |available| ==>
      available[i].major >= 0 && available[i].minor >= 0 && available[i].patch >= 0
  }

  /** A caret and a version: the first maximum of the available ones from that version up to the next major one. */
  lemma CaretResolves(available: seq<Version>, r: Option<Version>, v: Version, x: string, y: string)
    requires Printable(v) && AllSpace(x) && AllSpace(y) && AllNatural(available)
    requires Resolution(available, x + ("^" + v.Print()) + y, r)
    ensures IsFirstBest(available, Between(v, Triple(v.major + 1, 0, 0)), r)
  {
    hide Resolution, ParseConstraint, AllSpace, Version.Print, IsFirstBest;
    ConstraintOfText(v, x, y);
    ResolvesBy(available, x + ("^" + v.Print()) + y, r, Constraint(Caret, v), Between(v, Triple(v.major + 1, 0, 0)));
  }

  /** A tilde: up to the next minor one. */
  lemma TildeResolves(available: seq<Version>, r: Option<Version>, v: Version, x: string, y: string)
    requires Printable(v) && AllSpace(x) && AllSpace(y) && AllNatural(available)
    requires Resolution(available, x + ("~" + v.Print()) + y, r)
    ensures IsFirstBest(available, Between(v, Triple(v.major, v.minor + 1, 0)), r)
  {
    hide Resolution, ParseConstraint, AllSpace, Version.Print, IsFirstBest;
    ConstraintOfText(v, x, y);
    var next := Triple(v.major, v.minor + 1, 0);
    ResolvesBy(available, x + ("~" + v.Print()) + y, r, Constraint(Tilde, v), Between(v, next));
  }

  /** No operator: the first version with that very triple. */
  lemma ExactResolves(available: seq<Version>, r: Option<Version>, v: Version, x: string, y: string)
    requires Printable(v) && AllSpace(x) && AllSpace(y)
    requires Resolution(available, x + v.Print() + y, r)
    ensures IsFirstBest(available, SameTriple(v), r)
  {
    hide Resolution, ParseConstraint, AllSpace, Version.Print, IsFirstBest;
    ConstraintOfText(v, x, y);
    ResolvesBy(available, x + v.Print() + y, r, Constraint(Exact, v), SameTriple(v));
  }

  /** Any other use of an operator character resolves to nothing. */
  lemma OtherOperatorsResolveToNothing(available: seq<Version>, r: Option<Version>, x: string, s: string, y: string,
                                       i: nat)
    requires AllSpace(x) && AllSpace(y) && s != "" && Trimmed(s) && Resolution(available, x + s + y, r)
    requires i < |s| && s[i] in "^~>=<" && s[0] != '^' && s[0] != '~'
    ensures r == None
  {
    hide TrimSpace, ParseVersion, AllSpace;
    TrimAround(x, s, y);
  }
}
