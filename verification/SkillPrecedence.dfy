/** `Compare` (internal/domain/version.go) against the precedence of section 11 of Semantic Versioning 2.0.0,
    and what that means for resolution (internal/infrastructure/skill/version.go). */
module SkillPrecedence {
  import opened Text
  import opened SkillVersion

  // ---------- section 11 ----------

  function Sign(x: int, y: int): int {
    if x < y then -1 else if x > y then 1 else 0
  }

  /** Lexical order by character code. */
  function CompareText(a: string, b: string): int {
    if a == "" || b == "" then Sign(|a|, |b|)
    else if a[0] != b[0] then Sign(a[0] as int, b[0] as int)
    else CompareText(a[1..], b[1..])
  }

  predicate IsNumeric(id: string) {
    id != "" && AllDigits(id)
  }

  /** Numbers by value, texts lexically, and every number before every text. */
  function CompareId(a: string, b: string): int {
    if IsNumeric(a) && IsNumeric(b) then Sign(NumeralValue(a), NumeralValue(b))
    else if IsNumeric(a) then -1
    else if IsNumeric(b) then 1
    else CompareText(a, b)
  }

  /** The first difference decides; with none, fewer fields come first. */
  function CompareIds(xs: seq<string>, ys: seq<string>): int {
    if xs == [] || ys == [] then Sign(|xs|, |ys|)
    else if CompareId(xs[0], ys[0]) != 0 then CompareId(xs[0], ys[0])
    else CompareIds(xs[1..], ys[1..])
  }

  /** The dot-separated identifiers. */
  function Identifiers(s: string): (ids: seq<string>)
    ensures ids != []
  {
    if s == "" then [""]
    else
      var rest := Identifiers(s[1..]);
      if s[0] == '.' then [""] + rest else [[s[0]] + rest[0]] + rest[1..]
  }

  /** A release comes after all its pre-releases. */
  function ComparePre(p: string, q: string): int {
    if p == "" || q == "" then Sign(if p == "" then 1 else 0, if q == "" then 1 else 0)
    else CompareIds(Identifiers(p), Identifiers(q))
  }

  function Precedence(a: Version, b: Version): int {
    if a.Compare(b) != 0 then a.Compare(b) else ComparePre(a.pre, b.pre)
  }

  // ---------- it is a total preorder ----------

  lemma {:induction false} TextTotal(a: string, b: string)
    ensures CompareText(a, b) == -CompareText(b, a) && -1 <= CompareText(a, b) <= 1
    ensures CompareText(a, b) == 0 <==> a == b
  {
    if a != "" && b != "" && a[0] == b[0] {
      TextTotal(a[1..], b[1..]);
      assert a == [a[0]] + a[1..] && b == [b[0]] + b[1..];
    }
  }

  lemma {:induction false} TextTransitive(a: string, b: string, c: string)
    requires CompareText(a, b) <= 0 && CompareText(b, c) <= 0
    ensures CompareText(a, c) <= 0
  {
    if a != "" && b != "" && c != "" && a[0] == b[0] == c[0] {
      TextTransitive(a[1..], b[1..], c[1..]);
    }
  }

  lemma IdTotal(a: string, b: string)
    ensures CompareId(a, b) == -CompareId(b, a) && -1 <= CompareId(a, b) <= 1
    ensures CompareId(a, b) == 0 <==> a == b || (IsNumeric(a) && IsNumeric(b) && NumeralValue(a) == NumeralValue(b))
  {
    TextTotal(a, b);
  }

  lemma IdTransitive(a: string, b: string, c: string)
    requires CompareId(a, b) <= 0 && CompareId(b, c) <= 0
    ensures CompareId(a, c) <= 0
    ensures CompareId(a, c) == 0 ==> CompareId(a, b) == 0 && CompareId(b, c) == 0
  {
    hide NumeralValue;
    if !IsNumeric(a) && !IsNumeric(b) && !IsNumeric(c) {
      TextTransitive(a, b, c);
      TextTotal(a, b);
      TextTotal(b, c);
      TextTotal(a, c);
    }
  }

  lemma {:induction false} IdsTotal(xs: seq<string>, ys: seq<string>)
    ensures CompareIds(xs, ys) == -CompareIds(ys, xs) && -1 <= CompareIds(xs, ys) <= 1
  {
    if xs != [] && ys != [] {
      IdTotal(xs[0], ys[0]);
      IdsTotal(xs[1..], ys[1..]);
    }
  }

  lemma {:induction false} IdsTransitive(xs: seq<string>, ys: seq<string>, zs: seq<string>)
    requires CompareIds(xs, ys) <= 0 && CompareIds(ys, zs) <= 0
    ensures CompareIds(xs, zs) <= 0
  {
    hide CompareId;
    if xs != [] && ys != [] && zs != [] {
      IdTransitive(xs[0], ys[0], zs[0]);
      if CompareId(xs[0], zs[0]) == 0 {
        IdsTransitive(xs[1..], ys[1..], zs[1..]);
      }
    }
  }

  /** Section 11 orders all versions totally. */
  lemma PrecedenceIsPreorder(a: Version, b: Version, c: Version)
    ensures Precedence(a, b) == -Precedence(b, a) && -1 <= Precedence(a, b) <= 1
    ensures Precedence(a, b) <= 0 && Precedence(b, c) <= 0 ==> Precedence(a, c) <= 0
  {
    hide CompareIds, Identifiers;
    CompareIsPreorder(a, b, c);
    CompareIsPreorder(b, c, a);
    PreIsPreorder(a.pre, b.pre, c.pre);
  }

  lemma PreIsPreorder(p: string, q: string, r: string)
    ensures ComparePre(p, q) == -ComparePre(q, p) && -1 <= ComparePre(p, q) <= 1
    ensures ComparePre(p, q) <= 0 && ComparePre(q, r) <= 0 ==> ComparePre(p, r) <= 0
  {
    hide CompareIds, Identifiers;
    IdsTotal(Identifiers(p), Identifiers(q));
    if p != "" && q != "" && r != "" && ComparePre(p, q) <= 0 && ComparePre(q, r) <= 0 {
      IdsTransitive(Identifiers(p), Identifiers(q), Identifiers(r));
    }
  }

  // ---------- equal rank is equal text ----------

  /** Section 9: no numeric identifier has a leading zero. */
  predicate NoLeadingZeros(pre: string) {
    forall i :: 0 <= i < |Identifiers(pre)| ==> Plain(Identifiers(pre)[i])
  }

  predicate Plain(id: string) {
    IsNumeric(id) ==> id == "0" || id[0] != '0'
  }

  lemma {:induction false} SameIds(xs: seq<string>, ys: seq<string>)
    requires forall i :: 0 <= i < |xs| ==> Plain(xs[i])
    requires forall i :: 0 <= i < |ys| ==> Plain(ys[i])
    ensures CompareIds(xs, ys) == 0 <==> xs == ys
  {
    hide CompareId, Plain;
    if xs != [] && ys != [] {
      SameId(xs[0], ys[0]);
      SameIds(xs[1..], ys[1..]);
      assert xs == [xs[0]] + xs[1..] && ys == [ys[0]] + ys[1..];
    }
  }

  lemma SameId(x: string, y: string)
    requires Plain(x) && Plain(y)
    ensures CompareId(x, y) == 0 <==> x == y
  {
    hide NumeralValue, Numeral, CompareText;
    IdTotal(x, y);
    if IsNumeric(x) && IsNumeric(y) {
      CanonicalIsNumeral(x);
      CanonicalIsNumeral(y);
    }
  }

  lemma {:induction false} IdentifiersJoin(s: string)
    ensures Join(Identifiers(s), ".") == s
  {
    if s != "" {
      IdentifiersJoin(s[1..]);
      var rest := Identifiers(s[1..]);
      if s[0] == '.' {
        assert ([""] + rest)[1..] == rest;
      } else {
        var first := [s[0]] + rest[0];
        assert ([first] + rest[1..])[1..] == rest[1..];
      }
    }
  }

  lemma SamePre(p: string, q: string)
    requires NoLeadingZeros(p) && NoLeadingZeros(q)
    ensures ComparePre(p, q) == 0 <==> p == q
  {
    hide CompareIds, Identifiers, Plain;
    if p != "" && q != "" {
      SameIds(Identifiers(p), Identifiers(q));
      IdentifiersJoin(p);
      IdentifiersJoin(q);
    }
  }

  // ---------- where Compare is right ----------

  /** `Compare` gives the precedence exactly if the triples differ or the pre-releases rank equal; without
      leading zeros the latter means that they are the same. */
  lemma CompareAgreesIff(a: Version, b: Version)
    ensures a.Compare(b) == Precedence(a, b)
       <==> (a.major, a.minor, a.patch) != (b.major, b.minor, b.patch) || ComparePre(a.pre, b.pre) == 0
    ensures NoLeadingZeros(a.pre) && NoLeadingZeros(b.pre) ==>
              (a.Compare(b) == Precedence(a, b)
               <==> (a.major, a.minor, a.patch) != (b.major, b.minor, b.patch) || a.pre == b.pre)
  {
    hide ComparePre, NoLeadingZeros;
    CompareIsPreorder(a, b, a);
    if NoLeadingZeros(a.pre) && NoLeadingZeros(b.pre) {
      SamePre(a.pre, b.pre);
    }
  }

  /** Every pre-release comes before its release, yet `Compare` finds them equal. */
  lemma PreReleaseComparesEqual(v: Version)
    requires v.pre != ""
    ensures v.Compare(v.(pre := "")) == 0 && Precedence(v, v.(pre := "")) == -1
  {
  }

  // ---------- what that does to resolution ----------

  /** Among the satisfying versions of the winning triple the one listed first wins, pre-release or not. */
  lemma FirstListedWins(available: seq<Version>, c: Constraint, at: nat, i: nat)
    requires IsResolution(available, c, at) && i < |available| && c.Satisfies(available[i])
    ensures available[i].Compare(available[at]) <= 0
    ensures available[i].Compare(available[at]) == 0 ==> at <= i
  {
  }

  predicate IsSame(v: Version, w: Version) {
    v.Compare(w) == 0
  }

  /** The resolved version has the highest precedence of all that satisfy the constraint exactly if no
      satisfying version of the same triple has a pre-release part that ranks higher. */
  lemma ResolutionHasPrecedenceIff(available: seq<Version>, c: Constraint, at: nat)
    requires IsResolution(available, c, at)
    ensures (forall i :: 0 <= i < |available| && c.Satisfies(available[i]) ==>
               Precedence(available[i], available[at]) <= 0)
       <==> (forall i :: 0 <= i < |available| && c.Satisfies(available[i]) && IsSame(available[i], available[at]) ==>
               ComparePre(available[i].pre, available[at].pre) <= 0)
  {
    hide ComparePre, Version.Compare, Constraint.Satisfies;
    forall i | 0 <= i < |available| && c.Satisfies(available[i])
      ensures available[i].Compare(available[at]) <= 0
    {
      FirstListedWins(available, c, at, i);
    }
  }

  /** A pre-release listed before its release is what resolves, though its release satisfies too. */
  lemma PreReleaseBeatsRelease(v: Version, c: Constraint)
    requires v.pre != "" && c.Satisfies(v)
    ensures c.Satisfies(v.(pre := "")) && IsResolution([v, v.(pre := "")], c, 0)
    ensures Precedence(v.(pre := ""), v) == 1
  {
  }
}
