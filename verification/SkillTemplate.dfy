/** Argument substitution into a skill body (internal/usecase/skill/renderer.go).

    The code rewrites the whole body once per placeholder, highest index first. A reader expects one
    left-to-right substitution. The two are related here, and the documented `$$` escape is compared
    with what the last pass really does. */
module SkillTemplate {
  import opened Text

  const ARGUMENTS := "$ARGUMENTS"

  function Placeholder(i: nat): string {
    "$" + Numeral(i)
  }

  // ---------- the code: a chain of rewriting passes ----------

  /** The passes for indices n-1, ..., 0 over `s`. */
  function IndexPasses(s: string, args: seq<string>, n: nat): string
    requires n <= |args|
    decreases n
  {
    if n == 0 then s else IndexPasses(ReplaceAll(s, Placeholder(n - 1), args[n - 1]), args, n - 1)
  }

  function Passes(body: string, args: seq<string>): string {
    var s := ReplaceAll(body, ARGUMENTS, Join(args, " "));
    ReplaceAll(IndexPasses(s, args, |args|), "$$", "$")
  }

  method SubstituteArguments(body: string, args: seq<string>) returns (result: string)
    ensures result == Passes(body, args)
    ensures DollarFree(args) && Tight(args) && NoDoubleDollar(body) ==> result == Scan(body, args)
    ensures Rereadable(body, args) ==> (result == Documented(body, args) <==> !LosesEscape(body, args))
  {
    var fullArgs := Join(args, " ");
    result := ReplaceAll(body, ARGUMENTS, fullArgs);
    var i := |args|;
    while i > 0
      invariant 0 <= i <= |args|
      invariant IndexPasses(result, args, i) == IndexPasses(ReplaceAll(body, ARGUMENTS, fullArgs), args, |args|)
    {
      i := i - 1;
      result := ReplaceAll(result, Placeholder(i), args[i]);
    }
    result := ReplaceAll(result, "$$", "$");
    if DollarFree(args) && Tight(args) && NoDoubleDollar(body) {
      PassesAreOneScan(body, args);
    }
    if Rereadable(body, args) {
      EscapeHonouredIff(body, args);
    }
  }

  // ---------- the meaning: one left-to-right scan ----------

  /** The largest index below n whose numeral `s` begins with. */
  function LargestIndex(s: string, n: nat): (r: Option<nat>)
    ensures r.Some? ==> r.value < n && Numeral(r.value) <= s
  {
    if n == 0 then None
    else if Numeral(n - 1) <= s then Some(n - 1)
    else LargestIndex(s, n - 1)
  }

  /** One scan in which `$` takes `$ARGUMENTS`, else an existing index (at least `k`), else stays.
      `Scan`, with k == 0, is the whole substitution; larger k are the states between passes. */
  function ScanFrom(b: string, args: seq<string>, k: nat): string
    decreases |b|
  {
    if b == "" then ""
    else if b[0] != '$' then [b[0]] + ScanFrom(b[1..], args, k)
    else if ARGUMENTS <= b then Join(args, " ") + ScanFrom(b[|ARGUMENTS|..], args, k)
    else match LargestIndex(b[1..], |args|)
      case Some(i) =>
        if i >= k then args[i] + ScanFrom(b[1 + |Numeral(i)|..], args, k)
        else "$" + ScanFrom(b[1..], args, k)
      case None => "$" + ScanFrom(b[1..], args, k)
  }

  function Scan(b: string, args: seq<string>): string {
    ScanFrom(b, args, 0)
  }

  /** The documented reading: as `Scan`, but `$$` is an escape that yields one literal dollar. */
  function Documented(b: string, args: seq<string>): string
    decreases |b|
  {
    if b == "" then ""
    else if b[0] != '$' then [b[0]] + Documented(b[1..], args)
    else if "$$" <= b then "$" + Documented(b[2..], args)
    else if ARGUMENTS <= b then Join(args, " ") + Documented(b[|ARGUMENTS|..], args)
    else match LargestIndex(b[1..], |args|)
      case Some(i) => args[i] + Documented(b[1 + |Numeral(i)|..], args)
      case None => "$" + Documented(b[1..], args)
  }

  // ---------- side conditions a caller can check ----------

  predicate NoDoubleDollar(b: string) {
    forall i :: 0 <= i < |b| - 1 && b[i] == '$' ==> b[i + 1] != '$'
  }

  predicate DollarFree(args: seq<string>) {
    forall i :: 0 <= i < |args| ==> '$' !in args[i]
  }

  /** No argument can extend a numeral that stands before it. */
  predicate Opaque(args: seq<string>) {
    forall i :: 0 <= i < |args| ==> args[i] != "" && !IsDigit(args[i][0])
  }

  predicate IsPlaceholder(b: string, args: seq<string>) {
    ARGUMENTS <= b || (b != "" && b[0] == '$' && LargestIndex(b[1..], |args|).Some?)
  }

  predicate NoDollarBeforePlaceholder(b: string, args: seq<string>) {
    forall i :: 0 <= i < |b| && b[i] == '$' ==> !IsPlaceholder(b[i + 1..], args)
  }

  /** No argument can complete a numeral that stands before it to that of an existing index: none begins
      with, or is the beginning of, the last digits of an existing index. */
  predicate Tight(args: seq<string>) {
    forall l, m :: 0 <= l < |args| && 0 < m < |Numeral(l)| ==> NoneMeets(Numeral(l)[m..], args)
  }

  predicate NoneMeets(x: string, args: seq<string>) {
    forall i :: 0 <= i < |args| ==> !(args[i] <= x) && !(x <= args[i])
  }

  lemma OpaqueIsTight(args: seq<string>)
    requires Opaque(args)
    ensures Tight(args)
  {
    forall l, m | 0 <= l < |args| && 0 < m < |Numeral(l)| ensures NoneMeets(Numeral(l)[m..], args) {
      assert IsDigit(Numeral(l)[m..][0]);
    }
  }

  /** With at most ten arguments there is nothing to complete. */
  lemma FewAreTight(args: seq<string>)
    requires |args| <= 10
    ensures Tight(args)
  {
    forall l | 0 <= l < |args| ensures |Numeral(l)| == 1 {
      SingleDigit(l);
    }
  }

  /** No pass can mistake the text an earlier pass wrote for a placeholder: arguments do not begin with
      digits, or complete no numeral and stand behind no literal dollar. */
  predicate Rereadable(body: string, args: seq<string>) {
    DollarFree(args) && (Opaque(args) || (Tight(args) && NoDollarBeforePlaceholder(body, args)))
  }

  lemma RereadableSuffix(b: string, args: seq<string>, j: nat)
    requires Rereadable(b, args) && j <= |b|
    ensures Rereadable(b[j..], args)
  {
    if NoDollarBeforePlaceholder(b, args) {
      NoDollarSuffix(b, args, j);
    }
  }

  /** An escaped `$ARGUMENTS` does no harm when the arguments happen to spell that very word. */
  predicate Harmless(b: string, args: seq<string>)
    requires "$$" <= b
  {
    ARGUMENTS <= b[1..] && Join(args, " ") == ARGUMENTS[1..]
  }

  /** Somewhere an escape `$$` stands directly before the rest of a placeholder, as in `$$0`. */
  predicate LosesEscape(b: string, args: seq<string>)
    decreases |b|
  {
    if b == "" then false
    else if b[0] != '$' then LosesEscape(b[1..], args)
    else if "$$" <= b then (IsPlaceholder(b[1..], args) && !Harmless(b, args)) || LosesEscape(b[2..], args)
    else if ARGUMENTS <= b then LosesEscape(b[|ARGUMENTS|..], args)
    else match LargestIndex(b[1..], |args|)
      case Some(i) => LosesEscape(b[1 + |Numeral(i)|..], args)
      case None => LosesEscape(b[1..], args)
  }

  // ---------- the scan takes the longest numeral ----------

  /** The index the scan takes is the longest numeral of an existing argument, and it is unique. */
  lemma {:induction false} ScanTakesLongestNumeral(s: string, n: nat, i: nat)
    requires i < n && Numeral(i) <= s
    ensures LargestIndex(s, n).Some?
    ensures var j := LargestIndex(s, n).value;
            i <= j && |Numeral(i)| <= |Numeral(j)| && (|Numeral(i)| == |Numeral(j)| ==> i == j)
  {
    hide Numeral, NumeralValue;
    if i == n - 1 {
    } else if Numeral(n - 1) <= s {
      NumeralLengthMonotone(i, n - 1);
      if |Numeral(i)| == |Numeral(n - 1)| {
        assert Numeral(i) == s[..|Numeral(i)|] == Numeral(n - 1);
        NumeralRoundTrip(i);
        NumeralRoundTrip(n - 1);
      }
    } else {
      ScanTakesLongestNumeral(s, n - 1, i);
    }
  }

  // ---------- passes equal the scan ----------

  lemma {:induction false} JoinDollarFree(args: seq<string>)
    requires DollarFree(args)
    ensures '$' !in Join(args, " ")
  {
    if |args| >= 2 {
      forall i | 0 <= i < |args| - 1 ensures '$' !in args[1..][i] {
        assert args[1..][i] == args[i + 1];
      }
      JoinDollarFree(args[1..]);
    }
  }

  lemma {:induction false} NoIndexAtDollar(s: string, n: nat)
    requires s != "" && !IsDigit(s[0])
    ensures LargestIndex(s, n).None?
  {
    if n > 0 {
      assert IsDigit(Numeral(n - 1)[0]);
      NoIndexAtDollar(s, n - 1);
    }
  }

  lemma {:induction false} ScanCopiesLiterals(d: string, r: string, args: seq<string>, k: nat)
    requires '$' !in d
    ensures ScanFrom(d + r, args, k) == d + ScanFrom(r, args, k)
  {
    if d == "" {
      assert d + r == r;
    } else {
      assert (d + r)[1..] == d[1..] + r;
      ScanCopiesLiterals(d[1..], r, args, k);
      assert d == [d[0]] + d[1..];
    }
  }

  /** What the scan writes for a dollar does not begin with a digit. */
  lemma NoDigitAtDollar(b: string, args: seq<string>, k: nat)
    requires b != "" && b[0] == '$' && (!IsPlaceholder(b, args) || (args != [] && Opaque(args)))
    ensures ScanFrom(b, args, k) != "" && !IsDigit(ScanFrom(b, args, k)[0])
  {
    if ARGUMENTS <= b {
      assert args[0] <= Join(args, " ");
      hide Join;
      assert ScanFrom(b, args, k)[0] == args[0][0];
    }
  }

  /** What follows a literal dollar shows the same digits before and after the higher passes. */
  lemma {:induction false} DigitsInFrontAgree(b: string, args: seq<string>, k: nat, l: nat, m: nat)
    requires Tight(args) && l < |args| && m <= |Numeral(l)|
    requires m > 0 || Opaque(args) || !IsPlaceholder(b, args)
    ensures Numeral(l)[m..] <= ScanFrom(b, args, k) <==> Numeral(l)[m..] <= b
    decreases |Numeral(l)| - m
  {
    hide Tight, Numeral;
    var x := Numeral(l)[m..];
    if x != "" && b != "" {
      if b[0] != '$' {
        var t := ScanFrom(b[1..], args, k);
        assert ScanFrom(b, args, k) == [b[0]] + t;
        hide ScanFrom;
        DigitsInFrontAgree(b[1..], args, k, l, m + 1);
        assert x == [x[0]] + Numeral(l)[m + 1..] && b == [b[0]] + b[1..];
        SameFront(x[0], Numeral(l)[m + 1..], b[0], t);
        SameFront(x[0], Numeral(l)[m + 1..], b[0], b[1..]);
      } else if m == 0 {
        NoDigitAtDollar(b, args, k);
      } else {
        TightAt(args, l, m);
        ValueDoesNotMeet(b, args, k, x);
      }
    }
  }

  lemma TightAt(args: seq<string>, l: nat, m: nat)
    requires Tight(args) && l < |args| && 0 < m < |Numeral(l)|
    ensures NoneMeets(Numeral(l)[m..], args)
  {
  }

  lemma ValueDoesNotMeet(b: string, args: seq<string>, k: nat, x: string)
    requires b != "" && b[0] == '$' && NoneMeets(x, args) && x != "" && AllDigits(x) && args != []
    ensures !(x <= ScanFrom(b, args, k))
  {
    var s := ScanFrom(b, args, k);
    if ARGUMENTS <= b {
      FirstOfJoin(args);
      hide Join;
      BothInFront(args[0], x, s);
    } else {
      var hit := LargestIndex(b[1..], |args|);
      if hit.Some? && hit.value >= k {
        BothInFront(args[hit.value], x, s);
      } else {
        assert s[0] == '$' && x[0] != '$';
      }
    }
  }

  lemma FirstOfJoin(args: seq<string>)
    requires args != []
    ensures args[0] <= Join(args, " ")
  {
  }

  lemma BothInFront(v: string, x: string, s: string)
    requires v <= s && !(v <= x) && !(x <= v)
    ensures !(x <= s)
  {
  }

  lemma SameFront(c: char, p: string, e: char, s: string)
    ensures [c] + p <= [e] + s <==> c == e && p <= s
  {
    if c == e {
      PrefixTail(c, p, s);
    } else {
      assert ([c] + p)[0] != ([e] + s)[0];
    }
  }

  /** The pass for index k turns the scan that knows indices above k into the one that knows k too. */
  lemma {:induction false} OnePass(b: string, args: seq<string>, k: nat)
    requires k < |args| && Rereadable(b, args)
    ensures ReplaceAll(ScanFrom(b, args, k + 1), Placeholder(k), args[k]) == ScanFrom(b, args, k)
    decreases |b|
  {
    var p := Placeholder(k);
    if b == "" {
    } else if b[0] != '$' {
      RereadableSuffix(b, args, 1);
      OnePass(b[1..], args, k);
      ReplaceSkips([b[0]], ScanFrom(b[1..], args, k + 1), p, args[k]);
    } else if ARGUMENTS <= b {
      RereadableSuffix(b, args, |ARGUMENTS|);
      OnePass(b[|ARGUMENTS|..], args, k);
      JoinDollarFree(args);
      ReplaceSkips(Join(args, " "), ScanFrom(b[|ARGUMENTS|..], args, k + 1), p, args[k]);
    } else {
      OnePassAtDollar(b, args, k);
    }
  }

  lemma {:induction false} OnePassAtDollar(b: string, args: seq<string>, k: nat)
    requires k < |args| && Rereadable(b, args)
    requires b != "" && b[0] == '$' && !(ARGUMENTS <= b)
    ensures ReplaceAll(ScanFrom(b, args, k + 1), Placeholder(k), args[k]) == ScanFrom(b, args, k)
    decreases |b|, 0
  {
    var hit := LargestIndex(b[1..], |args|);
    if hit.Some? && hit.value >= k {
      var rest := b[1 + |Numeral(hit.value)|..];
      RereadableSuffix(b, args, 1 + |Numeral(hit.value)|);
      OnePass(rest, args, k);
      if hit.value > k {
        ReplaceSkips(args[hit.value], ScanFrom(rest, args, k + 1), Placeholder(k), args[k]);
      } else {
        PassHits(b, rest, args, k);
      }
    } else {
      RereadableSuffix(b, args, 1);
      OnePass(b[1..], args, k);
      LiteralDollarIsNotHit(b, args, k);
      ReplaceKeepsFirst('$', ScanFrom(b[1..], args, k + 1), Placeholder(k), args[k]);
    }
  }

  lemma ReplaceKeepsFirst(c: char, s: string, pattern: string, subst: string)
    requires pattern != "" && !(pattern <= [c] + s)
    ensures ReplaceAll([c] + s, pattern, subst) == [c] + ReplaceAll(s, pattern, subst)
  {
    assert ([c] + s)[1..] == s;
  }

  /** At `$k` itself the scan before the pass still shows the placeholder, so the pass replaces it. */
  lemma PassHits(b: string, rest: string, args: seq<string>, k: nat)
    requires k < |args| && b != "" && b[0] == '$' && !(ARGUMENTS <= b)
    requires LargestIndex(b[1..], |args|) == Some(k) && rest == b[1 + |Numeral(k)|..]
    ensures ReplaceAll(ScanFrom(b, args, k + 1), Placeholder(k), args[k])
         == args[k] + ReplaceAll(ScanFrom(rest, args, k + 1), Placeholder(k), args[k])
  {
    var p, t := Placeholder(k), ScanFrom(rest, args, k + 1);
    assert b[1..] == Numeral(k) + rest;
    ScanCopiesLiterals(Numeral(k), rest, args, k + 1);
    assert ScanFrom(b, args, k + 1) == "$" + (Numeral(k) + t) == p + t;
    assert (p + t)[|p|..] == t;
  }

  lemma PrefixTail(c: char, p: string, s: string)
    ensures [c] + p <= [c] + s <==> p <= s
  {
    assert ([c] + s)[1..] == s && ([c] + p)[1..] == p;
    assert p <= s ==> forall i :: 0 <= i < |p| ==> p[i] == s[i];
  }

  lemma SingleDigit(k: nat)
    requires k < 10
    ensures |Numeral(k)| == 1
  {
  }

  lemma LiteralDollarIsNotHit(b: string, args: seq<string>, k: nat)
    requires k < |args| && Rereadable(b, args)
    requires b != "" && b[0] == '$'
    requires var hit := LargestIndex(b[1..], |args|); hit.None? || hit.value < k
    ensures !(Placeholder(k) <= "$" + ScanFrom(b[1..], args, k + 1))
  {
    var p, s := Placeholder(k), ScanFrom(b[1..], args, k + 1);
    if Numeral(k) <= b[1..] {
      ScanTakesLongestNumeral(b[1..], |args|, k);
    }
    if Opaque(args) {
      OpaqueIsTight(args);
    }
    assert Numeral(k)[0..] == Numeral(k);
    DigitsInFrontAgree(b[1..], args, k + 1, k, 0);
    PrefixTail('$', Numeral(k), s);
  }

  lemma {:induction false} ArgumentsPass(b: string, args: seq<string>)
    ensures ReplaceAll(b, ARGUMENTS, Join(args, " ")) == ScanFrom(b, args, |args|)
    decreases |b|
  {
    if b == "" {
    } else if ARGUMENTS <= b {
      ArgumentsPass(b[|ARGUMENTS|..], args);
    } else {
      ArgumentsPass(b[1..], args);
    }
  }

  lemma {:induction false} IndexPassesAreScan(b: string, args: seq<string>, n: nat)
    requires n <= |args| && Rereadable(b, args)
    ensures IndexPasses(ScanFrom(b, args, n), args, n) == Scan(b, args)
  {
    if n > 0 {
      OnePass(b, args, n - 1);
      IndexPassesAreScan(b, args, n - 1);
    }
  }

  /** For every body: the passes are the single scan with adjacent literal dollars paired off. */
  lemma PassesAreScanThenUnescape(b: string, args: seq<string>)
    requires Rereadable(b, args)
    ensures Passes(b, args) == ReplaceAll(Scan(b, args), "$$", "$")
  {
    ArgumentsPass(b, args);
    IndexPassesAreScan(b, args, |args|);
  }

  // ---------- bodies without `$$`: exactly one scan ----------

  lemma LoneDollarStays(b: string, args: seq<string>)
    requires b != "" && b[0] == '$' && !("$$" <= b) && !IsPlaceholder(b, args)
    ensures ReplaceAll(Scan(b, args), "$$", "$") == "$" + ReplaceAll(Scan(b[1..], args), "$$", "$")
  {
    var t := Scan(b[1..], args);
    assert Scan(b, args) == "$" + t;
    if |b| > 1 {
      assert b[1] != '$' && t[0] == b[1];
    }
    ReplaceKeepsFirst('$', t, "$$", "$");
  }

  lemma {:induction false} UnescapeLeavesScan(b: string, args: seq<string>)
    requires DollarFree(args) && NoDoubleDollar(b)
    ensures ReplaceAll(Scan(b, args), "$$", "$") == Scan(b, args)
    decreases |b|
  {
    if b == "" {
    } else if b[0] != '$' {
      UnescapeLeavesScan(b[1..], args);
      ReplaceSkips([b[0]], Scan(b[1..], args), "$$", "$");
    } else if ARGUMENTS <= b {
      UnescapeLeavesScan(b[|ARGUMENTS|..], args);
      JoinDollarFree(args);
      ReplaceSkips(Join(args, " "), Scan(b[|ARGUMENTS|..], args), "$$", "$");
    } else {
      match LargestIndex(b[1..], |args|)
      case Some(i) =>
        UnescapeLeavesScan(b[1 + |Numeral(i)|..], args);
        ReplaceSkips(args[i], Scan(b[1 + |Numeral(i)|..], args), "$$", "$");
      case None =>
        UnescapeLeavesScan(b[1..], args);
        LoneDollarStays(b, args);
    }
  }

  lemma NoDoubleIsRereadable(b: string, args: seq<string>)
    requires DollarFree(args) && Tight(args) && NoDoubleDollar(b)
    ensures Rereadable(b, args)
  {
    forall i | 0 <= i < |b| && b[i] == '$' ensures !IsPlaceholder(b[i + 1..], args) {
      if i + 1 < |b| {
        assert b[i + 1..][0] == b[i + 1] != '$' && ARGUMENTS[0] == '$';
      }
    }
  }

  /** Without `$$` in the body the chain of passes is one left-to-right substitution. */
  lemma PassesAreOneScan(b: string, args: seq<string>)
    requires DollarFree(args) && Tight(args) && NoDoubleDollar(b)
    ensures Passes(b, args) == Scan(b, args)
  {
    NoDoubleIsRereadable(b, args);
    PassesAreScanThenUnescape(b, args);
    UnescapeLeavesScan(b, args);
  }

  // ---------- the documented escape ----------

  /** What the last pass makes of the scan. */
  function Unescaped(b: string, args: seq<string>): string {
    ReplaceAll(Scan(b, args), "$$", "$")
  }

  /** Two dollars that start no placeholder, or a harmless one, become one. */
  lemma UnescapePair(b: string, args: seq<string>)
    requires "$$" <= b && (IsPlaceholder(b[1..], args) ==> Harmless(b, args))
    ensures ReplaceAll(Scan(b, args), "$$", "$") == "$" + ReplaceAll(Scan(b[2..], args), "$$", "$")
  {
    assert b[1] == '$' && ARGUMENTS[1] == 'A';
    NoIndexAtDollar(b[1..], |args|);
    assert b[1..][1..] == b[2..];
    var t := Scan(b[2..], args);
    if IsPlaceholder(b[1..], args) {
      var rest := b[1..][|ARGUMENTS|..];
      assert b[2..] == ARGUMENTS[1..] + rest;
      ScanCopiesLiterals(ARGUMENTS[1..], rest, args, 0);
      assert Scan(b[1..], args) == Join(args, " ") + Scan(rest, args) == t;
      assert Scan(b, args) == "$" + t && t[0] == 'A';
      ReplaceKeepsFirst('$', t, "$$", "$");
    } else {
      assert Scan(b[1..], args) == "$" + t;
      assert Scan(b, args) == "$" + ("$" + t) == "$$" + t;
      assert ("$$" + t)[2..] == t;
    }
  }

  lemma {:induction false} UnescapeIsDocumented(b: string, args: seq<string>)
    requires DollarFree(args) && !LosesEscape(b, args)
    ensures ReplaceAll(Scan(b, args), "$$", "$") == Documented(b, args)
    decreases |b|
  {
    if b == "" {
    } else if b[0] != '$' {
      UnescapeIsDocumented(b[1..], args);
      ReplaceSkips([b[0]], Scan(b[1..], args), "$$", "$");
    } else if "$$" <= b {
      UnescapeIsDocumented(b[2..], args);
      UnescapePair(b, args);
    } else if ARGUMENTS <= b {
      UnescapeIsDocumented(b[|ARGUMENTS|..], args);
      JoinDollarFree(args);
      ReplaceSkips(Join(args, " "), Scan(b[|ARGUMENTS|..], args), "$$", "$");
    } else {
      match LargestIndex(b[1..], |args|)
      case Some(i) =>
        UnescapeIsDocumented(b[1 + |Numeral(i)|..], args);
        ReplaceSkips(args[i], Scan(b[1 + |Numeral(i)|..], args), "$$", "$");
      case None =>
        UnescapeIsDocumented(b[1..], args);
        LoneDollarStays(b, args);
    }
  }

  lemma {:induction false} EscapedPlaceholderDiffers(b: string, args: seq<string>)
    requires DollarFree(args) && Opaque(args) && args != [] && LosesEscape(b, args)
    ensures ReplaceAll(Scan(b, args), "$$", "$") != Documented(b, args)
    decreases |b|
  {
    if b[0] != '$' {
      EscapedPlaceholderDiffers(b[1..], args);
      SamePrefixDiffers([b[0]], b[1..], args);
    } else if "$$" <= b {
      if IsPlaceholder(b[1..], args) && !Harmless(b, args) {
        EscapeIsLost(b, args);
      } else {
        EscapedPlaceholderDiffers(b[2..], args);
        UnescapePair(b, args);
        assert ReplaceAll(Scan(b, args), "$$", "$")[1..] == ReplaceAll(Scan(b[2..], args), "$$", "$");
        assert Documented(b, args)[1..] == Documented(b[2..], args);
      }
    } else if ARGUMENTS <= b {
      EscapedPlaceholderDiffers(b[|ARGUMENTS|..], args);
      JoinDollarFree(args);
      SamePrefixDiffers(Join(args, " "), b[|ARGUMENTS|..], args);
    } else {
      match LargestIndex(b[1..], |args|)
      case Some(i) =>
        EscapedPlaceholderDiffers(b[1 + |Numeral(i)|..], args);
        SamePrefixDiffers(args[i], b[1 + |Numeral(i)|..], args);
      case None =>
        EscapedPlaceholderDiffers(b[1..], args);
        LoneDollarStays(b, args);
        assert ReplaceAll(Scan(b, args), "$$", "$")[1..] == ReplaceAll(Scan(b[1..], args), "$$", "$");
        assert Documented(b, args)[1..] == Documented(b[1..], args);
    }
  }

  lemma SamePrefixDiffers(v: string, rest: string, args: seq<string>)
    requires '$' !in v
    requires ReplaceAll(Scan(rest, args), "$$", "$") != Documented(rest, args)
    ensures ReplaceAll(v + Scan(rest, args), "$$", "$") != v + Documented(rest, args)
  {
    ReplaceSkips(v, Scan(rest, args), "$$", "$");
    var x, y := ReplaceAll(Scan(rest, args), "$$", "$"), Documented(rest, args);
    assert (v + x)[|v|..] == x && (v + y)[|v|..] == y;
  }

  /** The length of the text before the first dollar. */
  function FirstDollar(s: string): nat {
    if s == "" || s[0] == '$' then 0 else 1 + FirstDollar(s[1..])
  }

  lemma {:induction false} FirstDollarSkips(v: string, s: string)
    requires '$' !in v
    ensures FirstDollar(v + s) == |v| + FirstDollar(s)
  {
    if v == "" {
      assert v + s == s;
    } else {
      assert (v + s)[1..] == v[1..] + s;
      FirstDollarSkips(v[1..], s);
    }
  }

  /** Up to the first dollar that either of them leaves, code and documentation write the same amount. */
  lemma {:induction false} FirstDollarAgrees(b: string, args: seq<string>)
    requires DollarFree(args)
    ensures FirstDollar(Unescaped(b, args)) == FirstDollar(Documented(b, args))
    decreases |b|, 0
  {
    if b == "" {
    } else if b[0] != '$' {
      FirstDollarAgrees(b[1..], args);
      ReplaceSkips([b[0]], Scan(b[1..], args), "$$", "$");
      FirstDollarSkips([b[0]], Unescaped(b[1..], args));
      FirstDollarSkips([b[0]], Documented(b[1..], args));
    } else if "$$" <= b {
      NoIndexAtDollar(b[1..], |args|);
      assert Scan(b, args)[0] == '$' && Unescaped(b, args)[0] == '$';
    } else if ARGUMENTS <= b {
      JoinDollarFree(args);
      FirstDollarAgreesAfter(Join(args, " "), b[|ARGUMENTS|..], args);
    } else {
      match LargestIndex(b[1..], |args|)
      case Some(i) => FirstDollarAgreesAfter(args[i], b[1 + |Numeral(i)|..], args);
      case None => LoneDollarStays(b, args);
    }
  }

  lemma {:induction false} FirstDollarAgreesAfter(v: string, rest: string, args: seq<string>)
    requires DollarFree(args) && '$' !in v
    ensures FirstDollar(ReplaceAll(v + Scan(rest, args), "$$", "$")) == FirstDollar(v + Documented(rest, args))
    decreases |rest|, 1
  {
    FirstDollarAgrees(rest, args);
    ReplaceSkips(v, Scan(rest, args), "$$", "$");
    FirstDollarSkips(v, Unescaped(rest, args));
    FirstDollarSkips(v, Documented(rest, args));
  }

  /** Different dollar-free texts before the same rest are never made up for by that rest. */
  lemma TextsStayDifferent(x: string, y: string, rest: string, args: seq<string>)
    requires DollarFree(args) && '$' !in x && '$' !in y && x != y
    ensures x + Unescaped(rest, args) != y + Documented(rest, args)
  {
    FirstDollarAgrees(rest, args);
    FirstDollarSkips(x, Unescaped(rest, args));
    FirstDollarSkips(y, Documented(rest, args));
    assert (x + Unescaped(rest, args))[..|x|] == x && (y + Documented(rest, args))[..|y|] == y;
  }

  lemma {:induction false} DocumentedCopiesLiterals(d: string, r: string, args: seq<string>)
    requires '$' !in d
    ensures Documented(d + r, args) == d + Documented(r, args)
  {
    if d == "" {
      assert d + r == r;
    } else {
      assert (d + r)[1..] == d[1..] + r;
      DocumentedCopiesLiterals(d[1..], r, args);
      assert d == [d[0]] + d[1..];
    }
  }

  /** The text after the dollar of the placeholder at the start of c, and what replaces it. */
  function Word(c: string, args: seq<string>): (w: string)
    requires IsPlaceholder(c, args)
    ensures '$' !in w && w <= c[1..] && w != ""
  {
    if ARGUMENTS <= c then ARGUMENTS[1..] else Numeral(LargestIndex(c[1..], |args|).value)
  }

  function Value(c: string, args: seq<string>): string
    requires IsPlaceholder(c, args)
  {
    if ARGUMENTS <= c then Join(args, " ") else args[LargestIndex(c[1..], |args|).value]
  }

  /** Of an escaped placeholder the scan keeps one dollar and then the value, as in `$$0`, where the
      documentation keeps the word. */
  lemma EscapedShapes(b: string, args: seq<string>)
    requires "$$" <= b && IsPlaceholder(b[1..], args)
    ensures var rest := b[1..][1 + |Word(b[1..], args)|..];
            && Scan(b, args) == "$" + (Value(b[1..], args) + Scan(rest, args))
            && Documented(b, args) == "$" + (Word(b[1..], args) + Documented(rest, args))
  {
    var c := b[1..];
    var word := Word(c, args);
    var rest := c[1 + |word|..];
    ScanAtPlaceholder(c, args);
    ScanAtPair(b, args);
    hide Word, Value, Scan, Documented, IsPlaceholder;
    assert c[1..] == b[2..] == word + rest;
    DocumentedCopiesLiterals(word, rest, args);
  }

  lemma ScanAtPlaceholder(c: string, args: seq<string>)
    requires IsPlaceholder(c, args)
    ensures Scan(c, args) == Value(c, args) + Scan(c[1 + |Word(c, args)|..], args)
  {
    hide Join, LargestIndex;
  }

  lemma ScanAtPair(b: string, args: seq<string>)
    requires "$$" <= b
    ensures Scan(b, args) == "$" + Scan(b[1..], args) && Documented(b, args) == "$" + Documented(b[2..], args)
  {
    assert b[1..][0] == '$' && ARGUMENTS[1] == 'A';
    NoIndexAtDollar(b[1..], |args|);
    hide Join;
  }

  lemma ValueIsNotWord(b: string, args: seq<string>)
    requires DollarFree(args) && Opaque(args) && args != []
    requires "$$" <= b && IsPlaceholder(b[1..], args) && !Harmless(b, args)
    ensures var v := Value(b[1..], args); v != "" && '$' !in v && v != Word(b[1..], args)
  {
    JoinDollarFree(args);
  }

  lemma EscapeIsLost(b: string, args: seq<string>)
    requires DollarFree(args) && Opaque(args) && args != []
    requires "$$" <= b && IsPlaceholder(b[1..], args) && !Harmless(b, args)
    ensures ReplaceAll(Scan(b, args), "$$", "$") != Documented(b, args)
  {
    ValueIsNotWord(b, args);
    EscapedShapes(b, args);
    var value, word := Value(b[1..], args), Word(b[1..], args);
    hide Value, Word;
    var rest := b[1..][1 + |word|..];
    var t := value + Scan(rest, args);
    assert t[0] == value[0];
    ReplaceKeepsFirst('$', t, "$$", "$");
    ReplaceSkips(value, Scan(rest, args), "$$", "$");
    TextsStayDifferent(value, word, rest, args);
    var x, y := value + Unescaped(rest, args), word + Documented(rest, args);
    assert ("$" + x)[1..] == x && ("$" + y)[1..] == y;
  }

  lemma {:induction false} DollarInFront(s: string)
    ensures |ReplaceAll("$" + s, "$$", "$")| <= 1 + |ReplaceAll(s, "$$", "$")|
  {
    if s == "" {
      assert "$" + s == "$" && "$"[1..] == "";
    } else if s[0] != '$' {
      assert ("$" + s)[1] != '$';
      ReplaceKeepsFirst('$', s, "$$", "$");
    } else {
      assert ("$" + s)[2..] == s[1..];
      if |s| > 1 && s[1] == '$' {
        DollarInFront(s[2..]);
        assert s[1..] == "$" + s[2..];
      }
    }
  }

  lemma EscapeIsCut(b: string)
    requires "$$" <= b && IsPlaceholder(b[1..], [])
    requires var rest := b[1..][1 + |Word(b[1..], [])|..]; |Unescaped(rest, [])| <= |Documented(rest, [])|
    ensures |Unescaped(b, [])| < |Documented(b, [])|
  {
    EscapedShapes(b, []);
    var rest := b[1..][1 + |Word(b[1..], [])|..];
    DollarInFront(Scan(rest, []));
    assert Value(b[1..], []) + Scan(rest, []) == Scan(rest, []);
    assert |Word(b[1..], [])| == 9;
  }

  /** Without arguments the code writes nothing for `$ARGUMENTS`, so a lost escape shows in the length. */
  lemma {:induction false} NoArgumentsShorter(b: string)
    ensures |Unescaped(b, [])| <= |Documented(b, [])|
    ensures LosesEscape(b, []) ==> |Unescaped(b, [])| < |Documented(b, [])|
    decreases |b|
  {
    if b == "" {
    } else if b[0] != '$' {
      NoArgumentsShorter(b[1..]);
      ReplaceSkips([b[0]], Scan(b[1..], []), "$$", "$");
    } else if "$$" <= b {
      if IsPlaceholder(b[1..], []) {
        NoArgumentsShorter(b[1..][1 + |Word(b[1..], [])|..]);
        EscapeIsCut(b);
      } else {
        NoArgumentsShorter(b[2..]);
        UnescapePair(b, []);
      }
    } else if ARGUMENTS <= b {
      NoArgumentsShorter(b[|ARGUMENTS|..]);
      assert Scan(b, []) == Scan(b[|ARGUMENTS|..], []);
    } else {
      NoArgumentsShorter(b[1..]);
      LoneDollarStays(b, []);
    }
  }

  /** Where no dollar stands directly before a placeholder no escape can be lost. */
  lemma {:induction false} NothingToLose(b: string, args: seq<string>)
    requires NoDollarBeforePlaceholder(b, args)
    ensures !LosesEscape(b, args)
    decreases |b|
  {
    hide IsPlaceholder, Harmless;
    if b != "" {
      if b[0] != '$' {
        NoDollarSuffix(b, args, 1);
        NothingToLose(b[1..], args);
      } else if "$$" <= b {
        NoDollarSuffix(b, args, 2);
        NothingToLose(b[2..], args);
      } else if ARGUMENTS <= b {
        NoDollarSuffix(b, args, |ARGUMENTS|);
        NothingToLose(b[|ARGUMENTS|..], args);
      } else {
        match LargestIndex(b[1..], |args|)
        case Some(i) =>
          NoDollarSuffix(b, args, 1 + |Numeral(i)|);
          NothingToLose(b[1 + |Numeral(i)|..], args);
        case None =>
          NoDollarSuffix(b, args, 1);
          NothingToLose(b[1..], args);
      }
    }
  }

  lemma NoDollarSuffix(b: string, args: seq<string>, j: nat)
    requires NoDollarBeforePlaceholder(b, args) && j <= |b|
    ensures NoDollarBeforePlaceholder(b[j..], args)
  {
    hide IsPlaceholder;
    forall i | 0 <= i < |b[j..]| && b[j..][i] == '$' ensures !IsPlaceholder(b[j..][i + 1..], args) {
      assert b[j..][i + 1..] == b[j + i + 1..] && b[j + i] == '$';
    }
  }

  /** The documented escape is honoured exactly when no escape stands directly before a placeholder. */
  lemma EscapeHonouredIff(b: string, args: seq<string>)
    requires Rereadable(b, args)
    ensures Passes(b, args) == Documented(b, args) <==> !LosesEscape(b, args)
  {
    PassesAreScanThenUnescape(b, args);
    if !LosesEscape(b, args) {
      UnescapeIsDocumented(b, args);
    } else if !Opaque(args) {
      NothingToLose(b, args);
    } else if args == [] {
      NoArgumentsShorter(b);
    } else {
      EscapedPlaceholderDiffers(b, args);
    }
  }

  // ---------- the side conditions are needed ----------

  lemma {:induction false} PassesIgnoreDollarFreeText(s: string, args: seq<string>, n: nat)
    requires n <= |args| && '$' !in s
    ensures IndexPasses(s, args, n) == s
    decreases n
  {
    if n > 0 {
      assert s + "" == s;
      ReplaceSkips(s, "", Placeholder(n - 1), args[n - 1]);
      PassesIgnoreDollarFreeText(s, args, n - 1);
    }
  }

  lemma ReplaceWhole(p: string, x: string)
    requires p != ""
    ensures ReplaceAll(p, p, x) == x
  {
    assert p[|p|..] == "";
  }
}
