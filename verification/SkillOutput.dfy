/** Which text the argument passes leave alone: arguments that hold dollars, and the output of commands,
    which is substituted like the rest of the body (internal/usecase/skill/renderer.go,
    internal/usecase/skill/preprocess_renderer.go). */
module SkillOutput {
  import opened Text
  import opened SkillTemplate
  import opened Preprocess

  // ---------- counting dollars ----------

  function Dollars(s: string): nat {
    if s == "" then 0 else (if s[0] == '$' then 1 else 0) + Dollars(s[1..])
  }

  predicate Occurs(p: string, s: string) {
    exists i :: 0 <= i <= |s| && p <= s[i..]
  }

  lemma {:induction false} DollarsConcat(x: string, y: string)
    ensures Dollars(x + y) == Dollars(x) + Dollars(y)
  {
    if x == "" {
      assert x + y == y;
    } else {
      assert (x + y)[1..] == x[1..] + y;
      DollarsConcat(x[1..], y);
    }
  }

  lemma {:induction false} NoDollars(s: string)
    requires '$' !in s
    ensures Dollars(s) == 0
  {
    if s != "" {
      NoDollars(s[1..]);
    }
  }

  lemma OccursStep(p: string, s: string)
    requires s != ""
    ensures Occurs(p, s) <==> p <= s || Occurs(p, s[1..])
  {
    assert s[0..] == s;
    if Occurs(p, s) {
      var i :| 0 <= i <= |s| && p <= s[i..];
      if i > 0 {
        assert s[1..][i - 1..] == s[i..];
      }
    }
    if Occurs(p, s[1..]) {
      var i :| 0 <= i <= |s| - 1 && p <= s[1..][i..];
      assert s[1..][i..] == s[i + 1..];
    }
  }

  /** A replacement with fewer dollars than its pattern shows: it changes nothing exactly if the pattern
      does not occur, and otherwise leaves fewer dollars. */
  lemma {:induction false} ReplaceShows(s: string, p: string, r: string)
    requires p != "" && Dollars(r) < Dollars(p)
    ensures if Occurs(p, s) then Dollars(ReplaceAll(s, p, r)) < Dollars(s) else ReplaceAll(s, p, r) == s
  {
    if s == "" {
      assert s[0..] == "";
    } else if p <= s {
      assert s[0..] == s;
      var rest := s[|p|..];
      ReplaceShows(rest, p, r);
      DollarsConcat(r, ReplaceAll(rest, p, r));
      assert s == p + rest;
      DollarsConcat(p, rest);
    } else {
      OccursStep(p, s);
      ReplaceShows(s[1..], p, r);
      assert s == [s[0]] + s[1..];
      DollarsConcat([s[0]], ReplaceAll(s[1..], p, r));
      DollarsConcat([s[0]], s[1..]);
    }
  }

  lemma PlaceholderDollars(k: nat)
    ensures Dollars(Placeholder(k)) == 1
  {
    assert Placeholder(k)[1..] == Numeral(k);
    NoDollars(Numeral(k));
  }

  /** The passes for the indices below n leave s alone exactly if it holds none of their placeholders. */
  lemma {:induction false} IndexPassesShow(s: string, args: seq<string>, n: nat)
    requires n <= |args| && forall k :: 0 <= k < n ==> '$' !in args[k]
    ensures Dollars(IndexPasses(s, args, n)) <= Dollars(s)
    ensures if exists k :: 0 <= k < n && Occurs(Placeholder(k), s)
            then Dollars(IndexPasses(s, args, n)) < Dollars(s) else IndexPasses(s, args, n) == s
    decreases n
  {
    hide Occurs, Placeholder;
    if n > 0 {
      PlaceholderLong(n - 1);
      var t := ReplaceAll(s, Placeholder(n - 1), args[n - 1]);
      PlaceholderDollars(n - 1);
      NoDollars(args[n - 1]);
      ReplaceShows(s, Placeholder(n - 1), args[n - 1]);
      IndexPassesShow(t, args, n - 1);
    }
  }

  lemma PlaceholderLong(k: nat)
    ensures Placeholder(k) != ""
  {
  }

  lemma PairShows(s: string)
    ensures if Occurs("$$", s) then Dollars(ReplaceAll(s, "$$", "$")) < Dollars(s) else ReplaceAll(s, "$$", "$") == s
  {
    assert "$$"[1..] == "$" && "$"[1..] == "";
    ReplaceShows(s, "$$", "$");
  }

  // ---------- arguments that hold dollars ----------

  /** What the passes of lower index can do to a text: nothing exactly if it holds none of their
      placeholders and no `$$`. */
  predicate Inert(s: string, n: nat) {
    !Occurs("$$", s) && forall k :: 0 <= k < n ==> !Occurs(Placeholder(k), s)
  }

  lemma RestIsInertIff(s: string, args: seq<string>, n: nat)
    requires n <= |args| && forall k :: 0 <= k < n ==> '$' !in args[k]
    ensures ReplaceAll(IndexPasses(s, args, n), "$$", "$") == s <==> Inert(s, n)
  {
    hide Occurs, Placeholder;
    IndexPassesShow(s, args, n);
    PairShows(IndexPasses(s, args, n));
  }

  /** A body that is just `$i` gives argument i itself exactly if that argument holds no `$$` and no
      placeholder of a lower index; otherwise the later passes substitute it again. */
  lemma DollarArgumentRereadIff(args: seq<string>, i: nat)
    requires i < |args| && forall k :: 0 <= k < i ==> '$' !in args[k]
    ensures Scan(Placeholder(i), args) == args[i]
    ensures Passes(Placeholder(i), args) == args[i] <==> Inert(args[i], i)
  {
    var p := Placeholder(i);
    ScanOfPlaceholder(args, i);
    KeepOther(p, ARGUMENTS, Join(args, " ")) by {
      assert p[1] != 'A' && ARGUMENTS[1] == 'A';
    }
    HigherPassesKeep(args, i, |args|);
    RestIsInertIff(args[i], args, i);
  }

  lemma ScanOfPlaceholder(args: seq<string>, i: nat)
    requires i < |args|
    ensures Scan(Placeholder(i), args) == args[i]
  {
    var p := Placeholder(i);
    assert p[1..] == Numeral(i) && p[1 + |Numeral(i)|..] == "";
    assert p[1] != 'A' && ARGUMENTS[1] == 'A';
    ScanTakesLongestNumeral(Numeral(i), |args|, i);
    var j := LargestIndex(Numeral(i), |args|).value;
    assert |Numeral(j)| <= |Numeral(i)| && j == i;
    assert !(ARGUMENTS <= p);
    assert Scan(p, args) == args[i] + Scan("", args);
  }

  /** A pattern that is no prefix and has its dollar in front does not occur in a placeholder. */
  lemma KeepOther(p: string, pattern: string, subst: string)
    requires p != "" && pattern != "" && pattern[0] == '$' && '$' !in p[1..] && !(pattern <= p)
    ensures ReplaceAll(p, pattern, subst) == p
  {
    var rest := p[1..];
    assert rest + "" == rest;
    ReplaceSkips(rest, "", pattern, subst);
    assert p == [p[0]] + rest;
  }

  lemma {:induction false} HigherPassesKeep(args: seq<string>, i: nat, n: nat)
    requires i < n <= |args|
    ensures IndexPasses(Placeholder(i), args, n) == IndexPasses(args[i], args, i)
    decreases n
  {
    var p := Placeholder(i);
    if n - 1 == i {
      ReplaceWhole(p, args[i]);
    } else {
      NumeralLengthMonotone(i, n - 1);
      assert p[1..] == Numeral(i);
      if Placeholder(n - 1) <= p {
        assert |Placeholder(n - 1)| == |p| && Placeholder(n - 1) == p;
        assert Placeholder(n - 1)[1..] == Numeral(n - 1);
        NumeralRoundTrip(i);
        NumeralRoundTrip(n - 1);
      }
      KeepOther(p, Placeholder(n - 1), args[n - 1]);
      HigherPassesKeep(args, i, n - 1);
    }
  }

  // ---------- arguments that complete a numeral ----------

  lemma {:induction false} NoOccurrence(s: string, p: string, r: string)
    requires p != "" && !Occurs(p, s)
    ensures ReplaceAll(s, p, r) == s
  {
    if s != "" {
      OccursStep(p, s);
      NoOccurrence(s[1..], p, r);
    }
  }

  /** A text of two placeholders: where a pattern with one dollar can occur in it. */
  lemma OccursInTwo(u: string, v: string, w: string)
    requires '$' !in u && '$' !in v && '$' !in w && w != ""
    ensures Occurs("$" + w, "$" + u + ("$" + v)) ==> w <= u || w <= v
  {
    var s, p := "$" + u + ("$" + v), "$" + w;
    if Occurs(p, s) {
      var i :| 0 <= i <= |s| && p <= s[i..];
      assert p[0] == '$' && p[1..] == w;
      FirstOfPrefix(p, s, i);
      DollarsOfTwo(u, v, i);
      if i == 0 {
        PrefixOfFirst(w, u, v);
        assert s[0..] == s && s[1..] == u + ("$" + v);
      } else {
        assert s[i..] == "$" + v && s[i..][1..] == v;
      }
    }
  }

  lemma FirstOfPrefix(p: string, s: string, i: nat)
    requires p != "" && i <= |s| && p <= s[i..]
    ensures i < |s| && s[i] == p[0]
  {
    assert s[i..] != "" && s[i..][0] == s[i];
  }

  lemma DollarsOfTwo(u: string, v: string, i: nat)
    requires '$' !in u && '$' !in v && i < |u| + |v| + 2
    ensures ("$" + u + ("$" + v))[i] == '$' <==> i == 0 || i == |u| + 1
  {
    var s := "$" + u + ("$" + v);
    if 0 < i <= |u| {
      assert s[i] == u[i - 1] && u[i - 1] in u;
    } else if i > |u| + 1 {
      assert s[i] == v[i - |u| - 2] && v[i - |u| - 2] in v;
    }
  }

  lemma PrefixOfFirst(w: string, u: string, v: string)
    requires '$' !in w
    ensures w <= u + ("$" + v) <==> w <= u
  {
    var s := u + ("$" + v);
    if |u| < |w| {
      assert s[|u|] == '$' && w[|u|] in w;
    } else {
      assert s[..|w|] == u[..|w|];
    }
  }

  lemma ArgumentsKeeps(u: string, v: string, r: string)
    requires AllDigits(u) && AllDigits(v)
    ensures ReplaceAll("$" + u + ("$" + v), ARGUMENTS, r) == "$" + u + ("$" + v)
  {
    var w := ARGUMENTS[1..];
    assert "$" + w == ARGUMENTS && w[0] == 'A' && !IsDigit(w[0]);
    OccursInTwo(u, v, w);
    NoOccurrence("$" + u + ("$" + v), ARGUMENTS, r);
  }

  /** Until the pass for index j nothing happens to a shorter numeral followed by `$j`; that pass joins its
      value to the numeral. */
  lemma {:induction false} PassesUntil(args: seq<string>, u: string, j: nat, n: nat)
    requires j < n <= |args| && AllDigits(u) && |u| < |Numeral(j)|
    ensures IndexPasses("$" + u + Placeholder(j), args, n) == IndexPasses("$" + u + args[j], args, j)
    decreases n
  {
    hide Occurs, Numeral, ReplaceAll;
    if n - 1 == j {
      ReplaceSecond(u, Numeral(j), args[j]);
    } else {
      LargerKeeps(u, j, n - 1, args[n - 1]);
      PassesUntil(args, u, j, n - 1);
    }
  }

  lemma LargerKeeps(u: string, j: nat, k: nat, r: string)
    requires j < k && AllDigits(u) && |u| < |Numeral(j)|
    ensures ReplaceAll("$" + u + Placeholder(j), Placeholder(k), r) == "$" + u + Placeholder(j)
  {
    hide Occurs, Numeral, NumeralValue, ReplaceAll;
    NumeralLengthMonotone(j, k);
    if Numeral(k) <= Numeral(j) {
      assert Numeral(k) == Numeral(j);
      NumeralRoundTrip(k);
      NumeralRoundTrip(j);
    }
    OccursInTwo(u, Numeral(j), Numeral(k));
    NoOccurrence("$" + u + Placeholder(j), Placeholder(k), r);
  }

  lemma ReplaceSecond(u: string, v: string, r: string)
    requires AllDigits(u) && AllDigits(v) && |u| < |v|
    ensures ReplaceAll("$" + u + ("$" + v), "$" + v, r) == "$" + u + r
  {
    var p := "$" + v;
    PrefixOfFirst(v, u, v);
    PrefixTail('$', v, u + p);
    assert "$" + u + p == "$" + (u + p);
    ReplaceKeepsFirst('$', u + p, p, r);
    ReplaceSkips(u, p, p, r);
    ReplaceWhole(p, r);
    assert "$" + (u + r) == "$" + u + r;
  }

  /** An argument j that is the last digits of a lower existing index l completes the numeral before it: the
      passes then write argument l, where the scan writes the argument i of the shorter numeral, and j. */
  lemma DigitArgumentIsReread(args: seq<string>, i: nat, l: nat, m: nat, j: nat)
    requires l < j < |args| && 0 < m < |Numeral(l)| && Numeral(i) == Numeral(l)[..m]
    requires args[j] == Numeral(l)[m..] && '$' !in args[l]
    ensures i < |args| && NoDoubleDollar(Placeholder(i) + Placeholder(j))
    ensures Passes(Placeholder(i) + Placeholder(j), args) == args[l]
    ensures Scan(Placeholder(i) + Placeholder(j), args) == args[i] + args[j]
  {
    hide Occurs, Join, Numeral, ReplaceAll, IndexPasses, Scan, NoDoubleDollar;
    var u, b := Numeral(i), Placeholder(i) + Placeholder(j);
    ShorterIsSmaller(i, l);
    NumeralLengthMonotone(l, j);
    ArgumentsKeeps(u, Numeral(j), Join(args, " "));
    PassesUntil(args, u, j, |args|);
    assert "$" + u + args[j] == Placeholder(l) by {
      assert Numeral(l) == u + args[j];
    }
    HigherPassesKeep(args, l, j);
    PassesIgnoreDollarFreeText(args[l], args, l);
    NoPairs(args[l]);
    ScanOfTwo(args, i, j);
    NoDoubleInTwo(i, j);
  }

  lemma NoPairs(s: string)
    requires '$' !in s
    ensures ReplaceAll(s, "$$", "$") == s
  {
    assert s + "" == s;
    ReplaceSkips(s, "", "$$", "$");
  }

  lemma ShorterIsSmaller(i: nat, l: nat)
    requires |Numeral(i)| < |Numeral(l)|
    ensures i < l
  {
    if l <= i {
      NumeralLengthMonotone(l, i);
    }
  }

  lemma NoDoubleInTwo(i: nat, j: nat)
    ensures NoDoubleDollar(Placeholder(i) + Placeholder(j))
  {
    var u, v, b := Numeral(i), Numeral(j), Placeholder(i) + Placeholder(j);
    forall k | 0 <= k < |b| - 1 && b[k] == '$' ensures b[k + 1] != '$' {
      DollarsOfTwo(u, v, k);
      DollarsOfTwo(u, v, k + 1);
    }
  }

  lemma ScanOfTwo(args: seq<string>, i: nat, j: nat)
    requires i < |args| && j < |args|
    ensures Scan(Placeholder(i) + Placeholder(j), args) == args[i] + args[j]
  {
    hide Join, Numeral, NumeralValue;
    var u, p := Numeral(i), Placeholder(j);
    var b := Placeholder(i) + p;
    assert b[1..] == u + p && b[0] == '$' && b[1] == u[0];
    assert b[1 + |u|..] == p && u <= u + p;
    assert !(ARGUMENTS <= b) by {
      assert ARGUMENTS[1] == 'A';
    }
    ScanTakesLongestNumeral(u + p, |args|, i);
    var hit := LargestIndex(u + p, |args|).value;
    PrefixOfFirst(Numeral(hit), u, Numeral(j));
    ScanOfPlaceholder(args, j);
  }

  // ---------- `$ARGUMENTS` with arguments that hold dollars ----------

  /** Every argument whose placeholder occurs in the text is clean: not empty, free of dollars, and not
      beginning with a digit. */
  predicate CleanReferences(s: string, args: seq<string>, n: nat)
    requires n <= |args|
  {
    forall k :: 0 <= k < n && Occurs(Placeholder(k), s) ==>
      args[k] != "" && '$' !in args[k] && !IsDigit(args[k][0])
  }

  lemma {:induction false} DigitsBefore(d: string, s: string, p: string, r: string)
    requires AllDigits(d) && p != "" && p[0] == '$' && r != "" && !IsDigit(r[0])
    ensures d <= ReplaceAll(s, p, r) ==> d <= s
    decreases |s|
  {
    if d != "" && s != "" && !(p <= s) {
      DigitsBefore(d[1..], s[1..], p, r);
      var t := ReplaceAll(s[1..], p, r);
      assert d == [d[0]] + d[1..] && s == [s[0]] + s[1..];
      SameFront(d[0], d[1..], s[0], t);
      SameFront(d[0], d[1..], s[0], s[1..]);
    }
  }

  lemma OccursLater(q: string, v: string, s: string)
    requires q != "" && q[0] == '$' && '$' !in v && Occurs(q, v + s)
    ensures Occurs(q, s)
  {
    var i :| 0 <= i <= |v + s| && q <= (v + s)[i..];
    FirstOfPrefix(q, v + s, i);
    DollarAfter(v, s, i);
    assert (v + s)[i..] == s[i - |v|..];
  }

  lemma DollarAfter(v: string, s: string, i: nat)
    requires '$' !in v && i < |v + s|
    ensures (v + s)[i] == '$' ==> i >= |v|
  {
    if i < |v| {
      assert (v + s)[i] == v[i] && v[i] in v;
    }
  }

  lemma OccursInTail(q: string, s: string, n: nat)
    requires n <= |s| && Occurs(q, s[n..])
    ensures Occurs(q, s)
  {
    var i :| 0 <= i <= |s| - n && q <= s[n..][i..];
    assert s[n..][i..] == s[n + i..];
  }

  /** Replacing a placeholder by a clean value makes no new placeholder. */
  lemma {:induction false} NoNewPlaceholder(k: nat, s: string, p: string, r: string)
    requires p != "" && p[0] == '$' && r != "" && '$' !in r && !IsDigit(r[0])
    requires Occurs(Placeholder(k), ReplaceAll(s, p, r))
    ensures Occurs(Placeholder(k), s)
    decreases |s|
  {
    hide Occurs;
    var q := Placeholder(k);
    if s != "" {
      if p <= s {
        OccursLater(q, r, ReplaceAll(s[|p|..], p, r));
        NoNewPlaceholder(k, s[|p|..], p, r);
        OccursInTail(q, s, |p|);
      } else {
        var t := ReplaceAll(s[1..], p, r);
        assert ReplaceAll(s, p, r) == [s[0]] + t;
        OccursStep(q, [s[0]] + t);
        assert ([s[0]] + t)[1..] == t && s == [s[0]] + s[1..];
        if Occurs(q, t) {
          NoNewPlaceholder(k, s[1..], p, r);
          OccursInTail(q, s, 1);
        } else {
          SameFront('$', Numeral(k), s[0], t);
          DigitsBefore(Numeral(k), s[1..], p, r);
          SameFront('$', Numeral(k), s[0], s[1..]);
          OccursStep(q, s);
        }
      }
    }
  }

  /** The index passes leave a text alone exactly if it holds none of their placeholders, as long as those
      it does hold stand for clean arguments; the other arguments may hold anything. */
  lemma {:induction false} ReferencesShow(s: string, args: seq<string>, n: nat)
    requires n <= |args| && CleanReferences(s, args, n)
    ensures if exists k :: 0 <= k < n && Occurs(Placeholder(k), s)
            then Dollars(IndexPasses(s, args, n)) < Dollars(s) else IndexPasses(s, args, n) == s
    decreases n
  {
    hide Occurs, Placeholder;
    if n > 0 {
      var p, r := Placeholder(n - 1), args[n - 1];
      PlaceholderLong(n - 1);
      PlaceholderHead(n - 1);
      if Occurs(p, s) {
        var t := ReplaceAll(s, p, r);
        PlaceholderDollars(n - 1);
        NoDollars(r);
        ReplaceShows(s, p, r);
        forall k | 0 <= k < n - 1 && Occurs(Placeholder(k), t) ensures Occurs(Placeholder(k), s) {
          NoNewPlaceholder(k, s, p, r);
        }
        ReferencesShow(t, args, n - 1);
      } else {
        NoOccurrence(s, p, r);
        ReferencesShow(s, args, n - 1);
      }
    }
  }

  lemma PlaceholderHead(k: nat)
    ensures Placeholder(k) != "" && Placeholder(k)[0] == '$'
  {
  }

  /** `$ARGUMENTS` is replaced first, so every index pass reads the arguments it wrote. It gives the joined
      arguments themselves exactly if these hold no placeholder of an existing index and no `$$`, whenever
      the arguments they refer to are clean. */
  lemma ArgumentsRereadIff(args: seq<string>)
    requires CleanReferences(Join(args, " "), args, |args|)
    ensures Scan(ARGUMENTS, args) == Join(args, " ")
    ensures Passes(ARGUMENTS, args) == Join(args, " ") <==> Inert(Join(args, " "), |args|)
  {
    hide Occurs, Placeholder, Join;
    var full := Join(args, " ");
    ReplaceWhole(ARGUMENTS, full);
    assert ARGUMENTS[|ARGUMENTS|..] == "" && full + "" == full;
    assert Scan(ARGUMENTS, args) == full + Scan("", args);
    ReferencesShow(full, args, |args|);
    PairShows(IndexPasses(full, args, |args|));
  }

  // ---------- any text in the body ----------

  /** No placeholder and no `$$` in the text. */
  predicate Untouched(v: string, n: nat) {
    !Occurs(ARGUMENTS, v) && Inert(v, n)
  }

  /** A text comes through all the passes unchanged exactly if it holds no placeholder and no `$$`. */
  lemma UnchangedIff(v: string, args: seq<string>)
    requires DollarFree(args)
    ensures Passes(v, args) == v <==> Untouched(v, |args|)
  {
    hide Occurs, Placeholder, Join;
    var t := ReplaceAll(v, ARGUMENTS, Join(args, " "));
    JoinDollarFree(args);
    NoDollars(Join(args, " "));
    ArgumentsDollars();
    ReplaceShows(v, ARGUMENTS, Join(args, " "));
    IndexPassesShow(t, args, |args|);
    PairShows(IndexPasses(t, args, |args|));
  }

  lemma ArgumentsDollars()
    ensures Dollars(ARGUMENTS) == 1
  {
    assert ARGUMENTS[1..] == "ARGUMENTS";
    NoDollars("ARGUMENTS");
  }

  // ---------- line by line ----------

  lemma PrefixBeforeNewline(p: string, x: string, y: string)
    requires '\n' !in p
    ensures p <= x + ("\n" + y) <==> p <= x
  {
    var s := x + ("\n" + y);
    if |x| < |p| {
      assert s[|x|] == '\n' && p[|x|] in p;
    } else {
      assert s[..|p|] == x[..|p|];
    }
  }

  lemma {:induction false} ReplaceByLine(x: string, y: string, p: string, r: string)
    requires p != "" && '\n' !in p
    ensures ReplaceAll(x + ("\n" + y), p, r) == ReplaceAll(x, p, r) + ("\n" + ReplaceAll(y, p, r))
    decreases |x|
  {
    hide ReplaceAll;
    var s := x + ("\n" + y);
    var later := "\n" + ReplaceAll(y, p, r);
    PrefixBeforeNewline(p, x, y);
    if x == "" {
      assert s == "\n" + y && s[1..] == y;
      ReplaceMiss(s, p, r);
      ReplaceNone(p, r);
      assert "" + later == later;
    } else if p <= x {
      SliceOfSum(x, "\n" + y, |p|);
      ReplaceHit(x, p, r);
      ReplaceHit(s, p, r);
      ReplaceByLine(x[|p|..], y, p, r);
      SumRegroups(r, ReplaceAll(x[|p|..], p, r), later);
    } else {
      SliceOfSum(x, "\n" + y, 1);
      ReplaceMiss(x, p, r);
      ReplaceMiss(s, p, r);
      ReplaceByLine(x[1..], y, p, r);
      SumRegroups([x[0]], ReplaceAll(x[1..], p, r), later);
    }
  }

  lemma ReplaceHit(s: string, p: string, r: string)
    requires p != "" && p <= s
    ensures ReplaceAll(s, p, r) == r + ReplaceAll(s[|p|..], p, r)
  {
  }

  lemma ReplaceMiss(s: string, p: string, r: string)
    requires p != "" && s != "" && !(p <= s)
    ensures ReplaceAll(s, p, r) == [s[0]] + ReplaceAll(s[1..], p, r)
  {
  }

  lemma ReplaceNone(p: string, r: string)
    requires p != ""
    ensures ReplaceAll("", p, r) == ""
  {
  }

  lemma SliceOfSum(x: string, y: string, n: nat)
    requires n <= |x|
    ensures (x + y)[n..] == x[n..] + y && (x != "" ==> (x + y)[0] == x[0])
  {
  }

  lemma SumRegroups(a: string, b: string, c: string)
    ensures a + (b + c) == (a + b) + c
  {
  }

  lemma {:induction false} IndexPassesByLine(x: string, y: string, args: seq<string>, n: nat)
    requires n <= |args|
    ensures IndexPasses(x + ("\n" + y), args, n) == IndexPasses(x, args, n) + ("\n" + IndexPasses(y, args, n))
    decreases n
  {
    if n > 0 {
      var p := Placeholder(n - 1);
      assert '\n' !in p;
      ReplaceByLine(x, y, p, args[n - 1]);
      IndexPassesByLine(ReplaceAll(x, p, args[n - 1]), ReplaceAll(y, p, args[n - 1]), args, n - 1);
    }
  }

  /** Substitution works line by line, whatever the arguments hold. */
  lemma PassesByLine(x: string, y: string, args: seq<string>)
    ensures Passes(x + ("\n" + y), args) == Passes(x, args) + ("\n" + Passes(y, args))
  {
    hide Join;
    var full := Join(args, " ");
    var a, b := ReplaceAll(x, ARGUMENTS, full), ReplaceAll(y, ARGUMENTS, full);
    ReplaceByLine(x, y, ARGUMENTS, full);
    IndexPassesByLine(a, b, args, |args|);
    ReplaceByLine(IndexPasses(a, args, |args|), IndexPasses(b, args, |args|), "$$", "$");
  }

  function EachLine(lines: seq<string>, args: seq<string>): seq<string> {
    if lines == [] then [] else [Passes(lines[0], args)] + EachLine(lines[1..], args)
  }

  lemma EmptyText(args: seq<string>)
    ensures Passes("", args) == ""
  {
    PassesIgnoreDollarFreeText("", args, |args|);
  }

  lemma {:induction false} PassesOfJoin(lines: seq<string>, args: seq<string>)
    ensures Passes(Join(lines, "\n"), args) == Join(EachLine(lines, args), "\n")
  {
    hide Passes;
    if |lines| == 0 {
      EmptyText(args);
    } else if |lines| == 1 {
      assert lines[1..] == [];
    } else {
      PassesOfJoin(lines[1..], args);
      PassesByLine(lines[0], Join(lines[1..], "\n"), args);
      assert EachLine(lines, args)[1..] == EachLine(lines[1..], args);
      assert lines[0] + "\n" + Join(lines[1..], "\n") == lines[0] + ("\n" + Join(lines[1..], "\n"));
    }
  }

  // ---------- Render: preprocessing, then substitution ----------

  method Render(content: string, args: seq<string>, output: (nat, string) -> string)
      returns (prompt: string, executed: seq<string>)
    ensures executed == Executed(Segments(Split(content)))
    ensures prompt == Join(EachLine(Rendered(Segments(Split(content)), 0, output), args), "\n")
  {
    hide *;
    var processed: string;
    processed, executed := ExecutePreprocessing(content, output);
    prompt := SubstituteArguments(processed, args);
    PassesOfJoin(Rendered(Segments(Split(content)), 0, output), args);
  }

  /** The segments with the lines outside blocks substituted. */
  function Substituted(segs: seq<Segment>, args: seq<string>): seq<Segment> {
    if segs == [] then []
    else [if segs[0].Line? then Line(Passes(segs[0].text, args)) else segs[0]] + Substituted(segs[1..], args)
  }

  lemma FencePasses(text: string, args: seq<string>)
    ensures EachLine(Fence(text), args) == Fence(Passes(text, args))
  {
    hide Passes;
    assert Passes("```", args) == "```" by {
      FenceKept(args);
    }
    assert Fence(text)[1..] == [text, "```"] && [text, "```"][1..] == ["```"] && ["```"][1..] == [];
    assert EachLine(["```"], args) == ["```"] + EachLine([], args);
    assert EachLine([text, "```"], args) == [Passes(text, args)] + EachLine(["```"], args);
  }

  lemma FenceKept(args: seq<string>)
    ensures Passes("```", args) == "```"
  {
    hide Join;
    assert "```" + "" == "```";
    ReplaceSkips("```", "", ARGUMENTS, Join(args, " "));
    PassesIgnoreDollarFreeText("```", args, |args|);
    ReplaceSkips("```", "", "$$", "$");
  }

  lemma {:induction false} EachLineConcat(xs: seq<string>, ys: seq<string>, args: seq<string>)
    ensures EachLine(xs + ys, args) == EachLine(xs, args) + EachLine(ys, args)
  {
    hide Passes;
    if xs == [] {
      assert xs + ys == ys;
    } else {
      assert (xs + ys)[1..] == xs[1..] + ys;
      EachLineConcat(xs[1..], ys, args);
    }
  }

  /** What follows the fence of a block. */
  function After(s: Segment): seq<string> {
    if s.Block? && s.ending.ByBlank? then [""] else []
  }

  lemma AfterKept(s: Segment, args: seq<string>)
    ensures EachLine(After(s), args) == After(s)
  {
    hide Passes;
    EmptyText(args);
    assert [""][1..] == [];
  }

  /** Substitution reaches the lines outside blocks and the output of every command alike. */
  lemma {:induction false} OutputIsSubstituted(segs: seq<Segment>, n: nat, output: (nat, string) -> string,
      args: seq<string>)
    ensures EachLine(Rendered(segs, n, output), args)
         == Rendered(Substituted(segs, args), n, (m: nat, c: string) => Passes(output(m, c), args))
    decreases |segs|
  {
    hide Passes, Fence;
    if segs != [] {
      var s := segs[0];
      var through := (m: nat, c: string) => Passes(output(m, c), args);
      assert Substituted(segs, args)[1..] == Substituted(segs[1..], args);
      if s.Line? {
        OutputIsSubstituted(segs[1..], n, output, args);
        assert ([s.text] + Rendered(segs[1..], n, output))[1..] == Rendered(segs[1..], n, output);
      } else if IsRun(s) {
        OutputIsSubstituted(segs[1..], n + 1, output, args);
        var fence := Fence(output(n, CommandText(s.lines)));
        var rest := Rendered(segs[1..], n + 1, output);
        EachLineConcat(fence + After(s), rest, args);
        EachLineConcat(fence, After(s), args);
        FencePasses(output(n, CommandText(s.lines)), args);
        AfterKept(s, args);
      } else {
        OutputIsSubstituted(segs[1..], n, output, args);
      }
    }
  }

  /** Every executed command's output is free of placeholders and `$$`. */
  predicate OutputsUntouched(segs: seq<Segment>, n: nat, output: (nat, string) -> string, args: seq<string>) {
    if segs == [] then true
    else if IsRun(segs[0]) then
      Untouched(output(n, CommandText(segs[0].lines)), |args|) && OutputsUntouched(segs[1..], n + 1, output, args)
    else OutputsUntouched(segs[1..], n, output, args)
  }

  /** Rendering leaves the output of all commands as it was exactly if none of it holds a placeholder or `$$`. */
  lemma {:induction false} OutputSurvivesIff(segs: seq<Segment>, n: nat, output: (nat, string) -> string,
      args: seq<string>)
    requires DollarFree(args)
    ensures EachLine(Rendered(segs, n, output), args) == Rendered(Substituted(segs, args), n, output)
       <==> OutputsUntouched(segs, n, output, args)
    decreases |segs|
  {
    hide Passes, Fence, Untouched, CommandText, IsRun;
    OutputIsSubstituted(segs, n, output, args);
    if segs != [] {
      var s, rest := segs[0], Substituted(segs[1..], args);
      var through := (m: nat, c: string) => Passes(output(m, c), args);
      assert Substituted(segs, args)[1..] == rest;
      RunIsBlock(s);
      if s.Line? {
        OutputSurvivesIff(segs[1..], n, output, args);
        OutputIsSubstituted(segs[1..], n, output, args);
        SameTails([Passes(s.text, args)], Rendered(rest, n, through), [Passes(s.text, args)],
            Rendered(rest, n, output));
      } else if IsRun(s) {
        var o := output(n, CommandText(s.lines));
        OutputSurvivesIff(segs[1..], n + 1, output, args);
        OutputIsSubstituted(segs[1..], n + 1, output, args);
        UnchangedIff(o, args);
        FencesDiffer(Passes(o, args), o);
        SameTails(Fence(Passes(o, args)) + After(s), Rendered(rest, n + 1, through), Fence(o) + After(s),
            Rendered(rest, n + 1, output));
        SameTails(Fence(Passes(o, args)), After(s), Fence(o), After(s));
      } else {
        OutputSurvivesIff(segs[1..], n, output, args);
        OutputIsSubstituted(segs[1..], n, output, args);
      }
    }
  }

  lemma RunIsBlock(s: Segment)
    ensures IsRun(s) ==> s.Block?
  {
  }

  lemma FencesDiffer(a: string, b: string)
    ensures |Fence(a)| == |Fence(b)| == 3 && (Fence(a) == Fence(b) <==> a == b)
  {
    assert Fence(a)[1] == a && Fence(b)[1] == b;
  }

  lemma SameTails(a: seq<string>, x: seq<string>, b: seq<string>, y: seq<string>)
    requires |a| == |b|
    ensures a + x == b + y <==> a == b && x == y
  {
    assert (a + x)[..|a|] == a && (b + y)[..|b|] == b && (a + x)[|a|..] == x && (b + y)[|b|..] == y;
  }
}
