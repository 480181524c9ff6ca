/** Strings as the repository uses them: decimal numerals, joining, splitting and replacing. */
module Text {

  datatype Option<+T> = None | Some(value: T)

  predicate IsDigit(c: char) {
    '0' <= c <= '9'
  }

  predicate AllDigits(s: string) {
    forall i :: 0 <= i < |s| ==> IsDigit(s[i])
  }

  function DigitChar(d: nat): (c: char)
    requires d < 10
    ensures IsDigit(c)
  {
    '0' + d as char
  }

  /** The decimal numeral of `n`, as `%d` prints it. */
  function Numeral(n: nat): (s: string)
    ensures s != "" && AllDigits(s)
  {
    if n < 10 then [DigitChar(n)] else Numeral(n / 10) + [DigitChar(n % 10)]
  }

  /** The number a string of digits stands for. */
  function NumeralValue(s: string): nat
    requires AllDigits(s)
  {
    if s == "" then 0 else 10 * NumeralValue(s[..|s| - 1]) + (s[|s| - 1] - '0') as nat
  }

  lemma {:induction false} NumeralRoundTrip(n: nat)
    ensures NumeralValue(Numeral(n)) == n
  {
    if n >= 10 {
      NumeralRoundTrip(n / 10);
      var s := Numeral(n);
      assert s[..|s| - 1] == Numeral(n / 10);
    } else {
      assert Numeral(n)[..0] == "";
    }
  }

  lemma {:induction false} NumeralLengthMonotone(i: nat, j: nat)
    requires i <= j
    ensures |Numeral(i)| <= |Numeral(j)|
  {
    if j >= 10 && i >= 10 {
      NumeralLengthMonotone(i / 10, j / 10);
    }
  }

  /** strings.ReplaceAll with a non-empty pattern: leftmost, non-overlapping, never rescanned. */
  function ReplaceAll(s: string, pattern: string, subst: string): string
    requires pattern != ""
  {
    if s == "" then ""
    else if pattern <= s then subst + ReplaceAll(s[|pattern|..], pattern, subst)
    else [s[0]] + ReplaceAll(s[1..], pattern, subst)
  }

  /** strings.Join. */
  function Join(parts: seq<string>, sep: string): string {
    if |parts| == 0 then ""
    else if |parts| == 1 then parts[0]
    else parts[0] + sep + Join(parts[1..], sep)
  }

  /** Text without the pattern's first character is copied through. */
  lemma {:induction false} ReplaceSkips(v: string, s: string, pattern: string, subst: string)
    requires pattern != "" && pattern[0] !in v
    ensures ReplaceAll(v + s, pattern, subst) == v + ReplaceAll(s, pattern, subst)
  {
    if v == "" {
      assert v + s == s;
    } else {
      assert (v + s)[1..] == v[1..] + s && (v + s)[0] == v[0] && v[0] in v;
      ReplaceSkips(v[1..], s, pattern, subst);
      assert ReplaceAll(v + s, pattern, subst) == [v[0]] + ReplaceAll(v[1..] + s, pattern, subst);
      hide ReplaceAll;
      assert v == [v[0]] + v[1..];
    }
  }

  /** unicode.IsSpace. */
  predicate IsSpace(c: char) {
    c in " \t\n\r" || c == '\U{000B}' || c == '\U{000C}' || c == '\U{0085}' || c == '\U{00A0}' || c == '\U{1680}'
    || '\U{2000}' <= c <= '\U{200A}' || c == '\U{2028}' || c == '\U{2029}' || c == '\U{202F}' || c == '\U{205F}'
        || c == '\U{3000}'
  }

  function TrimLeft(s: string): string {
    if s != "" && IsSpace(s[0]) then TrimLeft(s[1..]) else s
  }

  function TrimRight(s: string): string {
    if s != "" && IsSpace(s[|s| - 1]) then TrimRight(s[..|s| - 1]) else s
  }

  function TrimSpace(s: string): string {
    TrimRight(TrimLeft(s))
  }

  // ---------- what trimming leaves ----------

  ghost predicate AllSpace(s: string) {
    forall i :: 0 <= i < |s| ==> IsSpace(s[i])
  }

  /** No space at either end. */
  predicate Trimmed(s: string) {
    s == "" || (!IsSpace(s[0]) && !IsSpace(s[|s| - 1]))
  }

  lemma {:induction false} TrimRightSplits(s: string) returns (y: string)
    ensures s == TrimRight(s) + y && AllSpace(y)
    ensures TrimRight(s) != "" ==> !IsSpace(TrimRight(s)[|TrimRight(s)| - 1])
  {
    hide IsSpace;
    if s != "" && IsSpace(s[|s| - 1]) {
      y := TrimRightSplits(s[..|s| - 1]);
      y := y + [s[|s| - 1]];
    } else {
      y := "";
    }
  }

  lemma {:induction false} TrimLeftSplits(s: string) returns (x: string)
    ensures s == x + TrimLeft(s) && AllSpace(x)
    ensures TrimLeft(s) != "" ==> !IsSpace(TrimLeft(s)[0])
  {
    hide IsSpace;
    if s != "" && IsSpace(s[0]) {
      x := TrimLeftSplits(s[1..]);
      x := [s[0]] + x;
    } else {
      x := "";
    }
  }

  /** Trimming takes away space at the ends, all of it, and nothing else. */
  lemma TrimSplits(s: string) returns (x: string, y: string)
    ensures s == x + TrimSpace(s) + y && AllSpace(x) && AllSpace(y) && Trimmed(TrimSpace(s))
  {
    hide IsSpace;
    x := TrimLeftSplits(s);
    y := TrimRightSplits(TrimLeft(s));
    var t, u := TrimSpace(s), TrimLeft(s);
    assert t != "" ==> t[0] == u[0];
  }

  lemma {:induction false} TrimRightDrops(s: string, y: string)
    requires AllSpace(y) && s != "" && !IsSpace(s[|s| - 1])
    ensures TrimRight(s + y) == s
    decreases |y|
  {
    hide IsSpace;
    if y == "" {
      assert s + y == s;
    } else {
      assert (s + y)[..|s + y| - 1] == s + y[..|y| - 1];
      TrimRightDrops(s, y[..|y| - 1]);
    }
  }

  lemma {:induction false} TrimLeftDrops(x: string, s: string)
    requires AllSpace(x) && s != "" && !IsSpace(s[0])
    ensures TrimLeft(x + s) == s
    decreases |x|
  {
    hide IsSpace;
    if x == "" {
      assert x + s == s;
    } else {
      assert (x + s)[1..] == x[1..] + s;
      TrimLeftDrops(x[1..], s);
    }
  }

  /** So a text without space at its ends is what trimming leaves of it with space around. */
  lemma TrimAround(x: string, s: string, y: string)
    requires AllSpace(x) && AllSpace(y) && s != "" && Trimmed(s)
    ensures TrimSpace(x + s + y) == s
  {
    hide IsSpace, TrimLeft, TrimRight;
    assert x + s + y == x + (s + y) && (s + y)[0] == s[0];
    TrimLeftDrops(x, s + y);
    TrimRightDrops(s, y);
  }
}
