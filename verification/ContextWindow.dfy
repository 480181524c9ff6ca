/** The context window of a conversation: a running-total query
    (internal/adapter/repository/sqlite/message.go) and the loop over its rows
    (internal/usecase/chat/context_window.go). */
module ContextWindow {

  datatype Row = Row(role: string, content: string, tokens: int, timestamp: int)

  datatype Message = Message(role: string, content: string)

  datatype Provider = Anthropic | OpenAI | Ollama | Other

  const RESERVED_TOKENS := 2000

  function TokenLimit(p: Provider): int {
    match p
    case Anthropic => 200000
    case OpenAI => 128000
    case Ollama => 32000
    case Other => 32000
  }

  /** Tokens of the rows from index i on. */
  function Sum(rows: seq<Row>, i: nat): int
    requires i <= |rows|
    decreases |rows| - i
  {
    if i == |rows| then 0 else rows[i].tokens + Sum(rows, i + 1)
  }

  // ---------- the query ----------

  /** SUM(token_count) OVER (ORDER BY timestamp DESC) for a row with timestamp t: the default frame
      holds every row not older than t, peers with the same timestamp included. */
  function RunningTotal(rows: seq<Row>, t: int): int {
    if rows == [] then 0
    else (if rows[0].timestamp >= t then rows[0].tokens else 0) + RunningTotal(rows[1..], t)
  }

  function Select(rows: seq<Row>, maxTokens: int, i: nat): seq<Row>
    requires i <= |rows|
    decreases |rows| - i
  {
    if i == |rows| then []
    else (if RunningTotal(rows, rows[i].timestamp) <= maxTokens then [rows[i]] else []) + Select(rows, maxTokens, i + 1)
  }

  /** `rows` are the conversation's rows in the ascending order in which the engine delivers them, with
      rows of equal timestamp in any order. */
  function GetRecentMessages(rows: seq<Row>, maxTokens: int): seq<Row> {
    if maxTokens <= 0 then [] else Select(rows, maxTokens, 0)
  }

  ghost predicate Sorted(rows: seq<Row>) {
    forall i, j :: 0 <= i < j < |rows| ==> rows[i].timestamp <= rows[j].timestamp
  }

  ghost predicate NonNegative(rows: seq<Row>) {
    forall i :: 0 <= i < |rows| ==> rows[i].tokens >= 0
  }

  /** Cutting at k splits no group of equal timestamps. */
  ghost predicate GroupStart(rows: seq<Row>, k: nat) {
    k <= |rows| && (0 < k < |rows| ==> rows[k - 1].timestamp < rows[k].timestamp)
  }

  /** The start of the group of row i. */
  function GroupOf(rows: seq<Row>, i: nat): (g: nat)
    requires i < |rows|
    ensures g <= i && rows[g].timestamp == rows[i].timestamp && (Sorted(rows) ==> GroupStart(rows, g))
  {
    if i > 0 && rows[i - 1].timestamp == rows[i].timestamp then GroupOf(rows, i - 1) else i
  }

  lemma {:induction false} SumTail(rows: seq<Row>, i: nat)
    requires 1 <= i <= |rows|
    ensures Sum(rows, i) == Sum(rows[1..], i - 1)
    decreases |rows| - i
  {
    if i < |rows| {
      SumTail(rows, i + 1);
    }
  }

  /** In ascending rows the running total at a group is the sum from where the group starts. */
  lemma {:induction false} RunningTotalIsSum(rows: seq<Row>, g: nat, t: int)
    requires Sorted(rows) && g <= |rows|
    requires forall i :: 0 <= i < |rows| ==> (rows[i].timestamp >= t <==> i >= g)
    ensures RunningTotal(rows, t) == Sum(rows, g)
  {
    if rows != [] {
      if g > 0 {
        RunningTotalIsSum(rows[1..], g - 1, t);
        SumTail(rows, g);
      } else {
        RunningTotalIsSum(rows[1..], 0, t);
        SumTail(rows, 1);
        assert rows[0].timestamp >= t;
      }
    }
  }

  /** The rows from a cut on are those not older than the row at the cut. */
  lemma CutSeparates(rows: seq<Row>, g: nat, i: nat)
    requires Sorted(rows) && GroupStart(rows, g) && g < |rows| && i < |rows|
    ensures rows[i].timestamp >= rows[g].timestamp <==> i >= g
  {
    if 0 < g && i < g {
      assert rows[i].timestamp <= rows[g - 1].timestamp;
    }
  }

  lemma TotalAt(rows: seq<Row>, i: nat)
    requires Sorted(rows) && i < |rows|
    ensures RunningTotal(rows, rows[i].timestamp) == Sum(rows, GroupOf(rows, i))
  {
    hide Sorted, GroupStart, RunningTotal, Sum;
    var g := GroupOf(rows, i);
    forall j | 0 <= j < |rows| ensures rows[j].timestamp >= rows[i].timestamp <==> j >= g {
      CutSeparates(rows, g, j);
    }
    RunningTotalIsSum(rows, g, rows[i].timestamp);
  }

  lemma {:induction false} SumShrinks(rows: seq<Row>, i: nat, j: nat)
    requires NonNegative(rows) && i <= j <= |rows|
    ensures Sum(rows, i) >= Sum(rows, j)
    decreases j - i
  {
    if i < j {
      SumShrinks(rows, i + 1, j);
    }
  }

  /** The query returns the longest time-ordered suffix that splits no group of equal timestamps and
      whose tokens fit: from the first cut k that fits, everything. */
  lemma {:induction false} QueryIsLongestSuffix(rows: seq<Row>, maxTokens: int, i: nat) returns (k: nat)
    requires Sorted(rows) && NonNegative(rows) && GroupStart(rows, i) && maxTokens >= 0
    ensures i <= k <= |rows| && GroupStart(rows, k) && Select(rows, maxTokens, i) == rows[k..]
    ensures Sum(rows, k) <= maxTokens
    ensures forall j :: i <= j < k && GroupStart(rows, j) ==> Sum(rows, j) > maxTokens
    decreases |rows| - i
  {
    if i == |rows| {
      k := i;
    } else if Sum(rows, i) <= maxTokens {
      k := i;
      KeepsAll(rows, maxTokens, i, i);
    } else {
      var next := NextGroup(rows, i);
      GroupDropped(rows, maxTokens, i, i);
      forall j | i < j <= next ensures GroupStart(rows, j) <==> j == next {
        NextGroupIsNextCut(rows, i, j);
      }
      k := QueryIsLongestSuffix(rows, maxTokens, next);
    }
  }

  lemma {:induction false} GroupBetween(rows: seq<Row>, i: nat, j: nat)
    requires Sorted(rows) && GroupStart(rows, i) && i <= j < |rows|
    ensures i <= GroupOf(rows, j)
    ensures rows[i].timestamp == rows[j].timestamp ==> GroupOf(rows, j) == i
    decreases j
  {
    if i < j && rows[j - 1].timestamp == rows[j].timestamp {
      GroupBetween(rows, i, j - 1);
    }
  }

  lemma {:induction false} KeepsAll(rows: seq<Row>, maxTokens: int, start: nat, i: nat)
    requires Sorted(rows) && NonNegative(rows) && start <= i <= |rows|
    requires GroupStart(rows, start) && Sum(rows, start) <= maxTokens
    ensures Select(rows, maxTokens, i) == rows[i..]
    decreases |rows| - i
  {
    hide Sorted, NonNegative, GroupStart, RunningTotal, Sum, GroupOf;
    if i < |rows| {
      GroupBetween(rows, start, i);
      SumShrinks(rows, start, GroupOf(rows, i));
      TotalAt(rows, i);
      KeepsAll(rows, maxTokens, start, i + 1);
      assert rows[i..] == [rows[i]] + rows[i + 1..];
    } else {
      assert rows[i..] == [];
    }
  }

  /** The first index after the group of row i. */
  function NextGroup(rows: seq<Row>, i: nat): (next: nat)
    requires i < |rows|
    ensures i < next <= |rows|
    decreases |rows| - i
  {
    if i + 1 < |rows| && rows[i + 1].timestamp == rows[i].timestamp then NextGroup(rows, i + 1) else i + 1
  }

  lemma {:induction false} NextGroupIsNextCut(rows: seq<Row>, i: nat, j: nat)
    requires Sorted(rows) && i < |rows| && i < j <= NextGroup(rows, i)
    ensures GroupStart(rows, j) <==> j == NextGroup(rows, i)
    decreases |rows| - i
  {
    if i + 1 < j {
      NextGroupIsNextCut(rows, i + 1, j);
    }
  }

  /** A group whose total is too big is dropped as a whole. */
  lemma {:induction false} GroupDropped(rows: seq<Row>, maxTokens: int, start: nat, i: nat)
    requires Sorted(rows) && start <= i < |rows| && GroupStart(rows, start)
    requires rows[i].timestamp == rows[start].timestamp && Sum(rows, start) > maxTokens
    ensures Select(rows, maxTokens, i) == Select(rows, maxTokens, NextGroup(rows, i))
    decreases |rows| - i
  {
    hide Sum, RunningTotal, GroupOf;
    GroupBetween(rows, start, i);
    TotalAt(rows, i);
    if i + 1 < |rows| && rows[i + 1].timestamp == rows[i].timestamp {
      GroupDropped(rows, maxTokens, start, i + 1);
    }
  }

  /** What GetRecentMessages returns, for every budget. */
  lemma RecentIsLongestSuffix(rows: seq<Row>, maxTokens: int) returns (k: nat)
    requires Sorted(rows) && NonNegative(rows)
    ensures k <= |rows| && GetRecentMessages(rows, maxTokens) == rows[k..] && GroupStart(rows, k)
    ensures maxTokens > 0 ==> Sum(rows, k) <= maxTokens
                              && forall j :: 0 <= j < k && GroupStart(rows, j) ==> Sum(rows, j) > maxTokens
    ensures maxTokens <= 0 ==> k == |rows|
  {
    if maxTokens <= 0 {
      k := |rows|;
    } else {
      k := QueryIsLongestSuffix(rows, maxTokens, 0);
    }
  }

  // ---------- the window ----------

  /** The tokens the window may fill. */
  function Available(p: Provider, maxTokens: int): int {
    var limit := TokenLimit(p);
    var budget := if maxTokens == 0 || maxTokens > limit then limit else maxTokens;
    budget - if budget == limit then RESERVED_TOKENS else 0
  }

  function Messages(rows: seq<Row>): (r: seq<Message>)
    ensures |r| == |rows| && forall i :: 0 <= i < |r| ==> r[i] == Message(rows[i].role, rows[i].content)
  {
    seq(|rows|, i requires 0 <= i < |rows| => Message(rows[i].role, rows[i].content))
  }

  lemma SumStep(rows: seq<Row>, i: nat)
    requires i <= |rows|
    ensures Sum(rows, i) == if i == |rows| then 0 else rows[i].tokens + Sum(rows, i + 1)
  {
  }

  /** The messages are the longest end of the rows that splits no group of equal timestamps and fits the
      budget, with its exact total. */
  ghost predicate IsLongestWindow(rows: seq<Row>, budget: int, messages: seq<Message>, total: int) {
    exists k: nat ::
      && GroupStart(rows, k) && k <= |rows| && messages == Messages(rows[k..]) && total == Sum(rows, k) <= budget
      && forall j: nat :: j < k && GroupStart(rows, j) ==> Sum(rows, j) > budget
  }

  lemma LimitsArePositive(p: Provider)
    ensures TokenLimit(p) > 2000
    ensures TokenLimit(p) - 2000
         == match p case Anthropic => 198000 case OpenAI => 126000 case Ollama => 30000 case Other => 30000
  {
  }

  lemma NegativeBudget(rows: seq<Row>, budget: int)
    ensures budget <= 0 ==> GetRecentMessages(rows, budget) == []
  {
  }

  lemma RecentIsWindow(rows: seq<Row>, budget: int)
    requires Sorted(rows) && NonNegative(rows) && budget > 0
    ensures var recent := GetRecentMessages(rows, budget);
            IsLongestWindow(rows, budget, Messages(recent), Sum(recent, 0))
  {
    var k := RecentIsLongestSuffix(rows, budget);
    SumOfSuffix(rows, k, 0);
    assert GroupStart(rows, k);
  }

  /** `failed` says that the repository returned an error. `from` is where the loop stopped. */
  method BuildContextWindow(rows: seq<Row>, p: Provider, maxTokens: int, failed: bool)
    returns (messages: seq<Message>, totalTokens: int, ghost from: nat)
    ensures var recent := if failed then [] else GetRecentMessages(rows, Available(p, maxTokens));
            && from <= |recent| && messages == Messages(recent[from..]) && totalTokens == Sum(recent, from)
            && (from > 0 ==> totalTokens + recent[from - 1].tokens > Available(p, maxTokens))
            && (from < |recent| ==> totalTokens <= Available(p, maxTokens))
    ensures Sorted(rows) && NonNegative(rows) ==>
              var recent := if failed then [] else GetRecentMessages(rows, Available(p, maxTokens));
              messages == Messages(recent) && totalTokens == Sum(recent, 0)
    ensures Sorted(rows) && NonNegative(rows) && !failed && 0 < maxTokens < TokenLimit(p) ==>
              IsLongestWindow(rows, maxTokens, messages, totalTokens)
    ensures Sorted(rows) && NonNegative(rows) && !failed && (maxTokens == 0 || maxTokens >= TokenLimit(p)) ==>
              IsLongestWindow(rows, TokenLimit(p) - 2000, messages, totalTokens)
    ensures Sorted(rows) && NonNegative(rows) && !failed && maxTokens == 0 ==>
              var budget := match p
                case Anthropic => 198000 case OpenAI => 126000 case Ollama => 30000 case Other => 30000;
              IsLongestWindow(rows, budget, messages, totalTokens)
    ensures maxTokens < 0 || failed ==> messages == [] && totalTokens == 0
  {
    hide GetRecentMessages, Sum, Sorted, NonNegative, TokenLimit, GroupStart, IsLongestWindow;
    var limit := TokenLimit(p);
    LimitsArePositive(p);
    var budget := maxTokens;
    if budget == 0 || budget > limit {
      budget := limit;
    }
    var reserved := 0;
    if budget == limit {
      reserved := RESERVED_TOKENS;
    }
    var available := budget - reserved;
    messages, totalTokens, from := [], 0, 0;
    SumStep([], 0);
    if failed {
      return;
    }
    NegativeBudget(rows, available);
    var recent := GetRecentMessages(rows, available);
    if Sorted(rows) && NonNegative(rows) && available > 0 {
      RecentIsWindow(rows, available);
    }
    if |recent| == 0 {
      assert recent == [] && Messages(recent) == [];
      return;
    }
    messages, totalTokens, from := FillWindow(recent, available);
    if Sorted(rows) && NonNegative(rows) {
      NeverBreaks(rows, available, from);
      if from > 0 {
        SumStep(recent, from - 1);
      }
      assert recent[0..] == recent;
    }
  }

  /** The loop: from the newest row back while the budget lasts. */
  method FillWindow(recent: seq<Row>, available: int)
    returns (messages: seq<Message>, totalTokens: int, ghost from: nat)
    ensures from <= |recent| && messages == Messages(recent[from..]) && totalTokens == Sum(recent, from)
    ensures from > 0 ==> totalTokens + recent[from - 1].tokens > available
    ensures from < |recent| ==> totalTokens <= available
  {
    hide Sum;
    messages, totalTokens := [], 0;
    var i := |recent|;
    SumStep(recent, i);
    while i > 0
      invariant 0 <= i <= |recent|
      invariant messages == Messages(recent[i..]) && totalTokens == Sum(recent, i)
      invariant i < |recent| ==> totalTokens <= available
    {
      SumStep(recent, i - 1);
      if totalTokens + recent[i - 1].tokens > available {
        break;
      }
      assert recent[i - 1..] == [recent[i - 1]] + recent[i..];
      messages := [Message(recent[i - 1].role, recent[i - 1].content)] + messages;
      totalTokens := totalTokens + recent[i - 1].tokens;
      i := i - 1;
    }
    from := i;
  }

  lemma {:induction false} SumOfSuffix(rows: seq<Row>, k: nat, i: nat)
    requires k <= |rows| && i <= |rows| - k
    ensures Sum(rows[k..], i) == Sum(rows, k + i)
    decreases |rows| - k - i
  {
    if i < |rows| - k {
      SumOfSuffix(rows, k, i + 1);
    }
  }

  /** The query's own cut makes the loop's cut idle: no suffix of what it returns is over budget. */
  lemma NeverBreaks(rows: seq<Row>, available: int, i: nat)
    requires Sorted(rows) && NonNegative(rows) && i <= |GetRecentMessages(rows, available)|
    ensures Sum(GetRecentMessages(rows, available), i) <= (if available > 0 then available else 0)
    ensures available <= 0 ==> GetRecentMessages(rows, available) == []
    ensures i > 0 && available > 0 ==> Sum(GetRecentMessages(rows, available), i - 1) <= available
  {
    var k := RecentIsLongestSuffix(rows, available);
    SumOfSuffix(rows, k, i);
    SumShrinks(rows, k, k + i);
    if i > 0 {
      SumOfSuffix(rows, k, i - 1);
      SumShrinks(rows, k, k + i - 1);
    }
  }

  /** The window holds all the query returned, its total is the exact sum, and it fits the budget; when
      the provider's limit applies at least the reserved tokens stay free. */
  lemma WindowFits(rows: seq<Row>, p: Provider, maxTokens: int)
    requires Sorted(rows) && NonNegative(rows)
    ensures var total := Sum(GetRecentMessages(rows, Available(p, maxTokens)), 0);
            && (Available(p, maxTokens) > 0 ==> 0 <= total <= Available(p, maxTokens))
            && (Available(p, maxTokens) <= 0 ==> total == 0)
            && (maxTokens == 0 || maxTokens >= TokenLimit(p) ==> total <= TokenLimit(p) - RESERVED_TOKENS)
            && (maxTokens == 0 ==> total <= match p case Anthropic => 198000 case OpenAI => 126000 case _ => 30000)
  {
    NeverBreaks(rows, Available(p, maxTokens), 0);
    var k := RecentIsLongestSuffix(rows, Available(p, maxTokens));
    SumOfSuffix(rows, k, 0);
    SumShrinks(rows, k, |rows|);
  }

  /** Room for the response is kept exactly if the caller's limit is not just below the provider's. */
  lemma ReserveKeptIff(p: Provider, maxTokens: int)
    ensures Available(p, maxTokens) <= TokenLimit(p) - RESERVED_TOKENS
       <==> !(TokenLimit(p) - RESERVED_TOKENS < maxTokens < TokenLimit(p))
  {
  }
}
