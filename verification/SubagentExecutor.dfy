/** The bounded agent loop (internal/usecase/skill/subagent/executor.go).

    The context, the clock, the LLM and the tools are arbitrary: `env(i)` is what iteration i meets. */
module SubagentExecutor {
  import opened Text
  import opened Subagent

  datatype ToolCall = ToolCall(name: string, arguments: string)

  datatype ToolReply = ToolOk(text: string) | ToolError(error: string)

  datatype LlmReply =
    | LlmError(error: string)
    | Response(content: string, finishReason: string, tokens: int, toolCalls: seq<ToolCall>)

  /** `elapsed` and `elapsedAfter` are the times read before the LLM call and after the tool calls. */
  datatype Turn = Turn(cancelled: bool, elapsed: int, llm: LlmReply, tool: nat -> ToolReply, elapsedAfter: int)

  /** The return statement an execution left by. */
  datatype Exit =
    | ContextDone | LimitsBefore | LlmFailed | TokenLimit | Finished
    | ToolLimit | ToolForbidden | ToolFailed | LimitsAfter | IterationsOver

  function StatusOf(exit: Exit): Status {
    match exit
    case ContextDone => Cancelled
    case LimitsBefore => Timeout
    case Finished => Complete
    case _ => Error
  }

  predicate IsToolAllowed(name: string, allowed: Option<seq<string>>) {
    allowed.None? || name in allowed.value
  }

  /** The list search as the code writes it. */
  method ToolAllowed(name: string, allowed: Option<seq<string>>) returns (r: bool)
    ensures r == IsToolAllowed(name, allowed)
  {
    if allowed.None? {
      return true;
    }
    if |allowed.value| == 0 {
      return false;
    }
    for i := 0 to |allowed.value|
      invariant name !in allowed.value[..i]
    {
      if allowed.value[i] == name {
        return true;
      }
    }
    return false;
  }

  // ---------- what was said and done ----------

  function ToolMessage(turn: Turn, k: nat): Message
    requires turn.llm.Response? && k < |turn.llm.toolCalls|
  {
    Message("user", "Tool result from " + turn.llm.toolCalls[k].name + ": " +
                    match turn.tool(k) case ToolOk(text) => text case ToolError(e) => e)
  }

  function ToolMessages(turn: Turn, k: nat): seq<Message>
    requires turn.llm.Response? && k <= |turn.llm.toolCalls|
  {
    if k == 0 then [] else ToolMessages(turn, k - 1) + [ToolMessage(turn, k - 1)]
  }

  /** The messages one turn adds up to and including its first k tool results. */
  function Said(turn: Turn, k: nat): seq<Message>
    requires turn.llm.Response? && k <= |turn.llm.toolCalls|
  {
    [Message("assistant", turn.llm.content)] + ToolMessages(turn, k)
  }

  function Names(calls: seq<ToolCall>): (r: seq<string>)
    ensures |r| == |calls| && forall i :: 0 <= i < |r| ==> r[i] == calls[i].name
  {
    seq(|calls|, i requires 0 <= i < |calls| => calls[i].name)
  }

  ghost predicate Responds(env: nat -> Turn, n: nat) {
    forall i: nat :: i < n ==> env(i).llm.Response?
  }

  /** The messages of the first n turns, all of whose tool calls were answered. */
  function Transcript(env: nat -> Turn, n: nat): seq<Message>
    requires Responds(env, n)
  {
    if n == 0 then [] else Transcript(env, n - 1) + Said(env(n - 1), |env(n - 1).llm.toolCalls|)
  }

  /** The tools run in the first n turns, in order. */
  function ToolLog(env: nat -> Turn, n: nat): seq<string>
    requires Responds(env, n)
  {
    if n == 0 then [] else ToolLog(env, n - 1) + Names(env(n - 1).llm.toolCalls)
  }

  function Steps(env: nat -> Turn, n: nat): (r: seq<StepResult>)
    requires Responds(env, n)
    ensures |r| == n
  {
    if n == 0 then []
    else Steps(env, n - 1) + [StepResult(n, env(n - 1).llm.content, env(n - 1).llm.tokens)]
  }

  function Tokens(steps: seq<StepResult>): int {
    if steps == [] then 0 else Tokens(steps[..|steps| - 1]) + steps[|steps| - 1].tokensUsed
  }

  lemma TokensSnoc(steps: seq<StepResult>, s: StepResult)
    ensures Tokens(steps + [s]) == Tokens(steps) + s.tokensUsed
  {
    assert (steps + [s])[..|steps|] == steps;
  }

  ghost predicate AllAllowed(log: seq<string>, allowed: Option<seq<string>>) {
    forall i :: 0 <= i < |log| ==> IsToolAllowed(log[i], allowed)
  }

  /** How an execution ended: `turns` turns were recorded, and `k` tool calls of the last one succeeded.
      Every exit but the first four leaves from inside, or at the end of, a recorded turn. */
  ghost predicate Outcome(env: nat -> Turn, ctx: Context, exit: Exit, turns: nat, k: nat,
                          conversation: seq<Message>, log: seq<string>, result: Result)
  {
    && Responds(env, turns)
    && (turns == 0 ==> k == 0)
    && (turns > 0 ==> k <= |env(turns - 1).llm.toolCalls|)
    && conversation == ctx.history + (if turns == 0 then [] else Transcript(env, turns - 1) + Said(env(turns - 1), k))
    && log == (if turns == 0 then [] else ToolLog(env, turns - 1) + Names(env(turns - 1).llm.toolCalls[..k]))
    && result.stepResults == Steps(env, turns)
    && result.toolCallsMade == |log|
    && result.tokensUsed == Tokens(result.stepResults)
        + (if exit.TokenLimit? && env(turns).llm.Response? then env(turns).llm.tokens else 0)
  }

  /** The first k tool calls of the turn are within the limit, allowed, and succeed. */
  ghost predicate RunsUpTo(ctx: Context, turn: Turn, made: nat, k: nat)
    requires turn.llm.Response? && k <= |turn.llm.toolCalls|
  {
    forall j :: 0 <= j < k ==>
      && !(ctx.limits.maxToolCalls > 0 && made + j >= ctx.limits.maxToolCalls)
      && IsToolAllowed(turn.llm.toolCalls[j].name, ctx.allowedTools) && turn.tool(j).ToolOk?
  }

  ghost predicate InTime(ctx: Context, elapsed: int) {
    ctx.limits.timeout > 0 ==> elapsed <= ctx.limits.timeout
  }

  ghost predicate TokensLeft(env: nat -> Turn, ctx: Context, i: nat)
    requires Responds(env, i + 1)
  {
    ctx.limits.maxTokens > 0 ==> Tokens(Steps(env, i)) + env(i).llm.tokens <= ctx.limits.maxTokens
  }

  /** Turn i passes every check up to the recording of its response. */
  ghost predicate IsRecorded(env: nat -> Turn, ctx: Context, i: nat) {
    !env(i).cancelled && InTime(ctx, env(i).elapsed) && Responds(env, i + 1) && TokensLeft(env, ctx, i)
  }

  /** Turn i passes every check, so that the next one comes. */
  ghost predicate GoesOn(env: nat -> Turn, ctx: Context, i: nat) {
    && IsRecorded(env, ctx, i) && !IsFinal(env(i).llm)
    && RunsUpTo(ctx, env(i), |ToolLog(env, i)|, |env(i).llm.toolCalls|) && InTime(ctx, env(i).elapsedAfter)
  }

  ghost predicate AllGoOn(env: nat -> Turn, ctx: Context, n: nat) {
    forall i: nat :: i < n ==> GoesOn(env, ctx, i)
  }

  /** The check that turn i fails before its response is recorded. */
  ghost predicate FailsBefore(env: nat -> Turn, ctx: Context, i: nat, exit: Exit)
    requires Responds(env, i)
  {
    match exit
    case ContextDone => env(i).cancelled
    case LimitsBefore => !env(i).cancelled && !InTime(ctx, env(i).elapsed)
    case LlmFailed => !env(i).cancelled && InTime(ctx, env(i).elapsed) && env(i).llm.LlmError?
    case TokenLimit =>
      !env(i).cancelled && InTime(ctx, env(i).elapsed) && env(i).llm.Response? && !TokensLeft(env, ctx, i)
    case _ => false
  }

  /** How turn i ends the run after its response is recorded, with k tool calls done. */
  ghost predicate EndsAfter(env: nat -> Turn, ctx: Context, i: nat, exit: Exit, k: nat)
    requires Responds(env, i + 1) && k <= |env(i).llm.toolCalls|
  {
    var turn, calls, made := env(i), env(i).llm.toolCalls, |ToolLog(env, i)|;
    var full := ctx.limits.maxToolCalls > 0 && made + k >= ctx.limits.maxToolCalls;
    && RunsUpTo(ctx, turn, made, k)
    && (exit == Finished <==> IsFinal(turn.llm))
    && match exit
       case Finished => k == 0
       case ToolLimit => k < |calls| && full
       case ToolForbidden => k < |calls| && !full && !IsToolAllowed(calls[k].name, ctx.allowedTools)
       case ToolFailed =>
         k < |calls| && !full && IsToolAllowed(calls[k].name, ctx.allowedTools) && turn.tool(k).ToolError?
       case LimitsAfter => k == |calls| && !InTime(ctx, turn.elapsedAfter)
       case _ => false
  }

  predicate BeforeRecord(exit: Exit) {
    exit == ContextDone || exit == LimitsBefore || exit == LlmFailed || exit == TokenLimit
  }

  /** The first turn that does not go on decides the exit; if all do, the iterations run out. */
  ghost predicate Decided(env: nat -> Turn, ctx: Context, exit: Exit, turns: nat, k: nat)
    requires Responds(env, turns) && (turns > 0 ==> k <= |env(turns - 1).llm.toolCalls|)
  {
    if exit == IterationsOver then AllGoOn(env, ctx, turns)
    else if BeforeRecord(exit) then AllGoOn(env, ctx, turns) && FailsBefore(env, ctx, turns, exit)
    else
      turns > 0 && AllGoOn(env, ctx, turns - 1) && IsRecorded(env, ctx, turns - 1)
      && EndsAfter(env, ctx, turns - 1, exit, k)
  }

  /** The tool calls of one turn, `made` calls into the execution. */
  method RunTools(ctx: Context, turn: Turn, made: nat)
    returns (said: seq<Message>, log: seq<string>, attempted: seq<string>, exit: Option<Exit>, errorMessage: string,
        k: nat)
    requires turn.llm.Response?
    ensures k <= |turn.llm.toolCalls| && said == ToolMessages(turn, k) && log == Names(turn.llm.toolCalls[..k])
    ensures exit.None? ==> k == |turn.llm.toolCalls| && attempted == log
    ensures exit.Some? ==>
              errorMessage != "" && (exit.value == ToolLimit || exit.value == ToolForbidden || exit.value == ToolFailed)
    ensures exit == Some(ToolLimit) ==> ctx.limits.maxToolCalls > 0 && made + |log| >= ctx.limits.maxToolCalls
    ensures exit == Some(ToolForbidden) ==>
            k < |turn.llm.toolCalls| && !IsToolAllowed(turn.llm.toolCalls[k].name, ctx.allowedTools)
    ensures exit == Some(ToolFailed) ==> k < |turn.llm.toolCalls| && turn.tool(k).ToolError?
    ensures exit.Some? ==> k < |turn.llm.toolCalls|
    ensures exit == Some(ToolFailed) || exit == Some(ToolForbidden) ==>
              !(ctx.limits.maxToolCalls > 0 && made + k >= ctx.limits.maxToolCalls)
    ensures exit == Some(ToolFailed) ==> IsToolAllowed(turn.llm.toolCalls[k].name, ctx.allowedTools)
    ensures RunsUpTo(ctx, turn, made, k)
    ensures attempted == (if exit == Some(ToolFailed) then log + [turn.llm.toolCalls[k].name] else log)
    ensures AllAllowed(attempted, ctx.allowedTools)
    ensures ctx.limits.maxToolCalls > 0 && made <= ctx.limits.maxToolCalls ==>
            made + |attempted| <= ctx.limits.maxToolCalls
  {
    hide RunsUpTo, ToolMessages, IsToolAllowed;
    var calls := turn.llm.toolCalls;
    NoneRun(ctx, turn, made);
    said, log, attempted, exit, errorMessage, k := [], [], [], None, "", 0;
    while k < |calls|
      invariant k <= |calls| && said == ToolMessages(turn, k) && log == attempted == Names(calls[..k])
      invariant exit.None? && AllAllowed(log, ctx.allowedTools) && RunsUpTo(ctx, turn, made, k)
      invariant ctx.limits.maxToolCalls > 0 && made <= ctx.limits.maxToolCalls ==> made + k <= ctx.limits.maxToolCalls
    {
      var name := calls[k].name;
      if ctx.limits.maxToolCalls > 0 && made + k >= ctx.limits.maxToolCalls {
        exit, errorMessage := Some(ToolLimit), "tool call limit exceeded";
        return;
      }
      var ok := ToolAllowed(name, ctx.allowedTools);
      if !ok {
        exit, errorMessage := Some(ToolForbidden), "tool '" + name + "' not allowed";
        return;
      }
      attempted := attempted + [name];
      if turn.tool(k).ToolError? {
        exit, errorMessage := Some(ToolFailed), "tool execution error: " + turn.tool(k).error;
        return;
      }
      log := attempted;
      said := said + [ToolMessage(turn, k)];
      assert Names(calls[..k + 1]) == Names(calls[..k]) + [name];
      OneMoreRan(ctx, turn, made, k);
      k := k + 1;
    }
  }

  lemma NoneRun(ctx: Context, turn: Turn, made: nat)
    requires turn.llm.Response?
    ensures RunsUpTo(ctx, turn, made, 0) && ToolMessages(turn, 0) == []
  {
  }

  lemma OneMoreRan(ctx: Context, turn: Turn, made: nat, k: nat)
    requires turn.llm.Response? && k < |turn.llm.toolCalls| && RunsUpTo(ctx, turn, made, k)
    requires !(ctx.limits.maxToolCalls > 0 && made + k >= ctx.limits.maxToolCalls)
    requires IsToolAllowed(turn.llm.toolCalls[k].name, ctx.allowedTools) && turn.tool(k).ToolOk?
    ensures RunsUpTo(ctx, turn, made, k + 1)
    ensures ToolMessages(turn, k + 1) == ToolMessages(turn, k) + [ToolMessage(turn, k)]
  {
  }

  /** What each turn adds to the records. */
  lemma RecordTurn(env: nat -> Turn, i: nat)
    requires Responds(env, i + 1)
    ensures var turn := env(i);
            && Transcript(env, i + 1) == Transcript(env, i) + Said(turn, |turn.llm.toolCalls|)
            && ToolLog(env, i + 1) == ToolLog(env, i) + Names(turn.llm.toolCalls)
            && Steps(env, i + 1) == Steps(env, i) + [StepResult(i + 1, turn.llm.content, turn.llm.tokens)]
            && Tokens(Steps(env, i + 1)) == Tokens(Steps(env, i)) + turn.llm.tokens
            && turn.llm.toolCalls[..|turn.llm.toolCalls|] == turn.llm.toolCalls
            && Names(turn.llm.toolCalls[..0]) == [] && ToolMessages(turn, 0) == []
  {
    TokensSnoc(Steps(env, i), StepResult(i + 1, env(i).llm.content, env(i).llm.tokens));
  }

  /** A response that ends the run: it says so, or asks for no tool. */
  predicate IsFinal(resp: LlmReply) {
    resp.Response? && (resp.finishReason == "end_turn" || resp.toolCalls == [])
  }

  /** The state at the head of the loop, after i full turns. */
  ghost predicate AtHead(env: nat -> Turn, ctx: Context, i: nat, conversation: seq<Message>, log: seq<string>,
                         result: Result, tokensUsed: int)
  {
    && Responds(env, i) && AllGoOn(env, ctx, i)
    && conversation == ctx.history + Transcript(env, i)
    && log == ToolLog(env, i) && AllAllowed(log, ctx.allowedTools)
    && result == Result(ctx.id, Running, "", "", 0, 0, Steps(env, i))
    && tokensUsed == Tokens(result.stepResults)
    && (ctx.limits.maxTokens > 0 ==> tokensUsed <= ctx.limits.maxTokens)
    && (ctx.limits.maxToolCalls > 0 ==> |log| <= ctx.limits.maxToolCalls)
  }

  /** How an execution may end, with the accounting that holds then. */
  ghost predicate Ended(env: nat -> Turn, ctx: Context, exit: Exit, turns: nat, k: nat,
                        conversation: seq<Message>, log: seq<string>, attempted: seq<string>, result: Result)
  {
    var limits := ctx.limits;
    && Outcome(env, ctx, exit, turns, k, conversation, log, result)
    && Decided(env, ctx, exit, turns, k)
    && result.subagentID == ctx.id && result.status == StatusOf(exit)
    && (result.status == Error ==> result.errorMessage != "")
    && (attempted == log || (exit == ToolFailed && exists name :: attempted == log + [name]))
    && AllAllowed(attempted, ctx.allowedTools)
    && (limits.maxToolCalls > 0 ==> |attempted| <= limits.maxToolCalls)
    && (limits.maxTokens > 0 ==> Tokens(result.stepResults) <= limits.maxTokens)
    && (exit == TokenLimit <==> 0 < limits.maxTokens < result.tokensUsed)
    && (exit == ToolLimit ==> 0 < limits.maxToolCalls == |log|)
    && (exit == LimitsBefore ==> 0 < limits.timeout < env(turns).elapsed)
    && (exit == LimitsAfter ==> turns > 0 && 0 < limits.timeout < env(turns - 1).elapsedAfter)
    && (exit == Finished <==> turns > 0 && IsFinal(env(turns - 1).llm))
    && result.output == (if exit == Finished then env(turns - 1).llm.content else "")
    && forall i: nat :: i < turns - 1 ==> !IsFinal(env(i).llm)
  }

  /** The tool calls of the last recorded turn, when it went on. */
  function LastCalls(env: nat -> Turn, i: nat): nat
    requires Responds(env, i)
  {
    if i == 0 then 0 else |env(i - 1).llm.toolCalls|
  }

  lemma HeadOutcome(env: nat -> Turn, ctx: Context, exit: Exit, i: nat, conversation: seq<Message>, log: seq<string>,
                    result: Result, tokensUsed: int, total: int, message: string)
    requires AtHead(env, ctx, i, conversation, log, result, tokensUsed)
    requires exit == TokenLimit ==> env(i).llm.Response?
    requires total == tokensUsed + if exit == TokenLimit then env(i).llm.tokens else 0
    ensures Outcome(env, ctx, exit, i, LastCalls(env, i), conversation, log,
                    Finalize(result, StatusOf(exit), message, total, |log|))
  {
    hide AllGoOn, Transcript, ToolLog, Tokens, Names, ToolMessages, IsToolAllowed, AllAllowed, Steps;
    if i > 0 {
      RecordTurn(env, i - 1);
      assert conversation == ctx.history + (Transcript(env, i - 1) + Said(env(i - 1), |env(i - 1).llm.toolCalls|));
    } else {
      NoTurns(env);
      assert conversation == ctx.history + [];
    }
  }

  lemma HeadDecided(env: nat -> Turn, ctx: Context, exit: Exit, i: nat)
    requires Responds(env, i) && AllGoOn(env, ctx, i)
    requires exit == IterationsOver || (BeforeRecord(exit) && FailsBefore(env, ctx, i, exit))
    ensures Decided(env, ctx, exit, i, LastCalls(env, i))
  {
    hide AllGoOn, FailsBefore;
  }

  lemma HeadGoesOn(env: nat -> Turn, ctx: Context, i: nat, conversation: seq<Message>, log: seq<string>,
                   result: Result, tokensUsed: int)
    requires AtHead(env, ctx, i, conversation, log, result, tokensUsed)
    ensures AllGoOn(env, ctx, i)
  {
  }

  /** The guard that failed, in numbers. */
  lemma FailedGuard(env: nat -> Turn, ctx: Context, i: nat, exit: Exit)
    requires Responds(env, i) && FailsBefore(env, ctx, i, exit)
    ensures exit == LimitsBefore ==> 0 < ctx.limits.timeout < env(i).elapsed
    ensures exit == TokenLimit ==>
              env(i).llm.Response? && 0 < ctx.limits.maxTokens < Tokens(Steps(env, i)) + env(i).llm.tokens
  {
    hide Tokens, Steps;
  }

  /** The exits before the response of turn i is recorded. */
  lemma EndsAtHead(env: nat -> Turn, ctx: Context, exit: Exit, i: nat, conversation: seq<Message>, log: seq<string>,
                   result: Result, tokensUsed: int, total: int, message: string)
    requires AtHead(env, ctx, i, conversation, log, result, tokensUsed) && message != ""
    requires Responds(env, i) && (exit == IterationsOver || (BeforeRecord(exit) && FailsBefore(env, ctx, i, exit)))
    requires exit == TokenLimit ==> env(i).llm.Response?
    requires total == tokensUsed + if exit == TokenLimit then env(i).llm.tokens else 0
    ensures Ended(env, ctx, exit, i, LastCalls(env, i), conversation, log, log,
                  Finalize(result, StatusOf(exit), message, total, |log|))
  {
    hide AtHead, Outcome, Decided, FailsBefore, AllGoOn, AllAllowed, Tokens, Steps, IsFinal, Transcript, ToolLog;
    HeadShape(env, ctx, i, conversation, log, result, tokensUsed);
    HeadGoesOn(env, ctx, i, conversation, log, result, tokensUsed);
    HeadOutcome(env, ctx, exit, i, conversation, log, result, tokensUsed, total, message);
    HeadDecided(env, ctx, exit, i);
    LastGoOn(env, ctx, i);
    if exit != IterationsOver {
      FailedGuard(env, ctx, i, exit);
    }
  }

  lemma NoTurns(env: nat -> Turn)
    ensures Transcript(env, 0) == [] && ToolLog(env, 0) == [] && Steps(env, 0) == [] && Tokens([]) == 0
  {
  }

  /** The exits after it is recorded, with k tool calls done. */
  lemma EndsInTurn(env: nat -> Turn, ctx: Context, exit: Exit, i: nat, k: nat, before: seq<Message>, ran: seq<string>,
                   attempted: seq<string>, start: Result, tokensUsed: int, output: string, message: string)
    requires AtHead(env, ctx, i, before, ran, start, tokensUsed) && IsRecorded(env, ctx, i)
    requires k <= |env(i).llm.toolCalls| && EndsAfter(env, ctx, i, exit, k)
    requires var log := ran + Names(env(i).llm.toolCalls[..k]);
             && AllAllowed(attempted, ctx.allowedTools)
             && (attempted == log || (exit == ToolFailed && exists name :: attempted == log + [name]))
             && (ctx.limits.maxToolCalls > 0 ==> |attempted| <= ctx.limits.maxToolCalls)
    requires output == if exit == Finished then env(i).llm.content else ""
    requires exit != Finished ==> message != ""
    ensures var log := ran + Names(env(i).llm.toolCalls[..k]);
            Ended(env, ctx, exit, i + 1, k, before + Said(env(i), k), log, attempted,
                  Result(ctx.id, StatusOf(exit), output, message, tokensUsed + env(i).llm.tokens, |log|,
                         Steps(env, i + 1)))
  {
    hide Transcript, ToolLog, Tokens, Names, ToolMessages, IsToolAllowed, AllAllowed, Steps, AllGoOn, RunsUpTo;
    RecordTurn(env, i);
    LastGoOn(env, ctx, i);
    assert before + Said(env(i), k) == ctx.history + (Transcript(env, i) + Said(env(i), k));
  }

  lemma LastGoOn(env: nat -> Turn, ctx: Context, n: nat)
    requires AllGoOn(env, ctx, n)
    ensures forall i: nat :: i < n ==> !IsFinal(env(i).llm)
    ensures GoesOn(env, ctx, n) ==> AllGoOn(env, ctx, n + 1)
  {
    hide RunsUpTo, IsFinal, ToolLog, IsRecorded;
    forall i: nat | i < n ensures !IsFinal(env(i).llm) {
      assert GoesOn(env, ctx, i);
    }
  }

  lemma GoingOn(env: nat -> Turn, ctx: Context, i: nat)
    requires GoesOn(env, ctx, i)
    ensures Responds(env, i + 1) && TokensLeft(env, ctx, i)
  {
  }

  lemma NextHead(env: nat -> Turn, ctx: Context, i: nat, before: seq<Message>, ran: seq<string>, start: Result,
      tokensUsed: int)
    requires AtHead(env, ctx, i, before, ran, start, tokensUsed) && GoesOn(env, ctx, i)
    requires env(i).llm.Response?
    requires var log := ran + Names(env(i).llm.toolCalls);
             && AllAllowed(log, ctx.allowedTools) && (ctx.limits.maxToolCalls > 0 ==> |log| <= ctx.limits.maxToolCalls)
    ensures Responds(env, i + 1)
    ensures AtHead(env, ctx, i + 1, before + Said(env(i), |env(i).llm.toolCalls|), ran + Names(env(i).llm.toolCalls),
                   start.(stepResults := Steps(env, i + 1)), tokensUsed + env(i).llm.tokens)
  {
    HeadGoesOn(env, ctx, i, before, ran, start, tokensUsed);
    LastGoOn(env, ctx, i);
    GoingOn(env, ctx, i);
    RecordTurn(env, i);
    SaidAfter(ctx.history, Transcript(env, i), Said(env(i), |env(i).llm.toolCalls|));
    hide AllGoOn, GoesOn, Said, Transcript, ToolLog, Tokens, Names, AllAllowed, Steps, Responds, IsFinal;
  }

  lemma SaidAfter(a: seq<Message>, b: seq<Message>, c: seq<Message>)
    ensures a + b + c == a + (b + c)
  {
  }

  lemma StartOfRun(env: nat -> Turn, ctx: Context)
    ensures AtHead(env, ctx, 0, ctx.history, [], Result(ctx.id, Running, "", "", 0, 0, []), 0)
  {
    assert ctx.history + [] == ctx.history;
  }

  lemma HeadShape(env: nat -> Turn, ctx: Context, i: nat, conversation: seq<Message>, log: seq<string>,
      result: Result, tokensUsed: int)
    requires AtHead(env, ctx, i, conversation, log, result, tokensUsed)
    ensures Responds(env, i) && result == Result(ctx.id, Running, "", "", 0, 0, Steps(env, i))
    ensures AllAllowed(log, ctx.allowedTools) && (ctx.limits.maxToolCalls > 0 ==> |log| <= ctx.limits.maxToolCalls)
    ensures |log| == |ToolLog(env, i)| && tokensUsed == Tokens(Steps(env, i))
    ensures ctx.limits.maxTokens > 0 ==> tokensUsed <= ctx.limits.maxTokens
  {
  }

  /** The second half of the loop body: the response is recorded and its tool calls are run. */
  method RunResponse(ctx: Context, i: nat, env: nat -> Turn, conversation0: seq<Message>, log0: seq<string>,
      result0: Result, tokens0: int)
    returns (exit: Option<Exit>, conversation: seq<Message>, log: seq<string>, attempted: seq<string>, result: Result,
        ghost k: nat)
    requires AtHead(env, ctx, i, conversation0, log0, result0, tokens0) && IsRecorded(env, ctx, i)
    ensures exit.None? ==> AtHead(env, ctx, i + 1, conversation, log, result, tokens0 + env(i).llm.tokens)
    ensures exit.Some? ==> exit.value != IterationsOver && !BeforeRecord(exit.value)
                           && Ended(env, ctx, exit.value, i + 1, k, conversation, log, attempted, result)
  {
    hide Transcript, ToolLog, Tokens, Names, ToolMessages, IsToolAllowed, AllAllowed, Ended, Steps, AtHead, Outcome;
    hide RunsUpTo;
    HeadShape(env, ctx, i, conversation0, log0, result0, tokens0);
    var turn, resp, tokensUsed := env(i), env(i).llm, tokens0 + env(i).llm.tokens;
    log, attempted := log0, log0;
    conversation := conversation0 + [Message("assistant", resp.content)];
    result := result0.(stepResults := result0.stepResults + [StepResult(i + 1, resp.content, resp.tokens)]);
    RecordTurn(env, i);
    k := 0;
    if resp.finishReason == "end_turn" || |resp.toolCalls| == 0 {
      exit := Some(Finished);
      assert log0 + [] == log0 && conversation == conversation0 + Said(turn, 0);
      NoneRun(ctx, turn, |log0|);
      EndsInTurn(env, ctx, Finished, i, 0, conversation0, log0, log0, result0, tokens0, resp.content, "");
      result := Finalize(result.(output := resp.content), Complete, "", tokensUsed, |log|);
      return;
    }
    var said, names, tried, stop, message, n := RunTools(ctx, turn, |log|);
    conversation, log, attempted, k := conversation + said, log + names, log + tried, n;
    assert conversation == conversation0 + Said(turn, n);
    AllowedConcat(log0, tried, ctx.allowedTools);
    if stop.Some? {
      exit := stop;
      if stop == Some(ToolFailed) {
        assert attempted == log + [resp.toolCalls[n].name];
      }
      EndsInTurn(env, ctx, stop.value, i, n, conversation0, log0, attempted, result0, tokens0, "", message);
      result := Finalize(result, Error, message, tokensUsed, |log|);
      return;
    }
    if !ctx.limits.IsWithin(tokensUsed, |log|, turn.elapsedAfter) {
      exit := Some(LimitsAfter);
      EndsInTurn(env, ctx, LimitsAfter, i, n, conversation0, log0, attempted, result0, tokens0, "",
          "resource limits exceeded after tool calls");
      result := Finalize(result, Error, "resource limits exceeded after tool calls", tokensUsed, |log|);
      return;
    }
    exit := None;
    NextHead(env, ctx, i, conversation0, log0, result0, tokens0);
  }

  /** The body of the loop: one turn, from the head of iteration i to its end or to a return. */
  method RunTurn(ctx: Context, i: nat, env: nat -> Turn, conversation0: seq<Message>, log0: seq<string>,
      result0: Result, tokens0: int)
    returns (exit: Option<Exit>, conversation: seq<Message>, log: seq<string>, attempted: seq<string>, result: Result,
             tokensUsed: int, ghost turns: nat, ghost k: nat)
    requires AtHead(env, ctx, i, conversation0, log0, result0, tokens0)
    ensures exit.None? ==> AtHead(env, ctx, i + 1, conversation, log, result, tokensUsed)
    ensures exit.Some? ==> exit.value != IterationsOver
                           && turns == (if BeforeRecord(exit.value) then i else i + 1)
                           && Ended(env, ctx, exit.value, turns, k, conversation, log, attempted, result)
  {
    hide Transcript, ToolLog, Tokens, Names, ToolMessages, IsToolAllowed, AllAllowed, Ended, Steps, AtHead, Outcome;
    hide RunsUpTo;
    HeadShape(env, ctx, i, conversation0, log0, result0, tokens0);
    var turn := env(i);
    conversation, log, attempted, result, tokensUsed := conversation0, log0, log0, result0, tokens0;
    turns, k := i, LastCalls(env, i);
    if turn.cancelled {
      exit := Some(ContextDone);
      EndsAtHead(env, ctx, ContextDone, i, conversation, log, result, tokensUsed, tokensUsed, "execution cancelled");
      result := Finalize(result, Cancelled, "execution cancelled", tokensUsed, |log|);
      return;
    }
    if !ctx.limits.IsWithin(tokensUsed, |log|, turn.elapsed) {
      exit := Some(LimitsBefore);
      EndsAtHead(env, ctx, LimitsBefore, i, conversation, log, result, tokensUsed, tokensUsed,
          "resource limits exceeded");
      result := Finalize(result, Timeout, "resource limits exceeded", tokensUsed, |log|);
      return;
    }
    if turn.llm.LlmError? {
      exit := Some(LlmFailed);
      var message := "LLM error: " + turn.llm.error;
      EndsAtHead(env, ctx, LlmFailed, i, conversation, log, result, tokensUsed, tokensUsed, message);
      result := Finalize(result, Error, message, tokensUsed, |log|);
      return;
    }
    var resp := turn.llm;
    tokensUsed := tokensUsed + resp.tokens;
    if ctx.limits.maxTokens > 0 && tokensUsed > ctx.limits.maxTokens {
      exit := Some(TokenLimit);
      EndsAtHead(env, ctx, TokenLimit, i, conversation, log, result, tokens0, tokensUsed, "token limit exceeded");
      result := Finalize(result, Error, "token limit exceeded", tokensUsed, |log|);
      return;
    }
    exit, conversation, log, attempted, result, k := RunResponse(ctx, i, env, conversation, log, result, tokens0);
    turns := i + 1;
  }

  lemma AllowedConcat(xs: seq<string>, ys: seq<string>, allowed: Option<seq<string>>)
    requires AllAllowed(xs, allowed) && AllAllowed(ys, allowed)
    ensures AllAllowed(xs + ys, allowed)
  {
  }

  /** The whole execution. `log` lists the tools that were run successfully, `attempted` also one that
      failed; `turns` turns were recorded, with k tool results in the last. */
  method Execute(ctx: Context, maxIterations: nat, env: nat -> Turn)
    returns (result: Result, conversation: seq<Message>, log: seq<string>, attempted: seq<string>,
             exit: Exit, ghost turns: nat, ghost k: nat)
    ensures Ended(env, ctx, exit, turns, k, conversation, log, attempted, result) && turns <= maxIterations
    ensures ExitsExactly(env, ctx, maxIterations, exit, turns, k) && Responds(env, turns)
    ensures ctx.history <= conversation && |conversation| == |ctx.history| + turns + |log|
    ensures result.status.IsTerminal() && (ctx.id != "" ==> result.IsValid())
    ensures exit == Finished
       <==> turns > 0 && (env(turns - 1).llm.finishReason == "end_turn" || env(turns - 1).llm.toolCalls == [])
    ensures result.status == Complete <==> exit == Finished
    ensures result.status == Cancelled <==> exit == ContextDone
    ensures result.status == Timeout <==> exit == LimitsBefore
  {
    hide Ended, AtHead, ExitsExactly, Responds;
    result := Result(ctx.id, Running, "", "", 0, 0, []);
    conversation, log, attempted := ctx.history, [], [];
    var tokensUsed := 0;
    var stop: Option<Exit> := None;
    var i := 0;
    StartOfRun(env, ctx);
    while i < maxIterations
      invariant i <= maxIterations && AtHead(env, ctx, i, conversation, log, result, tokensUsed)
    {
      stop, conversation, log, attempted, result, tokensUsed, turns, k :=
        RunTurn(ctx, i, env, conversation, log, result, tokensUsed);
      if stop.Some? {
        exit := stop.value;
        EndedMeans(env, ctx, maxIterations, exit, turns, k, conversation, log, attempted, result);
        return;
      }
      i := i + 1;
    }
    HeadShape(env, ctx, i, conversation, log, result, tokensUsed);
    turns, k, attempted := i, LastCalls(env, i), log;
    exit := IterationsOver;
    EndsAtHead(env, ctx, exit, i, conversation, log, result, tokensUsed, tokensUsed, "max iterations reached");
    result := Finalize(result, Error, "max iterations reached", tokensUsed, |log|);
    EndedMeans(env, ctx, maxIterations, exit, turns, k, conversation, log, attempted, result);
  }

  /** Each exit is taken exactly on its own guard, in the order of the checks, once all turns before have
      gone on; the exits inside a turn come exactly when that turn does not go on. */
  ghost predicate ExitsExactly(env: nat -> Turn, ctx: Context, maxIterations: nat, exit: Exit, turns: nat, k: nat) {
    && Responds(env, turns) && turns <= maxIterations && (turns > 0 ==> k <= |env(turns - 1).llm.toolCalls|)
    && (forall i: nat :: i < turns ==> IsRecorded(env, ctx, i) && (i < turns - 1 ==> GoesOn(env, ctx, i)))
    && (exit == IterationsOver <==> turns == maxIterations && AllGoOn(env, ctx, turns))
    && (exit == ContextDone <==> turns < maxIterations && AllGoOn(env, ctx, turns) && env(turns).cancelled)
    && (exit == LimitsBefore
        <==> && turns < maxIterations && AllGoOn(env, ctx, turns) && !env(turns).cancelled
             && !InTime(ctx, env(turns).elapsed))
    && (exit == LlmFailed
        <==> && turns < maxIterations && AllGoOn(env, ctx, turns) && !env(turns).cancelled
             && InTime(ctx, env(turns).elapsed) && env(turns).llm.LlmError?)
    && (exit == TokenLimit
        <==> && turns < maxIterations && AllGoOn(env, ctx, turns) && !env(turns).cancelled
             && InTime(ctx, env(turns).elapsed) && env(turns).llm.Response? && !TokensLeft(env, ctx, turns))
    && (exit != IterationsOver && !BeforeRecord(exit)
        <==> turns > 0 && !GoesOn(env, ctx, turns - 1))
    && (exit != IterationsOver && !BeforeRecord(exit) ==> EndsAfter(env, ctx, turns - 1, exit, k))
  }

  /** A turn that ends the run after its response does not go on. */
  lemma EndingTurn(env: nat -> Turn, ctx: Context, i: nat, exit: Exit, k: nat)
    requires Responds(env, i + 1) && k <= |env(i).llm.toolCalls| && EndsAfter(env, ctx, i, exit, k)
    ensures !GoesOn(env, ctx, i)
  {
    hide Tokens, Steps, ToolLog, IsToolAllowed, RunsUpTo;
    var made, n := |ToolLog(env, i)|, |env(i).llm.toolCalls|;
    if k < n && RunsUpTo(ctx, env(i), made, n) {
      RunsAt(ctx, env(i), made, n, k);
    }
  }

  lemma RunsAt(ctx: Context, turn: Turn, made: nat, n: nat, j: nat)
    requires turn.llm.Response? && j < n <= |turn.llm.toolCalls| && RunsUpTo(ctx, turn, made, n)
    ensures !(ctx.limits.maxToolCalls > 0 && made + j >= ctx.limits.maxToolCalls)
    ensures IsToolAllowed(turn.llm.toolCalls[j].name, ctx.allowedTools) && turn.tool(j).ToolOk?
  {
  }

  lemma DecidedExactly(env: nat -> Turn, ctx: Context, maxIterations: nat, exit: Exit, turns: nat, k: nat)
    requires Responds(env, turns) && turns <= maxIterations && (turns > 0 ==> k <= |env(turns - 1).llm.toolCalls|)
    requires Decided(env, ctx, exit, turns, k)
    requires exit == IterationsOver ==> turns == maxIterations
    requires BeforeRecord(exit) ==> turns < maxIterations
    ensures ExitsExactly(env, ctx, maxIterations, exit, turns, k)
  {
    hide GoesOn, IsRecorded, EndsAfter, TokensLeft, InTime;
    forall i: nat | i < turns ensures IsRecorded(env, ctx, i) && (i < turns - 1 ==> GoesOn(env, ctx, i)) {
      if GoesOn(env, ctx, i) {
        GoesOnIsRecorded(env, ctx, i);
      }
    }
    if exit != IterationsOver && !BeforeRecord(exit) {
      EndingTurn(env, ctx, turns - 1, exit, k);
    } else if turns > 0 {
      assert GoesOn(env, ctx, turns - 1);
    }
  }

  lemma GoesOnIsRecorded(env: nat -> Turn, ctx: Context, i: nat)
    requires GoesOn(env, ctx, i)
    ensures IsRecorded(env, ctx, i)
  {
  }

  lemma EndedMeans(env: nat -> Turn, ctx: Context, maxIterations: nat, exit: Exit, turns: nat, k: nat,
                   conversation: seq<Message>, log: seq<string>, attempted: seq<string>, result: Result)
    requires Ended(env, ctx, exit, turns, k, conversation, log, attempted, result) && turns <= maxIterations
    requires exit == IterationsOver ==> turns == maxIterations
    requires BeforeRecord(exit) ==> turns < maxIterations
    ensures ExitsExactly(env, ctx, maxIterations, exit, turns, k) && Responds(env, turns)
    ensures ctx.history <= conversation && |conversation| == |ctx.history| + turns + |log|
    ensures result.status.IsTerminal() && (ctx.id != "" ==> result.IsValid())
    ensures exit == Finished
       <==> turns > 0 && (env(turns - 1).llm.finishReason == "end_turn" || env(turns - 1).llm.toolCalls == [])
    ensures result.status == Complete <==> exit == Finished
    ensures result.status == Cancelled <==> exit == ContextDone
    ensures result.status == Timeout <==> exit == LimitsBefore
  {
    hide Decided, ExitsExactly, Transcript, ToolLog, Tokens, Steps, AllAllowed;
    DecidedExactly(env, ctx, maxIterations, exit, turns, k);
    if turns > 0 {
      TranscriptLength(env, turns - 1);
      SaidLength(env(turns - 1), k);
    }
  }

  // ---------- the conversation, message by message ----------

  lemma {:induction false} SaidLength(turn: Turn, k: nat)
    requires turn.llm.Response? && k <= |turn.llm.toolCalls|
    ensures |Said(turn, k)| == 1 + k && |ToolMessages(turn, k)| == k
  {
    if k > 0 {
      SaidLength(turn, k - 1);
    }
  }

  lemma {:induction false} TranscriptLength(env: nat -> Turn, n: nat)
    requires Responds(env, n)
    ensures |Transcript(env, n)| == n + |ToolLog(env, n)|
  {
    if n > 0 {
      TranscriptLength(env, n - 1);
      SaidLength(env(n - 1), |env(n - 1).llm.toolCalls|);
    }
  }

  /** What tool call j of the turn answered, as the assistant is told. */
  ghost predicate IsToolResult(m: Message, turn: Turn, j: nat)
    requires turn.llm.Response? && j < |turn.llm.toolCalls|
  {
    turn.tool(j).ToolOk? ==>
      m.role == "user" && m.content == "Tool result from " + turn.llm.toolCalls[j].name + ": " + turn.tool(j).text
  }

  /** The first n tool results of the turn stand behind position at. */
  ghost predicate ToldAfter(messages: seq<Message>, at: nat, turn: Turn, n: nat)
    requires turn.llm.Response? && n <= |turn.llm.toolCalls| && at + n < |messages|
  {
    forall p :: at < p <= at + n ==> IsToolResult(messages[p], turn, p - at - 1)
  }

  lemma ToldAfterMoves(messages: seq<Message>, more: seq<Message>, at: nat, to: nat, turn: Turn, n: nat)
    requires turn.llm.Response? && n <= |turn.llm.toolCalls| && at + n < |messages| && to + n < |more|
    requires ToldAfter(messages, at, turn, n) && more[to..to + n + 1] == messages[at..at + n + 1]
    ensures ToldAfter(more, to, turn, n) && more[to] == messages[at]
  {
    hide IsToolResult;
    assert more[to] == more[to..to + n + 1][0] == messages[at..at + n + 1][0];
    forall p | to < p <= to + n ensures IsToolResult(more[p], turn, p - to - 1) {
      assert more[p] == more[to..to + n + 1][p - to] == messages[at..at + n + 1][p - to] == messages[p - to + at];
    }
  }

  lemma SaidIsTold(turn: Turn, n: nat)
    requires turn.llm.Response? && n <= |turn.llm.toolCalls|
    ensures |Said(turn, n)| == n + 1 && ToldAfter(Said(turn, n), 0, turn, n)
    ensures Said(turn, n)[0] == Message("assistant", turn.llm.content)
  {
    hide IsToolResult, ToolMessages;
    SaidLength(turn, n);
    forall p | 0 < p <= n ensures IsToolResult(Said(turn, n)[p], turn, p - 1) {
      ToolMessageAt(turn, n, p - 1);
    }
  }

  lemma {:induction false} ToolMessageAt(turn: Turn, k: nat, j: nat)
    requires turn.llm.Response? && j < k <= |turn.llm.toolCalls|
    ensures |ToolMessages(turn, k)| == k && IsToolResult(ToolMessages(turn, k)[j], turn, j)
    decreases k
  {
    SaidLength(turn, k);
    SaidLength(turn, k - 1);
    if j < k - 1 {
      ToolMessageAt(turn, k - 1, j);
    }
  }

  lemma {:induction false} TranscriptAt(env: nat -> Turn, n: nat, i: nat)
    requires Responds(env, n) && i < n
    ensures var at, calls := i + |ToolLog(env, i)|, |env(i).llm.toolCalls|;
            && at + calls < |Transcript(env, n)|
            && Transcript(env, n)[at] == Message("assistant", env(i).llm.content)
            && ToldAfter(Transcript(env, n), at, env(i), calls)
    decreases n
  {
    hide ToldAfter, Said;
    var calls := |env(n - 1).llm.toolCalls|;
    var before, said := Transcript(env, n - 1), Said(env(n - 1), calls);
    TranscriptLength(env, n - 1);
    SaidIsTold(env(n - 1), calls);
    assert Transcript(env, n) == before + said;
    var at := i + |ToolLog(env, i)|;
    if i < n - 1 {
      TranscriptAt(env, n - 1, i);
      var m := |env(i).llm.toolCalls|;
      assert (before + said)[at..at + m + 1] == before[at..at + m + 1];
      ToldAfterMoves(before, before + said, at, at, env(i), m);
    } else {
      assert (before + said)[at..at + calls + 1] == said[0..calls + 1];
      ToldAfterMoves(said, before + said, 0, at, env(i), calls);
    }
  }

  /** What Execute leaves: after the forked history, each turn's answer followed by the results of its tools,
      in order; and one numbered step for each turn. */
  lemma RecordsOfTurn(env: nat -> Turn, ctx: Context, exit: Exit, turns: nat, k: nat,
                      conversation: seq<Message>, log: seq<string>, result: Result, i: nat)
    requires Outcome(env, ctx, exit, turns, k, conversation, log, result) && i < turns
    ensures |result.stepResults| == turns
    ensures result.stepResults[i] == StepResult(i + 1, env(i).llm.content, env(i).llm.tokens)
    ensures var at, done := |ctx.history| + i + |ToolLog(env, i)|, if i == turns - 1 then k else |env(i).llm.toolCalls|;
            && at + done < |conversation|
            && conversation[at] == Message("assistant", env(i).llm.content)
            && ToldAfter(conversation, at, env(i), done)
  {
    hide *;
    OutcomeRecords(env, ctx, exit, turns, k, conversation, log, result);
    StepAt(env, turns, i);
    MessagesOfTurn(env, ctx.history, turns, k, i);
  }

  lemma OutcomeRecords(env: nat -> Turn, ctx: Context, exit: Exit, turns: nat, k: nat,
                       conversation: seq<Message>, log: seq<string>, result: Result)
    requires Outcome(env, ctx, exit, turns, k, conversation, log, result) && turns > 0
    ensures Responds(env, turns) && k <= |env(turns - 1).llm.toolCalls|
    ensures conversation == ctx.history + (Transcript(env, turns - 1) + Said(env(turns - 1), k))
    ensures result.stepResults == Steps(env, turns)
  {
  }

  lemma MessagesOfTurn(env: nat -> Turn, history: seq<Message>, turns: nat, k: nat, i: nat)
    requires Responds(env, turns) && i < turns && k <= |env(turns - 1).llm.toolCalls|
    ensures var all := history + (Transcript(env, turns - 1) + Said(env(turns - 1), k));
            var at, done := |history| + i + |ToolLog(env, i)|, if i == turns - 1 then k else |env(i).llm.toolCalls|;
            && at + done < |all| && all[at] == Message("assistant", env(i).llm.content)
            && ToldAfter(all, at, env(i), done)
  {
    hide ToldAfter, Said, Transcript;
    var before, said := Transcript(env, turns - 1), Said(env(turns - 1), k);
    var all, place := history + (before + said), i + |ToolLog(env, i)|;
    var at := |history| + place;
    TranscriptLength(env, turns - 1);
    SaidIsTold(env(turns - 1), k);
    if i < turns - 1 {
      TranscriptAt(env, turns - 1, i);
      var m := |env(i).llm.toolCalls|;
      assert all[at..at + m + 1] == before[place..place + m + 1];
      ToldAfterMoves(before, all, place, at, env(i), m);
    } else {
      assert all[at..at + k + 1] == said[0..k + 1];
      ToldAfterMoves(said, all, 0, at, env(i), k);
    }
  }

  lemma {:induction false} StepAt(env: nat -> Turn, n: nat, i: nat)
    requires Responds(env, n) && i < n
    ensures Steps(env, n)[i] == StepResult(i + 1, env(i).llm.content, env(i).llm.tokens)
    decreases n
  {
    if i < n - 1 {
      StepAt(env, n - 1, i);
    }
  }

  function Finalize(result: Result, status: Status, errorMessage: string, tokensUsed: int, toolCallsMade: nat): Result {
    result.(status := status, errorMessage := errorMessage, tokensUsed := tokensUsed, toolCallsMade := toolCallsMade)
  }
}
