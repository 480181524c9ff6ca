/** Subagent values (internal/domain/subagent.go). Durations are nanoseconds. */
module Subagent {
  import opened Text

  datatype Status = Pending | Running | Complete | Error | Timeout | Cancelled {
    predicate IsTerminal() {
      Complete? || Error? || Timeout? || Cancelled?
    }
  }

  datatype Limits = Limits(maxTokens: int, maxToolCalls: int, timeout: int) {
    predicate IsWithin(tokensUsed: int, toolCallsMade: int, elapsed: int) {
      && !(maxTokens > 0 && tokensUsed > maxTokens)
      && !(maxToolCalls > 0 && toolCallsMade > maxToolCalls)
      && !(timeout > 0 && elapsed > timeout)
    }
  }

  datatype Message = Message(role: string, content: string)

  /** A nil tool list (None) allows every tool, an empty one allows none. */
  datatype Context = Context(
    id: string, parentContextID: string, skillName: string,
    allowedTools: Option<seq<string>>, limits: Limits, history: seq<Message>)
  {
    predicate IsValid() {
      && id != "" && parentContextID != "" && skillName != ""
      && limits.timeout > 0 && limits.maxTokens >= 0 && limits.maxToolCalls >= 0
    }
  }

  datatype StepResult = StepResult(stepNumber: nat, result: string, tokensUsed: int)

  datatype Result = Result(
    subagentID: string, status: Status, output: string, errorMessage: string,
    tokensUsed: int, toolCallsMade: nat, stepResults: seq<StepResult>)
  {
    predicate IsValid() {
      subagentID != "" && (status == Error ==> errorMessage != "")
    }
  }
}
