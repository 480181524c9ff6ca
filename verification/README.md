# NuimanBot: verified models of its stateful core

A Dafny 4.11 project that models the self-contained state machines and text transformations of
NuimanBot and proves properties of them over all inputs, all runs and all interleavings.
`dafny verify dfyconfig.toml` checks everything.

Where the Go code updates fields in place, the model is a class whose methods are proved equal to a step
of a value-level state machine; the theorems are then about every run of that machine. Where the Go code is
a loop over local variables, the model is a method with that loop, proved against a specification function.
Time, randomness, I/O results, LLM replies, tool results and command output are parameters.

| module | what it models |
|---|---|
| `SkillTemplate`, `SkillOutput` | argument substitution: a chain of rewriting passes against one left-to-right scan and against the documentation; which arguments and command outputs the passes leave alone |
| `TokenBuckets`, `KeyedLimiter`, `LimiterBounds` | the token bucket over real-valued tokens; one bucket per user and action; what a configured limit grants |
| `Batcher`, `BatcherGuarantees` | producers, one background runner, explicit flushes and Stop as interleaved atomic steps; what is saved, and in which order |
| `CircuitBreaker`, `Retry`, `ResilientService` | the breaker's two critical sections, exponential backoff in int64, and their composition |
| `Subagent`, `SubagentExecutor`, `Lifecycle` | the bounded agent loop with its accounting; the start, cancel and publish protocol |
| `VersionedVault`, `KeyRotation`, `VaultInterleaving` | versioned credentials over any correct authenticated cipher; key rotation as a refinement of a plain map, operation by operation and then over every interleaving of the critical sections |
| `Preprocess`, `PreprocessAgreement` | two independent automata for `!command` blocks, one grammar, and exactly where they agree |
| `ContextWindow` | the running-total query and the window built from its rows |
| `LlmCache`, `ChatLoop`, `ChatCache`, `ConversationKeys` | the response cache against a log of Sets; the tool loop that uses it; concurrent messages; when a key identifies its conversation |
| `SkillVersion`, `SkillConstraints`, `SkillPrecedence` | parsing, printing, ordering, constraints and resolution of versions; what their texts mean; the order against Semantic Versioning 2.0.0 |
| `Text` | numerals, joining, replacing and trimming |

## Where code and documentation differ

The models follow the code. Each difference below is proved, with the exact condition under which the code
does what is promised.

- `$$` is documented as an escape, but `$$0` is still substituted (`EscapeHonouredIff`). An argument that holds
  a dollar is substituted again (`DollarArgumentRereadIff`, `ArgumentsRereadIff`), and so can be one whose
  digits complete an earlier numeral (`DigitArgumentIsReread`). Command output is substituted like the rest of the body
  (`OutputSurvivesIff`).
- A limit of n requests per window grants up to n and what refills meanwhile, 2n in most cases, within one
  window (`WithinOneWindow`, `BoundIsReached`, `RefillsAreRequestsIff`). `Reset` is meant for one user but drops
  every user whose name extends the given one (`ResetReach`), and names with a colon can share a bucket
  (`KeysCollideIff`).
- An explicit `Flush` that is still saving breaks both the order of saving and the guarantee of `Stop`
  (`FlushBreaksGuarantees`; exactly when: `StopSavesEverythingIff`, `SavedInOrderIff`, `CleanStop`).
- The half-open breaker is documented to let a single test request through; it lets in every call that
  arrives before the first one returns (`HalfOpenAdmitsAll`).
- The first retry delay is never capped and the first retry is not counted (`CappedDelay`,
  `RetryPolicy.Retry`); with no attempts allowed `Retry` reports success without a call; a doubling that leaves
  int64 wraps around (`UncappedDelay`, `DelayOverflows`). Rejected calls still use up retries
  (`DeadServiceEndsRejected`).
- A cancelled subagent's status is overwritten by the result that comes later (`PublishedResultWins`), and
  `Shutdown` does not wait for the goroutines it cancelled (`ShutdownDoesNotWait`, `ShutdownEnds`).
- Rotation is documented to need no downtime (documentation/technical-details.md:324), but no lock spans a
  store or a re-encryption: a store can be lost under a re-encryption (`StoreIsLost`) or left under a removed
  version (`StoreIsStranded`). `RunHoldsIff` says exactly when nothing is lost, `CalmRunHolds` gives a discipline
  that suffices.
- Key versions outside the uint32 range are truncated in the header (`HeaderRoundTrip`, `StoredReadsBackIff`).
  The vault's map is changed before the file is written, so a failed save still changes it (`StoreReadsBack`),
  and can break the file (`SaveToFile`).
  Rotation never reaches the key of the vault file itself (`FileKeyNeverRotates`).
- The parser and the renderer of `!command` blocks disagree exactly on blocks cut off by another `!command`
  and on empty blocks ended by a blank line (`ParserMeetsRenderer`); parsed positions can end one byte past
  the content (`EndOffset`).
- Room for the response is lost when the caller's limit lies just below the provider's (`ReserveKeptIff`).
  Messages with equal timestamps are kept or dropped together (`RecentIsLongestSuffix`).
- A cache hit is written back: it renews the entry for ever (`HitsRenew`) and can evict another one
  (`ResetCanEvict`); written back late, it puts an older answer over a newer one (`LateWriteBack`). A cache key
  identifies its conversation exactly if that is a single message whose text is free of separators: any longer
  conversation can be typed as the text of one message (`ConversationsCollide`, `KeyIdentifiesIff`,
  `HitCanBeForeign`).
- `Compare` ignores pre-release versions, so it is not the precedence of section 11 of Semantic
  Versioning 2.0.0 (`CompareAgreesIff`), and resolution can prefer a pre-release to its release
  (`PreReleaseBeatsRelease`, `ResolutionHasPrecedenceIff`).

## Model

| member | source | states |
|---|---|---|
| `SkillTemplate.SubstituteArguments` | internal/usecase/skill/renderer.go:57-79 | the loop is the chain of passes; for dollar-free arguments none of which completes a numeral to an existing index it equals one scan of a body without `$$`; where no pass can mistake earlier output it meets the documentation exactly if no escape is lost |
| `SkillTemplate.PassesAreScanThenUnescape` | internal/usecase/skill/renderer.go:57-79 | for every body, the passes are one left-to-right scan followed by pairing off adjacent dollars |
| `SkillTemplate.PassesAreOneScan` | internal/usecase/skill/renderer.go:57-79 | without `$$` in the body, and with no argument that begins with, or is the beginning of, the last digits of an existing index, the passes are exactly one scan |
| `SkillTemplate.OpaqueIsTight` | internal/usecase/skill/renderer.go:66-72 | arguments that are not empty and not digit-initial meet that condition |
| `SkillTemplate.FewAreTight` | internal/usecase/skill/renderer.go:66-72 | and so do at most ten arguments of any kind |
| `SkillTemplate.ScanTakesLongestNumeral` | internal/usecase/skill/renderer.go:66-72 | the index the scan takes is the longest numeral of an existing argument, and unique: what processing indices in descending order is for |
| `SkillTemplate.OnePass` | internal/usecase/skill/renderer.go:69-72 | the pass for index k turns the scan that knows the indices above k into the scan that knows k too |
| `SkillTemplate.ArgumentsPass` | internal/usecase/skill/renderer.go:60-64 | the first pass is the scan that knows `$ARGUMENTS` only |
| `SkillTemplate.EscapeHonouredIff` | internal/usecase/skill/renderer.go:45-79 | where no pass can mistake earlier output, the result is the documented one exactly if no `$$` stands directly before the rest of a placeholder (an escaped `$ARGUMENTS` being harmless when the arguments spell that word) |
| `SkillTemplate.TextsStayDifferent` | internal/usecase/skill/renderer.go:60-76 | once code and documentation have written different dollar-free texts, no rest of the body makes up for it |
| `SkillOutput.DollarArgumentRereadIff` | internal/usecase/skill/renderer.go:69-76 | with dollar-free arguments below i, a body `$i` gives argument i itself exactly if that argument holds no `$$` and no placeholder of a lower index |
| `SkillOutput.ArgumentsRereadIff` | internal/usecase/skill/renderer.go:60-76 | a body `$ARGUMENTS` gives the joined arguments themselves exactly if these hold no `$$` and no placeholder of an existing index, whenever the arguments they refer to are clean; the others may hold dollars |
| `SkillOutput.ReferencesShow` | internal/usecase/skill/renderer.go:69-72 | the same for the index passes over any text |
| `SkillOutput.DigitArgumentIsReread` | internal/usecase/skill/renderer.go:69-72 | for every argument that is the last digits of a lower existing index l: behind the shorter numeral the passes write argument l, where the scan writes the argument of that numeral and then the digits |
| `SkillOutput.UnchangedIff` | internal/usecase/skill/renderer.go:57-79 | a text comes through all passes unchanged exactly if it holds no placeholder and no `$$` |
| `SkillOutput.PassesOfJoin` | internal/usecase/skill/renderer.go:57-79 | substitution works line by line, whatever the arguments hold |
| `SkillOutput.Render` | internal/usecase/skill/preprocess_renderer.go:31-51 | preprocessing, then substitution of every rendered line |
| `SkillOutput.OutputIsSubstituted` | internal/usecase/skill/preprocess_renderer.go:35-50 | substitution reaches the lines outside blocks and the output of every command alike, and leaves the fences alone |
| `SkillOutput.OutputSurvivesIff` | internal/usecase/skill/preprocess_renderer.go:35-50 | rendering leaves the output of all commands as it was exactly if none of it holds a placeholder or `$$` |
| `TokenBuckets.TokenBucket.constructor` | internal/infrastructure/ratelimit/token_bucket.go:21-30 | a full bucket; its state is valid for a capacity and an interval that are not negative |
| `TokenBuckets.TokenBucket.Allow` | internal/infrastructure/ratelimit/token_bucket.go:34-57 | one locked call is one step of the bucket function, and keeps tokens within 0 and the capacity |
| `TokenBuckets.ServeKeepsValid` | internal/infrastructure/ratelimit/token_bucket.go:38-56 | with a clock that does not go back tokens stay within 0 and the capacity and refilling never takes any away |
| `TokenBuckets.RefillTwice` | internal/infrastructure/ratelimit/token_bucket.go:38-48 | lazy refilling in two steps is refilling in one |
| `TokenBuckets.GrantsArePaid` | internal/infrastructure/ratelimit/token_bucket.go:34-57 | conservation: grants plus remaining tokens never exceed starting tokens plus what the elapsed time earned |
| `TokenBuckets.WindowBound` | internal/infrastructure/ratelimit/token_bucket.go:34-57 | in every run and every interval of length w at most capacity + w * rate requests are granted |
| `TokenBuckets.GreedyIsOptimal` | internal/infrastructure/ratelimit/token_bucket.go:34-57 | at every prefix of every run no admissible choice has admitted more requests |
| `TokenBuckets.AnswersAreAdmissible` | internal/infrastructure/ratelimit/token_bucket.go:50-56 | what the bucket does is itself an admissible choice |
| `TokenBuckets.DeniedRequestsAreFree` | internal/infrastructure/ratelimit/token_bucket.go:34-57 | deleting any of the denied requests from a run changes no other answer |
| `KeyedLimiter.RateLimiter.constructor` | internal/infrastructure/ratelimit/token_bucket.go:74-79 | no buckets yet |
| `KeyedLimiter.RateLimiter.GetBucket` | internal/infrastructure/ratelimit/token_bucket.go:98-124 | returns the key's bucket, adding a fresh full one only if there was none |
| `KeyedLimiter.RateLimiter.Allow` | internal/infrastructure/ratelimit/token_bucket.go:83-95 | one call is one step of the limiter: only the bucket of its own key changes, and the limit is the action's own entry, or the default one if it has none |
| `KeyedLimiter.RateLimiter.AllowKey` | internal/infrastructure/ratelimit/token_bucket.go:92-94 | the bucket of the key is found or made, and answers |
| `KeyedLimiter.RateLimiter.Reset` | internal/infrastructure/ratelimit/token_bucket.go:128-138 | exactly the keys that properly extend the given name are gone, all other buckets are as before |
| `KeyedLimiter.PerKeyProjection` | internal/infrastructure/ratelimit/token_bucket.go:83-124 | the answers one user gets for one action are those of a lone bucket fed that pair's requests (and the resets that reach it), whatever other keys do in between |
| `KeyedLimiter.KeyInjective` | internal/infrastructure/ratelimit/token_bucket.go:91-91 | users without a colon never share a key |
| `KeyedLimiter.KeysCollideIff` | internal/infrastructure/ratelimit/token_bucket.go:91-91 | two pairs share a bucket exactly if they are the same, or one user's name goes on, after a colon, with the beginning of the other pair's action |
| `KeyedLimiter.ResetReach` | internal/infrastructure/ratelimit/token_bucket.go:126-138 | a reset drops exactly the buckets of the users whose name begins with the given one |
| `LimiterBounds.WindowEarns` | internal/infrastructure/ratelimit/token_bucket.go:116-120 | one window's time earns the window divided by the interval, one interval's time exactly one token |
| `LimiterBounds.RefillsAreRequestsIff` | internal/infrastructure/ratelimit/token_bucket.go:116-120 | one window refills at least the requests, and exactly those if the division leaves less than one interval |
| `LimiterBounds.WithinOneWindow` | internal/infrastructure/ratelimit/token_bucket.go:59-63 | every limit grants in one window at most its requests and what refills meanwhile; 2n when the division leaves less than one interval |
| `LimiterBounds.BoundIsReached` | internal/infrastructure/ratelimit/token_bucket.go:59-63 | every limit reaches that bound: all its requests at once, then one each interval, within one window |
| `LimiterBounds.SharedIsBucket` | internal/infrastructure/ratelimit/token_bucket.go:83-124 | without a reset that reaches it, what one user gets for one action from the shared limiter is what one token bucket answers, with the limit the table gives: the action's own entry first, the default only without one |
| `LimiterBounds.SharedWithinOneWindow` | internal/infrastructure/ratelimit/token_bucket.go:59-124 | so the window bound of that limit holds for each user and action of the shared limiter, whatever the others do |
| `LimiterBounds.SharedIsOptimal` | internal/infrastructure/ratelimit/token_bucket.go:34-124 | and at every prefix no admissible choice serves that user better |
| `LimiterBounds.OnlyOwnLimitMatters` | internal/infrastructure/ratelimit/token_bucket.go:84-88 | changing any other entry of the table, the default one too where the action has its own, changes no answer for the action |
| `Batcher.MessageBatcher.constructor` | internal/adapter/repository/sqlite/batcher.go:38-54 | the initial protocol state |
| `Batcher.MessageBatcher.AddLocked` | internal/adapter/repository/sqlite/batcher.go:59-67 | the locked append is one protocol step, and owes a send exactly if the buffer is full |
| `Batcher.MessageBatcher.TrySend` | internal/adapter/repository/sqlite/batcher.go:70-74 | the non-blocking send is one protocol step |
| `Batcher.MessageBatcher.Add` | internal/adapter/repository/sqlite/batcher.go:58-78 | an undisturbed Add is the append followed by the send it owes |
| `Batcher.MessageBatcher.DrainForRunner` | internal/adapter/repository/sqlite/batcher.go:126-135 | the runner's locked part takes the whole buffer, or ends the flush when it is empty |
| `Batcher.MessageBatcher.DrainForFlush` | internal/adapter/repository/sqlite/batcher.go:82-86 | the locked part of Flush takes the whole buffer |
| `Batcher.MessageBatcher.FlushItems` | internal/adapter/repository/sqlite/batcher.go:147-162 | exactly the items before the first save error reach the repository, in order, the error is reported, and the loop is a run of save steps of the protocol |
| `Batcher.MessageBatcher.DoFlush` | internal/adapter/repository/sqlite/batcher.go:123-141 | an undisturbed doFlush is a run of the protocol back to waiting: buffer empty, saved prefix of the buffer in the repository |
| `Batcher.MessageBatcher.Flush` | internal/adapter/repository/sqlite/batcher.go:81-89 | an undisturbed Flush is a run of the protocol that leaves the runner alone |
| `Batcher.StepKeepsInv` | internal/adapter/repository/sqlite/batcher.go:58-141 | every atomic step keeps conservation, prefix saving and no lost wake-up |
| `BatcherGuarantees.EveryInterleaving` | internal/adapter/repository/sqlite/batcher.go:58-162 | in every interleaving: drained batches followed by the buffer are the added sequence; the repository is an interleaving of the saved prefixes, each batch in its own order; before Stop a full buffer has a signal pending, being sent or just received |
| `BatcherGuarantees.EverythingSavedIff` | internal/adapter/repository/sqlite/batcher.go:58-162 | in every run, flushes included: the repository holds exactly the added items if and only if the buffer is empty and every batch was saved to its end |
| `BatcherGuarantees.OrderKeptIff` | internal/adapter/repository/sqlite/batcher.go:81-162 | items are saved in the order they were added whenever no batch is saved from after a later one, and with distinct items only then |
| `BatcherGuarantees.SavedInOrderIff` | internal/adapter/repository/sqlite/batcher.go:58-162 | with distinct items the repository equals the added sequence exactly if everything was saved and no save overtook another |
| `BatcherGuarantees.InTurnIsOrdered` | internal/adapter/repository/sqlite/batcher.go:81-141 | if every drain, explicit ones included, comes only when all earlier batches are finished, the order is kept |
| `BatcherGuarantees.NoFlushDrainsInTurn` | internal/adapter/repository/sqlite/batcher.go:91-141 | without explicit flushes every drain is in turn: the runner and Stop never overlap |
| `BatcherGuarantees.RunKeepsOwned` | internal/adapter/repository/sqlite/batcher.go:91-141 | only an explicit flush, the saving runner or Stop itself can hold an unfinished batch |
| `BatcherGuarantees.StopSavesEverythingIff` | internal/adapter/repository/sqlite/batcher.go:91-162 | when Stop has returned, the repository holds exactly the added items if and only if no save failed, nothing was added too late and no explicit flush is still saving |
| `BatcherGuarantees.CleanStop` | internal/adapter/repository/sqlite/batcher.go:91-100 | with no save error and no add after Stop began, all is saved exactly if every explicit flush has finished; and in order if drains came in turn |
| `BatcherGuarantees.CleanStopSavesAll` | internal/adapter/repository/sqlite/batcher.go:91-100 | with no explicit flush a clean Stop saves all, in order |
| `BatcherGuarantees.RunnerIsTriggered` | internal/adapter/repository/sqlite/batcher.go:103-135 | a tick, or a pending signal, makes a waiting runner take all that is buffered |
| `BatcherGuarantees.CanFlushAll` | internal/adapter/repository/sqlite/batcher.go:103-162 | nothing gets stuck: from every reachable state with the runner alive, and without another Add or signal, its own steps lead to an empty buffer with every batch finished |
| `BatcherGuarantees.CanStop` | internal/adapter/repository/sqlite/batcher.go:91-141 | from every reachable state before Stop there is a run in which Stop returns with nothing left |
| `BatcherGuarantees.FlushBreaksGuarantees` | internal/adapter/repository/sqlite/batcher.go:81-100 | for every batch size and two different items: an explicit flush in flight makes Stop return with one unsaved, and makes the two be saved out of order |
| `CircuitBreaker.CircuitBreaker.constructor` | internal/infrastructure/resilience/circuit_breaker.go:51-58 | a closed breaker with no failures |
| `CircuitBreaker.CircuitBreaker.CallEnter` | internal/infrastructure/resilience/circuit_breaker.go:61-76 | the first critical section of a call: the wake-up after the timeout, then admission |
| `CircuitBreaker.CircuitBreaker.RecordSuccess` | internal/infrastructure/resilience/circuit_breaker.go:94-103 | the successful exit, with a 64-bit counter |
| `CircuitBreaker.CircuitBreaker.RecordFailure` | internal/infrastructure/resilience/circuit_breaker.go:106-122 | the failing exit, with 64-bit and 32-bit counters |
| `CircuitBreaker.CircuitBreaker.IsHalfOpen` | internal/infrastructure/resilience/circuit_breaker.go:139-150 | the query that may change the state |
| `CircuitBreaker.StepKeepsInv` | internal/infrastructure/resilience/circuit_breaker.go:61-150 | every entry, exit and poll keeps: closed means below the threshold, and the counters count completed calls |
| `CircuitBreaker.EveryInterleaving` | internal/infrastructure/resilience/circuit_breaker.go:61-150 | so in every interleaving of calls from a fresh breaker; rejections and polls change no counter |
| `CircuitBreaker.OpenedByFailure` | internal/infrastructure/resilience/circuit_breaker.go:106-122 | only a failing exit opens the breaker, and it stamps its own time |
| `CircuitBreaker.NoStartWhileOpen` | internal/infrastructure/resilience/circuit_breaker.go:61-122 | after any step that opens the breaker at time t no guarded function starts up to t + resetTimeout, whatever calls in flight do |
| `CircuitBreaker.HalfOpenAdmitsAll` | internal/infrastructure/resilience/circuit_breaker.go:19-21 | from half-open, over any run of arrivals and polls at any times, exactly as many calls are in flight as arrived |
| `CircuitBreaker.AdmittedIff` | internal/infrastructure/resilience/circuit_breaker.go:64-74 | a caller is let in exactly if the breaker is not open, or the timeout has passed since its last failure; it is then half-open, and a poll at that time says so |
| `CircuitBreaker.SuccessRecovers` | internal/infrastructure/resilience/circuit_breaker.go:94-103 | after one success from any state but open, whatever run follows with fewer than maxFailures failures in it lets every caller in and ends closed |
| `CircuitBreaker.ClosedStays` | internal/infrastructure/resilience/circuit_breaker.go:61-122 | a closed breaker with failures to spare stays closed and lets everyone in |
| `CircuitBreaker.FailureTripsIff` | internal/infrastructure/resilience/circuit_breaker.go:106-122 | a failure trips the breaker exactly at its threshold while closed, and at once while half-open |
| `CircuitBreaker.ChangesAreStamped` | internal/infrastructure/resilience/circuit_breaker.go:61-150 | every change of state is stamped with its time |
| `CircuitBreaker.FailingStretchBound` | internal/infrastructure/resilience/circuit_breaker.go:61-122 | in a success-free stretch of sequential calls of length T at most maxFailures + floor(T / resetTimeout) reach the function |
| `CircuitBreaker.ClosedPays` | internal/infrastructure/resilience/circuit_breaker.go:61-122 | from closed with f failures: at most maxFailures - f + floor(T / resetTimeout) |
| `CircuitBreaker.ProbePays` | internal/infrastructure/resilience/circuit_breaker.go:61-122 | from half-open, or open: at most 1 + floor(T / resetTimeout) |
| `CircuitBreaker.OpenPays` | internal/infrastructure/resilience/circuit_breaker.go:64-74 | from open each admission costs a whole timeout since the failure before it |
| `Retry.RetryPolicy.constructor` | internal/infrastructure/resilience/retry.go:40-46 | counters start at zero |
| `Retry.CallsMade` | internal/infrastructure/resilience/retry.go:59-65 | the number of calls: all before the last failed, and it stops before the maximum only after a success |
| `Retry.RetryPolicy.Retry` | internal/infrastructure/resilience/retry.go:55-87 | the number of calls, the error returned, each sleep and both atomic counters (total retries grow by one less than the sleeps) |
| `Retry.RetrySucceedsIff` | internal/infrastructure/resilience/retry.go:55-87 | no error is returned exactly if some allowed call succeeds or no call is allowed |
| `Retry.UncappedDelay` | internal/infrastructure/resilience/retry.go:57-77 | for every int64 first delay, sleep k without a cap is initialDelay * 2^k exactly if that fits an int64 |
| `Retry.CappedDelay` | internal/infrastructure/resilience/retry.go:76-82 | with a cap all sleeps k >= 1 are min(initialDelay * 2^k, maxDelay) exactly if the first delay is zero, or positive with its double and the cap's double in int64; sleep 0 is not capped |
| `Retry.UncappedTotal` | internal/infrastructure/resilience/retry.go:67-77 | n failed attempts sleep initialDelay * (2^(n-1) - 1) in all exactly if the last sleep fits an int64 |
| `Retry.DelayOverflows` | internal/infrastructure/resilience/retry.go:77-77 | for every positive delay the first doubling that leaves int64 gives a negative sleep |
| `ResilientService.ResilientLLMService.constructor` | internal/infrastructure/resilience/resilient_wrapper.go:25-37 | a fresh breaker and an uncapped retry policy |
| `ResilientService.ResilientLLMService.Call` | internal/infrastructure/resilience/resilient_wrapper.go:50-62 | one guarded call: rejected, or run and recorded |
| `ResilientService.ResilientLLMService.Complete` | internal/infrastructure/resilience/resilient_wrapper.go:40-76 | the breaker ends as after the calls Retry makes, the answer or error is that of the last of them, and the sleeps and both retry counters are those of Retry |
| `ResilientService.FailingPrefix` | internal/infrastructure/resilience/resilient_wrapper.go:48-63 | of k failing calls on a closed breaker with f failures exactly min(k, maxFailures - f) reach the service, and the breaker is then as far, or open since the tripping call |
| `ResilientService.CompleteReaches` | internal/infrastructure/resilience/resilient_wrapper.go:40-76 | one Complete reaches the inner service exactly min(n, maxFailures - f) times in its n calls, and n is the whole retry budget if it ends in an error |
| `ResilientService.AnswerCloses` | internal/infrastructure/resilience/resilient_wrapper.go:40-76 | a Complete that returns an answer, whatever state it found, leaves the breaker closed with no failures counted |
| `ResilientService.DeadServiceEndsRejected` | internal/infrastructure/resilience/resilient_wrapper.go:48-73 | with a dead service every retry is spent, only the first maxFailures - f reach it, and the caller is told that the circuit is open |
| `SubagentExecutor.ToolAllowed` | internal/usecase/skill/subagent/executor.go:179-198 | no list allows all tools, otherwise membership |
| `SubagentExecutor.RunTools` | internal/usecase/skill/subagent/executor.go:127-154 | which calls of a turn ran, what was said, and exactly why it stopped: limit, forbidden tool or failure, in this order; only allowed tools are attempted and never more than the limit |
| `SubagentExecutor.RunResponse` | internal/usecase/skill/subagent/executor.go:103-160 | a recorded response either reaches the next loop head with its accounting, or ends the execution by one of five exits |
| `SubagentExecutor.RunTurn` | internal/usecase/skill/subagent/executor.go:69-161 | the same for the whole loop body |
| `SubagentExecutor.Execute` | internal/usecase/skill/subagent/executor.go:49-166 | each exit is taken exactly on its own guard, in the order of the checks, once all turns before have gone on (cancellation, time, LLM error, tokens before the response is recorded; final answer, tool limit, forbidden or failing tool, time after it); its status; and on every exit the accounting: conversation, tools run and allowed, tokens, steps |
| `SubagentExecutor.RecordsOfTurn` | internal/usecase/skill/subagent/executor.go:103-153 | after the forked history, each turn's answer followed by the results of its tools, word by word and in order; and one numbered step for each turn |
| `Lifecycle.LifecycleManager.StartSubagent` | internal/infrastructure/subagent/lifecycle.go:42-98 | validation, the check for a known id and the new entry are one step of the protocol; which contexts are invalid, and when one is already running |
| `Lifecycle.LifecycleManager.PublishResult` | internal/infrastructure/subagent/lifecycle.go:78-89 | the goroutine's store changes this entry only |
| `Lifecycle.LifecycleManager.CancelSubagent` | internal/infrastructure/subagent/lifecycle.go:101-125 | a running entry becomes cancelled, any other stays |
| `Lifecycle.LifecycleManager.GetStatus` | internal/infrastructure/subagent/lifecycle.go:128-143 | the entry's result, or not found |
| `Lifecycle.LifecycleManager.ListRunning` | internal/infrastructure/subagent/lifecycle.go:146-160 | exactly the ids with running status, each once |
| `Lifecycle.LifecycleManager.CancelAll` | internal/infrastructure/subagent/lifecycle.go:170-184 | the first part of Shutdown is a run of cancels of all known ids |
| `Lifecycle.RunAdvances` | internal/infrastructure/subagent/lifecycle.go:42-125 | in every interleaving: running or cancelled before publication, terminal after it, never back to running, and a published result never changes |
| `Lifecycle.ExecutedOnce` | internal/infrastructure/subagent/lifecycle.go:48-73 | each id is executed at most once, and once exactly if the manager knows it |
| `Lifecycle.ShownStatus` | internal/infrastructure/subagent/lifecycle.go:42-125 | over every run: the manager knows exactly the ids validly started; until published, one is shown as cancelled if a cancel came after its start, and as running otherwise |
| `Lifecycle.ListedIff` | internal/infrastructure/subagent/lifecycle.go:145-160 | so what is listed as running is exactly what was started and neither cancelled since nor published |
| `Lifecycle.ShownResult` | internal/infrastructure/subagent/lifecycle.go:73-89 | once published, the result is what the executor returned, and its error is shown as an error with that message |
| `Lifecycle.PublishedResultWins` | internal/infrastructure/subagent/lifecycle.go:73-89 | an id is published at most once, and ends with that result however often it was cancelled |
| `Lifecycle.ShutdownStops` | internal/infrastructure/subagent/lifecycle.go:170-184 | once every id of the snapshot is cancelled, whatever other goroutines do between the cancels and later, nothing in the snapshot is ever listed as running again; without a new Start nothing is |
| `Lifecycle.ShutdownEnds` | internal/infrastructure/subagent/lifecycle.go:170-208 | without a new Start, between the cancels or after them, the first wake of the polling loop ends it: with success on a tick, with the context's error otherwise |
| `Lifecycle.TimeoutNeedsStart` | internal/infrastructure/subagent/lifecycle.go:170-208 | the loop times out only if a subagent was started after the snapshot |
| `Lifecycle.ShutdownDoesNotWait` | internal/infrastructure/subagent/lifecycle.go:186-208 | and no goroutine has published meanwhile: the wait ends although all may still run |
| `VersionedVault.HeaderRoundTrip` | internal/infrastructure/crypto/versioned_vault.go:218-234 | extraction undoes prepending exactly if the version is a uint32; otherwise it gives the version modulo 2^32 |
| `VersionedVault.FileCredentialVault.Open` | internal/infrastructure/crypto/vault.go:27-45 | a vault needs a 32-byte key and no file, or one that can be read and opens under that key; it then holds what the file holds |
| `VersionedVault.FileCredentialVault.SaveToFile` | internal/infrastructure/crypto/vault.go:111-136 | the file holds the whole map under the vault's key; or, with an error, is as before, or can no longer be read |
| `VersionedVault.FileCredentialVault.StoreSecret` | internal/infrastructure/crypto/vault.go:48-59 | the map is updated even when saving fails |
| `VersionedVault.FileCredentialVault.RetrieveSecret` | internal/infrastructure/crypto/vault.go:62-77 | the decrypted entry, or the reason why not |
| `VersionedVault.FileCredentialVault.DeleteSecret` | internal/infrastructure/crypto/vault.go:80-90 | the entry is gone even when saving fails |
| `VersionedVault.VersionedVault.constructor` | internal/infrastructure/crypto/versioned_vault.go:23-43 | one key, the initial version |
| `VersionedVault.VersionedVault.PrepareStore` | internal/infrastructure/crypto/versioned_vault.go:48-64 | the first part of a store: version and key are read under the lock, the value is encrypted under them |
| `VersionedVault.VersionedVault.StoreCredential` | internal/infrastructure/crypto/versioned_vault.go:47-68 | with nothing between its two parts, one step of the vault function |
| `VersionedVault.VersionedVault.OpenEntry` | internal/infrastructure/crypto/versioned_vault.go:78-99 | the second part of a retrieval: the key of the header's version is looked up and used, with every error case |
| `VersionedVault.VersionedVault.RetrieveCredential` | internal/infrastructure/crypto/versioned_vault.go:71-100 | the inner read and then that, with every error case |
| `VersionedVault.VersionedVault.DeleteCredential` | internal/infrastructure/crypto/versioned_vault.go:103-105 | likewise |
| `VersionedVault.VersionedVault.AddKey` | internal/infrastructure/crypto/versioned_vault.go:119-133 | likewise |
| `VersionedVault.VersionedVault.SetCurrent` | internal/infrastructure/crypto/versioned_vault.go:137-147 | likewise |
| `VersionedVault.VersionedVault.RemoveKey` | internal/infrastructure/crypto/versioned_vault.go:151-161 | likewise |
| `VersionedVault.VersionedVault.ReEncryptCredential` | internal/infrastructure/crypto/versioned_vault.go:181-194 | with nothing between its read and its write, retrieve and store again is one step |
| `VersionedVault.VersionedVault.ReEncryptAll` | internal/infrastructure/crypto/versioned_vault.go:198-213 | with nothing in between, re-encrypts an enumeration of all names in some order up to the first error |
| `KeyRotation.StoreReadsBack` | internal/infrastructure/crypto/versioned_vault.go:47-100 | what was stored reads back under the current version, even if the file was not written; all other names are untouched |
| `KeyRotation.StoredReadsBackIff` | internal/infrastructure/crypto/versioned_vault.go:47-100 | for every current version, what is stored is read with the key of the version modulo 2^32: it reads back if that version is held with the same key, and otherwise gives a missing version or, under an authentic cipher, a decryption error |
| `KeyRotation.ReEncryptKeeps` | internal/infrastructure/crypto/versioned_vault.go:181-194 | re-encryption changes no plaintext, whether it succeeds or fails |
| `KeyRotation.ReEncryptNamesKeeps` | internal/infrastructure/crypto/versioned_vault.go:198-213 | nor does a full or partial run of it; a successful one leaves every listed name under the current version |
| `KeyRotation.RemoveReach` | internal/infrastructure/crypto/versioned_vault.go:149-161 | removing a version makes unreadable exactly the credentials under it |
| `KeyRotation.StepRefines` | internal/infrastructure/crypto/versioned_vault.go:47-213 | every undisturbed operation, failing or not, does to the vault what it means for a plain map, and keeps the current version held |
| `KeyRotation.RotationLosesNothing` | internal/infrastructure/crypto/versioned_vault.go:47-213 | so over every run of operations one after another: adding, switching, re-encrypting and careful removal lose no plaintext |
| `KeyRotation.FullReEncryptFreesOthers` | internal/infrastructure/crypto/versioned_vault.go:149-213 | after a successful undisturbed re-encryption of all names, each is at the current version and any other version can be removed |
| `KeyRotation.RotateThenRemove` | internal/infrastructure/crypto/versioned_vault.go:119-213 | the whole rotation, undisturbed: add, switch, re-encrypt all, remove the old key |
| `VaultInterleaving.StepHoldsIff` | internal/infrastructure/crypto/versioned_vault.go:47-194 | each critical section keeps the vault standing for the map of direct stores and deletions exactly if it is not a write of something else than the map then means, nor the removal of a version with entries |
| `VaultInterleaving.RunHoldsIff` | internal/infrastructure/crypto/versioned_vault.go:47-194 | in every interleaving the vault always stands for that map if and only if every write opens as what the map then means and no version with entries is removed |
| `VaultInterleaving.StepKeepsSteady` | internal/infrastructure/crypto/versioned_vault.go:47-194 | what stores and re-encryptions in flight hold stays in agreement with the map under the discipline below |
| `VaultInterleaving.CalmRunHolds` | internal/infrastructure/crypto/versioned_vault.go:47-194 | in every interleaving nothing is lost if no direct write or deletion of a name falls between a re-encryption's read and its write, and no version is removed while an entry is under it or a write under it is pending (nor its number given out again while a read under it is in flight) |
| `VaultInterleaving.RotationFreesOthers` | internal/infrastructure/crypto/versioned_vault.go:135-213 | if no write under another version is pending when the names are listed and each listed name is written while the current version stays, then, whatever stores go on meanwhile, any other version can be removed |
| `VaultInterleaving.StoreIsLost` | internal/infrastructure/crypto/versioned_vault.go:181-194 | for every vault, name and two values: a re-encryption writes the old value back over a store that returned without error |
| `VaultInterleaving.StoreIsStranded` | internal/infrastructure/crypto/versioned_vault.go:47-68 | for every vault without entries under the current version: a store finishes after its version was rotated away and removed, and cannot be read |
| `KeyRotation.FileKeyNeverRotates` | internal/infrastructure/crypto/vault.go:110-136 | after every run the file is still written under the key the vault was opened with |
| `KeyRotation.ReopenedHolds` | internal/infrastructure/crypto/vault.go:27-45 | opening the saved file under its original key, with the key versions added again, gives a vault that stands for the same map |
| `KeyRotation.RunSurvivesReopening` | internal/infrastructure/crypto/versioned_vault.go:23-43 | over every run whose last save did not fail, the plain map survives closing and opening again |
| `Preprocess.ParseIsLossless` | internal/infrastructure/skill/preprocess_parser.go:55-118 | the shared grammar's segments spell out the input lines again |
| `Preprocess.ParseWithPositions` | internal/infrastructure/skill/preprocess_parser.go:46-121 | the scanner loop yields one block per non-empty block segment, with its command and byte positions |
| `Preprocess.ExecutePreprocessing` | internal/usecase/skill/preprocess_renderer.go:54-108 | the renderer loop runs exactly the segments ended by a blank line, or non-empty at the end, in order, and writes fenced output between the other lines |
| `Preprocess.BlockIsRead` | internal/usecase/skill/preprocess_renderer.go:62-87 | a `!command` line, command lines and a blank line: one parsed block with its positions, one command run, its fenced output in their place, and both go on behind the blank line |
| `Preprocess.LineIsKept` | internal/usecase/skill/preprocess_renderer.go:93-95 | any other line outside blocks stays where it is and is no command |
| `PreprocessAgreement.ParserMeetsRenderer` | internal/infrastructure/skill/preprocess_parser.go:46-121 | without carriage returns, the parsed commands are the executed ones exactly if no non-empty block is cut off by another `!command` and no empty block is ended by a blank line |
| `PreprocessAgreement.SameSegmentsAgreeIff` | internal/usecase/skill/preprocess_renderer.go:62-105 | the same if-and-only-if for any parsed segments |
| `PreprocessAgreement.FinalBlankIsNeutral` | internal/infrastructure/skill/preprocess_parser.go:49-57 | the extra empty line that splitting sees after a final newline changes no parsed command |
| `PreprocessAgreement.SegmentsArePlaced` | internal/infrastructure/skill/preprocess_parser.go:55-106 | every block segment lies in the content: its `!command` line, then its non-blank lines |
| `PreprocessAgreement.ParseCommands` | internal/infrastructure/skill/preprocess_parser.go:31-43 | the commands in order, and where the two agree, those the renderer executes |
| `PreprocessAgreement.PositionsInOrder` | internal/infrastructure/skill/preprocess_parser.go:52-118 | block positions are increasing and disjoint, and each starts at a `!command` line |
| `PreprocessAgreement.EndOffset` | internal/infrastructure/skill/preprocess_parser.go:56-57 | positions reach one byte past the content exactly if it does not end in a newline |
| `PreprocessAgreement.PlainContentUnchanged` | internal/usecase/skill/preprocess_renderer.go:54-108 | content without a `!command` line is rendered unchanged |
| `PreprocessAgreement.OutsideLinesSurvive` | internal/usecase/skill/preprocess_renderer.go:93-95 | lines outside blocks survive rendering in order |
| `ContextWindow.TotalAt` | internal/adapter/repository/sqlite/message.go:206-214 | the window function's total at a row is the sum from the start of its group of equal timestamps |
| `ContextWindow.QueryIsLongestSuffix` | internal/adapter/repository/sqlite/message.go:206-218 | the query keeps the longest suffix that fits and splits no such group |
| `ContextWindow.RecentIsLongestSuffix` | internal/adapter/repository/sqlite/message.go:198-218 | the same for GetRecentMessages with every budget, zero and negative included |
| `ContextWindow.BuildContextWindow` | internal/usecase/chat/context_window.go:20-65 | with sorted rows and non-negative counts: the longest end of the rows that fits exactly the caller's limit if that is below the provider's, and the provider's minus 2000 otherwise, with its exact total; on any rows an exact suffix of the query's, stopped only by the budget |
| `ContextWindow.FillWindow` | internal/usecase/chat/context_window.go:41-62 | the loop takes rows from the newest back until the next one does not fit |
| `ContextWindow.NeverBreaks` | internal/usecase/chat/context_window.go:46-53 | the loop's own cut never fires |
| `ContextWindow.WindowFits` | internal/usecase/chat/context_window.go:20-65 | the total fits the budget, and is at most the provider limit minus 2000 whenever the provider limit applies |
| `ContextWindow.ReserveKeptIff` | internal/usecase/chat/context_window.go:27-33 | the reserve is kept exactly if the caller's limit is not within 2000 below the provider's |
| `LlmCache.LLMCache.EvictOldest` | internal/infrastructure/cache/llm_cache.go:152-170 | removes one entry with the earliest expiry, and counts it |
| `LlmCache.LLMCache.Set` | internal/infrastructure/cache/llm_cache.go:54-70 | stores the entry, after evicting exactly when at capacity |
| `LlmCache.LLMCache.Get` | internal/infrastructure/cache/llm_cache.go:74-99 | the unexpired entry or nothing; an expired one is dropped; hits and misses counted |
| `LlmCache.LLMCache.Delete` | internal/infrastructure/cache/llm_cache.go:102-109 | only this key is gone |
| `LlmCache.LLMCache.Clear` | internal/infrastructure/cache/llm_cache.go:112-117 | nothing is left |
| `LlmCache.PresentIsLastPut` | internal/infrastructure/cache/llm_cache.go:54-117 | in every run, whatever is present is the last Set of its key that nothing undid |
| `LlmCache.HitIsLastPut` | internal/infrastructure/cache/llm_cache.go:74-99 | a hit returns exactly the response last Set for the key, no older than the time to live |
| `LlmCache.PresentHitsIff` | internal/infrastructure/cache/llm_cache.go:74-99 | a present key hits for exactly its time to live since it was last Set |
| `LlmCache.SizeBound` | internal/infrastructure/cache/llm_cache.go:60-69 | the cache never holds more than max(1, maxSize) entries |
| `LlmCache.RoomKeepsAll` | internal/infrastructure/cache/llm_cache.go:60-69 | as long as fewer keys than the cache holds are Set, nothing is evicted |
| `LlmCache.EvictedAreOlder` | internal/infrastructure/cache/llm_cache.go:152-170 | with a ticking clock a key absent only through eviction was last Set before every key still present |
| `LlmCache.ResetCanEvict` | internal/infrastructure/cache/llm_cache.go:60-69 | setting a present key at capacity loses another entry exactly if the key is not itself the oldest chosen |
| `ChatLoop.ProcessMessages` | internal/usecase/chat/service.go:143-204 | the messages, the calls made, the result, and the cache before and after; with a clean cache a hit makes no LLM call and no tool call |
| `ChatLoop.RoundAt` | internal/usecase/chat/service.go:179-198 | round i adds the assistant's text of that iteration and, as the user, the results of its tools |
| `ChatCache.EntriesAreCacheRun` | internal/usecase/chat/service.go:147-177 | the cache under concurrent messages, whose reads, drops and writes interleave, is a run of the cache, so its properties hold |
| `ChatCache.SoleWriterKeepsClean` | internal/usecase/chat/service.go:167-177 | with ProcessMessage as sole writer, in every interleaving no cached response and no hit ever asks for a tool |
| `ChatCache.CachedWasAnswered` | internal/usecase/chat/service.go:147-177 | in every interleaving each cached response, and each hit, is what some message with that very key was answered |
| `ChatCache.LateWriteBack` | internal/usecase/chat/service.go:150-175 | for every key and two answers: a hit written back late puts the older answer over the newer one |
| `ChatLoop.HitsRenew` | internal/usecase/chat/service.go:150-175 | a key asked for before each expiry and not evicted is served from its first answer for ever, whatever other keys do in between |
| `ChatLoop.ConversationsCollide` | internal/usecase/chat/tool_conversion.go:79-90 | for all texts a and b, a conversation of two messages and one of one message have the same key |
| `ConversationKeys.KeysEqualIff` | internal/usecase/chat/tool_conversion.go:79-90 | legible conversations (known roles, no content with a separator) have one cache key exactly if they are the same up to space at the end |
| `ConversationKeys.LegibleIsTold` | internal/usecase/chat/tool_conversion.go:79-90 | among the legible conversations one is told by its key exactly if it is legible itself |
| `ConversationKeys.KeyIdentifiesIff` | internal/usecase/chat/tool_conversion.go:79-90 | among all conversations with known roles the key identifies one exactly if it is a single legible message |
| `ConversationKeys.ReadingIsLegible` | internal/usecase/chat/tool_conversion.go:79-90 | every key of a conversation with known roles can be read as a legible one that has the same key |
| `ConversationKeys.HitIsForThisConversation` | internal/usecase/chat/service.go:147-177 | in every interleaving a hit for a single legible message was the answer to this same message whatever the others said, and a hit for any legible conversation if the others were legible |
| `ConversationKeys.HitCanBeForeign` | internal/usecase/chat/service.go:147-177 | for every other conversation there is a run in which a hit was the answer to a different one |
| `SkillVersion.ParsePrinted` | internal/domain/version.go:20-55 | parsing what was printed gives the version back, for all printable versions |
| `SkillVersion.PrintParsed` | internal/domain/version.go:20-55 | printing what was parsed gives the text back exactly if it had no `v` and canonical numerals |
| `SkillConstraints.ParsesExactly` | internal/domain/version.go:20-43 | the texts that are versions: three numerals, a pre-release and a build if any, with or without a `v` in front |
| `SkillVersion.CompareIsPreorder` | internal/domain/version.go:58-81 | a total preorder, zero exactly on equal triples |
| `SkillVersion.CompareIsLexicographic` | internal/domain/version.go:58-81 | major first, then minor, then patch |
| `SkillPrecedence.PrecedenceIsPreorder` | internal/domain/version.go:57-81 | the order of section 11 of Semantic Versioning 2.0.0, pre-releases included, is a total preorder |
| `SkillPrecedence.CompareAgreesIff` | internal/domain/version.go:57-81 | `Compare` gives that order exactly if the triples differ or the pre-releases rank equal, which without leading zeros means that they are the same |
| `SkillPrecedence.PreReleaseComparesEqual` | internal/domain/version.go:57-81 | every pre-release comes before its release, yet compares equal |
| `SkillPrecedence.ResolutionHasPrecedenceIff` | internal/infrastructure/skill/version.go:24-31 | the resolved version has the highest precedence of all that satisfy exactly if no satisfying version of its triple has a pre-release that ranks higher |
| `SkillPrecedence.PreReleaseBeatsRelease` | internal/infrastructure/skill/version.go:24-31 | a pre-release listed before its release is what resolves, though its release satisfies too |
| `SkillVersion.ConstraintsAreIntervals` | internal/domain/version.go:124-137 | a caret is the interval up to the next major version, a tilde up to the next minor |
| `SkillVersion.ResolveVersion` | internal/infrastructure/skill/version.go:18-38 | the first maximum of the versions that satisfy the text's constraint, or none exactly if the text is no constraint or nothing satisfies it |
| `SkillConstraints.ConstraintOfText` | internal/domain/version.go:90-121 | a printed version is an exact constraint, a caret or a tilde in front makes it a range, and space around is ignored |
| `SkillConstraints.CaretResolves` | internal/infrastructure/skill/version.go:18-38 | a caret and a version resolve to the first maximum of the available ones from that version up to the next major one |
| `SkillConstraints.TildeResolves` | internal/infrastructure/skill/version.go:18-38 | a tilde and a version: up to the next minor one |
| `SkillConstraints.ExactResolves` | internal/infrastructure/skill/version.go:18-38 | a version alone: the first one with that very triple |
| `SkillConstraints.OtherOperatorsResolveToNothing` | internal/domain/version.go:93-120 | a text with an operator character that begins with neither caret nor tilde resolves to nothing |

## Left out

- SkillTemplate.EscapeHonouredIff: not for arguments that hold dollars, nor, where a dollar stands directly before a placeholder or an argument completes a numeral, for empty and digit-initial ones; there whether an escape is honoured depends on the arguments' values (`$$1` is honoured when argument 1 is the digit 1).
- SkillOutput.DollarArgumentRereadIff: for a body that is one placeholder, with dollar-free arguments of lower index; `ArgumentsRereadIff` needs the arguments that are referred to to be clean. Without that, arguments that refer to each other can come back to where they started.
- SkillOutput.DigitArgumentIsReread: one way; an argument can also complete a numeral together with the text behind it.
- TokenBuckets.TokenBucket.constructor: not for a zero interval, whose infinite rate and not-a-number tokens exist only in floating point.
- KeyedLimiter.RateLimiter.GetBucket: not for limits without requests, where the source's division panics, or with more requests than the window has nanoseconds, which give that zero interval.
- KeyedLimiter.RateLimiter.Allow: not for those limits either; and its map lookup and its bucket's critical section are one step, so that a Reset in between is not modelled.
- LimiterBounds.SharedIsBucket: for users without a colon and runs in which no reset reaches the pair; `KeyedLimiter.PerKeyProjection` covers resets.
- CircuitBreaker.FailingStretchBound: for sequential calls; in interleaved runs calls in flight when the breaker trips still finish.
- ResilientService.ResilientLLMService.Complete: writes Retry's loop out, since a Dafny closure cannot change the breaker.
- ConversationKeys.KeysEqualIff: for the roles user and assistant, which are the ones that ProcessMessage writes.
- BatcherGuarantees.OrderKeptIff: its converse is for distinct items, since equal ones hide their order.
- Batcher.MessageBatcher: the runner's endless select loop and Stop's wait for it are protocol steps, not methods, since they hand over between goroutines.
- VaultInterleaving.CalmRunHolds: one way, since a write that breaks the discipline can happen to write what the map means; `RunHoldsIff` is exact.
- VersionedVault.VersionedVault.StoreCredential: with nothing between its two locks; `VaultInterleaving` has its parts as separate steps.
- VersionedVault.VersionedVault.RetrieveCredential: likewise.
- VersionedVault.VersionedVault.ReEncryptCredential: likewise.
- VersionedVault.VersionedVault.ReEncryptAll: likewise; under interleaving it is its re-encryptions, see `VaultInterleaving.RotationFreesOthers`.
- KeyRotation.RotationLosesNothing: for operations one after another; `VaultInterleaving.RunHoldsIff` and `CalmRunHolds` are for all interleavings.
- KeyRotation.FullReEncryptFreesOthers: likewise; `VaultInterleaving.RotationFreesOthers` allows stores meanwhile.
- KeyRotation.RotateThenRemove: likewise.
- ChatLoop.HitsRenew: for messages one after another; the runs of concurrent ones are in `ChatCache`.
- Lifecycle.ShutdownEnds: the polling loop is a function of its wakes, since other goroutines act in between.
- KeyRotation.StoredReadsBackIff: that nothing opens under another key is an idealisation of the cipher, used in its last clause only.
- Float rounding in the bucket; tokens are reals.
- Go's memory model, channel fairness, and several clock reads within one critical section, which are one time here.
- A second Stop of the batcher, which panics; the item's platform and message are plain strings.
- `Stream` and `ListModels` of the resilient wrapper, which wrap the same breaker call.
- In the executor: the wording of error messages, durations and completion times, metadata; the iteration limit is a parameter.
- In the lifecycle manager: the monitoring hook and a nil result from the executor.
- AES internals, JSON and file formats: any pair of functions where decryption undoes encryption, with randomness and saving that may fail; a file under another key does not open.
- The scanner's 64 KB line limit; carriage returns are modelled, but the agreement theorems are for content without them.
- `executeCommand`'s formatting and truncation are one function from a command and its number to text.
- The SQL engine, row scanning errors and stored tool calls; the conversation's rows are a sequence in ascending time order.
- SHA-256 is taken to be injective; hit and miss counters are unbounded; metrics.
- Input validation, memory saving and the conversion of tools in ProcessMessage.
- The skill registry, configuration, notes, preferences, gateways and LLM clients: they would add only easy members or unseen I/O.
