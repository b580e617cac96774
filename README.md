# Prompt debugger core, modelled in Dafny

The prompt debugger tests an AI agent's system prompt. It reads conversational
test cases from text and plays each one against the agent turn by turn. A judge
model scores each transcript against a weighted rubric of criteria (levels P0–P6),
and the scores are folded into one composite score and level. The panels of the
debugger dialog then use the results:

- re-scoring executed cases;
- quick-switching which criteria are enabled;
- saving prompt versions and comparing two of them line by line;
- asking the model for an improved prompt.

This project models the deterministic logic behind that loop, one Dafny module
per source file:

| module | file | models |
|---|---|---|
| `EvaluationCalculator` | `evaluation_calculator.dfy` | `calculateOverallScore` (weighted mean, three fallback tiers, banding, rounding) and `parseEvaluationResponse` (greedy `[`…`]` span, per-field defaults) |
| `VersionManager` | `version_manager.dfy` | the two-cursor line diff `computeDiff` (an imperative method proved equal to a recursive specification), `safeVersions`, `getPromptContent`/`getCurrentPrompt` and `handleViewDiff` |
| `TestCaseParser` | `test_case_parser.dfy` | `parseTestCasesFromText` (the `用例<n>：` lookahead split, titles, the message loop as a method), `replaceVariables`, `replaceMessageVariables` |
| `Concurrency` | `concurrency.dfy` | the chunk loops of `executeConcurrently` and `executeBatchWithResults`, sequentially |
| `TestExecution` | `test_execution.dfy` | the turn loop of `executeSingleTest`, its result records, and `executeTests` in a class holding `isRunning`/`progress` |
| `ConcurrentEvaluation` | `concurrent_evaluation.dfy` | `reEvaluateSingle` and `reEvaluateAll` (a class holding `isEvaluating`/`evalProgress`) |
| `SessionState` | `session_state.dfy` | the session store: a class with the sessions list and the current id, one method per command |
| `DebuggerModal` | `debugger_modal.dfy` | the dialog's handlers as functions over session data |
| `EvaluationManager` | `evaluation_manager.dfy` | the generated-criteria enabling rule and the criteria editor |
| `PromptOptimizer` | `prompt_optimizer.dfy` | `handleOptimize`'s statistics, the in-place failure tally (nested loops), the top-5 ranking, truncation and answer parsing, and `handleSaveAsNewVersion` |

`Types` (`types.dfy`) holds the records of `types.ts`. `Text` (`text.dfy`) and
`Seqs` (`seqs.dfy`) hold string and sequence helpers that stand in for the
JavaScript built-ins (`trim`, `split`, `join`, `indexOf`, `replace` with a
global pattern, number formatting).

Calls to the agent and to the judge are function parameters returning
`{success, response?, error?}`, since the API client catches every error
itself. So are `JSON.parse`, the clock and every other call the model cannot
see.

### Behaviour of the code worth noting

- **Banding:** the level is taken from the unrounded score, so 89.5 gives
  score 90 with the level 优秀.
- **Re-evaluation guards:** an empty selection or no enabled criterion makes
  `reEvaluateAll` return an empty map.
- **Result keys:** the re-evaluation map is keyed by position in the
  selection (see Findings).
- **Version edits:** editing the prompt on a version other than V1 rewrites
  that version's content in place.
- **Weights:** the number box maps an empty value or 0 to 1; weights are
  integers here.
- **Concurrency:** the chunk loop never advances with a concurrency of 0, so
  every runner requires a concurrency of at least 1 when there is work to do.

## Model

| member | source | states |
|---|---|---|
| EvaluationCalculator.Applicable | src/components/prompt-debugger/utils/evaluationCalculator.ts:15-17 | a record is kept exactly when it is not N/A and its id names an enabled criterion |
| EvaluationCalculator.Scorable | src/components/prompt-debugger/utils/evaluationCalculator.ts:40-41 | a record is kept exactly when it is not N/A, whatever its id |
| EvaluationCalculator.FindCriterion | src/components/prompt-debugger/utils/evaluationCalculator.ts:21-24 | finds a criterion exactly when one carries the record's id, and returns the first one with that id |
| EvaluationCalculator.Round | src/components/prompt-debugger/utils/evaluationCalculator.ts:57 | `Math.round`: the nearest integer, halves rounded up |
| EvaluationCalculator.BandOf | src/components/prompt-debugger/utils/evaluationCalculator.ts:51-55 | ≥90 卓越, 75–90 优秀, 60–75 良好, below 60 基础, each as an if-and-only-if |
| EvaluationCalculator.CalculateOverallScore | src/components/prompt-debugger/utils/evaluationCalculator.ts:8-58 | the score is the raw score rounded; the top and bottom levels hold exactly when the unrounded score is ≥90 or <60 |
| EvaluationCalculator.WeightedTier | src/components/prompt-debugger/utils/evaluationCalculator.ts:26-33 | with applicable records of positive total weight, the raw score is Σscore·weight / Σweight over them |
| EvaluationCalculator.ZeroWeightTier | src/components/prompt-debugger/utils/evaluationCalculator.ts:34-37 | with applicable records of zero total weight, the raw score is the plain mean of those records |
| EvaluationCalculator.PositiveWeightsWeighted | src/components/prompt-debugger/utils/evaluationCalculator.ts:26-37 | with every enabled weight ≥ 1 the applicable records weigh at least one each, so the weighted tier always applies and the zero-weight tier is unreachable |
| EvaluationCalculator.ScorableTier | src/components/prompt-debugger/utils/evaluationCalculator.ts:40-44 | with no applicable record but some non-N/A one, the raw score is the plain mean of the non-N/A records |
| EvaluationCalculator.AllNotApplicableDefault | src/components/prompt-debugger/utils/evaluationCalculator.ts:45-48 | all-N/A or empty records give exactly 60 / 良好, a pass |
| EvaluationCalculator.NothingScorable | src/components/prompt-debugger/utils/evaluationCalculator.ts:15-41 | when every record is N/A, nothing is applicable and nothing is scorable |
| EvaluationCalculator.ScoreInRange | src/components/prompt-debugger/utils/evaluationCalculator.ts:20-57 | with record scores in 0..100 and non-negative weights, the composite score is in 0..100 |
| EvaluationCalculator.RawScoreWithin | src/components/prompt-debugger/utils/evaluationCalculator.ts:26-44 | every tier's unrounded score lies within the record scores' bounds |
| EvaluationCalculator.WeightedSumBounds | src/components/prompt-debugger/utils/evaluationCalculator.ts:21-33 | the weighted sum lies between lo·Σweight and hi·Σweight |
| EvaluationCalculator.ScoreSumBounds | src/components/prompt-debugger/utils/evaluationCalculator.ts:35-43 | the plain score sum lies between lo·n and hi·n |
| EvaluationCalculator.ApplicableWithin | src/components/prompt-debugger/utils/evaluationCalculator.ts:15-41 | filtering keeps the records' score bounds |
| EvaluationCalculator.WeightedExample | src/components/prompt-debugger/utils/evaluationCalculator.ts:26-33 | weights 2 and 1 with scores 80 and 50 give 70 / 良好 |
| EvaluationCalculator.RoundingExample | src/components/prompt-debugger/utils/evaluationCalculator.ts:51-57 | an unrounded 59.5 is score 60 with the level 基础, because the level comes first |
| EvaluationCalculator.BracketSpan | src/components/prompt-debugger/utils/evaluationCalculator.ts:66-67 | a span exists iff a `[` comes before a later `]`; it is the text from the first `[` to the last `]` |
| EvaluationCalculator.ParseEvaluationResponse | src/components/prompt-debugger/utils/evaluationCalculator.ts:61-85 | no span, a span that does not parse, or an array holding `null` gives no records; otherwise one record per parsed entry |
| EvaluationCalculator.ToRecords | src/components/prompt-debugger/utils/evaluationCalculator.ts:72-79 | entries map one to one, in order |
| EvaluationCalculator.ParsedFields | src/components/prompt-debugger/utils/evaluationCalculator.ts:69-80 | one record per entry; name from the enabled criterion, else the stated name, else `Unknown(<id>)`; falsy score is 0; passed false only when false; reason defaults to ''; N/A only when true |
| EvaluationCalculator.UnknownCriterionName | src/components/prompt-debugger/utils/evaluationCalculator.ts:74 | an unknown id with no stated name is named `Unknown(<id>)` |
| EvaluationCalculator.ParseExample | src/components/prompt-debugger/utils/evaluationCalculator.ts:66-79 | text around a one-entry array yields that record with the enabled criterion's name |
| VersionManager.ComputeDiff | src/components/prompt-debugger/components/PromptVersionManager.tsx:68-132 | the cursor loop yields exactly the recursive diff of the two texts split on '\n' |
| VersionManager.SidesReconstruct | src/components/prompt-debugger/components/PromptVersionManager.tsx:84-127 | the equal/delete/replace ops list every old line once, in order, with indices 0,1,…; the equal/insert/replace ops do the same for the new lines |
| VersionManager.AllSound | src/components/prompt-debugger/components/PromptVersionManager.tsx:92-118 | `equal` only pairs identical lines; `replace` only when neither line occurs ahead on the other side |
| VersionManager.InsertOrDelete | src/components/prompt-debugger/components/PromptVersionManager.tsx:119-127 | otherwise the op is `insert` iff the old line occurs ahead in the new lines and (the new line does not occur ahead in the old lines, or nearer); else `delete` |
| VersionManager.TieGoesToDelete | src/components/prompt-debugger/components/PromptVersionManager.tsx:119-127 | equal look-ahead distances give `delete` |
| VersionManager.OldExhausted | src/components/prompt-debugger/components/PromptVersionManager.tsx:84-87 | once the old side is used up, every remaining op inserts the next new line |
| VersionManager.NewExhausted | src/components/prompt-debugger/components/PromptVersionManager.tsx:88-91 | once the new side is used up, every remaining op deletes the next old line |
| VersionManager.IdenticalAllEqual | src/components/prompt-debugger/components/PromptVersionManager.tsx:92-102 | a text against itself gives one `equal` per line and nothing else |
| VersionManager.IdenticalTexts | src/components/prompt-debugger/components/PromptVersionManager.tsx:70-102 | identical texts diff to `equal` ops only, at least one |
| VersionManager.EmptyTextsExample | src/components/prompt-debugger/components/PromptVersionManager.tsx:70-71 | '' against '' gives one `equal` of empty lines |
| VersionManager.ReplaceExample | src/components/prompt-debugger/components/PromptVersionManager.tsx:106-118 | a, b, c against a, x, c is equal, replace, equal |
| VersionManager.SwapExample | src/components/prompt-debugger/components/PromptVersionManager.tsx:119-127 | a, b against b, a is delete, equal, insert |
| VersionManager.SafeVersions | src/components/prompt-debugger/components/PromptVersionManager.tsx:36-43 | an empty list becomes the single initial V1; any other list is kept |
| VersionManager.FindVersion | src/components/prompt-debugger/components/PromptVersionManager.tsx:49 | finds a version iff one carries the tag, and returns the first one with that tag |
| VersionManager.FindVersionIndex | src/components/prompt-debugger/components/PromptVersionManager.tsx:54 | the first index with the tag, or -1 when none has it |
| VersionManager.GetPromptContent | src/components/prompt-debugger/components/PromptVersionManager.tsx:45-66 | V1 is the base prompt; a missing version or empty content falls back to it; otherwise the version's content |
| VersionManager.ViewDiffTarget | src/components/prompt-debugger/components/PromptVersionManager.tsx:52-61 | nothing with fewer than two versions; V1 when the current tag is first or absent; otherwise the version just before the first entry carrying the current tag |
| VersionManager.ViewDiffPredecessor | src/components/prompt-debugger/components/PromptVersionManager.tsx:54-56 | the compared version is the one before the first entry with the current tag |
| VersionManager.ViewDiff | src/components/prompt-debugger/components/PromptVersionManager.tsx:240-241 | the dialog diffs the compared version's text against the current prompt |
| TestCaseParser.SegmentsCover | src/components/prompt-debugger/utils/testCaseParser.ts:10 | the segments put back together are the text |
| TestCaseParser.CutsExactlyAtHeaders | src/components/prompt-debugger/utils/testCaseParser.ts:10 | the text is cut at a position iff a `用例<digits>：` header starts there and it is not position 0 |
| TestCaseParser.PreambleExample | src/components/prompt-debugger/utils/testCaseParser.ts:10-13 | text before the first header is its own segment and is not a case |
| TestCaseParser.ValidCasesKeep | src/components/prompt-debugger/utils/testCaseParser.ts:10-13 | a segment is kept iff it is not blank and starts with a header once trimmed |
| TestCaseParser.NonBlankLinesKeep | src/components/prompt-debugger/utils/testCaseParser.ts:16 | a line is kept iff it is not blank |
| TestCaseParser.StripHeader | src/components/prompt-debugger/utils/testCaseParser.ts:18 | a leading header is removed; other lines are unchanged |
| TestCaseParser.TitleFallbackExample | src/components/prompt-debugger/utils/testCaseParser.ts:18-19 | a bare header line gives the title `用例<index+1>` |
| TestCaseParser.StarsOnlyTitleExample | src/components/prompt-debugger/utils/testCaseParser.ts:18-19 | the fallback applies only when header removal leaves '': `用例1：**` gives '' |
| TestCaseParser.PrefixLength | src/components/prompt-debugger/utils/testCaseParser.ts:25-26 | a prefix is found iff the line starts with `AI:`, `我:` or `用户:` |
| TestCaseParser.LineMessageSpec | src/components/prompt-debugger/utils/testCaseParser.ts:22-34 | a line gives a message iff, trimmed, it has a speaker prefix followed by non-blank content; that content trimmed; assistant iff `AI:` |
| TestCaseParser.AssistantLineExample | src/components/prompt-debugger/utils/testCaseParser.ts:24-33 | " AI: 您好" is an assistant message "您好" |
| TestCaseParser.FullWidthColonExample | src/components/prompt-debugger/utils/testCaseParser.ts:25-26 | "AI：" with a full-width colon is ignored |
| TestCaseParser.EmptyContentExample | src/components/prompt-debugger/utils/testCaseParser.ts:29-31 | a speaker prefix with nothing after it is dropped |
| TestCaseParser.MessagesOfAppend | src/components/prompt-debugger/utils/testCaseParser.ts:22-35 | messages follow line order |
| TestCaseParser.MessagesWellFormed | src/components/prompt-debugger/utils/testCaseParser.ts:26-34 | every message has content and is from the user or the assistant |
| TestCaseParser.ParseCaseMessages | src/components/prompt-debugger/utils/testCaseParser.ts:21-35 | the loop yields the messages of every line after the title line |
| TestCaseParser.CaseOf | src/components/prompt-debugger/utils/testCaseParser.ts:37-42 | id index+1, status pending, no run results |
| TestCaseParser.ParsedCases | src/components/prompt-debugger/utils/testCaseParser.ts:9-45 | one case per valid segment, ids 1..n in order, pending, no results |
| TestCaseParser.ParseCase | src/components/prompt-debugger/utils/testCaseParser.ts:15-42 | one case built from its lines, title and message loop |
| TestCaseParser.ParseTestCasesFromText | src/components/prompt-debugger/utils/testCaseParser.ts:9-45 | the whole parse: exactly the parsed cases |
| TestCaseParser.ReplaceVariablesAbsent | src/components/prompt-debugger/utils/testCaseParser.ts:47-55 | a text without placeholders is unchanged |
| TestCaseParser.ReplaceVariablesFill | src/components/prompt-debugger/utils/testCaseParser.ts:47-55 | in a template of brace-free text with any mixture of the three placeholders, and brace-free values, every `{{botName}}`, `{{productName}}` and `{{language}}` becomes its value |
| TestCaseParser.ReplaceVariablesOrder | src/components/prompt-debugger/utils/testCaseParser.ts:47-55 | the steps run bot name, product name, language in turn: a product placeholder inside the bot name is substituted, a bot placeholder inside the product name is not |
| TestCaseParser.ReplaceVariablesExample | src/components/prompt-debugger/utils/testCaseParser.ts:47-55 | "我是{{botName}}" becomes "我是小助" |
| TestCaseParser.ReplaceMessageVariables | src/components/prompt-debugger/utils/testCaseParser.ts:58-66 | same length, order and roles; each content substituted |
| Concurrency.FirstRejected | src/components/prompt-debugger/utils/concurrency.ts:18-25 | the first rejecting item, or the item count when none rejects |
| Concurrency.ChunkEnd | src/components/prompt-debugger/utils/concurrency.ts:16-17 | the end of an item's chunk lies after it, within the items, at most one chunk away |
| Concurrency.RejectedChunk | src/components/prompt-debugger/utils/concurrency.ts:16-25 | a rejection in a chunk is the first one, and its chunk ends there |
| Concurrency.RunChunk | src/components/prompt-debugger/utils/concurrency.ts:18-25 | a chunk rejects iff one of its calls rejects; otherwise its values in order; one progress report per fulfilled call |
| Concurrency.ExecuteConcurrently | src/components/prompt-debugger/utils/concurrency.ts:6-30 | all values in input order iff no call rejects; calls stop at the end of the first rejecting chunk; progress counts 1, 2, … |
| Concurrency.ExecuteBatchWithResults | src/components/prompt-debugger/utils/concurrency.ts:33-68 | the map holds position k iff item k's call fulfils with a non-null value, and then that value; progress 1..n, failures included |
| Concurrency.Value | src/components/prompt-debugger/utils/concurrency.ts:47-64 | the caught call yields a value iff it fulfils with a non-null value |
| TestExecution.ErrorText | src/components/prompt-debugger/hooks/useTestExecution.ts:63 | `result.error \|\| '执行失败'`: never empty |
| TestExecution.RunTurns | src/components/prompt-debugger/hooks/useTestExecution.ts:41-66 | the loop's state is exactly the recursive turn fold |
| TestExecution.AbortSticks | src/components/prompt-debugger/hooks/useTestExecution.ts:55-64 | after a failed call later messages change nothing |
| TestExecution.CompletedTranscript | src/components/prompt-debugger/hooks/useTestExecution.ts:41-61 | a completed loop has one reply per user message, placed right after it |
| TestExecution.CompletedCalls | src/components/prompt-debugger/hooks/useTestExecution.ts:41-53 | each call saw the transcript up to and including a user message |
| TestExecution.TurnKeepsPrefixes | src/components/prompt-debugger/hooks/useTestExecution.ts:41-61 | one completed turn keeps every earlier call's prefix in place |
| TestExecution.AbortReason | src/components/prompt-debugger/hooks/useTestExecution.ts:55-64 | a stopped loop stopped on its last call, which failed or was empty, and reports its error or '执行失败' |
| TestExecution.NoUserNoCall | src/components/prompt-debugger/hooks/useTestExecution.ts:41-53 | seed messages with no user message make no call |
| TestExecution.EvaluationLines | src/components/prompt-debugger/hooks/useTestExecution.ts:119-121 | one `【name】score分 - reason` line per record |
| TestExecution.EvaluationTextLines | src/components/prompt-debugger/hooks/useTestExecution.ts:119-121 | the joined text splits back into those lines |
| TestExecution.FailedJudgePasses | src/components/prompt-debugger/hooks/useTestExecution.ts:99-117 | an answer without a span, a failed judge included, gives no records, 60 / 良好, a pass and an empty text |
| TestExecution.ExecuteSingleTest | src/components/prompt-debugger/hooks/useTestExecution.ts:30-137 | the run of one case is exactly its specification |
| TestExecution.SingleTestOutcome | src/components/prompt-debugger/hooks/useTestExecution.ts:119-135 | identity and seed kept; a failure copies every other field and carries a non-empty error as its evaluation |
| TestExecution.SuccessRecord | src/components/prompt-debugger/hooks/useTestExecution.ts:32-129 | a success has one reply per user message of the substituted seed, the transcript with replies interleaved, and passed iff score ≥ 60 |
| TestExecution.PercentBounds | src/components/prompt-debugger/hooks/useTestExecution.ts:151 | progress stays in 0..100, never goes down and ends at 100 |
| TestExecution.TestRunner.ExecuteTests | src/components/prompt-debugger/hooks/useTestExecution.ts:140-167 | one result per case in order, each the case's run; progress round(k/n·100) after the k-th; idle at the end |
| TestExecution.TestRunner.ShowProgress | src/components/prompt-debugger/hooks/useTestExecution.ts:149-152 | after the k-th report of n the shown progress is round(k/n·100); the running flag is untouched |
| ConcurrentEvaluation.ReEvaluateSingle | src/components/prompt-debugger/hooks/useConcurrentEvaluation.ts:30-110 | the result carries the case id; a success needs a transcript and holds at least one record (exactly when: ReEvaluateSingleSpec) |
| ConcurrentEvaluation.ReEvaluateSingleSpec | src/components/prompt-debugger/hooks/useConcurrentEvaluation.ts:30-110 | the result carries the case id; success iff a transcript exists and the answer yields records; then passed iff score ≥ 60; otherwise the bare failure |
| ConcurrentEvaluation.ReEvaluationAgrees | src/components/prompt-debugger/hooks/useConcurrentEvaluation.ts:83-101 | given the same judge answer, re-judging a just-run case gives back its verdict |
| ConcurrentEvaluation.ExecutedCases | src/components/prompt-debugger/hooks/useConcurrentEvaluation.ts:115-117 | exactly the successful cases with a transcript |
| ConcurrentEvaluation.ExecutedCasesIdempotent | src/components/prompt-debugger/hooks/useConcurrentEvaluation.ts:115-117 | selecting the executed cases of an already selected list gives the same list, so the dialog handing its selection to `reEvaluateAll` changes nothing |
| ConcurrentEvaluation.ReEvaluation | src/components/prompt-debugger/hooks/useConcurrentEvaluation.ts:136-143 | empty with no enabled criterion; every key is a position in the executed selection and holds the result for that case (all positions present: ReEvaluationKeys) |
| ConcurrentEvaluation.ReEvaluationKeys | src/components/prompt-debugger/hooks/useConcurrentEvaluation.ts:136-143 | keys are the positions 0..n-1 of the selection, each holding that case's result |
| ConcurrentEvaluation.Evaluator.ReEvaluateAll | src/components/prompt-debugger/hooks/useConcurrentEvaluation.ts:113-169 | empty selection or no enabled criterion: empty map, state untouched; otherwise the positional map, idle with progress 0 at the end |
| SessionState.NewSession | src/components/prompt-debugger/hooks/useSessionState.ts:12-40 | no cases, one version V1 which is current, concurrency 5, default name when none is given |
| SessionState.MergeLaws | src/components/prompt-debugger/hooks/useSessionState.ts:96-111 | an empty update changes nothing, an update is idempotent, a later update wins |
| SessionState.FindSession | src/components/prompt-debugger/hooks/useSessionState.ts:78-80 | finds a session iff one has the id, and returns the first one with that id |
| SessionState.UpdateWhere | src/components/prompt-debugger/hooks/useSessionState.ts:96-111 | only sessions with the id change: merged data and a new update time |
| SessionState.RenameWhere | src/components/prompt-debugger/hooks/useSessionState.ts:114-122 | only the name and update time of matching sessions change |
| SessionState.RenameThenFind | src/components/prompt-debugger/hooks/useSessionState.ts:114-122 | a renamed session is found under its id with the new name |
| SessionState.Without | src/components/prompt-debugger/hooks/useSessionState.ts:125-127 | exactly the sessions with another id remain |
| SessionState.WithoutAbsent | src/components/prompt-debugger/hooks/useSessionState.ts:125-127 | deleting an unknown id keeps the list |
| SessionState.Copy | src/components/prompt-debugger/hooks/useSessionState.ts:140-146 | same data, a fresh id, the name with " (副本)" |
| SessionState.SessionStore.constructor | src/components/prompt-debugger/hooks/useSessionState.ts:43-44 | no sessions and no current id |
| SessionState.SessionStore.Load | src/components/prompt-debugger/hooks/useSessionState.ts:47-65 | saved list with the saved id if present, else the first; nothing saved gives one default session, current |
| SessionState.LoadedCurrentExists | src/components/prompt-debugger/hooks/useSessionState.ts:51-57 | after loading a non-empty list the current session exists |
| SessionState.SessionStore.CreateSession | src/components/prompt-debugger/hooks/useSessionState.ts:83-88 | appended at the end and made current |
| SessionState.CreatedIsCurrent | src/components/prompt-debugger/hooks/useSessionState.ts:83-88 | a created session with a new id is found as the current session |
| SessionState.SessionStore.SwitchSession | src/components/prompt-debugger/hooks/useSessionState.ts:91-93 | only the current id changes |
| SessionState.SessionStore.UpdateCurrentSession | src/components/prompt-debugger/hooks/useSessionState.ts:96-111 | the sessions with the current id are updated; current id kept |
| SessionState.SessionStore.RenameSession | src/components/prompt-debugger/hooks/useSessionState.ts:114-122 | the matching sessions are renamed; current id kept |
| SessionState.SessionStore.DeleteSession | src/components/prompt-debugger/hooks/useSessionState.ts:125-134 | every session with the id goes; a deleted current moves to the first remaining one, or stays when none remains |
| SessionState.SessionStore.DuplicateSession | src/components/prompt-debugger/hooks/useSessionState.ts:137-150 | a copy of the first match is appended and made current; an unknown id changes nothing |
| DebuggerModal.CurrentPromptAgrees | src/components/prompt-debugger/PromptDebuggerModal.tsx:88-97 | for a non-empty tag the dialog's prompt equals the version panel's lookup |
| DebuggerModal.DataOf | src/components/prompt-debugger/PromptDebuggerModal.tsx:64-85 | the current session's data, or with no session the defaults: no cases, no criteria, concurrency 5, the single version V1 current |
| DebuggerModal.CurrentVersionPrompt | src/components/prompt-debugger/PromptDebuggerModal.tsx:88-97 | the base prompt for an empty or "V1" tag or no versions; otherwise the base prompt or the non-empty content of a version with the current tag (which one: CurrentPromptAgrees and FindVersion) |
| DebuggerModal.ConfigOf | src/components/prompt-debugger/PromptDebuggerModal.tsx:100-110 | the run uses the session's criteria and variables, and a prompt that is the base prompt or the non-empty content of the current version |
| DebuggerModal.QuickSwitch | src/components/prompt-debugger/PromptDebuggerModal.tsx:137-157 | same length and order; only the enabled flags change |
| DebuggerModal.QuickSwitchAll | src/components/prompt-debugger/PromptDebuggerModal.tsx:139-140 | ALL enables every criterion |
| DebuggerModal.QuickSwitchRange | src/components/prompt-debugger/PromptDebuggerModal.tsx:141-147 | "a-b" enables a criterion iff its level index lies between those of a and b |
| DebuggerModal.QuickSwitchExample | src/components/prompt-debugger/PromptDebuggerModal.tsx:141-147 | "P1-P3" enables exactly P1, P2 and P3 |
| DebuggerModal.LevelIndexOf | src/components/prompt-debugger/PromptDebuggerModal.tsx:143-145 | the k-th level has index k |
| DebuggerModal.QuickSwitchSingle | src/components/prompt-debugger/PromptDebuggerModal.tsx:148-150 | a single level enables exactly that level |
| DebuggerModal.HandleExecute | src/components/prompt-debugger/PromptDebuggerModal.tsx:160-173 | refused iff no criterion is enabled |
| DebuggerModal.ExecuteKeepsCases | src/components/prompt-debugger/PromptDebuggerModal.tsx:166-170 | an accepted run keeps the count, order and ids of the cases, none left pending |
| DebuggerModal.HandleClear | src/components/prompt-debugger/PromptDebuggerModal.tsx:223-237 | every case pending with no results, id/title/messages kept, progress 0 |
| DebuggerModal.ClearIdempotent | src/components/prompt-debugger/PromptDebuggerModal.tsx:223-235 | clearing twice is clearing once, and a cleared case looks freshly parsed |
| DebuggerModal.ClearedForReEvaluation | src/components/prompt-debugger/PromptDebuggerModal.tsx:183-195 | executed cases lose passed, score and level while the judge runs; others stay |
| DebuggerModal.MergeAsWritten | src/components/prompt-debugger/PromptDebuggerModal.tsx:201-216 | as written: one case per case, looked up by its id (what that does: AsWrittenMisattributes) |
| DebuggerModal.AsWrittenMisattributes | src/components/prompt-debugger/PromptDebuggerModal.tsx:201-216 | as written, case 1 gets case 2's result |
| DebuggerModal.MergeByPositionSpec | src/components/prompt-debugger/PromptDebuggerModal.tsx:201-216 | the corrected merge gives each case its own result, or keeps it |
| DebuggerModal.HandleReEvaluate | src/components/prompt-debugger/PromptDebuggerModal.tsx:176-220 | corrected: one case per case (the cases it updates: ReEvaluateUpdatesOwnCase) |
| DebuggerModal.ReEvaluateUpdatesOwnCase | src/components/prompt-debugger/PromptDebuggerModal.tsx:176-220 | each executed case whose re-judging succeeds takes its own result; every other case is kept as before the clearing |
| DebuggerModal.HandleSaveVersion | src/components/prompt-debugger/PromptDebuggerModal.tsx:251-266 | V<n+1> is appended with the text and changes and made current; earlier versions untouched |
| DebuggerModal.SavedVersionInEffect | src/components/prompt-debugger/PromptDebuggerModal.tsx:251-266 | a saved non-empty version with a new tag is the prompt in effect afterwards |
| DebuggerModal.PromptChangeAsWritten | src/components/prompt-debugger/PromptDebuggerModal.tsx:269-289 | on V1 a "V2" is always appended and made current |
| DebuggerModal.RewriteContent | src/components/prompt-debugger/PromptDebuggerModal.tsx:282-288 | only the content of versions with the tag changes |
| DebuggerModal.AsWrittenEditLost | src/components/prompt-debugger/PromptDebuggerModal.tsx:270-281 | as written, with a V2 already present an edit on V1 does not take effect |
| DebuggerModal.HandlePromptChange | src/components/prompt-debugger/PromptDebuggerModal.tsx:269-289 | corrected: on V1 the edit is appended as V<n+1> and becomes current; elsewhere the versions keep their tags and only those with the current tag take the new text, the current tag unchanged |
| DebuggerModal.PromptChangeTakesEffect | src/components/prompt-debugger/PromptDebuggerModal.tsx:269-289 | corrected: an edit on V1 becomes the prompt in effect; elsewhere only the current version's content changes |
| EvaluationManager.WithEnabled | src/components/prompt-debugger/components/EvaluationManager.tsx:96-101 | generated criteria taken as returned, enabled iff P0, P1 or P2 |
| EvaluationManager.GeneratedCriteria | src/components/prompt-debugger/components/EvaluationManager.tsx:41-112 | a new list only after a successful, non-empty answer, and in it a criterion is enabled iff its level is P0, P1 or P2 (exactly when and which: GeneratedCriteriaSpec) |
| EvaluationManager.GeneratedCriteriaSpec | src/components/prompt-debugger/components/EvaluationManager.tsx:41-112 | the list changes iff the call succeeds with an answer whose span parses; then the parsed criteria in order, exactly the core ones enabled |
| EvaluationManager.EnabledAfterGeneration | src/components/prompt-debugger/components/EvaluationManager.tsx:96-101 | the enabled criteria after generation are exactly the P0–P2 ones |
| EvaluationManager.ToggleEnabled | src/components/prompt-debugger/components/EvaluationManager.tsx:128-132 | only the flag of matching criteria flips |
| EvaluationManager.ToggleTwice | src/components/prompt-debugger/components/EvaluationManager.tsx:128-132 | toggling twice restores the list |
| EvaluationManager.ToggleCount | src/components/prompt-debugger/components/EvaluationManager.tsx:128-141 | toggling a unique id moves the enabled count by exactly one |
| EvaluationManager.UntouchedCount | src/components/prompt-debugger/components/EvaluationManager.tsx:128-132 | toggling an absent id changes nothing |
| EvaluationManager.UpdateWeight | src/components/prompt-debugger/components/EvaluationManager.tsx:135-139 | only the weight of matching criteria changes |
| EvaluationManager.WeightInput | src/components/prompt-debugger/components/EvaluationManager.tsx:221 | `v \|\| 1`: never 0, a non-zero value kept |
| EvaluationManager.UpdateWeightLaws | src/components/prompt-debugger/components/EvaluationManager.tsx:135-139 | weights set from the box are never 0; the last update wins |
| EvaluationManager.ToggleWeightCommute | src/components/prompt-debugger/components/EvaluationManager.tsx:128-139 | toggling and reweighting commute |
| EvaluationManager.StartEdit | src/components/prompt-debugger/components/EvaluationManager.tsx:115-118 | the draft is a copy of the criteria; the editor opens |
| EvaluationManager.SaveEdit | src/components/prompt-debugger/components/EvaluationManager.tsx:121-125 | the draft replaces the criteria; the editor closes |
| EvaluationManager.CancelEdit | src/components/prompt-debugger/components/EvaluationManager.tsx:171 | the editor closes, the criteria stay |
| EvaluationManager.ApplyEdits | src/components/prompt-debugger/components/EvaluationManager.tsx:128-139 | edits keep length, ids and levels |
| EvaluationManager.EditSession | src/components/prompt-debugger/components/EvaluationManager.tsx:114-124 | editing leaves the criteria alone until saved; saving gives the edited copy; cancelling keeps them |
| EvaluationManager.EnabledCountBounds | src/components/prompt-debugger/components/EvaluationManager.tsx:141 | the count is at most the length; equal to it iff all are enabled; 0 iff none is |
| PromptOptimizer.PassingCases | src/components/prompt-debugger/components/PromptOptimizer.tsx:41 | exactly the cases with a truthy pass flag |
| PromptOptimizer.FailingCases | src/components/prompt-debugger/components/PromptOptimizer.tsx:42 | exactly the cases with `passed === false` |
| PromptOptimizer.CountsPartition | src/components/prompt-debugger/components/PromptOptimizer.tsx:40-42 | passed + failed ≤ total, with equality iff every case has a verdict |
| PromptOptimizer.PassRate | src/components/prompt-debugger/components/PromptOptimizer.tsx:43 | the rate is in 0..100 and 0 with no cases |
| PromptOptimizer.PassRateBounds | src/components/prompt-debugger/components/PromptOptimizer.tsx:43 | 100 when all pass; 0 when none does |
| PromptOptimizer.FailingDetails | src/components/prompt-debugger/components/PromptOptimizer.tsx:55 | exactly the failed, applicable criteria |
| PromptOptimizer.Take | src/components/prompt-debugger/components/PromptOptimizer.tsx:48-64 | `slice`/`substring`: the first n elements, or all when shorter |
| PromptOptimizer.TakeSpec | src/components/prompt-debugger/components/PromptOptimizer.tsx:57-64 | a cut text is at most n long, unchanged iff short enough, and cutting twice is cutting once |
| PromptOptimizer.CriterionLines | src/components/prompt-debugger/components/PromptOptimizer.tsx:54-58 | at most the first two failed criteria, one line each |
| PromptOptimizer.CaseDetailsSpec | src/components/prompt-debugger/components/PromptOptimizer.tsx:46-69 | at most three summaries, of the first failing cases in order, each opening with its number and title |
| PromptOptimizer.CaseDetailSections | src/components/prompt-debugger/components/PromptOptimizer.tsx:53-65 | a case with details gets a criteria section iff one of its criteria failed |
| PromptOptimizer.TallySpec | src/components/prompt-debugger/components/PromptOptimizer.tsx:72-81 | the tally holds exactly the names that occur, each with its count; the key order lists each once |
| PromptOptimizer.FailureStatsMeaning | src/components/prompt-debugger/components/PromptOptimizer.tsx:72-81 | a name's count is the number of failed, applicable criteria with that name across all cases |
| PromptOptimizer.KeysTallied | src/components/prompt-debugger/components/PromptOptimizer.tsx:72-83 | every key in the key order has a count |
| PromptOptimizer.TallyStep | src/components/prompt-debugger/components/PromptOptimizer.tsx:77-79 | one detail bumps its name exactly when it failed and applied |
| PromptOptimizer.FailureStats | src/components/prompt-debugger/components/PromptOptimizer.tsx:72-81 | the nested loops build exactly the tally and its key order |
| PromptOptimizer.CountCaseFailures | src/components/prompt-debugger/components/PromptOptimizer.tsx:76-80 | the inner loop adds one case's failures to the tally |
| PromptOptimizer.Entries | src/components/prompt-debugger/components/PromptOptimizer.tsx:83 | one entry per key, in key order, with its count |
| PromptOptimizer.InsertSpec | src/components/prompt-debugger/components/PromptOptimizer.tsx:84 | inserting into a sorted list keeps it sorted and adds exactly the element |
| PromptOptimizer.SortByCount | src/components/prompt-debugger/components/PromptOptimizer.tsx:84 | highest count first, a permutation of the input |
| PromptOptimizer.TopFailuresSpec | src/components/prompt-debugger/components/PromptOptimizer.tsx:83-87 | at most five entries, sorted, taken from the input; no left-out entry counts more than a kept one |
| PromptOptimizer.LimitPrompt | src/components/prompt-debugger/components/PromptOptimizer.tsx:100-102 | up to 8000 characters unchanged; longer ones keep the first 8000 plus the notice |
| PromptOptimizer.LimitPromptSpec | src/components/prompt-debugger/components/PromptOptimizer.tsx:100-102 | bounded, starts like the prompt, and limiting twice is limiting once |
| PromptOptimizer.ReportOf | src/components/prompt-debugger/components/PromptOptimizer.tsx:39-97 | total is the case count; passed and failed are the counts of passing and failing cases (together at most the total); the rate is PassRate, in 0..100; the top failures are the tally text; the failed-case text is the numbered summaries of the first three failing cases joined by blank lines, or "无失败案例" when none failed |
| PromptOptimizer.ParseOptimization | src/components/prompt-debugger/components/PromptOptimizer.tsx:159-171 | the prompt is the whole answer or shorter than it by at least its heading; the changes are the notice or shorter than the answer by at least their heading (exact readings: ParseFormatted, ParseUnformatted) |
| PromptOptimizer.ParseFormatted | src/components/prompt-debugger/components/PromptOptimizer.tsx:159-166 | an answer in the requested layout reads back as its two sections, trimmed |
| PromptOptimizer.ParseFound | src/components/prompt-debugger/components/PromptOptimizer.tsx:159-166 | with both headings found, the prompt runs to the line break before the changes heading |
| PromptOptimizer.ChangesMarkerFirst | src/components/prompt-debugger/components/PromptOptimizer.tsx:160 | in a formatted answer the changes heading is found right after the prompt |
| PromptOptimizer.ParseUnformatted | src/components/prompt-debugger/components/PromptOptimizer.tsx:167-170 | an answer lacking a heading is shown whole with the notice |
| PromptOptimizer.SaveRequest | src/components/prompt-debugger/components/PromptOptimizer.tsx:186-192 | saving happens iff there is a saver and both texts are non-empty |
| PromptOptimizer.SaveAfterOptimize | src/components/prompt-debugger/components/PromptOptimizer.tsx:155-192 | an unformatted answer can always be saved; a formatted one iff neither section is blank |
| PromptOptimizer.Optimize | src/components/prompt-debugger/components/PromptOptimizer.tsx:31-177 | no result without test cases (what a result reads as: ParseOptimization, SaveAfterOptimize) |
| PromptOptimizer.Optimizer.HandleOptimize | src/components/prompt-debugger/components/PromptOptimizer.tsx:31-177 | an accepted answer replaces the shown prompt and changes, anything else keeps them; idle afterwards; no cases, no call |
| PromptOptimizer.Optimizer.SaveAsNewVersion | src/components/prompt-debugger/components/PromptOptimizer.tsx:186-192 | hands over the texts and closes the confirmation iff the guard allows |

## Left out

- Parallelism: the chunk loops run sequentially, and within a chunk the calls are taken in item order. The interleaving of `Promise.all`, timers and cancellation are not modelled.
- The HTTP client (`lib/api.ts`) and the server route: the agent, the judge and the generator are function parameters returning `{success, response?, error?}`. The client never throws, so neither do these parameters.
- `JSON.parse` is a parameter, either a parse function or a criteria parser. The prompt texts sent to the judge, the generator and the optimizer are not modelled: the optimizer's request carries its parts as fields.
- The JavaScript regex engine: the `用例\d+：` split, the greedy `[`…`]` span and the two answer sections are written out by hand.
- String lengths count code points, not UTF-16 units, so cuts at 100, 150 and 8000 characters differ for characters outside the basic plane.
- `$` patterns in `String.replace` replacement values are not interpreted; replacement is literal.
- Scores and weights are integers: a judge could return fractional values, which JavaScript would accept.
- `Date.now()` and `toLocaleString` readings for sessions and versions are parameters (`Clock`, timestamps). A new session takes one reading for both `createdAt` and `updatedAt`, where the source calls `toISOString()` twice and the two may differ by a millisecond.
- DebuggerModal.DataOf: the dialog spreads the saved data over a block of defaults, for data saved before some fields existed; the model takes saved data as complete, so a field missing from old saved data is not filled from the defaults.
- PromptOptimizer.FailureStats: the source counts into a plain object, so a failed criterion named after an `Object.prototype` member differs. With `toString`, `valueOf`, `constructor` or `hasOwnProperty`, the lookup finds the inherited function and the count becomes that function's text followed by "1". With `__proto__`, the assignment is ignored and the name never appears. The model counts every name as an ordinary key.
- PromptOptimizer.FailureStatsMeaning: states the count for every name, which matches the source only for names that are not `Object.prototype` members (see PromptOptimizer.FailureStats).
- The per-message `timestamp` that the turn loop and the judge step stamp with `new Date().toISOString()` is dropped: `Message` holds only the role and the content.
- `localStorage` persistence is not modelled: `Load` receives what was saved, and saving back is not modelled.
- Toasts, console logging, and the outer `catch` blocks around calls that cannot throw.
- The presentation files (`ResultsDisplay`, `SessionManager`, `TestExecutor`, `AIScorePanel`, `TestCaseGenerator`, `ConfigModal`, the app pages) are not part of this model.
- `Partial` updates with a key present but set to `undefined` are not modelled: a field is either given or left out.
- `Object.entries` lists integer-like keys first; the model lists the keys in insertion order.
- PromptOptimizer.SortByCount: the sort is stable, so ties keep their key order, but no lemma states this.
- Concurrency.ExecuteConcurrently, Concurrency.ExecuteBatchWithResults, TestExecution.TestRunner.ExecuteTests and ConcurrentEvaluation.Evaluator.ReEvaluateAll all require a concurrency of at least 1 when there is work, because the source loops forever with 0.
- TestExecution.Percent: computes round(completed/total·100) on exact rationals, while the source divides and multiplies JavaScript doubles. The results differ where the exact value is a half: for 23 of 40 the double product is 57.49999999999999, so the source shows 57 and the model 58 (likewise 29 of 200: 14 against 15, 57 of 200: 28 against 29). The bounds, monotonicity and 100 at completion in TestExecution.PercentBounds are stated only for the exact computation.
- TestExecution.TestRunner.ShowProgress: the shown percentages are TestExecution.Percent, so they share its exact-rational rounding rather than double arithmetic.
- TestExecution.TestRunner.ExecuteTests: its progress values are TestExecution.Percent, with the same exact-rational rounding.
- PromptOptimizer.ReportOf: the pass rate is TestExecution.Percent of passed over total, with the same exact-rational rounding (23 passes of 40 give 58 here, 57 in the source).
- PromptOptimizer.PassRate: as for PromptOptimizer.ReportOf, the rate is rounded on exact rationals, not doubles.
- ConcurrentEvaluation.Evaluator.ReEvaluateAll: the intermediate progress values the callback sets are not stored; only the final idle state with progress 0 is stated.

## Findings

| source | as written | input that shows it | evidently intended | confidence | as-written member | corrected member |
|---|---|---|---|---|---|---|
| src/components/prompt-debugger/PromptDebuggerModal.tsx:201-202 | the re-evaluation results are looked up with `results.get(tc.id)`, but `executeBatchWithResults` keys them by position in the executed list (src/components/prompt-debugger/utils/concurrency.ts:51,56) | two executed cases with the parser's ids 1 and 2: case 1 reads key 1, which holds case 2's result | each case takes the result of its own re-judging | not executed | DebuggerModal.AsWrittenMisattributes | DebuggerModal.ReEvaluateUpdatesOwnCase |
| src/components/prompt-debugger/PromptDebuggerModal.tsx:270-281 | an edit made while on V1 always appends a version labelled "V2" | versions [V1, V2 with content], current V1, edit the prompt: a second "V2" is appended, and the lookup finds the old V2 first | the edit is saved as the next version V<n+1> and takes effect | not executed | DebuggerModal.AsWrittenEditLost | DebuggerModal.PromptChangeTakesEffect |
