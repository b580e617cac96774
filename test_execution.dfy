/** The test runner (`useTestExecution`): one case is played turn by turn
    against the agent, then the transcript is scored by the judge; a batch
    runs the cases through the chunked runner and reports progress. */
module TestExecution {
  import opened Types
  import opened Text
  import opened Seqs
  import opened TestCaseParser
  import opened EvaluationCalculator
  import Concurrency

  /** The agent under test: the system prompt and the transcript so far in,
      one call result out. Model, temperature and token limit are fixed for a
      run and folded into the function. */
  type Agent = (string, seq<Message>) -> CallResult

  /** The judge: the transcript and the enabled criteria in. The judge prompt
      is built from these two alone, so they determine the call. */
  type Judge = (seq<Message>, seq<Criterion>) -> CallResult

  /** What a run is configured with. */
  datatype RunConfig = RunConfig(
    systemPrompt: string,
    vars: Variables,
    criteria: seq<Criterion>,
    agent: Agent,
    judge: Judge,
    parse: JsonParser)

  // ---------------------------------------------------------------------
  // The turn loop

  /** The loop state: the transcript so far, the agent's replies, the
      transcript each agent call was given, and the error that stopped the
      loop, if one did. */
  datatype Turns = Turns(
    history: seq<Message>,
    responses: seq<string>,
    calls: seq<seq<Message>>,
    error: Option<string>)

  /** `result.error || '执行失败'`. */
  function ErrorText(e: Option<string>): (t: string)
    ensures t != ""
    ensures Truthy(e) ==> t == e.value
    ensures !Truthy(e) ==> t == "执行失败"
  {
    if Truthy(e) then e.value else "执行失败"
  }

  /** One iteration: the message joins the transcript; a user message then
      calls the agent on the transcript, and a reply that is successful and
      non-empty joins it as an assistant message, anything else stops the loop. */
  function Turn(t: Turns, msg: Message, prompt: string, agent: Agent): Turns {
    if t.error.Some? then t
    else
      var h := t.history + [msg];
      if msg.role != User then t.(history := h)
      else
        var res := agent(prompt, h);
        if res.success && Truthy(res.response) then
          Turns(h + [Message(Assistant, res.response.value)], t.responses + [res.response.value], t.calls + [h], None)
        else
          Turns(h, t.responses, t.calls + [h], Some(ErrorText(res.error)))
  }

  /** The loop over the seed messages, in order. */
  function Converse(msgs: seq<Message>, prompt: string, agent: Agent): Turns
    decreases |msgs|
  {
    if msgs == [] then Turns([], [], [], None)
    else Turn(Converse(msgs[..|msgs| - 1], prompt, agent), msgs[|msgs| - 1], prompt, agent)
  }

  /** The `for … of` loop of `executeSingleTest`, leaving at the first failed call. */
  method RunTurns(msgs: seq<Message>, prompt: string, agent: Agent) returns (t: Turns)
    ensures t == Converse(msgs, prompt, agent)
  {
    var history: seq<Message> := [];
    var responses: seq<string> := [];
    var calls: seq<seq<Message>> := [];
    var i := 0;
    while i < |msgs|
      invariant 0 <= i <= |msgs|
      invariant Converse(msgs[..i], prompt, agent) == Turns(history, responses, calls, None)
    {
      var msg := msgs[i];
      PrefixStep(msgs, i);
      history := history + [msg];
      if msg.role == User {
        var res := agent(prompt, history);
        calls := calls + [history];
        if res.success && Truthy(res.response) {
          responses := responses + [res.response.value];
          history := history + [Message(Assistant, res.response.value)];
        } else {
          t := Turns(history, responses, calls, Some(ErrorText(res.error)));
          AbortSticks(msgs, i + 1, prompt, agent);
          return;
        }
      }
      i := i + 1;
    }
    PrefixWhole(msgs);
    t := Turns(history, responses, calls, None);
  }

  /** Once a call has failed, later messages change nothing. */
  lemma {:induction false} AbortSticks(msgs: seq<Message>, i: nat, prompt: string, agent: Agent)
    requires i <= |msgs|
    requires Converse(msgs[..i], prompt, agent).error.Some?
    ensures Converse(msgs, prompt, agent) == Converse(msgs[..i], prompt, agent)
    decreases |msgs| - i
  {
    if i < |msgs| {
      PrefixStep(msgs, i);
      AbortSticks(msgs, i + 1, prompt, agent);
    } else {
      PrefixWhole(msgs);
    }
  }

  /** The number of user messages. */
  function UserCount(msgs: seq<Message>): (n: nat)
    ensures n <= |msgs|
    decreases |msgs|
  {
    if msgs == [] then 0
    else UserCount(msgs[..|msgs| - 1]) + (if msgs[|msgs| - 1].role == User then 1 else 0)
  }

  /** The seed messages with `replies[j]`, as an assistant message, placed
      right after the `j`-th user message. */
  function WithReplies(msgs: seq<Message>, replies: seq<string>): seq<Message>
    requires |replies| == UserCount(msgs)
    decreases |msgs|
  {
    if msgs == [] then []
    else
      var m := msgs[|msgs| - 1];
      if m.role == User then
        WithReplies(msgs[..|msgs| - 1], replies[..|replies| - 1]) + [m, Message(Assistant, replies[|replies| - 1])]
      else
        WithReplies(msgs[..|msgs| - 1], replies) + [m]
  }

  /** A loop that ran to the end has one reply per user message, and its
      transcript is the seed messages with each reply right after its user
      message. */
  lemma {:induction false} CompletedTranscript(msgs: seq<Message>, prompt: string, agent: Agent)
    requires Converse(msgs, prompt, agent).error.None?
    ensures var t := Converse(msgs, prompt, agent);
      |t.responses| == UserCount(msgs) && t.history == WithReplies(msgs, t.responses)
    decreases |msgs|
  {
    if msgs != [] {
      var init := msgs[..|msgs| - 1];
      var t0 := Converse(init, prompt, agent);
      assert t0.error.None?;
      CompletedTranscript(init, prompt, agent);
      var t := Converse(msgs, prompt, agent);
      if msgs[|msgs| - 1].role == User {
        assert t.responses[..|t.responses| - 1] == t0.responses;
      }
    }
  }

  /** Each agent call saw the transcript up to and including a user message,
      and the reply it gave follows that prefix in the final transcript: no
      call is made on any other turn and no reply is reordered. */
  predicate CallsSeePrefixes(t: Turns) {
    |t.calls| == |t.responses|
    && forall j :: 0 <= j < |t.calls| ==>
         0 < |t.calls[j]| < |t.history|
         && t.history[..|t.calls[j]|] == t.calls[j]
         && t.calls[j][|t.calls[j]| - 1].role == User
         && t.history[|t.calls[j]|] == Message(Assistant, t.responses[j])
  }

  lemma {:induction false} CompletedCalls(msgs: seq<Message>, prompt: string, agent: Agent)
    requires Converse(msgs, prompt, agent).error.None?
    ensures CallsSeePrefixes(Converse(msgs, prompt, agent))
    decreases |msgs|
  {
    if msgs != [] {
      var init := msgs[..|msgs| - 1];
      assert Converse(init, prompt, agent).error.None?;
      CompletedCalls(init, prompt, agent);
      TurnKeepsPrefixes(Converse(init, prompt, agent), msgs[|msgs| - 1], prompt, agent);
    }
  }

  /** One completed turn keeps every earlier call's prefix in place. */
  lemma TurnKeepsPrefixes(t0: Turns, msg: Message, prompt: string, agent: Agent)
    requires t0.error.None? && CallsSeePrefixes(t0)
    requires Turn(t0, msg, prompt, agent).error.None?
    ensures CallsSeePrefixes(Turn(t0, msg, prompt, agent))
  {
    var t := Turn(t0, msg, prompt, agent);
    assert t.history[..|t0.history|] == t0.history;
    forall j | 0 <= j < |t.calls|
      ensures 0 < |t.calls[j]| < |t.history|
      ensures t.history[..|t.calls[j]|] == t.calls[j]
      ensures t.calls[j][|t.calls[j]| - 1].role == User
      ensures t.history[|t.calls[j]|] == Message(Assistant, t.responses[j])
    {
      if j < |t0.calls| {
        var n := |t0.calls[j]|;
        assert t.calls[j] == t0.calls[j] && t.responses[j] == t0.responses[j];
        assert t.history[..n] == t0.history[..n];
        assert t.history[n] == t0.history[n];
      }
    }
  }

  /** A loop that stopped did so on its last call, whose result was not a
      successful non-empty reply, and it reports that call's error or the
      default message. */
  lemma {:induction false} AbortReason(msgs: seq<Message>, prompt: string, agent: Agent)
    requires Converse(msgs, prompt, agent).error.Some?
    ensures var t := Converse(msgs, prompt, agent);
      |t.calls| > 0
      && var res := agent(prompt, t.calls[|t.calls| - 1]);
      !(res.success && Truthy(res.response)) && t.error.value == ErrorText(res.error)
    decreases |msgs|
  {
    var init := msgs[..|msgs| - 1];
    if Converse(init, prompt, agent).error.Some? {
      AbortReason(init, prompt, agent);
    }
  }

  /** Seed messages with no user message make no call and come back as the transcript. */
  lemma NoUserNoCall(msgs: seq<Message>, prompt: string, agent: Agent)
    requires UserCount(msgs) == 0
    ensures Converse(msgs, prompt, agent) == Turns(msgs, [], [], None)
  {
    NoUserTurns(msgs, prompt, agent);
  }

  lemma {:induction false} NoUserTurns(msgs: seq<Message>, prompt: string, agent: Agent)
    requires UserCount(msgs) == 0
    ensures Converse(msgs, prompt, agent) == Turns(msgs, [], [], None)
    decreases |msgs|
  {
    if msgs != [] {
      var init := msgs[..|msgs| - 1];
      NoUserTurns(init, prompt, agent);
      assert init + [msgs[|msgs| - 1]] == msgs;
    }
  }

  // ---------------------------------------------------------------------
  // Judging a transcript

  /** What the judge's answer comes to: the records, the composite score and
      level, the pass flag and the evaluation text. */
  datatype Verdict = Verdict(details: seq<EvalRecord>, composite: Composite, passed: bool, text: string)

  /** `` `【${r.criteriaName}】${r.score}分 - ${r.reason}` `` */
  function EvaluationLine(r: EvalRecord): string {
    "【" + r.criteriaName + "】" + IntToString(r.score) + "分 - " + r.reason
  }

  function EvaluationLines(rs: seq<EvalRecord>): (lines: seq<string>)
    ensures |lines| == |rs|
    ensures forall k :: 0 <= k < |rs| ==> lines[k] == EvaluationLine(rs[k])
  {
    if rs == [] then [] else [EvaluationLine(rs[0])] + EvaluationLines(rs[1..])
  }

  /** The evaluation lines joined by newlines. */
  function EvaluationText(rs: seq<EvalRecord>): string {
    Join(EvaluationLines(rs), "\n")
  }

  /** The judge's answer (an absent response reads as empty text), parsed
      against the enabled criteria and aggregated; a case passes when the
      rounded score is at least 60. */
  function Judgement(history: seq<Message>, criteria: seq<Criterion>, judge: Judge, parse: JsonParser): Verdict {
    var enabled := EnabledCriteria(criteria);
    var details := ParseEvaluationResponse(judge(history, enabled).response.GetOr(""), enabled, parse);
    var composite := CalculateOverallScore(details, enabled);
    Verdict(details, composite, PassedScore(composite.score), EvaluationText(details))
  }

  /** The judge's success flag is never looked at: a judge answer with no
      bracketed span (a failed call has no response at all) yields no
      records, the default composite 60 / 良好, a pass, and an empty text. */
  lemma FailedJudgePasses(history: seq<Message>, criteria: seq<Criterion>, judge: Judge, parse: JsonParser)
    requires BracketSpan(judge(history, EnabledCriteria(criteria)).response.GetOr("")).None?
    ensures Judgement(history, criteria, judge, parse) == Verdict([], Composite(60, Good), true, "")
  {
    AllNotApplicableDefault([], EnabledCriteria(criteria));
  }

  /** When no criterion name and no reason contains a newline, the text
      splits back into one line per record. */
  lemma EvaluationTextLines(rs: seq<EvalRecord>)
    requires rs != []
    requires forall r :: r in rs ==> '\n' !in r.criteriaName && '\n' !in r.reason
    ensures Split(EvaluationText(rs), '\n') == EvaluationLines(rs)
  {
    var lines := EvaluationLines(rs);
    forall k | 0 <= k < |lines| ensures '\n' !in lines[k] {
      var r := rs[k];
      assert r in rs;
      var n := IntToString(r.score);
      assert '\n' !in n by {
        forall m | 0 <= m < |n| ensures n[m] != '\n' {
          assert IsDigit(n[m]) || n[m] == '-';
        }
      }
      assert lines[k] == "【" + r.criteriaName + "】" + n + "分 - " + r.reason;
    }
    SplitJoin(lines, '\n');
  }

  // ---------------------------------------------------------------------
  // One test case

  /** `executeSingleTest`: the seed messages with placeholders substituted
      are played against the agent; a stopped loop marks the case failed
      with the error as its evaluation, anything else marks it successful
      with the transcript, the replies and the judge's verdict. */
  function SingleTest(tc: TestCase, cfg: RunConfig): TestCase {
    var msgs := ReplaceMessageVariables(tc.messages, cfg.vars);
    var t := Converse(msgs, cfg.systemPrompt, cfg.agent);
    if t.error.Some? then
      tc.(status := Failed, evaluation := Some(t.error.value))
    else
      var v := Judgement(t.history, cfg.criteria, cfg.judge, cfg.parse);
      tc.(status := Success,
          responses := Some(t.responses),
          conversationHistory := Some(t.history),
          evaluationDetails := Some(v.details),
          overallScore := Some(v.composite.score),
          overallLevel := Some(v.composite.level),
          passed := Some(v.passed),
          evaluation := Some(v.text))
  }

  method ExecuteSingleTest(tc: TestCase, cfg: RunConfig) returns (r: TestCase)
    ensures r == SingleTest(tc, cfg)
  {
    var msgs := ReplaceMessageVariables(tc.messages, cfg.vars);
    var t := RunTurns(msgs, cfg.systemPrompt, cfg.agent);
    if t.error.Some? {
      r := tc.(status := Failed, evaluation := Some(t.error.value));
    } else {
      var v := Judgement(t.history, cfg.criteria, cfg.judge, cfg.parse);
      r := tc.(status := Success, responses := Some(t.responses), conversationHistory := Some(t.history),
               evaluationDetails := Some(v.details), overallScore := Some(v.composite.score),
               overallLevel := Some(v.composite.level), passed := Some(v.passed), evaluation := Some(v.text));
    }
  }

  /** Either outcome keeps the case's identity and its seed messages; a
      failed case keeps every other field too, any earlier transcript
      included, and carries a non-empty error text as its evaluation. */
  lemma SingleTestOutcome(tc: TestCase, cfg: RunConfig)
    ensures var r := SingleTest(tc, cfg);
      r.id == tc.id && r.title == tc.title && r.messages == tc.messages
      && (r.status == Failed || r.status == Success)
      && (r.status == Failed ==>
            r.evaluation.Some? && r.evaluation.value != ""
            && r.(status := tc.status, evaluation := tc.evaluation) == tc)
  {
    var msgs := ReplaceMessageVariables(tc.messages, cfg.vars);
    var t := Converse(msgs, cfg.systemPrompt, cfg.agent);
    if t.error.Some? {
      AbortReason(msgs, cfg.systemPrompt, cfg.agent);
      assert SingleTest(tc, cfg) == tc.(status := Failed, evaluation := Some(t.error.value));
    } else {
      assert SingleTest(tc, cfg).status == Success;
    }
  }

  /** A successful case holds one reply per user message of the seed, a
      transcript that is the substituted seed with each reply after its user
      message, and a pass flag that agrees with its rounded score. */
  lemma SuccessRecord(tc: TestCase, cfg: RunConfig)
    requires SingleTest(tc, cfg).status == Success
    ensures var r := SingleTest(tc, cfg);
      var msgs := ReplaceMessageVariables(tc.messages, cfg.vars);
      r.responses.Some? && r.conversationHistory.Some? && r.overallScore.Some? && r.passed.Some?
      && |r.responses.value| == UserCount(msgs)
      && r.conversationHistory.value == WithReplies(msgs, r.responses.value)
      && (r.passed.value <==> r.overallScore.value >= 60)
  {
    var msgs := ReplaceMessageVariables(tc.messages, cfg.vars);
    CompletedTranscript(msgs, cfg.systemPrompt, cfg.agent);
  }

  // ---------------------------------------------------------------------
  // A batch

  /** `Math.round((completed / total) * 100)`, computed on exact rationals.
      The source divides and multiplies in double precision, which can land
      just below a half: for 23 of 40 the double product is
      57.49999999999999, shown as 57, where this function gives 58. */
  function Percent(completed: nat, total: nat): int
    requires total > 0
  {
    Round(completed as real / total as real * 100.0)
  }

  /** The progress shown never goes down, stays within 0..100, and reaches 100
      with the last case. */
  lemma PercentBounds(c1: nat, c2: nat, total: nat)
    requires total > 0 && c1 <= c2 <= total
    ensures 0 <= Percent(c1, total) <= Percent(c2, total) <= 100
    ensures Percent(total, total) == 100
  {
    var t := total as real;
    ShareMono(0, c1, t);
    ShareMono(c1, c2, t);
    ShareMono(c2, total, t);
    assert total as real / t == 1.0;
    RoundMono(0.0, c1 as real / t * 100.0);
    RoundMono(c1 as real / t * 100.0, c2 as real / t * 100.0);
    RoundMono(c2 as real / t * 100.0, 100.0);
  }

  /** A larger share of the same total is a larger percentage. */
  lemma ShareMono(a: nat, b: nat, t: real)
    requires a <= b && t > 0.0
    ensures a as real / t * 100.0 <= b as real / t * 100.0
  {
    var d := (b - a) as real / t;
    assert d >= 0.0;
    assert b as real / t == a as real / t + d;
  }

  lemma RoundMono(x: real, y: real)
    requires x <= y
    ensures Round(x) <= Round(y)
  {
  }

  /** The runner's visible state: whether a batch is running and its progress. */
  class TestRunner {
    var isRunning: bool
    var progress: int

    constructor()
      ensures !isRunning && progress == 0
    {
      isRunning := false;
      progress := 0;
    }

    /** `executeTests`: every case is run (a case that fails is a result,
        never an error, so the batch never rejects), the results come back
        in input order, the progress shown after the k-th finished case is
        round(k / n · 100), and the runner ends idle with progress 0. A
        non-empty batch needs a concurrency of at least 1 to advance. */
    method ExecuteTests(cases: seq<TestCase>, cfg: RunConfig, concurrency: nat)
      returns (results: seq<TestCase>, shown: seq<int>)
      requires |cases| > 0 ==> concurrency >= 1
      modifies this
      ensures |results| == |cases|
      ensures forall k :: 0 <= k < |cases| ==> results[k] == SingleTest(cases[k], cfg)
      ensures |shown| == |cases| && forall k :: 0 <= k < |cases| ==> shown[k] == Percent(k + 1, |cases|)
      ensures !isRunning && progress == 0
    {
      isRunning := true;
      progress := 0;
      var exec := (tc: TestCase) => Concurrency.Fulfilled(SingleTest(tc, cfg));
      Concurrency.FirstRejectedAll(cases, exec);
      var out, calls, reports := Concurrency.ExecuteConcurrently(cases, exec, concurrency);
      results := out.value;
      shown := ShowProgress(reports, |cases|);
      isRunning := false;
      progress := 0;
    }

    /** The progress callback: each report of `k` finished cases out of `n`
        sets the shown progress to round(k / n · 100). */
    method ShowProgress(reports: seq<Concurrency.Report>, n: nat) returns (shown: seq<int>)
      requires Concurrency.CountsUp(reports, n) && |reports| <= n
      modifies this
      ensures |shown| == |reports| && forall k :: 0 <= k < |reports| ==> shown[k] == Percent(k + 1, n)
      ensures isRunning == old(isRunning)
      ensures progress == (if reports == [] then old(progress) else shown[|shown| - 1])
    {
      shown := [];
      var k := 0;
      while k < |reports|
        invariant 0 <= k <= |reports| && isRunning == old(isRunning)
        invariant |shown| == k && forall m :: 0 <= m < k ==> shown[m] == Percent(m + 1, n)
        invariant progress == (if k == 0 then old(progress) else shown[k - 1])
      {
        shown := shown + [Percent(reports[k].completed, reports[k].total)];
        progress := shown[k];
        k := k + 1;
      }
    }
  }
}
