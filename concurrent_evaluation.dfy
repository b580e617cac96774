/** Re-scoring (`useConcurrentEvaluation`): executed cases are sent to the
    judge again with the current criteria, without replaying the conversation. */
module ConcurrentEvaluation {
  import opened Types
  import opened EvaluationCalculator
  import opened TestExecution
  import Concurrency

  /** What re-judging one case gives: the case's id, whether it succeeded,
      and on success the new evaluation fields. */
  datatype EvalResult = EvalResult(
    id: int,
    success: bool,
    evaluation: Option<string>,
    details: Option<seq<EvalRecord>>,
    score: Option<int>,
    level: Option<Band>,
    passed: Option<bool>)

  function Unsuccessful(id: int): EvalResult {
    EvalResult(id, false, None, None, None, None, None)
  }

  /** `reEvaluateSingle`: a case without a transcript is not judged; otherwise
      the judge scores the stored transcript, and an answer that yields no
      record counts as a failure. The call never throws. */
  function ReEvaluateSingle(tc: TestCase, criteria: seq<Criterion>, judge: Judge, parse: JsonParser): (r: EvalResult)
    ensures r.id == tc.id
    ensures r.success ==> tc.conversationHistory.Some? && r.details.Some? && |r.details.value| > 0
  {
    match tc.conversationHistory
    case None => Unsuccessful(tc.id)
    case Some(history) =>
      var v := Judgement(history, criteria, judge, parse);
      if |v.details| > 0 then
        EvalResult(tc.id, true, Some(v.text), Some(v.details), Some(v.composite.score), Some(v.composite.level), Some(v.passed))
      else Unsuccessful(tc.id)
  }

  /** The result always carries the case's id; it is a success exactly when
      the case has a transcript and the judge's answer yields at least one
      record, and then its pass flag agrees with its rounded score. */
  lemma ReEvaluateSingleSpec(tc: TestCase, criteria: seq<Criterion>, judge: Judge, parse: JsonParser)
    ensures var r := ReEvaluateSingle(tc, criteria, judge, parse);
      r.id == tc.id
      && (r.success <==> tc.conversationHistory.Some?
                         && |Judgement(tc.conversationHistory.value, criteria, judge, parse).details| > 0)
      && (r.success ==> r.score.Some? && r.passed == Some(r.score.value >= 60) && r.details.Some? && |r.details.value| > 0)
      && (!r.success ==> r == Unsuccessful(tc.id))
  {
  }

  /** Given the same judge answer, re-judging a case the runner just
      completed, with the same criteria, gives back the verdict it already
      holds whenever that verdict has records. The judge is a model sampled
      at a nonzero temperature, so a new call may answer differently; the
      `Judge` parameter fixes the answer. */
  lemma ReEvaluationAgrees(tc: TestCase, cfg: RunConfig)
    requires SingleTest(tc, cfg).status == Success
    requires |SingleTest(tc, cfg).evaluationDetails.value| > 0
    ensures var r := SingleTest(tc, cfg);
      var e := ReEvaluateSingle(r, cfg.criteria, cfg.judge, cfg.parse);
      e.success && e.evaluation == r.evaluation && e.details == r.evaluationDetails
      && e.score == r.overallScore && e.level == r.overallLevel && e.passed == r.passed
  {
  }

  /** The cases worth re-judging: those that ran successfully and hold a transcript. */
  predicate Executed(tc: TestCase) {
    tc.status == Success && tc.conversationHistory.Some?
  }

  function ExecutedCases(cases: seq<TestCase>): (r: seq<TestCase>)
    ensures |r| <= |cases|
    ensures forall tc :: tc in r <==> tc in cases && Executed(tc)
  {
    if cases == [] then []
    else if Executed(cases[0]) then [cases[0]] + ExecutedCases(cases[1..])
    else ExecutedCases(cases[1..])
  }

  /** Selecting the executed cases of an already selected list keeps it. */
  lemma {:induction false} ExecutedCasesIdempotent(cases: seq<TestCase>)
    ensures ExecutedCases(ExecutedCases(cases)) == ExecutedCases(cases)
  {
    if cases != [] {
      ExecutedCasesIdempotent(cases[1..]);
      if Executed(cases[0]) {
        var rest := ExecutedCases(cases[1..]);
        assert ([cases[0]] + rest)[0] == cases[0] && ([cases[0]] + rest)[1..] == rest;
      }
    }
  }

  /** The map `reEvaluateAll` resolves to: nothing when no case is executed or
      no criterion is enabled, otherwise the result for the k-th executed case
      under the key k. */
  function ReEvaluation(cases: seq<TestCase>, criteria: seq<Criterion>, judge: Judge, parse: JsonParser): (r: map<nat, EvalResult>)
    ensures |EnabledCriteria(criteria)| == 0 ==> r == map[]
    ensures forall k :: k in r ==> k < |ExecutedCases(cases)| && r[k].id == ExecutedCases(cases)[k].id
  {
    var executed := ExecutedCases(cases);
    if |executed| == 0 || |EnabledCriteria(criteria)| == 0 then map[]
    else map k: nat | k < |executed| :: ReEvaluateSingle(executed[k], criteria, judge, parse)
  }

  /** Keys are positions in the executed list, never case ids. */
  lemma ReEvaluationKeys(cases: seq<TestCase>, criteria: seq<Criterion>, judge: Judge, parse: JsonParser, k: nat)
    requires |ExecutedCases(cases)| > 0 && |EnabledCriteria(criteria)| > 0
    ensures k in ReEvaluation(cases, criteria, judge, parse) <==> k < |ExecutedCases(cases)|
    ensures k < |ExecutedCases(cases)| ==>
      ReEvaluation(cases, criteria, judge, parse)[k].id == ExecutedCases(cases)[k].id
  {
  }

  /** The re-scorer's visible state. */
  class Evaluator {
    var isEvaluating: bool
    var evalProgress: int

    constructor()
      ensures !isEvaluating && evalProgress == 0
    {
      isEvaluating := false;
      evalProgress := 0;
    }

    /** `reEvaluateAll`: with nothing executed or no criterion enabled it
        returns an empty map at once and leaves the state alone; otherwise
        every executed case is re-judged through the chunked runner, each
        result is stored under the case's position (a result is never null,
        so every position is present), and the state ends idle with progress 0.
        A non-empty run needs a concurrency of at least 1 to advance. */
    method ReEvaluateAll(cases: seq<TestCase>, criteria: seq<Criterion>, judge: Judge, parse: JsonParser, concurrency: nat)
      returns (results: map<nat, EvalResult>)
      requires |ExecutedCases(cases)| > 0 && |EnabledCriteria(criteria)| > 0 ==> concurrency >= 1
      modifies this
      ensures results == ReEvaluation(cases, criteria, judge, parse)
      ensures |ExecutedCases(cases)| == 0 || |EnabledCriteria(criteria)| == 0 ==>
        isEvaluating == old(isEvaluating) && evalProgress == old(evalProgress)
      ensures |ExecutedCases(cases)| > 0 && |EnabledCriteria(criteria)| > 0 ==> !isEvaluating && evalProgress == 0
    {
      var executed := ExecutedCases(cases);
      if |executed| == 0 {
        return map[];
      }
      if |EnabledCriteria(criteria)| == 0 {
        return map[];
      }
      isEvaluating := true;
      evalProgress := 0;
      var exec := (tc: TestCase) => Concurrency.Fulfilled(Some(ReEvaluateSingle(tc, criteria, judge, parse)));
      var progress;
      results, progress := Concurrency.ExecuteBatchWithResults(executed, exec, concurrency);
      // The progress callback's percentages are set and then reset below;
      // only the final reset is kept.
      forall k: nat | k < |executed|
        ensures k in results && results[k] == ReEvaluateSingle(executed[k], criteria, judge, parse)
      {
        assert Concurrency.Delivered(exec(executed[k]));
      }
      assert results == ReEvaluation(cases, criteria, judge, parse);
      isEvaluating := false;
      evalProgress := 0;
    }
  }
}
