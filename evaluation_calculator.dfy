/** The score aggregator (`calculateOverallScore`) and the judge-response
    interpreter (`parseEvaluationResponse`). */
module EvaluationCalculator {
  import opened Types
  import opened Text

  /** The composite result: a rounded score and the level of the unrounded one. */
  datatype Composite = Composite(score: int, level: Band)

  // ---------------------------------------------------------------------
  // Score aggregation

  /** `enabledCriteria.find((c) => c.id === r.criteriaId)`. */
  function FindCriterion(cs: seq<Criterion>, id: Option<string>): (r: Option<Criterion>)
    ensures r.Some? <==> id.Some? && exists c :: c in cs && c.id == id.value
    ensures r.Some? ==> r.value in cs && r.value.id == id.value
    ensures r.Some? ==> exists k :: 0 <= k < |cs| && cs[k] == r.value
                                    && forall m :: 0 <= m < k ==> cs[m].id != id.value
  {
    if id.None? || cs == [] then None
    else if cs[0].id == id.value then Some(cs[0])
    else
      var r := FindCriterion(cs[1..], id);
      if r.Some? then
        var k :| 0 <= k < |cs[1..]| && cs[1..][k] == r.value && forall m :: 0 <= m < k ==> cs[1..][m].id != id.value;
        assert cs[k + 1] == r.value && forall m :: 0 <= m < k + 1 ==> cs[m].id != id.value;
        r
      else r
  }

  /** `!r.notApplicable && enabledCriteria.some((c) => c.id === r.criteriaId)`. */
  predicate IsApplicable(cs: seq<Criterion>, r: EvalRecord) {
    !r.notApplicable && FindCriterion(cs, r.criteriaId).Some?
  }

  function Applicable(rs: seq<EvalRecord>, cs: seq<Criterion>): (app: seq<EvalRecord>)
    ensures |app| <= |rs|
    ensures forall r :: r in app <==> r in rs && IsApplicable(cs, r)
  {
    if rs == [] then []
    else if IsApplicable(cs, rs[0]) then [rs[0]] + Applicable(rs[1..], cs)
    else Applicable(rs[1..], cs)
  }

  /** The records that are not marked not-applicable. */
  function Scorable(rs: seq<EvalRecord>): (sc: seq<EvalRecord>)
    ensures |sc| <= |rs|
    ensures forall r :: r in sc <==> r in rs && !r.notApplicable
  {
    if rs == [] then []
    else if !rs[0].notApplicable then [rs[0]] + Scorable(rs[1..])
    else Scorable(rs[1..])
  }

  /** `criteria?.weight || 0`. */
  function WeightOf(cs: seq<Criterion>, r: EvalRecord): int {
    match FindCriterion(cs, r.criteriaId)
    case Some(c) => c.weight
    case None => 0
  }

  function TotalWeight(rs: seq<EvalRecord>, cs: seq<Criterion>): int {
    if rs == [] then 0 else WeightOf(cs, rs[0]) + TotalWeight(rs[1..], cs)
  }

  function WeightedSum(rs: seq<EvalRecord>, cs: seq<Criterion>): int {
    if rs == [] then 0 else rs[0].score * WeightOf(cs, rs[0]) + WeightedSum(rs[1..], cs)
  }

  function ScoreSum(rs: seq<EvalRecord>): int {
    if rs == [] then 0 else rs[0].score + ScoreSum(rs[1..])
  }

  function Mean(rs: seq<EvalRecord>): real
    requires rs != []
  {
    ScoreSum(rs) as real / |rs| as real
  }

  /** The score before rounding, with its three fallbacks: the weighted mean
      of the applicable records; their plain mean when their weights sum to
      zero; the plain mean of every scorable record when none is applicable;
      and the fixed passing default 60 when nothing is scorable. */
  function RawScore(rs: seq<EvalRecord>, cs: seq<Criterion>): real {
    var app := Applicable(rs, cs);
    if |app| > 0 then
      var w := TotalWeight(app, cs);
      if w > 0 then WeightedSum(app, cs) as real / w as real else Mean(app)
    else
      var sc := Scorable(rs);
      if |sc| > 0 then Mean(sc) else 60.0
  }

  /** `Math.round`: the nearest integer, halves rounded up. */
  function Round(x: real): (n: int)
    ensures n as real - 0.5 <= x < n as real + 0.5
  {
    (x + 0.5).Floor
  }

  /** The level banding: at least 90, at least 75, at least 60, below. */
  function BandOf(x: real): (b: Band)
    ensures b == Outstanding <==> x >= 90.0
    ensures b == Excellent <==> 75.0 <= x < 90.0
    ensures b == Good <==> 60.0 <= x < 75.0
    ensures b == Basic <==> x < 60.0
  {
    if x >= 90.0 then Outstanding
    else if x >= 75.0 then Excellent
    else if x >= 60.0 then Good
    else Basic
  }

  /** `calculateOverallScore`: the score is the nearest integer to the raw
      score and the level is taken from the raw score, not the rounded one. */
  function CalculateOverallScore(rs: seq<EvalRecord>, cs: seq<Criterion>): (r: Composite)
    ensures r.score as real - 0.5 <= RawScore(rs, cs) < r.score as real + 0.5
    ensures r.level == Outstanding <==> RawScore(rs, cs) >= 90.0
    ensures r.level == Excellent <==> 75.0 <= RawScore(rs, cs) < 90.0
    ensures r.level == Good <==> 60.0 <= RawScore(rs, cs) < 75.0
    ensures r.level == Basic <==> RawScore(rs, cs) < 60.0
  {
    var x := RawScore(rs, cs);
    Composite(Round(x), BandOf(x))
  }

  /** A test case passes when its rounded score is at least 60. */
  predicate PassedScore(score: int) {
    score >= 60
  }

  // ---------------------------------------------------------------------
  // Properties of the aggregator

  predicate ScoresWithin(rs: seq<EvalRecord>, lo: int, hi: int) {
    forall r :: r in rs ==> lo <= r.score <= hi
  }

  predicate NonNegativeWeights(cs: seq<Criterion>) {
    forall c :: c in cs ==> c.weight >= 0
  }

  lemma {:induction false} ScoreSumBounds(rs: seq<EvalRecord>, lo: int, hi: int)
    requires ScoresWithin(rs, lo, hi)
    ensures lo * |rs| <= ScoreSum(rs) <= hi * |rs|
  {
    if rs != [] {
      assert rs[0] in rs;
      assert ScoresWithin(rs[1..], lo, hi) by {
        forall r | r in rs[1..] ensures lo <= r.score <= hi { assert r in rs; }
      }
      ScoreSumBounds(rs[1..], lo, hi);
      AddBounds(lo, hi, 1, rs[0].score, |rs[1..]|, ScoreSum(rs[1..]));
      assert 1 + |rs[1..]| == |rs|;
    }
  }

  lemma {:induction false} WeightedSumBounds(rs: seq<EvalRecord>, cs: seq<Criterion>, lo: int, hi: int)
    requires ScoresWithin(rs, lo, hi) && NonNegativeWeights(cs)
    ensures TotalWeight(rs, cs) >= 0
    ensures lo * TotalWeight(rs, cs) <= WeightedSum(rs, cs) <= hi * TotalWeight(rs, cs)
  {
    if rs != [] {
      assert rs[0] in rs;
      assert ScoresWithin(rs[1..], lo, hi) by {
        forall r | r in rs[1..] ensures lo <= r.score <= hi { assert r in rs; }
      }
      WeightedSumBounds(rs[1..], cs, lo, hi);
      var w := WeightOf(cs, rs[0]);
      var f := FindCriterion(cs, rs[0].criteriaId);
      assert w >= 0 by { if f.Some? { assert f.value in cs; } }
      MulMono(lo, rs[0].score, w);
      MulMono(rs[0].score, hi, w);
      AddBounds(lo, hi, w, rs[0].score * w, TotalWeight(rs[1..], cs), WeightedSum(rs[1..], cs));
    }
  }

  lemma AddBounds(lo: int, hi: int, w: int, x: int, t: int, y: int)
    requires lo * w <= x <= hi * w && lo * t <= y <= hi * t
    ensures lo * (w + t) <= x + y <= hi * (w + t)
  {
    assert lo * (w + t) == lo * w + lo * t;
    assert hi * (w + t) == hi * w + hi * t;
  }

  lemma MulMono(a: int, b: int, w: int)
    requires a <= b && w >= 0
    ensures a * w <= b * w
  {
    assert b * w - a * w == (b - a) * w;
  }

  /** `lo * d <= n <= hi * d` with `d > 0` puts `n / d` in `[lo, hi]`. */
  lemma QuotientBounds(n: int, d: int, lo: int, hi: int)
    requires d > 0 && lo * d <= n <= hi * d
    ensures lo as real <= n as real / d as real <= hi as real
  {
    var q := n as real / d as real;
    assert q - lo as real == (n - lo * d) as real / d as real;
    assert hi as real - q == (hi * d - n) as real / d as real;
  }

  lemma {:induction false} ApplicableWithin(rs: seq<EvalRecord>, cs: seq<Criterion>, lo: int, hi: int)
    requires ScoresWithin(rs, lo, hi)
    ensures ScoresWithin(Applicable(rs, cs), lo, hi) && ScoresWithin(Scorable(rs), lo, hi)
  {
  }

  /** When every scorable record lies in `[lo, hi]` and no weight is
      negative, so does the raw score (whenever some record is scorable). */
  lemma {:induction false} RawScoreWithin(rs: seq<EvalRecord>, cs: seq<Criterion>, lo: int, hi: int)
    requires ScoresWithin(rs, lo, hi) && NonNegativeWeights(cs)
    requires Scorable(rs) != []
    ensures lo as real <= RawScore(rs, cs) <= hi as real
  {
    ApplicableWithin(rs, cs, lo, hi);
    var app := Applicable(rs, cs);
    if |app| > 0 {
      var w := TotalWeight(app, cs);
      if w > 0 {
        WeightedSumBounds(app, cs, lo, hi);
        QuotientBounds(WeightedSum(app, cs), w, lo, hi);
      } else {
        ScoreSumBounds(app, lo, hi);
        QuotientBounds(ScoreSum(app), |app|, lo, hi);
      }
    } else {
      var sc := Scorable(rs);
      ScoreSumBounds(sc, lo, hi);
      QuotientBounds(ScoreSum(sc), |sc|, lo, hi);
    }
  }

  /** Record scores within `[0, 100]` give a composite score within `[0, 100]`. */
  lemma ScoreInRange(rs: seq<EvalRecord>, cs: seq<Criterion>)
    requires ScoresWithin(rs, 0, 100) && NonNegativeWeights(cs)
    ensures 0 <= CalculateOverallScore(rs, cs).score <= 100
  {
    if Scorable(rs) != [] {
      RawScoreWithin(rs, cs, 0, 100);
    }
  }

  /** No record is applicable or scorable when every one is marked not applicable. */
  lemma {:induction false} NothingScorable(rs: seq<EvalRecord>, cs: seq<Criterion>)
    requires forall r :: r in rs ==> r.notApplicable
    ensures Scorable(rs) == [] && Applicable(rs, cs) == []
  {
    if rs != [] {
      assert rs[0] in rs;
      assert forall r :: r in rs[1..] ==> r in rs;
      NothingScorable(rs[1..], cs);
    }
  }

  /** With no scorable record (every record not applicable, or no record at
      all) the composite is the passing default: 60, level 良好. */
  lemma AllNotApplicableDefault(rs: seq<EvalRecord>, cs: seq<Criterion>)
    requires forall r :: r in rs ==> r.notApplicable
    ensures CalculateOverallScore(rs, cs) == Composite(60, Good)
    ensures PassedScore(CalculateOverallScore(rs, cs).score)
  {
    NothingScorable(rs, cs);
    assert RawScore(rs, cs) == 60.0;
  }

  /** The weighted tier: applicable records whose weights sum above zero give
      Σ score·weight / Σ weight over exactly those records. */
  lemma WeightedTier(rs: seq<EvalRecord>, cs: seq<Criterion>)
    requires Applicable(rs, cs) != [] && TotalWeight(Applicable(rs, cs), cs) > 0
    ensures RawScore(rs, cs) ==
      WeightedSum(Applicable(rs, cs), cs) as real / TotalWeight(Applicable(rs, cs), cs) as real
  {
  }

  /** The zero-weight tier: applicable records whose weights sum to zero
      give the plain mean of those same records. */
  lemma ZeroWeightTier(rs: seq<EvalRecord>, cs: seq<Criterion>)
    requires Applicable(rs, cs) != [] && TotalWeight(Applicable(rs, cs), cs) == 0
    ensures RawScore(rs, cs) == Mean(Applicable(rs, cs))
  {
  }

  /** With every enabled weight at least 1 (the editor's invariant), the
      applicable records weigh at least one each, so the zero-weight tier is
      never reached and the weighted tier applies whenever some record is
      applicable. */
  lemma {:induction false} PositiveWeightsWeighted(rs: seq<EvalRecord>, cs: seq<Criterion>)
    requires forall c :: c in cs ==> c.weight >= 1
    requires Applicable(rs, cs) != []
    ensures TotalWeight(Applicable(rs, cs), cs) >= |Applicable(rs, cs)|
    ensures RawScore(rs, cs) ==
      WeightedSum(Applicable(rs, cs), cs) as real / TotalWeight(Applicable(rs, cs), cs) as real
  {
    ApplicableWeighs(Applicable(rs, cs), cs);
  }

  /** Every applicable record weighs at least one when every weight does. */
  lemma {:induction false} ApplicableWeighs(app: seq<EvalRecord>, cs: seq<Criterion>)
    requires forall c :: c in cs ==> c.weight >= 1
    requires forall r :: r in app ==> FindCriterion(cs, r.criteriaId).Some?
    ensures TotalWeight(app, cs) >= |app|
  {
    if app != [] {
      assert app[0] in app;
      assert FindCriterion(cs, app[0].criteriaId).value in cs;
      assert forall r :: r in app[1..] ==> r in app;
      ApplicableWeighs(app[1..], cs);
    }
  }

  /** The second fallback ignores criterion matching: with no applicable
      record, the plain mean over every scorable record is used. */
  lemma ScorableTier(rs: seq<EvalRecord>, cs: seq<Criterion>)
    requires Applicable(rs, cs) == [] && Scorable(rs) != []
    ensures RawScore(rs, cs) == Mean(Scorable(rs))
  {
  }

  /** Worked example: weights A:2 and B:1, scores 80 and 50, composite 70. */
  lemma WeightedExample()
    ensures CalculateOverallScore(
      [EvalRecord(Some("A"), "A", 80, true, "", false), EvalRecord(Some("B"), "B", 50, false, "", false)],
      [Criterion("A", "P1", "A", "", 2, true, None), Criterion("B", "P2", "B", "", 1, true, None)])
      == Composite(70, Good)
  {
    var rs := [EvalRecord(Some("A"), "A", 80, true, "", false), EvalRecord(Some("B"), "B", 50, false, "", false)];
    var cs := [Criterion("A", "P1", "A", "", 2, true, None), Criterion("B", "P2", "B", "", 1, true, None)];
    assert FindCriterion(cs, Some("A")) == Some(cs[0]);
    assert FindCriterion(cs, Some("B")) == Some(cs[1]);
    assert Applicable(rs, cs) == rs;
    assert TotalWeight(rs, cs) == 3;
    assert WeightedSum(rs, cs) == 210;
  }

  /** The level is banded before rounding: a raw 59.5 (scores 59 and 60 at
      equal weight) is reported as score 60, which passes, with level 基础. */
  lemma RoundingExample()
    ensures CalculateOverallScore(
      [EvalRecord(Some("A"), "A", 59, false, "", false), EvalRecord(Some("B"), "B", 60, true, "", false)],
      [Criterion("A", "P1", "A", "", 1, true, None), Criterion("B", "P2", "B", "", 1, true, None)])
      == Composite(60, Basic)
  {
    var rs := [EvalRecord(Some("A"), "A", 59, false, "", false), EvalRecord(Some("B"), "B", 60, true, "", false)];
    var cs := [Criterion("A", "P1", "A", "", 1, true, None), Criterion("B", "P2", "B", "", 1, true, None)];
    assert FindCriterion(cs, Some("A")) == Some(cs[0]);
    assert FindCriterion(cs, Some("B")) == Some(cs[1]);
    assert Applicable(rs, cs) == rs;
    assert TotalWeight(rs, cs) == 2;
    assert WeightedSum(rs, cs) == 119;
    assert RawScore(rs, cs) == 59.5;
  }

  // ---------------------------------------------------------------------
  // Judge-response interpretation

  /** One element of the array the judge returned, as `JSON.parse` gives it.
      An element that is an object becomes `Entry` with each field present or
      absent; any other non-null element (a number, a string, an array) has no
      such fields and is an `Entry` with every field absent. `null` is kept
      apart, because reading a field of it throws. */
  datatype RawItem =
    | NullItem
    | Entry(
        criteriaId: Option<string>,
        criteriaName: Option<string>,
        score: Option<int>,
        passed: Option<bool>,
        reason: Option<string>,
        notApplicable: Option<bool>)

  /** `JSON.parse`, abstracted: the array elements of a well-formed JSON
      array, or `None` when the text does not parse. */
  type JsonParser = string -> Option<seq<RawItem>>

  /** The match of `/\[[\s\S]*\]/`: from the first `[` to the last `]`, when
      that `]` comes after that `[`. */
  function BracketSpan(s: string): (r: Option<string>)
    ensures r.Some? <==> '[' in s && ']' in s && IndexOf(s, '[') < LastIndexOf(s, ']')
    ensures r.Some? ==> (exists i, j {:trigger s[i..j]} :: 0 <= i < j <= |s| && r.value == s[i..j]
                          && '[' !in s[..i] && ']' !in s[j..])
    ensures r.Some? ==> |r.value| >= 2 && r.value[0] == '[' && r.value[|r.value| - 1] == ']'
  {
    var i := IndexOf(s, '[');
    var j := LastIndexOf(s, ']');
    if i != -1 && i < j then
      var span := s[i..j + 1];
      assert span[0] == s[i] && span[|span| - 1] == s[j];
      assert '[' !in s[..i] && ']' !in s[j + 1..];
      Some(span)
    else None
  }

  /** `` `Unknown(${r.criteriaId})` `` */
  function UnknownName(id: Option<string>): string {
    "Unknown(" + (match id case Some(v) => v case None => "undefined") + ")"
  }

  /** `criteria?.name || r.criteriaName || Unknown(...)`. */
  function ResolveName(cs: seq<Criterion>, id: Option<string>, stated: Option<string>): string {
    var c := FindCriterion(cs, id);
    if c.Some? && c.value.name != "" then c.value.name
    else if Truthy(stated) then stated.value
    else UnknownName(id)
  }

  /** The record built from one entry, each field with its default. */
  function ToRecord(cs: seq<Criterion>, e: RawItem): EvalRecord
    requires e.Entry?
  {
    EvalRecord(
      e.criteriaId,
      ResolveName(cs, e.criteriaId, e.criteriaName),
      e.score.GetOr(0),
      e.passed != Some(false),
      e.reason.GetOr(""),
      e.notApplicable == Some(true))
  }

  function ToRecords(cs: seq<Criterion>, items: seq<RawItem>): (rs: seq<EvalRecord>)
    requires NullItem !in items
    ensures |rs| == |items|
    ensures forall k :: 0 <= k < |items| ==> rs[k] == ToRecord(cs, items[k])
  {
    if items == [] then [] else [ToRecord(cs, items[0])] + ToRecords(cs, items[1..])
  }

  /** `parseEvaluationResponse`: no bracketed span, a span that does not
      parse, or an array holding `null` (whose field access throws) all give
      the empty list; otherwise one record per element, in order. */
  function ParseEvaluationResponse(response: string, cs: seq<Criterion>, parse: JsonParser): (rs: seq<EvalRecord>)
    ensures BracketSpan(response).None? ==> rs == []
    ensures BracketSpan(response).Some? && parse(BracketSpan(response).value).None? ==> rs == []
    ensures (BracketSpan(response).Some? && parse(BracketSpan(response).value).Some?
             && NullItem in parse(BracketSpan(response).value).value) ==> rs == []
    ensures (BracketSpan(response).Some? && parse(BracketSpan(response).value).Some?
             && NullItem !in parse(BracketSpan(response).value).value)
            ==> |rs| == |parse(BracketSpan(response).value).value|
  {
    match BracketSpan(response)
    case None => []
    case Some(span) =>
      match parse(span)
      case None => []
      case Some(items) => if NullItem in items then [] else ToRecords(cs, items)
  }

  /** Entries map one to one, in order, onto records whose fields take the
      defaults the code applies: the enabled criterion's name first, a missing score
      is 0, `passed` is false only when explicitly false, a missing reason is
      empty, and `notApplicable` is true only when explicitly true. */
  lemma ParsedFields(response: string, cs: seq<Criterion>, parse: JsonParser, items: seq<RawItem>, k: nat)
    requires BracketSpan(response).Some? && parse(BracketSpan(response).value) == Some(items)
    requires NullItem !in items && k < |items|
    ensures |ParseEvaluationResponse(response, cs, parse)| == |items|
    ensures var r := ParseEvaluationResponse(response, cs, parse)[k];
      var e := items[k];
      var c := FindCriterion(cs, e.criteriaId);
      && r.criteriaId == e.criteriaId
      && r.criteriaName == ResolveName(cs, e.criteriaId, e.criteriaName)
      && (c.Some? && c.value.name != "" ==> r.criteriaName == c.value.name)
      && (!(c.Some? && c.value.name != "") && Truthy(e.criteriaName) ==> r.criteriaName == e.criteriaName.value)
      && (!(c.Some? && c.value.name != "") && !Truthy(e.criteriaName) ==> r.criteriaName == UnknownName(e.criteriaId))
      && r.score == (if e.score.Some? then e.score.value else 0)
      && (!r.passed <==> e.passed == Some(false))
      && r.reason == (if e.reason.Some? then e.reason.value else "")
      && (r.notApplicable <==> e.notApplicable == Some(true))
  {
    var rs := ParseEvaluationResponse(response, cs, parse);
    assert rs == ToRecords(cs, items);
    assert rs[k] == ToRecord(cs, items[k]);
  }

  /** A criterion id that matches no enabled criterion and no stated name
      gives the name `Unknown(<id>)`; this is not an error. */
  lemma UnknownCriterionName(cs: seq<Criterion>, id: string)
    requires forall c :: c in cs ==> c.id != id
    ensures ResolveName(cs, Some(id), None) == "Unknown(" + id + ")"
  {
  }

  /** Worked example: prose before and after the array is ignored. The
      array text is `[{"criteriaId":"c1","score":90,"passed":true,"reason":"ok"}]`,
      written in pieces. */
  lemma ParseExample(parse: JsonParser)
    requires parse(ExampleSpan()) == Some([Entry(Some("c1"), None, Some(90), Some(true), Some("ok"), None)])
    ensures ParseEvaluationResponse("Reasoning...\n" + ExampleSpan() + "\nTrailing",
              [Criterion("c1", "P0", "Accuracy", "", 1, true, None)], parse)
            == [EvalRecord(Some("c1"), "Accuracy", 90, true, "ok", false)]
  {
    ExampleSpanFound();
    var cs := [Criterion("c1", "P0", "Accuracy", "", 1, true, None)];
    var e := Entry(Some("c1"), None, Some(90), Some(true), Some("ok"), None);
    assert FindCriterion(cs, Some("c1")) == Some(cs[0]);
    assert ToRecords(cs, [e]) == [ToRecord(cs, e)];
  }

  /** The bracketed span of the worked example is the array text alone. */
  lemma ExampleSpanFound()
    ensures BracketSpan("Reasoning...\n" + ExampleSpan() + "\nTrailing") == Some(ExampleSpan())
  {
    var span := ExampleSpan();
    var pre, post := "Reasoning...\n", "\nTrailing";
    var s := pre + span + post;
    assert |pre| == 13 && |post| == 9 && span[0] == '[' && span[|span| - 1] == ']';
    assert s[..13] == pre && s[13] == span[0];
    IndexOfAt(s, '[', 13);
    assert s[|s| - 9..] == post && s[|s| - 10] == span[|span| - 1];
    LastIndexOfAt(s, ']', |s| - 10);
    assert s[13..|s| - 9] == span;
  }

  function ExampleSpan(): string {
    "[{\"criteriaId\":\"c1\"," + "\"score\":90,\"passed\":true," + "\"reason\":\"ok\"}]"
  }
}
