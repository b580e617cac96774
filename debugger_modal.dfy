/** The handlers of the debugger dialog (`PromptDebuggerModal`). Each one
    computes new session data from the current data and hands it to the
    session store as an update. */
module DebuggerModal {
  import opened Types
  import opened Text
  import opened TestCaseParser
  import opened EvaluationCalculator
  import VersionManager
  import opened SessionState
  import opened TestExecution
  import opened ConcurrentEvaluation

  /** The data the dialog works on: the current session's data, or the
      defaults when there is no current session. */
  function DataOf(current: Option<Session>, localeZh: string): (d: SessionData)
    ensures current.Some? ==> d == current.value.data
    ensures current.None? ==> d.testCases == [] && d.evaluationCriteria == [] && d.concurrentCount == 5
    ensures current.None? ==> |d.promptVersions| == 1 && d.promptVersions[0].version == "V1" && d.currentVersion == "V1"
  {
    match current
    case Some(s) => s.data
    case None => DefaultData(localeZh)
  }

  // ---------------------------------------------------------------------
  // The prompt in effect

  /** `getCurrentVersionPrompt`: the base prompt for an empty or "V1" current
      version, for an empty version list, and for a version that is missing
      or has empty content; the version's content otherwise. */
  function CurrentVersionPrompt(d: SessionData, systemPrompt: string): (r: string)
    ensures d.currentVersion == "" || d.currentVersion == "V1" || d.promptVersions == [] ==> r == systemPrompt
    ensures r == systemPrompt
            || (r != "" && exists v :: v in d.promptVersions && v.version == d.currentVersion && v.content == r)
  {
    if d.currentVersion == "" || d.currentVersion == "V1" then systemPrompt
    else if d.promptVersions == [] then systemPrompt
    else
      match VersionManager.FindVersion(d.promptVersions, d.currentVersion)
      case Some(v) => if v.content != "" then v.content else systemPrompt
      case None => systemPrompt
  }

  /** The dialog and the version panel resolve the current prompt alike,
      except that the dialog also treats an empty current tag as "V1". */
  lemma CurrentPromptAgrees(d: SessionData, systemPrompt: string)
    requires d.currentVersion != ""
    ensures CurrentVersionPrompt(d, systemPrompt)
         == VersionManager.GetPromptContent(d.promptVersions, systemPrompt, d.currentVersion)
  {
  }

  // ---------------------------------------------------------------------
  // Quick switch of the criteria

  const Levels: seq<string> := ["P0", "P1", "P2", "P3", "P4", "P5", "P6"]

  /** `levels.indexOf(l)`: 0..6, or -1 for any other tag. */
  function LevelIndex(l: string): int {
    IndexOf(Levels, l)
  }

  /** Whether the quick-switch choice `level` enables a criterion at `cl`. */
  function SwitchEnables(level: string, cl: string): bool {
    if level == "ALL" then true
    else if '-' in level then
      var parts := Split(level, '-');
      LevelIndex(cl) >= LevelIndex(parts[0]) && LevelIndex(cl) <= LevelIndex(parts[1])
    else cl == level
  }

  /** `handleQuickSwitch`: only the enabled flags change. */
  function QuickSwitch(cs: seq<Criterion>, level: string): (r: seq<Criterion>)
    ensures |r| == |cs|
    ensures forall k :: 0 <= k < |cs| ==> r[k] == cs[k].(enabled := SwitchEnables(level, cs[k].level))
  {
    if cs == [] then []
    else [cs[0].(enabled := SwitchEnables(level, cs[0].level))] + QuickSwitch(cs[1..], level)
  }

  /** "ALL" enables everything. */
  lemma QuickSwitchAll(cs: seq<Criterion>)
    ensures EnabledCriteria(QuickSwitch(cs, "ALL")) == QuickSwitch(cs, "ALL")
  {
    AllEnabled(QuickSwitch(cs, "ALL"));
  }

  lemma {:induction false} AllEnabled(cs: seq<Criterion>)
    requires forall k :: 0 <= k < |cs| ==> cs[k].enabled
    ensures EnabledCriteria(cs) == cs
  {
    if cs != [] {
      AllEnabled(cs[1..]);
    }
  }

  /** A range "a-b" (a and b without '-') enables exactly the criteria whose
      level index lies between those of a and b; an unknown bound has index
      -1, so an unknown lower bound admits unknown levels. */
  lemma QuickSwitchRange(a: string, b: string, cl: string)
    requires '-' !in a && '-' !in b
    ensures SwitchEnables(a + "-" + b, cl) <==> LevelIndex(a) <= LevelIndex(cl) <= LevelIndex(b)
  {
    var level := a + "-" + b;
    assert level == Join([a, b], "-");
    SplitJoin([a, b], '-');
    assert level[|a|] == '-';
    assert level != "ALL" by { assert |level| >= 1; if |level| == 3 { assert level[|a|] == '-'; } }
  }

  /** "P1-P3" enables exactly P1, P2 and P3. */
  lemma QuickSwitchExample(cl: string)
    ensures SwitchEnables("P1-P3", cl) <==> cl == "P1" || cl == "P2" || cl == "P3"
  {
    RangeText();
    QuickSwitchRange("P1", "P3", cl);
    LevelIndexOf(1);
    LevelIndexOf(3);
    LevelBetween(cl);
  }

  lemma RangeText()
    ensures "P1" + "-" + "P3" == "P1-P3"
  {
    var x := "P1" + "-" + "P3";
    assert |x| == 5;
    assert forall i :: 0 <= i < 5 ==> x[i] == "P1-P3"[i];
  }

  lemma LevelBetween(cl: string)
    ensures 1 <= LevelIndex(cl) <= 3 <==> cl == "P1" || cl == "P2" || cl == "P3"
  {
    var i := LevelIndex(cl);
    if 1 <= i <= 3 {
      assert Levels[i] == cl;
    } else {
      LevelIndexOf(1);
      LevelIndexOf(2);
      LevelIndexOf(3);
    }
  }

  /** The label at position k of the level list has index k. */
  lemma LevelIndexOf(k: nat)
    requires k < |Levels|
    ensures LevelIndex(Levels[k]) == k
  {
    assert forall j :: 0 <= j < |Levels| ==> Levels[j][1] == "0123456"[j];
    IndexOfAt(Levels, Levels[k], k);
  }

  /** A single level with no '-' (other than "ALL") enables exactly that level. */
  lemma QuickSwitchSingle(level: string, cl: string)
    requires level != "ALL" && '-' !in level
    ensures SwitchEnables(level, cl) <==> cl == level
  {
  }

  // ---------------------------------------------------------------------
  // Running and clearing

  /** The run configuration the dialog builds from the session. */
  function ConfigOf(d: SessionData, systemPrompt: string, vars: Variables, agent: Agent, judge: Judge, parse: JsonParser): (cfg: RunConfig)
    ensures cfg.criteria == d.evaluationCriteria && cfg.vars == vars
    ensures cfg.systemPrompt == systemPrompt
            || exists v :: v in d.promptVersions && v.version == d.currentVersion && v.content == cfg.systemPrompt && v.content != ""
  {
    RunConfig(CurrentVersionPrompt(d, systemPrompt), vars, d.evaluationCriteria, agent, judge, parse)
  }

  /** `handleExecute`: refused, with no run, when no criterion is enabled;
      otherwise the test cases are replaced by their run results, in order. */
  function HandleExecute(d: SessionData, cfg: RunConfig): (u: Option<DataUpdate>)
    ensures u.None? <==> EnabledCriteria(d.evaluationCriteria) == []
  {
    if |EnabledCriteria(d.evaluationCriteria)| == 0 then None
    else Some(NoUpdate.(testCases := Some(seq(|d.testCases|, k requires 0 <= k < |d.testCases| => SingleTest(d.testCases[k], cfg)))))
  }

  /** An accepted run keeps the number and order of the cases and each case's id. */
  lemma ExecuteKeepsCases(d: SessionData, cfg: RunConfig)
    requires HandleExecute(d, cfg).Some?
    ensures var cs := HandleExecute(d, cfg).value.testCases;
      cs.Some? && |cs.value| == |d.testCases|
      && forall k :: 0 <= k < |d.testCases| ==> cs.value[k].id == d.testCases[k].id && cs.value[k].status != Pending
  {
    var cs := HandleExecute(d, cfg).value.testCases.value;
    forall k | 0 <= k < |d.testCases| ensures cs[k].id == d.testCases[k].id && cs[k].status != Pending {
      SingleTestOutcome(d.testCases[k], cfg);
    }
  }

  /** One case with every run result removed. */
  function Cleared(tc: TestCase): TestCase {
    TestCase(tc.id, tc.title, tc.messages, Pending, None, None, None, None, None, None, None)
  }

  /** `handleClear`: every case back to pending with no results, progress 0. */
  function HandleClear(d: SessionData): (u: DataUpdate)
    ensures u.testCases.Some? && |u.testCases.value| == |d.testCases|
    ensures forall k :: 0 <= k < |d.testCases| ==>
      var c := u.testCases.value[k];
      c.id == d.testCases[k].id && c.title == d.testCases[k].title && c.messages == d.testCases[k].messages
      && c.status == Pending && c.responses.None? && c.evaluation.None? && c.passed.None?
      && c.evaluationDetails.None? && c.overallLevel.None? && c.overallScore.None? && c.conversationHistory.None?
    ensures u.progress == Some(0)
  {
    NoUpdate.(testCases := Some(seq(|d.testCases|, k requires 0 <= k < |d.testCases| => Cleared(d.testCases[k]))), progress := Some(0))
  }

  /** Clearing then parsing-fresh agree: a cleared case looks like a case just
      read from text, and clearing twice is clearing once. */
  lemma ClearIdempotent(tc: TestCase)
    ensures Cleared(Cleared(tc)) == Cleared(tc)
    ensures Cleared(TestCaseParser.CaseOf("用例1：", 0)) == TestCaseParser.CaseOf("用例1：", 0)
  {
  }

  // ---------------------------------------------------------------------
  // Merging re-evaluation results

  /** The new evaluation fields copied from a successful result. */
  function Apply(tc: TestCase, r: EvalResult): TestCase {
    tc.(evaluation := r.evaluation, evaluationDetails := r.details, overallScore := r.score,
        overallLevel := r.level, passed := r.passed)
  }

  /** The first update of `handleReEvaluate`: executed cases lose their pass
      flag, score and level while the judge runs. */
  function ClearedForReEvaluation(cases: seq<TestCase>): (r: seq<TestCase>)
    ensures |r| == |cases|
    ensures forall k :: 0 <= k < |cases| ==>
      r[k] == (if exists e :: e in ExecutedCases(cases) && e.id == cases[k].id
               then cases[k].(passed := None, overallScore := None, overallLevel := None)
               else cases[k])
  {
    seq(|cases|, k requires 0 <= k < |cases| =>
      if exists e :: e in ExecutedCases(cases) && e.id == cases[k].id
      then cases[k].(passed := None, overallScore := None, overallLevel := None)
      else cases[k])
  }

  /** The final update of `handleReEvaluate` as written: it maps over the list
      as it was before clearing and looks each case's result up under the
      case's id. */
  function MergeAsWritten(cases: seq<TestCase>, results: map<nat, EvalResult>): (r: seq<TestCase>)
    ensures |r| == |cases|
  {
    seq(|cases|, k requires 0 <= k < |cases| =>
      var tc := cases[k];
      if tc.id >= 0 && tc.id in results && results[tc.id].success then Apply(tc, results[tc.id]) else tc)
  }

  /** The results are keyed by position in the executed list, so with the
      ids 1, 2, … that parsing assigns, the first case receives the second
      case's result — a result whose id is not its own. */
  lemma AsWrittenMisattributes(cases: seq<TestCase>, criteria: seq<Criterion>, judge: Judge, parse: JsonParser)
    requires |cases| >= 2 && Executed(cases[0]) && Executed(cases[1])
    requires cases[0].id == 1 && cases[1].id == 2
    requires |EnabledCriteria(criteria)| > 0
    requires ReEvaluateSingle(cases[1], criteria, judge, parse).success
    ensures var results := ReEvaluation(cases, criteria, judge, parse);
      var mine := ReEvaluateSingle(cases[1], criteria, judge, parse);
      MergeAsWritten(cases, results)[0] == Apply(cases[0], mine) && mine.id != cases[0].id
  {
    var ex := ExecutedCases(cases);
    assert ex == [cases[0]] + ExecutedCases(cases[1..]);
    assert ExecutedCases(cases[1..]) == [cases[1]] + ExecutedCases(cases[2..]);
    assert ex[1] == cases[1];
    ReEvaluateSingleSpec(cases[1], criteria, judge, parse);
  }

  /** What re-evaluation evidently means for one case: an executed case whose
      re-judging succeeds takes the new fields; every other case stays as it
      was before the clearing. */
  function Expected(tc: TestCase, f: TestCase -> EvalResult): TestCase {
    if Executed(tc) && f(tc).success then Apply(tc, f(tc)) else tc
  }

  /** The corrected merge: the k-th executed case takes the result stored
      under position k. */
  function MergeByPosition(cases: seq<TestCase>, results: map<nat, EvalResult>, k: nat): (r: seq<TestCase>)
    ensures |r| == |cases|
  {
    if cases == [] then []
    else
      var tc := cases[0];
      if Executed(tc) then
        [if k in results && results[k].success then Apply(tc, results[k]) else tc] + MergeByPosition(cases[1..], results, k + 1)
      else [tc] + MergeByPosition(cases[1..], results, k)
  }

  /** `results` holds, from key k on, the result of `f` for each case of `ex`. */
  predicate StoredFrom(results: map<nat, EvalResult>, k: nat, ex: seq<TestCase>, f: TestCase -> EvalResult) {
    forall i :: k <= i < k + |ex| ==> i in results && results[i] == f(ex[i - k])
  }

  lemma StoredShift(results: map<nat, EvalResult>, k: nat, x: TestCase, rest: seq<TestCase>, f: TestCase -> EvalResult)
    requires StoredFrom(results, k, [x] + rest, f)
    ensures k in results && results[k] == f(x)
    ensures StoredFrom(results, k + 1, rest, f)
  {
    var ex := [x] + rest;
    assert k in results && results[k] == f(ex[0]);
    forall i | k + 1 <= i < k + 1 + |rest| ensures i in results && results[i] == f(rest[i - (k + 1)]) {
      assert ex[i - k] == rest[i - (k + 1)];
    }
  }

  lemma {:induction false} MergeByPositionSpec(cases: seq<TestCase>, results: map<nat, EvalResult>, k: nat, f: TestCase -> EvalResult)
    requires StoredFrom(results, k, ExecutedCases(cases), f)
    ensures forall i :: 0 <= i < |cases| ==> MergeByPosition(cases, results, k)[i] == Expected(cases[i], f)
    decreases |cases|
  {
    if cases != [] {
      var tc := cases[0];
      var rest := ExecutedCases(cases[1..]);
      var ex := ExecutedCases(cases);
      if Executed(tc) {
        assert ex == [tc] + rest;
        StoredShift(results, k, tc, rest, f);
        MergeByPositionSpec(cases[1..], results, k + 1, f);
      } else {
        assert ex == rest;
        assert StoredFrom(results, k, rest, f);
        MergeByPositionSpec(cases[1..], results, k, f);
      }
      var m := MergeByPosition(cases, results, k);
      forall i | 1 <= i < |cases| ensures m[i] == Expected(cases[i], f) {
        assert cases[1..][i - 1] == cases[i];
      }
    }
  }

  /** `handleReEvaluate`, corrected: the final case list. The selection of
      executed cases is handed to `reEvaluateAll`, which selects again. */
  function HandleReEvaluate(d: SessionData, judge: Judge, parse: JsonParser): (r: seq<TestCase>)
    ensures |r| == |d.testCases|
  {
    MergeByPosition(d.testCases, ReEvaluation(ExecutedCases(d.testCases), d.evaluationCriteria, judge, parse), 0)
  }

  /** With at least one criterion enabled, every executed case whose
      re-judging succeeds takes its own new result, and every other case is
      kept exactly as it was before the clearing. */
  lemma ReEvaluateUpdatesOwnCase(d: SessionData, judge: Judge, parse: JsonParser)
    requires |EnabledCriteria(d.evaluationCriteria)| > 0
    ensures var r := HandleReEvaluate(d, judge, parse);
      |r| == |d.testCases|
      && forall i :: 0 <= i < |d.testCases| ==>
           r[i] == Expected(d.testCases[i], (tc: TestCase) => ReEvaluateSingle(tc, d.evaluationCriteria, judge, parse))
  {
    var f := (tc: TestCase) => ReEvaluateSingle(tc, d.evaluationCriteria, judge, parse);
    var results := ReEvaluation(d.testCases, d.evaluationCriteria, judge, parse);
    var ex := ExecutedCases(d.testCases);
    ExecutedCasesIdempotent(d.testCases);
    assert ReEvaluation(ex, d.evaluationCriteria, judge, parse) == results;
    forall i | 0 <= i < |ex| ensures i in results && results[i] == f(ex[i - 0]) {
      ReEvaluationKeys(d.testCases, d.evaluationCriteria, judge, parse, i);
    }
    assert StoredFrom(results, 0, ex, f);
    MergeByPositionSpec(d.testCases, results, 0, f);
  }

  // ---------------------------------------------------------------------
  // Versions

  /** `handleSaveVersion`: a version labelled V<n+1> is appended (n versions
      before) and becomes current; earlier versions are untouched. */
  function HandleSaveVersion(d: SessionData, newPrompt: string, changes: string, localeZh: string): (u: DataUpdate)
    ensures u.promptVersions.Some? && u.currentVersion.Some?
    ensures var vs := u.promptVersions.value;
      |vs| == |d.promptVersions| + 1 && vs[..|d.promptVersions|] == d.promptVersions
      && vs[|d.promptVersions|] == PromptVersion(u.currentVersion.value, newPrompt, changes, localeZh)
    ensures u.currentVersion == Some("V" + NatToString(|d.promptVersions| + 1))
  {
    var tag := "V" + NatToString(|d.promptVersions| + 1);
    NoUpdate.(promptVersions := Some(d.promptVersions + [PromptVersion(tag, newPrompt, changes, localeZh)]),
              currentVersion := Some(tag))
  }

  /** A saved version is the prompt in effect afterwards when its tag is
      new and its content non-empty. */
  lemma SavedVersionInEffect(d: SessionData, systemPrompt: string, newPrompt: string, changes: string, localeZh: string)
    requires newPrompt != "" && |d.promptVersions| > 0
    requires forall v :: v in d.promptVersions ==> v.version != "V" + NatToString(|d.promptVersions| + 1)
    ensures CurrentVersionPrompt(Merge(d, HandleSaveVersion(d, newPrompt, changes, localeZh)), systemPrompt) == newPrompt
  {
    var tag := "V" + NatToString(|d.promptVersions| + 1);
    var d2 := Merge(d, HandleSaveVersion(d, newPrompt, changes, localeZh));
    assert tag[0] == 'V' && tag != "V1" by {
      if |tag| == 2 { assert tag[1] == NatToString(|d.promptVersions| + 1)[0]; NonZeroDigit(|d.promptVersions| + 1); }
    }
    FindAppended(d.promptVersions, PromptVersion(tag, newPrompt, changes, localeZh));
  }

  /** A one-digit rendering of a number above 1 is not "1". */
  lemma NonZeroDigit(n: nat)
    requires n >= 2
    ensures NatToString(n) != "1"
  {
    if n >= 10 {
      assert |NatToString(n)| >= 2 by { assert NatToString(n) == NatToString(n / 10) + [DigitChar(n % 10)]; }
    } else {
      assert NatToString(n) == [DigitChar(n)];
      assert DigitChar(n) != '1' by { assert "0123456789"[1] == '1'; }
    }
  }

  lemma {:induction false} FindAppended(vs: seq<PromptVersion>, v: PromptVersion)
    requires forall w :: w in vs ==> w.version != v.version
    ensures VersionManager.FindVersion(vs + [v], v.version) == Some(v)
  {
    if vs != [] {
      assert (vs + [v])[1..] == vs[1..] + [v];
      assert forall w :: w in vs[1..] ==> w in vs;
      FindAppended(vs[1..], v);
    }
  }

  /** `handlePromptChange` as written: on "V1" it appends a version labelled
      "V2", whatever versions exist; otherwise it rewrites the content of every
      version with the current tag. */
  function PromptChangeAsWritten(d: SessionData, newPrompt: string, localeZh: string): (u: DataUpdate)
    ensures u.promptVersions.Some?
    ensures d.currentVersion == "V1" ==>
      u.promptVersions.value == d.promptVersions + [PromptVersion("V2", newPrompt, "手动编辑", localeZh)]
      && u.currentVersion == Some("V2")
  {
    if d.currentVersion == "V1" then
      NoUpdate.(promptVersions := Some(d.promptVersions + [PromptVersion("V2", newPrompt, "手动编辑", localeZh)]),
                currentVersion := Some("V2"))
    else
      NoUpdate.(promptVersions := Some(RewriteContent(d.promptVersions, d.currentVersion, newPrompt)))
  }

  /** Every version with the tag gets the new content; nothing else changes. */
  function RewriteContent(vs: seq<PromptVersion>, ver: string, content: string): (r: seq<PromptVersion>)
    ensures |r| == |vs|
    ensures forall k :: 0 <= k < |vs| ==> r[k] == (if vs[k].version == ver then vs[k].(content := content) else vs[k])
  {
    if vs == [] then []
    else [if vs[0].version == ver then vs[0].(content := content) else vs[0]] + RewriteContent(vs[1..], ver, content)
  }

  /** When a "V2" with content already exists and the user edits while on V1,
      the edit is appended as a second "V2" and the prompt in effect is still
      the old V2's content: the edit does not take effect. */
  lemma AsWrittenEditLost(d: SessionData, systemPrompt: string, newPrompt: string, localeZh: string, old2: PromptVersion)
    requires d.currentVersion == "V1"
    requires d.promptVersions == [VersionManager.InitialVersion(localeZh), old2]
    requires old2.version == "V2" && old2.content != "" && old2.content != newPrompt
    ensures var d2 := Merge(d, PromptChangeAsWritten(d, newPrompt, localeZh));
      CurrentVersionPrompt(d2, systemPrompt) == old2.content != newPrompt
  {
    var d2 := Merge(d, PromptChangeAsWritten(d, newPrompt, localeZh));
    var vs := d2.promptVersions;
    assert d2.currentVersion == "V2";
    assert "V1"[1] != "V2"[1];
    assert vs[0].version == "V1" && vs[1] == old2;
    assert vs[1..][0] == old2;
    assert VersionManager.FindVersion(vs[1..], "V2") == Some(old2);
    assert VersionManager.FindVersion(vs, "V2") == Some(old2);
  }

  /** `handlePromptChange`, corrected: an edit on "V1" is saved as the next
      version, V<n+1>, like an explicit save. */
  function HandlePromptChange(d: SessionData, newPrompt: string, localeZh: string): (u: DataUpdate)
    ensures u.promptVersions.Some?
    ensures d.currentVersion == "V1" ==>
      |u.promptVersions.value| == |d.promptVersions| + 1
      && u.promptVersions.value[|d.promptVersions|].content == newPrompt
      && u.currentVersion == Some("V" + NatToString(|d.promptVersions| + 1))
    ensures d.currentVersion != "V1" ==>
      |u.promptVersions.value| == |d.promptVersions| && u.currentVersion.None?
      && forall k :: 0 <= k < |d.promptVersions| ==>
           u.promptVersions.value[k].version == d.promptVersions[k].version
           && u.promptVersions.value[k].content
              == (if d.promptVersions[k].version == d.currentVersion then newPrompt else d.promptVersions[k].content)
  {
    if d.currentVersion == "V1" then HandleSaveVersion(d, newPrompt, "手动编辑", localeZh)
    else NoUpdate.(promptVersions := Some(RewriteContent(d.promptVersions, d.currentVersion, newPrompt)))
  }

  /** With the corrected handler, an edit made on V1 is the prompt in effect
      afterwards (for non-empty text and a fresh tag), and an edit on a
      later version rewrites that version's content only. */
  lemma PromptChangeTakesEffect(d: SessionData, systemPrompt: string, newPrompt: string, localeZh: string)
    requires newPrompt != "" && |d.promptVersions| > 0
    requires forall v :: v in d.promptVersions ==> v.version != "V" + NatToString(|d.promptVersions| + 1)
    ensures d.currentVersion == "V1" ==>
      CurrentVersionPrompt(Merge(d, HandlePromptChange(d, newPrompt, localeZh)), systemPrompt) == newPrompt
    ensures d.currentVersion != "V1" ==>
      var vs := Merge(d, HandlePromptChange(d, newPrompt, localeZh)).promptVersions;
      |vs| == |d.promptVersions|
      && (forall k :: 0 <= k < |vs| ==>
            vs[k].version == d.promptVersions[k].version
            && (d.promptVersions[k].version != d.currentVersion ==> vs[k] == d.promptVersions[k]))
  {
    if d.currentVersion == "V1" {
      SavedVersionInEffect(d, systemPrompt, newPrompt, "手动编辑", localeZh);
    }
  }
}
