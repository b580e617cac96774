/** The prompt optimizer (`PromptOptimizer`): it condenses the test results
    into a report, asks the model for a better prompt, splits the answer into
    the new prompt and its list of changes, and offers to save it as a version. */
module PromptOptimizer {
  import opened Types
  import opened Text
  import opened Seqs
  import TestExecution

  // ---------------------------------------------------------------------
  // Statistics

  /** The cases judged as passing (a truthy `passed`). */
  function PassingCases(cases: seq<TestCase>): (r: seq<TestCase>)
    ensures |r| <= |cases|
    ensures forall tc :: tc in r <==> tc in cases && tc.passed == Some(true)
  {
    if cases == [] then []
    else if cases[0].passed == Some(true) then [cases[0]] + PassingCases(cases[1..])
    else PassingCases(cases[1..])
  }

  /** The cases judged as failing (`passed === false`), in order. */
  function FailingCases(cases: seq<TestCase>): (r: seq<TestCase>)
    ensures |r| <= |cases|
    ensures forall tc :: tc in r <==> tc in cases && tc.passed == Some(false)
  {
    if cases == [] then []
    else if cases[0].passed == Some(false) then [cases[0]] + FailingCases(cases[1..])
    else FailingCases(cases[1..])
  }

  /** `passRate`: the rounded percentage of passing cases, 0 for no cases. */
  function PassRate(cases: seq<TestCase>): (r: int)
    ensures |cases| == 0 ==> r == 0
    ensures 0 <= r <= 100
  {
    if |cases| > 0 then
      CountsPartition(cases);
      TestExecution.PercentBounds(|PassingCases(cases)|, |cases|, |cases|);
      TestExecution.PercentBounds(0, |PassingCases(cases)|, |cases|);
      TestExecution.Percent(|PassingCases(cases)|, |cases|)
    else 0
  }

  /** Passing and failing cases never outnumber the cases; together they are
      all of them exactly when every case holds a verdict. */
  lemma {:induction false} CountsPartition(cases: seq<TestCase>)
    ensures |PassingCases(cases)| + |FailingCases(cases)| <= |cases|
    ensures |PassingCases(cases)| + |FailingCases(cases)| == |cases|
            <==> forall k :: 0 <= k < |cases| ==> cases[k].passed.Some?
  {
    if cases != [] {
      CountsPartition(cases[1..]);
      assert forall k :: 1 <= k < |cases| ==> cases[k] == cases[1..][k - 1];
      match cases[0].passed {
        case None =>
          assert PassingCases(cases) == PassingCases(cases[1..]);
          assert FailingCases(cases) == FailingCases(cases[1..]);
        case Some(true) =>
          assert PassingCases(cases) == [cases[0]] + PassingCases(cases[1..]);
          assert FailingCases(cases) == FailingCases(cases[1..]);
        case Some(false) =>
          assert PassingCases(cases) == PassingCases(cases[1..]);
          assert FailingCases(cases) == [cases[0]] + FailingCases(cases[1..]);
      }
    }
  }

  /** The pass rate is 100 when every case passed and 0 when none did. */
  lemma PassRateBounds(cases: seq<TestCase>)
    ensures |cases| > 0 && |PassingCases(cases)| == |cases| ==> PassRate(cases) == 100
    ensures |PassingCases(cases)| == 0 ==> PassRate(cases) == 0
  {
    if |cases| > 0 {
      TestExecution.PercentBounds(0, |PassingCases(cases)|, |cases|);
      TestExecution.PercentBounds(|PassingCases(cases)|, |cases|, |cases|);
    }
  }

  // ---------------------------------------------------------------------
  // Failed-case summaries

  /** A criterion the case did not meet and that applied to it. */
  predicate IsFailure(d: EvalRecord) {
    !d.passed && !d.notApplicable
  }

  function FailingDetails(ds: seq<EvalRecord>): (r: seq<EvalRecord>)
    ensures |r| <= |ds|
    ensures forall d :: d in r <==> d in ds && IsFailure(d)
  {
    if ds == [] then []
    else if IsFailure(ds[0]) then [ds[0]] + FailingDetails(ds[1..])
    else FailingDetails(ds[1..])
  }

  /** `slice(0, n)` and `substring(0, n)`: at most the first n elements. */
  function Take<T>(s: seq<T>, n: nat): (r: seq<T>)
    ensures |r| == (if |s| <= n then |s| else n)
    ensures r == s[..|r|]
  {
    if |s| <= n then s else s[..n]
  }

  /** One failed criterion in a summary, its reason cut to 100 characters. */
  function CriterionLine(d: EvalRecord): string {
    "  - " + d.criteriaName + ": " + IntToString(d.score) + "分 - " + Take(d.reason, 100)
  }

  /** The lines for the first two failed criteria of a case. */
  function CriterionLines(ds: seq<EvalRecord>): (r: seq<string>)
    ensures var f := FailingDetails(ds);
      |r| == (if |f| <= 2 then |f| else 2)
      && forall k :: 0 <= k < |r| ==> r[k] == CriterionLine(f[k])
  {
    var f := Take(FailingDetails(ds), 2);
    seq(|f|, k requires 0 <= k < |f| => CriterionLine(f[k]))
  }

  /** The summary of the failing case at position `index`: its number and
      title, then either its failed criteria (when it holds any details) or
      the start of its evaluation text. */
  function CaseDetail(tc: TestCase, index: nat): string {
    var head := NatToString(index + 1) + ". " + tc.title;
    if tc.evaluationDetails.Some? && |tc.evaluationDetails.value| > 0 then
      var failed := Join(CriterionLines(tc.evaluationDetails.value), "\n");
      if failed != "" then head + "\n  未通过标准:\n" + failed else head
    else if Truthy(tc.evaluation) then head + "\n  问题: " + Take(tc.evaluation.value, 150)
    else head
  }

  /** The summaries of the first three failing cases. */
  function CaseDetails(cases: seq<TestCase>): seq<string> {
    MapIndexed(Take(FailingCases(cases), 3), CaseDetail, 0)
  }

  /** At most three cases are summarised, the first failing ones in order,
      each opening with its number and title. */
  lemma CaseDetailsSpec(cases: seq<TestCase>)
    ensures var f := FailingCases(cases);
      var r := CaseDetails(cases);
      |r| == (if |f| <= 3 then |f| else 3)
      && forall k :: 0 <= k < |r| ==>
           StartsWith(r[k], NatToString(k + 1) + ". " + f[k].title)
  {
    var f := FailingCases(cases);
    var r := CaseDetails(cases);
    forall k | 0 <= k < |r| ensures StartsWith(r[k], NatToString(k + 1) + ". " + f[k].title) {
      assert Take(f, 3)[k] == f[k];
      CaseDetailStarts(f[k], k);
    }
  }

  lemma CaseDetailStarts(tc: TestCase, index: nat)
    ensures StartsWith(CaseDetail(tc, index), NatToString(index + 1) + ". " + tc.title)
  {
    var head := NatToString(index + 1) + ". " + tc.title;
    var tail := if tc.evaluationDetails.Some? && |tc.evaluationDetails.value| > 0 then
        var failed := Join(CriterionLines(tc.evaluationDetails.value), "\n");
        if failed != "" then "\n  未通过标准:\n" + failed else ""
      else if Truthy(tc.evaluation) then "\n  问题: " + Take(tc.evaluation.value, 150)
      else "";
    assert CaseDetail(tc, index) == head + tail;
    PrefixOfAppend(head, tail);
  }

  /** With a failing case, the summary is not empty: its first entry opens
      with a number. */
  lemma CaseDetailsNonEmpty(cases: seq<TestCase>)
    ensures FailingCases(cases) != [] ==> Join(CaseDetails(cases), "\n\n") != ""
  {
    if FailingCases(cases) != [] {
      CaseDetailsSpec(cases);
      var r := CaseDetails(cases);
      assert StartsWith(r[0], NatToString(1) + ". " + FailingCases(cases)[0].title);
      assert |r[0]| > 0;
      JoinNonEmpty(r, "\n\n");
    }
  }

  lemma PrefixOfAppend(a: string, b: string)
    ensures StartsWith(a + b, a)
  {
    assert (a + b)[..|a|] == a;
  }

  /** A case with details lists a criteria section exactly when one of its
      criteria failed; without details it falls back to its evaluation text. */
  lemma CaseDetailSections(tc: TestCase, index: nat)
    ensures var head := NatToString(index + 1) + ". " + tc.title;
      tc.evaluationDetails.Some? && |tc.evaluationDetails.value| > 0 ==>
        (CaseDetail(tc, index) == head <==> |FailingDetails(tc.evaluationDetails.value)| == 0)
  {
    if tc.evaluationDetails.Some? && |tc.evaluationDetails.value| > 0 {
      var lines := CriterionLines(tc.evaluationDetails.value);
      if |lines| > 0 {
        JoinNonEmpty(lines, "\n");
      }
    }
  }

  /** A join whose first part is not empty is not empty. */
  lemma JoinNonEmpty(parts: seq<string>, d: string)
    requires |parts| > 0 && |parts[0]| > 0
    ensures |Join(parts, d)| > 0
  {
    if |parts| > 1 {
      assert |Join(parts, d)| >= |parts[0]|;
    }
  }

  /** A reason or evaluation cut to n characters is the text itself when it
      is short enough, and otherwise exactly its first n characters. */
  lemma TakeSpec(s: string, n: nat)
    ensures |Take(s, n)| <= n
    ensures Take(s, n) == s <==> |s| <= n
    ensures Take(Take(s, n), n) == Take(s, n)
  {
  }

  // ---------------------------------------------------------------------
  // The failure tally

  /** The names of the failed criteria of one case, in order. */
  function FailedName(d: EvalRecord): seq<string> {
    if IsFailure(d) then [d.criteriaName] else []
  }

  function CaseFailedNames(tc: TestCase): seq<string> {
    match tc.evaluationDetails
    case None => []
    case Some(ds) => FlatMap(ds, FailedName)
  }

  /** Every failed criterion name across all cases, once per failure. */
  function FailedNames(cases: seq<TestCase>): seq<string> {
    FlatMap(cases, CaseFailedNames)
  }

  /** One more occurrence of `x`. */
  function Bump(m: map<string, nat>, x: string): map<string, nat> {
    m[x := (if x in m then m[x] else 0) + 1]
  }

  /** The count of each name, as the loop builds it up. */
  function Tally(names: seq<string>): map<string, nat> {
    if names == [] then map[] else Bump(Tally(names[..|names| - 1]), names[|names| - 1])
  }

  /** The names in the order of their first occurrence: a dictionary's key
      order for keys added one by one. */
  function FirstSeen(names: seq<string>): seq<string> {
    if names == [] then []
    else
      var prev := FirstSeen(names[..|names| - 1]);
      if names[|names| - 1] in prev then prev else prev + [names[|names| - 1]]
  }

  /** The tally holds exactly the names that occur, each with its number of
      occurrences; the key order lists each of them once. */
  lemma {:induction false} TallySpec(names: seq<string>)
    ensures forall x :: x in Tally(names) <==> x in names
    ensures forall x :: x in Tally(names) ==> Tally(names)[x] == multiset(names)[x]
    ensures forall x :: x in FirstSeen(names) <==> x in names
    ensures forall i, j :: 0 <= i < j < |FirstSeen(names)| ==> FirstSeen(names)[i] != FirstSeen(names)[j]
  {
    if names != [] {
      var init := names[..|names| - 1];
      var x := names[|names| - 1];
      TallySpec(init);
      assert names == init + [x];
      assert multiset(names) == multiset(init) + multiset{x};
    }
  }

  /** Every key in the key order has a count. */
  lemma KeysTallied(names: seq<string>)
    ensures forall x :: x in FirstSeen(names) ==> x in Tally(names)
  {
    TallySpec(names);
  }

  /** A name tallied `n` times failed in `n` applicable criteria across all
      the cases. */
  lemma FailureStatsMeaning(cases: seq<TestCase>, name: string)
    ensures name in Tally(FailedNames(cases)) <==> name in FailedNames(cases)
    ensures name in Tally(FailedNames(cases)) ==>
      Tally(FailedNames(cases))[name] == multiset(FailedNames(cases))[name]
  {
    TallySpec(FailedNames(cases));
  }

  lemma SnocPrefix(s: seq<string>, x: string)
    ensures (s + [x])[..|s + [x]| - 1] == s && (s + [x])[|s + [x]| - 1] == x
  {
  }

  /** One detail's effect on the tally and on the key order. */
  lemma TallyStep(seen: seq<string>, d: EvalRecord)
    ensures Tally(seen + FailedName(d))
         == if IsFailure(d) then Bump(Tally(seen), d.criteriaName) else Tally(seen)
    ensures FirstSeen(seen + FailedName(d))
         == if IsFailure(d) && d.criteriaName !in Tally(seen) then FirstSeen(seen) + [d.criteriaName]
            else FirstSeen(seen)
  {
    if IsFailure(d) {
      SnocPrefix(seen, d.criteriaName);
      TallySpec(seen);
    } else {
      assert seen + FailedName(d) == seen;
    }
  }

  /** `failureStats`: a dictionary of failure counts filled in place by two
      nested loops, with the order in which its keys were first added. */
  method FailureStats(cases: seq<TestCase>) returns (stats: map<string, nat>, order: seq<string>)
    ensures stats == Tally(FailedNames(cases))
    ensures order == FirstSeen(FailedNames(cases))
  {
    stats := map[];
    order := [];
    for i := 0 to |cases|
      invariant stats == Tally(FlatMap(cases[0..i], CaseFailedNames))
      invariant order == FirstSeen(FlatMap(cases[0..i], CaseFailedNames))
    {
      ghost var before := FlatMap(cases[0..i], CaseFailedNames);
      if cases[i].evaluationDetails.Some? {
        stats, order := CountCaseFailures(cases[i].evaluationDetails.value, stats, order, before);
      } else {
        assert before + CaseFailedNames(cases[i]) == before;
      }
      FlatMapStep(cases, 0, i, CaseFailedNames);
    }
    assert cases[0..|cases|] == cases;
  }

  /** The inner loop of `failureStats`: the failures of one case's details
      added to the tally built so far. */
  method CountCaseFailures(ds: seq<EvalRecord>, stats0: map<string, nat>, order0: seq<string>, ghost before: seq<string>)
    returns (stats: map<string, nat>, order: seq<string>)
    requires stats0 == Tally(before) && order0 == FirstSeen(before)
    ensures stats == Tally(before + FlatMap(ds, FailedName))
    ensures order == FirstSeen(before + FlatMap(ds, FailedName))
  {
    stats, order := stats0, order0;
    assert before + FlatMap(ds[0..0], FailedName) == before;
    for j := 0 to |ds|
      invariant stats == Tally(before + FlatMap(ds[0..j], FailedName))
      invariant order == FirstSeen(before + FlatMap(ds[0..j], FailedName))
    {
      ghost var seen := before + FlatMap(ds[0..j], FailedName);
      FlatMapStep(ds, 0, j, FailedName);
      assert before + FlatMap(ds[0..j + 1], FailedName) == seen + FailedName(ds[j]);
      TallyStep(seen, ds[j]);
      if IsFailure(ds[j]) {
        var name := ds[j].criteriaName;
        if name !in stats {
          order := order + [name];
        }
        stats := Bump(stats, name);
      }
    }
    assert ds[0..|ds|] == ds;
  }

  // ---------------------------------------------------------------------
  // The most common failures

  datatype Failure = Failure(name: string, count: nat)

  /** `Object.entries(failureStats)`, in key order. */
  function Entries(stats: map<string, nat>, order: seq<string>): (r: seq<Failure>)
    requires forall x :: x in order ==> x in stats
    ensures |r| == |order|
    ensures forall k :: 0 <= k < |order| ==> r[k] == Failure(order[k], stats[order[k]])
  {
    seq(|order|, k requires 0 <= k < |order| => Failure(order[k], stats[order[k]]))
  }

  predicate SortedByCount(s: seq<Failure>) {
    forall i, j :: 0 <= i < j < |s| ==> s[i].count >= s[j].count
  }

  /** Places `x` before the first element whose count is not above its own,
      so that an element earlier in the input stays earlier among ties. */
  function Insert(x: Failure, s: seq<Failure>): seq<Failure> {
    if s == [] || x.count >= s[0].count then [x] + s
    else [s[0]] + Insert(x, s[1..])
  }

  /** Inserting into a sorted list keeps it sorted and adds exactly `x`. */
  lemma InsertSpec(x: Failure, s: seq<Failure>)
    requires SortedByCount(s)
    ensures SortedByCount(Insert(x, s))
    ensures multiset(Insert(x, s)) == multiset(s) + multiset{x}
  {
    InsertSorted(x, s);
    InsertMultiset(x, s);
  }

  /** Insertion adds exactly `x`, wherever it lands. */
  lemma {:induction false} InsertMultiset(x: Failure, s: seq<Failure>)
    ensures multiset(Insert(x, s)) == multiset(s) + multiset{x}
  {
    if s != [] && x.count < s[0].count {
      InsertMultiset(x, s[1..]);
      assert s == [s[0]] + s[1..];
      assert multiset([s[0]] + Insert(x, s[1..])) == multiset{s[0]} + multiset(Insert(x, s[1..]));
    }
  }

  lemma {:induction false} InsertSorted(x: Failure, s: seq<Failure>)
    requires SortedByCount(s)
    ensures SortedByCount(Insert(x, s))
  {
    if s != [] && x.count < s[0].count {
      var rest := Insert(x, s[1..]);
      InsertSorted(x, s[1..]);
      InsertMultiset(x, s[1..]);
      BoundedPlusOne(s[1..], rest, x, s[0].count);
      SortedCons(s[0], rest);
    } else {
      SortedCons(x, s);
    }
  }

  /** An element counting at least as much as everything in a sorted list
      may go in front of it. */
  lemma SortedCons(h: Failure, t: seq<Failure>)
    requires SortedByCount(t)
    requires t == [] || h.count >= t[0].count || forall k :: 0 <= k < |t| ==> t[k].count <= h.count
    ensures SortedByCount([h] + t)
  {
    var r := [h] + t;
    forall i, j | 0 <= i < j < |r| ensures r[i].count >= r[j].count {
      if i == 0 {
        assert r[j] == t[j - 1];
        if t != [] && h.count >= t[0].count {
          assert t[0].count >= t[j - 1].count || j == 1;
        }
      } else {
        assert r[i] == t[i - 1] && r[j] == t[j - 1];
      }
    }
  }

  /** A list holding the elements of `t` and `x`, all of which count at
      most `c`, counts at most `c` everywhere. */
  lemma BoundedPlusOne(t: seq<Failure>, r: seq<Failure>, x: Failure, c: nat)
    requires forall k :: 0 <= k < |t| ==> t[k].count <= c
    requires x.count <= c && multiset(r) == multiset(t) + multiset{x}
    ensures forall k :: 0 <= k < |r| ==> r[k].count <= c
  {
    forall k | 0 <= k < |r| ensures r[k].count <= c {
      assert r[k] in multiset(r);
      if r[k] != x {
        assert r[k] in multiset(t);
        var j :| 0 <= j < |t| && t[j] == r[k];
      }
    }
  }

  /** `sort((a, b) => b[1] - a[1])`: by count, highest first; the sort is
      stable, so ties keep their order. */
  function SortByCount(s: seq<Failure>): (r: seq<Failure>)
    ensures SortedByCount(r)
    ensures multiset(r) == multiset(s)
  {
    if s == [] then []
    else
      assert s == [s[0]] + s[1..];
      InsertSpec(s[0], SortByCount(s[1..]));
      Insert(s[0], SortByCount(s[1..]))
  }

  /** `topFailures` before rendering: the five highest counts. */
  function TopFailures(entries: seq<Failure>): seq<Failure> {
    Take(SortByCount(entries), 5)
  }

  /** At most five entries, highest count first, all taken from the input,
      and none of the entries left out has a higher count than one kept. */
  lemma TopFailuresSpec(entries: seq<Failure>)
    ensures var top := TopFailures(entries);
      |top| == (if |entries| <= 5 then |entries| else 5)
      && SortedByCount(top)
      && multiset(top) <= multiset(entries)
      && forall e, k :: e in multiset(entries) - multiset(top) && 0 <= k < |top| ==> top[k].count >= e.count
  {
    var all := SortByCount(entries);
    var top := TopFailures(entries);
    var n := |top|;
    assert top == all[..n];
    SplitMultiset(all, n);
    assert multiset(entries) - multiset(top) == multiset(all[n..]);
    SortedSplit(all, n);
  }

  /** Cutting a list in two splits its multiset in two. */
  lemma SplitMultiset<T>(s: seq<T>, n: nat)
    requires n <= |s|
    ensures multiset(s) == multiset(s[..n]) + multiset(s[n..])
  {
    assert s == s[..n] + s[n..];
  }

  /** In a sorted list, nothing after position n counts more than anything
      before it; and a sorted list's prefixes are sorted. */
  lemma SortedSplit(all: seq<Failure>, n: nat)
    requires SortedByCount(all) && n <= |all|
    ensures SortedByCount(all[..n])
    ensures forall e, k :: e in multiset(all[n..]) && 0 <= k < n ==> all[..n][k].count >= e.count
  {
    forall e, k | e in multiset(all[n..]) && 0 <= k < n ensures all[..n][k].count >= e.count {
      assert e in all[n..];
      var j :| 0 <= j < |all[n..]| && all[n..][j] == e;
      assert all[n + j] == e;
    }
  }

  /** One line of the failure list. */
  function FailureLine(f: Failure): string {
    "- " + f.name + ": " + NatToString(f.count) + "次失败"
  }

  /** The rendered list, or "无" when no criterion failed. */
  function TopFailuresText(stats: map<string, nat>, order: seq<string>): string
    requires forall x :: x in order ==> x in stats
  {
    var top := TopFailures(Entries(stats, order));
    var text := Join(seq(|top|, k requires 0 <= k < |top| => FailureLine(top[k])), "\n");
    if text == "" then "无" else text
  }

  // ---------------------------------------------------------------------
  // The request

  const Elided: string := "\n...(后续内容已省略)"

  /** `limitedPrompt`: prompts longer than 8000 characters keep their first
      8000 and get a notice appended. */
  function LimitPrompt(prompt: string): (r: string)
    ensures |prompt| <= 8000 ==> r == prompt
    ensures |prompt| > 8000 ==> r == prompt[..8000] + Elided
  {
    if |prompt| > 8000 then prompt[..8000] + Elided else prompt
  }

  /** The limited prompt never exceeds 8000 characters plus the notice, always
      starts with the prompt's first characters, and limiting again changes
      nothing. */
  lemma LimitPromptSpec(prompt: string)
    ensures |LimitPrompt(prompt)| <= 8000 + |Elided|
    ensures var n := if |prompt| <= 8000 then |prompt| else 8000;
      LimitPrompt(prompt)[..n] == prompt[..n]
    ensures LimitPrompt(LimitPrompt(prompt)) == LimitPrompt(prompt)
  {
    if |prompt| > 8000 {
      var r := prompt[..8000] + Elided;
      assert r[..8000] == prompt[..8000];
    }
  }

  /** The condensed test report the request carries. */
  datatype Report = Report(
    total: nat,
    passed: nat,
    failed: nat,
    passRate: int,
    topFailures: string,
    failedCases: string)

  /** What the model is sent: the limited prompt, the report and the user's
      optional direction and constraints. The wording around them is not
      modelled. */
  datatype Request = Request(prompt: string, report: Report, direction: string, constraints: string)

  /** The report as the optimizer builds it, from the failure tally. */
  function ReportOf(cases: seq<TestCase>, stats: map<string, nat>, order: seq<string>): (r: Report)
    requires forall x :: x in order ==> x in stats
    ensures r.total == |cases| && r.passed + r.failed <= r.total
    ensures r.passed == |PassingCases(cases)| && r.failed == |FailingCases(cases)|
    ensures r.passRate == PassRate(cases) && 0 <= r.passRate <= 100
    ensures r.topFailures == TopFailuresText(stats, order)
    ensures FailingCases(cases) == [] ==> r.failedCases == "无失败案例"
    ensures FailingCases(cases) != [] ==> r.failedCases == Join(CaseDetails(cases), "\n\n")
  {
    CountsPartition(cases);
    CaseDetailsNonEmpty(cases);
    var details := Join(CaseDetails(cases), "\n\n");
    Report(|cases|, |PassingCases(cases)|, |FailingCases(cases)|, PassRate(cases),
           TopFailuresText(stats, order), if details == "" then "无失败案例" else details)
  }

  // ---------------------------------------------------------------------
  // Reading the answer

  const PromptMarker: string := "【优化后的提示词】\n"
  const ChangesMarker: string := "【主要改动】\n"
  /** What ends the prompt section: a line break before the changes heading. */
  const ChangesAhead: string := "\n【主要改动】"
  const FormatNotice: string := "AI未按格式输出改动，请查看完整内容"

  /** The two section matches: the prompt runs from the first prompt heading
      to the first following line break before a changes heading, or to the
      end; the changes run from the first changes heading (with its line
      break) to the end. Both are trimmed. When either heading is missing,
      the whole answer is the prompt and a notice stands for the changes. */
  function ParseOptimization(response: string): (r: (string, string))
    ensures r.0 == response || |r.0| <= |response| - |PromptMarker|
    ensures r.1 == FormatNotice || |r.1| <= |response| - |ChangesMarker|
  {
    var a := Find(response, PromptMarker, 0);
    var b := Find(response, ChangesMarker, 0);
    if a == -1 || b == -1 then (response, FormatNotice)
    else
      var start := a + |PromptMarker|;
      var e := Find(response, ChangesAhead, start);
      var stop := if e == -1 then |response| else e;
      TrimSpec(response[start..stop]);
      TrimSpec(response[b + |ChangesMarker|..]);
      (Trim(response[start..stop]), Trim(response[b + |ChangesMarker|..]))
  }

  /** An answer in the requested layout, with a prompt section free of
      heading brackets. */
  function Formatted(prompt: string, changes: string): string {
    PromptMarker + prompt + "\n" + ChangesMarker + changes
  }

  /** The first match of a pattern, once every earlier position is ruled out. */
  lemma {:induction false} FindAt(s: string, pat: string, from: nat, i: nat)
    requires pat != [] && from <= i < |s| && StartsWith(s[i..], pat)
    requires forall k :: from <= k < i ==> !StartsWith(s[k..], pat)
    ensures Find(s, pat, from) == i
    decreases i - from
  {
    if from < i {
      FindAt(s, pat, from + 1, i);
    }
  }

  /** No heading bracket opens the changes heading before its place. */
  lemma ChangesMarkerFirst(prompt: string, changes: string)
    requires '【' !in prompt
    ensures Find(Formatted(prompt, changes), ChangesMarker, 0) == |PromptMarker| + |prompt| + 1
  {
    var s := Formatted(prompt, changes);
    var b := |PromptMarker| + |prompt| + 1;
    FormattedLayout(prompt, changes);
    MarkerStarts(ChangesMarker, changes);
    forall k | 0 <= k < b ensures !StartsWith(s[k..], ChangesMarker) {
      if k == 0 {
        assert s[k..][1] == s[1] == '优';
      } else {
        assert s[k..][0] == s[k] != '【';
      }
    }
    FindAt(s, ChangesMarker, 0, b);
  }

  /** The prompt section ends at the line break before the changes heading. */
  lemma PromptSectionEnd(prompt: string, changes: string)
    requires '【' !in prompt
    ensures Find(Formatted(prompt, changes), ChangesAhead, |PromptMarker|) == |PromptMarker| + |prompt|
  {
    var s := Formatted(prompt, changes);
    var e := |PromptMarker| + |prompt|;
    FormattedLayout(prompt, changes);
    MarkerStarts(ChangesAhead, ChangesMarker[|ChangesMarker| - 1..] + changes);
    assert "\n" + ChangesMarker + changes == ChangesAhead + ChangesMarker[|ChangesMarker| - 1..] + changes;
    forall k | |PromptMarker| <= k < e ensures !StartsWith(s[k..], ChangesAhead) {
      assert s[k..][1] == s[k + 1] != '【';
    }
    FindAt(s, ChangesAhead, |PromptMarker|, e);
  }

  /** Where the parts of a formatted answer sit, character by character up
      to the changes heading. */
  lemma FormattedLayout(prompt: string, changes: string)
    requires '【' !in prompt
    ensures var s := Formatted(prompt, changes);
      var e := |PromptMarker| + |prompt|;
      |s| == e + 1 + |ChangesMarker| + |changes|
      && s[..|PromptMarker|] == PromptMarker
      && s[1] == '优'
      && s[e..] == "\n" + ChangesMarker + changes
      && s[e + 1..] == ChangesMarker + changes
      && s[|PromptMarker|..e] == prompt
      && s[e] == '\n'
      && (forall k :: 0 < k <= e ==> s[k] != '【')
  {
    var s := Formatted(prompt, changes);
    var e := |PromptMarker| + |prompt|;
    assert s == PromptMarker + prompt + ("\n" + ChangesMarker + changes);
    forall k | 0 < k <= e ensures s[k] != '【' {
      if k < |PromptMarker| {
        assert s[k] == PromptMarker[k];
      } else if k < e {
        assert s[k] == prompt[k - |PromptMarker|];
      }
    }
  }

  /** A text starts with any prefix it was built from. */
  lemma MarkerStarts(m: string, rest: string)
    ensures StartsWith(m + rest, m)
  {
    assert (m + rest)[..|m|] == m;
  }

  /** Reading an answer in the requested layout gives back its two sections,
      trimmed. */
  lemma ParseFormatted(prompt: string, changes: string)
    requires '【' !in prompt
    ensures ParseOptimization(Formatted(prompt, changes)) == (Trim(prompt), Trim(changes))
  {
    var s := Formatted(prompt, changes);
    var p := |PromptMarker|;
    var b := p + |prompt| + 1;
    FormattedLayout(prompt, changes);
    assert s[0..] == s;
    FindAt(s, PromptMarker, 0, 0);
    ChangesMarkerFirst(prompt, changes);
    PromptSectionEnd(prompt, changes);
    assert s[b + |ChangesMarker|..] == (ChangesMarker + changes)[|ChangesMarker|..] == changes;
    ParseFound(s, 0, b, p + |prompt|);
  }

  /** What the reading gives once both headings and the end of the prompt
      section are located. */
  lemma ParseFound(s: string, a: nat, b: nat, e: nat)
    requires Find(s, PromptMarker, 0) == a && Find(s, ChangesMarker, 0) == b
    requires Find(s, ChangesAhead, a + |PromptMarker|) == e
    ensures a + |PromptMarker| <= e && b + |ChangesMarker| <= |s|
    ensures ParseOptimization(s) == (Trim(s[a + |PromptMarker|..e]), Trim(s[b + |ChangesMarker|..]))
  {
    FoundBounds(s, a, b, e);
    var start := a + |PromptMarker|;
    assert ParseOptimization(s) == (Trim(s[start..e]), Trim(s[b + |ChangesMarker|..]));
  }

  lemma FoundBounds(s: string, a: nat, b: nat, e: nat)
    requires Find(s, PromptMarker, 0) == a && Find(s, ChangesMarker, 0) == b
    requires Find(s, ChangesAhead, a + |PromptMarker|) == e
    ensures a + |PromptMarker| <= e && b + |ChangesMarker| <= |s|
  {
    assert StartsWith(s[b..], ChangesMarker);
  }

  /** An answer lacking either heading is shown whole, with the notice. */
  lemma ParseUnformatted(response: string)
    requires !Contains(response, PromptMarker) || !Contains(response, ChangesMarker)
    ensures ParseOptimization(response) == (response, FormatNotice)
  {
    var a := Find(response, PromptMarker, 0);
    var b := Find(response, ChangesMarker, 0);
    if a != -1 {
      assert StartsWith(response[a..], PromptMarker);
    }
    if b != -1 {
      assert StartsWith(response[b..], ChangesMarker);
    }
  }

  // ---------------------------------------------------------------------
  // The component

  /** `handleOptimize` as a whole: nothing without test cases; otherwise the
      model is asked once, and a successful, non-empty answer is read into
      the new prompt and changes. */
  function Optimize(cases: seq<TestCase>, systemPrompt: string, direction: string, constraints: string,
                    ask: Request -> CallResult): (r: Option<(string, string)>)
    ensures |cases| == 0 ==> r.None?
  {
    if |cases| == 0 then None
    else
      var names := FailedNames(cases);
      KeysTallied(names);
      var request := Request(LimitPrompt(systemPrompt), ReportOf(cases, Tally(names), FirstSeen(names)), direction, constraints);
      var result := ask(request);
      if result.success && Truthy(result.response) then Some(ParseOptimization(result.response.value)) else None
  }

  /** `handleSaveAsNewVersion`'s guard: the prompt and changes to save, when
      there is somewhere to save them and neither is empty. */
  function SaveRequest(hasCallback: bool, prompt: string, changes: string): (r: Option<(string, string)>)
    ensures r.Some? <==> hasCallback && prompt != "" && changes != ""
    ensures r.Some? ==> r.value == (prompt, changes)
  {
    if hasCallback && prompt != "" && changes != "" then Some((prompt, changes)) else None
  }

  /** Every answer the optimizer accepts can be saved, except a well-formed
      one whose prompt or changes section is blank. */
  lemma SaveAfterOptimize(response: string, prompt: string, changes: string)
    requires response != ""
    ensures !Contains(response, PromptMarker) || !Contains(response, ChangesMarker) ==>
      var r := ParseOptimization(response);
      SaveRequest(true, r.0, r.1) == Some((response, FormatNotice))
    ensures '【' !in prompt ==>
      var r := ParseOptimization(Formatted(prompt, changes));
      (SaveRequest(true, r.0, r.1).Some? <==> !AllSpace(prompt) && !AllSpace(changes))
  {
    if !Contains(response, PromptMarker) || !Contains(response, ChangesMarker) {
      ParseUnformatted(response);
    }
    if '【' !in prompt {
      ParseFormatted(prompt, changes);
      TrimEmptyIffBlank(prompt);
      TrimEmptyIffBlank(changes);
    }
  }

  /** The optimizer panel's state. */
  class Optimizer {
    var isOptimizing: bool
    var optimizedPrompt: string
    var promptChanges: string
    var showConfirm: bool

    constructor()
      ensures !isOptimizing && optimizedPrompt == "" && promptChanges == "" && !showConfirm
    {
      isOptimizing := false;
      optimizedPrompt := "";
      promptChanges := "";
      showConfirm := false;
    }

    /** `handleOptimize`: the report is built with the tally loops, the model
        is asked once, and an accepted answer replaces the prompt and changes
        shown; any other outcome leaves them as they were. The panel is idle
        afterwards. */
    method HandleOptimize(cases: seq<TestCase>, systemPrompt: string, direction: string, constraints: string,
                          ask: Request -> CallResult)
      modifies this
      ensures var o := Optimize(cases, systemPrompt, direction, constraints, ask);
        (o.None? ==> optimizedPrompt == old(optimizedPrompt) && promptChanges == old(promptChanges))
        && (o.Some? ==> optimizedPrompt == o.value.0 && promptChanges == o.value.1)
      ensures |cases| == 0 ==> isOptimizing == old(isOptimizing)
      ensures |cases| > 0 ==> !isOptimizing
      ensures showConfirm == old(showConfirm)
    {
      if |cases| == 0 {
        return;
      }
      isOptimizing := true;
      var stats, order := FailureStats(cases);
      KeysTallied(FailedNames(cases));
      var request := Request(LimitPrompt(systemPrompt), ReportOf(cases, stats, order), direction, constraints);
      var result := ask(request);
      if result.success && Truthy(result.response) {
        var parsed := ParseOptimization(result.response.value);
        optimizedPrompt := parsed.0;
        promptChanges := parsed.1;
      }
      isOptimizing := false;
    }

    /** `handleSaveAsNewVersion`: hands the prompt and changes to the saver
        and closes the confirmation when the guard allows; otherwise nothing
        happens. */
    method SaveAsNewVersion(hasCallback: bool) returns (saved: Option<(string, string)>)
      modifies this
      ensures saved == SaveRequest(hasCallback, optimizedPrompt, promptChanges)
      ensures showConfirm == (if saved.Some? then false else old(showConfirm))
      ensures optimizedPrompt == old(optimizedPrompt) && promptChanges == old(promptChanges)
      ensures isOptimizing == old(isOptimizing)
    {
      saved := SaveRequest(hasCallback, optimizedPrompt, promptChanges);
      if saved.Some? {
        showConfirm := false;
      }
    }
  }
}
