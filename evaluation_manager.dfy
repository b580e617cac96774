/** The criteria panel (`EvaluationManager`): criteria generated by the
    model, the editor's enable switches and weights, and the enabled count. */
module EvaluationManager {
  import opened Types
  import opened Text
  import opened TestCaseParser
  import EvaluationCalculator

  /** `JSON.parse` of the matched span, read as a list of criteria; `None`
      when the text is not such a list (the parse throws). */
  type CriteriaParser = string -> Option<seq<Criterion>>

  /** The levels a generated criterion starts enabled at. */
  predicate IsCore(level: string) {
    level == "P0" || level == "P1" || level == "P2"
  }

  /** Each generated criterion, with `enabled` set exactly for the core levels. */
  function WithEnabled(generated: seq<Criterion>): (r: seq<Criterion>)
    ensures |r| == |generated|
    ensures forall k :: 0 <= k < |generated| ==> r[k] == generated[k].(enabled := IsCore(generated[k].level))
  {
    if generated == [] then []
    else [generated[0].(enabled := IsCore(generated[0].level))] + WithEnabled(generated[1..])
  }

  /** `handleGenerateCriteria` after the model's answer: the new criteria
      list, or `None` when the list stays as it is — a failed call, an empty
      answer, no bracketed span, or a span that does not parse. */
  function GeneratedCriteria(result: CallResult, parse: CriteriaParser): (r: Option<seq<Criterion>>)
    ensures r.Some? ==> result.success && Truthy(result.response)
    ensures r.Some? ==> forall c :: c in r.value ==> (c.enabled <==> IsCore(c.level))
  {
    if !result.success || !Truthy(result.response) then None
    else
      match EvaluationCalculator.BracketSpan(result.response.value)
      case None => None
      case Some(span) =>
        match parse(span)
        case None => None
        case Some(generated) => Some(WithEnabled(generated))
  }

  /** The whole generation: the model is asked with the placeholders of the
      system prompt filled in. */
  function GenerateCriteria(systemPrompt: string, vars: Variables, generate: string -> CallResult, parse: CriteriaParser): Option<seq<Criterion>> {
    GeneratedCriteria(generate(ReplaceVariables(systemPrompt, vars)), parse)
  }

  /** The list changes exactly when the call succeeds with a non-empty answer
      whose bracketed span parses; it then holds the parsed criteria in order,
      and the enabled ones are exactly those at P0, P1 or P2. */
  lemma GeneratedCriteriaSpec(result: CallResult, parse: CriteriaParser)
    ensures var r := GeneratedCriteria(result, parse);
      (r.Some? <==> result.success && Truthy(result.response)
                    && EvaluationCalculator.BracketSpan(result.response.value).Some?
                    && parse(EvaluationCalculator.BracketSpan(result.response.value).value).Some?)
      && (r.Some? ==>
            var g := parse(EvaluationCalculator.BracketSpan(result.response.value).value).value;
            |r.value| == |g|
            && (forall k :: 0 <= k < |g| ==>
                  r.value[k].id == g[k].id && r.value[k].level == g[k].level && r.value[k].weight == g[k].weight)
            && EnabledCriteria(r.value) == CoreOf(g))
  {
    var r := GeneratedCriteria(result, parse);
    if r.Some? {
      EnabledAfterGeneration(parse(EvaluationCalculator.BracketSpan(result.response.value).value).value);
    }
  }

  /** The core-level criteria of a list, in order, enabled. */
  function CoreOf(generated: seq<Criterion>): (r: seq<Criterion>)
    ensures forall c :: c in r ==> c.enabled && IsCore(c.level)
  {
    if generated == [] then []
    else if IsCore(generated[0].level) then [generated[0].(enabled := true)] + CoreOf(generated[1..])
    else CoreOf(generated[1..])
  }

  lemma {:induction false} EnabledAfterGeneration(generated: seq<Criterion>)
    ensures EnabledCriteria(WithEnabled(generated)) == CoreOf(generated)
  {
    if generated != [] {
      var w := WithEnabled(generated);
      assert w[1..] == WithEnabled(generated[1..]);
      EnabledAfterGeneration(generated[1..]);
    }
  }

  // ---------------------------------------------------------------------
  // The editor

  /** `toggleEnabled`: the criteria with the id have their flag flipped. */
  function ToggleEnabled(cs: seq<Criterion>, id: string): (r: seq<Criterion>)
    ensures |r| == |cs|
    ensures forall k :: 0 <= k < |cs| ==>
      r[k] == (if cs[k].id == id then cs[k].(enabled := !cs[k].enabled) else cs[k])
  {
    if cs == [] then []
    else [if cs[0].id == id then cs[0].(enabled := !cs[0].enabled) else cs[0]] + ToggleEnabled(cs[1..], id)
  }

  /** Toggling twice restores the list. */
  lemma ToggleTwice(cs: seq<Criterion>, id: string)
    ensures ToggleEnabled(ToggleEnabled(cs, id), id) == cs
  {
    var r := ToggleEnabled(ToggleEnabled(cs, id), id);
    assert forall k :: 0 <= k < |cs| ==> r[k] == cs[k];
  }

  /** When one criterion carries the id, a toggle changes the enabled count by
      exactly one: down if it was enabled, up otherwise. */
  lemma {:induction false} ToggleCount(cs: seq<Criterion>, id: string, i: nat)
    requires i < |cs| && cs[i].id == id
    requires forall k :: 0 <= k < |cs| && k != i ==> cs[k].id != id
    ensures |EnabledCriteria(ToggleEnabled(cs, id))| == |EnabledCriteria(cs)| + (if cs[i].enabled then -1 else 1)
  {
    var t := ToggleEnabled(cs, id);
    assert t[1..] == ToggleEnabled(cs[1..], id);
    if i == 0 {
      UntouchedCount(cs[1..], id);
    } else {
      ToggleCount(cs[1..], id, i - 1);
    }
  }

  lemma {:induction false} UntouchedCount(cs: seq<Criterion>, id: string)
    requires forall k :: 0 <= k < |cs| ==> cs[k].id != id
    ensures ToggleEnabled(cs, id) == cs
  {
    var t := ToggleEnabled(cs, id);
    assert forall k :: 0 <= k < |cs| ==> t[k] == cs[k];
  }

  /** `updateWeight`: the criteria with the id get the new weight. */
  function UpdateWeight(cs: seq<Criterion>, id: string, weight: int): (r: seq<Criterion>)
    ensures |r| == |cs|
    ensures forall k :: 0 <= k < |cs| ==>
      r[k] == (if cs[k].id == id then cs[k].(weight := weight) else cs[k])
  {
    if cs == [] then []
    else [if cs[0].id == id then cs[0].(weight := weight) else cs[0]] + UpdateWeight(cs[1..], id, weight)
  }

  /** The number box's `v || 1`: an empty box or 0 becomes 1. */
  function WeightInput(v: Option<int>): (w: int)
    ensures w != 0
    ensures v.Some? && v.value != 0 ==> w == v.value
  {
    match v
    case Some(x) => if x != 0 then x else 1
    case None => 1
  }

  /** A weight set from the number box is never 0, and the last update wins. */
  lemma UpdateWeightLaws(cs: seq<Criterion>, id: string, v: Option<int>, w: int)
    ensures forall c :: c in UpdateWeight(cs, id, WeightInput(v)) && c.id == id ==> c.weight != 0
    ensures UpdateWeight(UpdateWeight(cs, id, w), id, WeightInput(v)) == UpdateWeight(cs, id, WeightInput(v))
  {
    var wv := WeightInput(v);
    var m := UpdateWeight(cs, id, w);
    var a := UpdateWeight(m, id, wv);
    var b := UpdateWeight(cs, id, wv);
    forall c | c in b && c.id == id ensures c.weight != 0 {
      var k :| 0 <= k < |b| && b[k] == c;
    }
    forall k | 0 <= k < |cs| ensures a[k] == b[k] {
      assert m[k].id == cs[k].id;
    }
  }

  /** Toggling and reweighting do not disturb each other. */
  lemma ToggleWeightCommute(cs: seq<Criterion>, a: string, b: string, w: int)
    ensures ToggleEnabled(UpdateWeight(cs, b, w), a) == UpdateWeight(ToggleEnabled(cs, a), b, w)
  {
    var x := ToggleEnabled(UpdateWeight(cs, b, w), a);
    var y := UpdateWeight(ToggleEnabled(cs, a), b, w);
    assert forall k :: 0 <= k < |cs| ==> x[k] == y[k];
  }

  /** The panel's editing state: whether the editor is open and the draft
      list it works on. */
  datatype Panel = Panel(criteria: seq<Criterion>, showEditor: bool, editing: seq<Criterion>)

  /** `startEdit`: the draft is a copy of the criteria and the editor opens. */
  function StartEdit(p: Panel): (r: Panel)
    ensures r.showEditor && r.editing == p.criteria && r.criteria == p.criteria
  {
    p.(editing := p.criteria, showEditor := true)
  }

  /** `saveEdit`: the draft replaces the criteria wholesale; the editor closes. */
  function SaveEdit(p: Panel): (r: Panel)
    ensures !r.showEditor && r.criteria == p.editing && r.editing == p.editing
  {
    p.(criteria := p.editing, showEditor := false)
  }

  /** The cancel button: the editor closes and the criteria stay. */
  function CancelEdit(p: Panel): (r: Panel)
    ensures !r.showEditor && r.criteria == p.criteria && r.editing == p.editing
  {
    p.(showEditor := false)
  }

  /** An editor action on the draft. */
  datatype Edit = Toggle(id: string) | Reweigh(id: string, v: Option<int>)

  function ApplyEdits(draft: seq<Criterion>, edits: seq<Edit>): (r: seq<Criterion>)
    ensures |r| == |draft|
    ensures forall k :: 0 <= k < |draft| ==> r[k].id == draft[k].id && r[k].level == draft[k].level
    decreases |edits|
  {
    if edits == [] then draft
    else
      var next := match edits[0]
        case Toggle(id) => ToggleEnabled(draft, id)
        case Reweigh(id, v) => UpdateWeight(draft, id, WeightInput(v));
      ApplyEdits(next, edits[1..])
  }

  /** A session in the editor: open it, make some edits, then save or cancel.
      Saving yields the edited copy; cancelling leaves the criteria as they
      were; with no edits, saving changes nothing. */
  lemma EditSession(p: Panel, edits: seq<Edit>)
    ensures var started := StartEdit(p);
      var edited := started.(editing := ApplyEdits(started.editing, edits));
      edited.criteria == p.criteria
      && SaveEdit(edited).criteria == ApplyEdits(p.criteria, edits)
      && CancelEdit(edited).criteria == p.criteria
      && (edits == [] ==> SaveEdit(edited).criteria == p.criteria)
  {
  }

  /** `enabledCount`: the number of criteria with the flag set. */
  function EnabledCount(cs: seq<Criterion>): nat {
    |EnabledCriteria(cs)|
  }

  /** The count is the list's length exactly when every criterion is enabled,
      and zero exactly when none is. */
  lemma {:induction false} EnabledCountBounds(cs: seq<Criterion>)
    ensures EnabledCount(cs) <= |cs|
    ensures EnabledCount(cs) == |cs| <==> forall k :: 0 <= k < |cs| ==> cs[k].enabled
    ensures EnabledCount(cs) == 0 <==> forall k :: 0 <= k < |cs| ==> !cs[k].enabled
  {
    if cs != [] {
      EnabledCountBounds(cs[1..]);
      assert forall k :: 1 <= k < |cs| ==> cs[k] == cs[1..][k - 1];
      if !cs[0].enabled {
        assert EnabledCount(cs) == EnabledCount(cs[1..]) < |cs|;
      }
    }
  }
}
