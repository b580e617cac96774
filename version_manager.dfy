/** Prompt versions panel: the greedy line diff between two prompt texts and
    the lookups that pick which version's text to show. */
module VersionManager {
  import opened Types
  import opened Text

  /** One line-diff operation; lines carry their 0-based index on their side. */
  datatype DiffOp =
    | Equal(oldLine: string, newLine: string, oldIndex: nat, newIndex: nat)
    | Insert(newLine: string, newIndex: nat)
    | Delete(oldLine: string, oldIndex: nat)
    | Replace(oldLine: string, newLine: string, oldIndex: nat, newIndex: nat)

  /** The operations the walk emits from cursors `i` (old side) and `j` (new
      side) onwards: exhausted sides give inserts or deletes; identical lines
      give `Equal`; otherwise both lines are looked up ahead on the other side
      and the nearer match decides, a line found on neither side gives
      `Replace`, and equal distances give `Delete`. */
  function DiffFrom(o: seq<string>, n: seq<string>, i: nat, j: nat): seq<DiffOp>
    requires i <= |o| && j <= |n|
    decreases |o| - i + |n| - j
  {
    if i == |o| && j == |n| then []
    else if i == |o| then [Insert(n[j], j)] + DiffFrom(o, n, i, j + 1)
    else if j == |n| then [Delete(o[i], i)] + DiffFrom(o, n, i + 1, j)
    else if o[i] == n[j] then [Equal(o[i], n[j], i, j)] + DiffFrom(o, n, i + 1, j + 1)
    else
      var oldInNew := IndexOf(n[j..], o[i]);
      var newInOld := IndexOf(o[i..], n[j]);
      if oldInNew == -1 && newInOld == -1 then
        [Replace(o[i], n[j], i, j)] + DiffFrom(o, n, i + 1, j + 1)
      else if oldInNew != -1 && (newInOld == -1 || oldInNew < newInOld) then
        [Insert(n[j], j)] + DiffFrom(o, n, i, j + 1)
      else
        [Delete(o[i], i)] + DiffFrom(o, n, i + 1, j)
  }

  function Diff(o: seq<string>, n: seq<string>): seq<DiffOp> {
    DiffFrom(o, n, 0, 0)
  }

  /** `computeDiff`: splits both texts on '\n' and walks the two cursors. */
  method ComputeDiff(oldText: string, newText: string) returns (result: seq<DiffOp>)
    ensures result == Diff(Split(oldText, '\n'), Split(newText, '\n'))
  {
    var oldLines := Split(oldText, '\n');
    var newLines := Split(newText, '\n');
    result := [];
    var i, j := 0, 0;
    while i < |oldLines| || j < |newLines|
      invariant 0 <= i <= |oldLines| && 0 <= j <= |newLines|
      invariant result + DiffFrom(oldLines, newLines, i, j) == Diff(oldLines, newLines)
      decreases |oldLines| - i + |newLines| - j
    {
      ghost var rest := DiffFrom(oldLines, newLines, i, j);
      var op: DiffOp;
      var i', j' := i, j;
      if i >= |oldLines| {
        op := Insert(newLines[j], j);
        j' := j + 1;
      } else if j >= |newLines| {
        op := Delete(oldLines[i], i);
        i' := i + 1;
      } else if oldLines[i] == newLines[j] {
        op := Equal(oldLines[i], newLines[j], i, j);
        i', j' := i + 1, j + 1;
      } else {
        var oldInNew := IndexOf(newLines[j..], oldLines[i]);
        var newInOld := IndexOf(oldLines[i..], newLines[j]);
        if oldInNew == -1 && newInOld == -1 {
          op := Replace(oldLines[i], newLines[j], i, j);
          i', j' := i + 1, j + 1;
        } else if oldInNew != -1 && (newInOld == -1 || oldInNew < newInOld) {
          op := Insert(newLines[j], j);
          j' := j + 1;
        } else {
          op := Delete(oldLines[i], i);
          i' := i + 1;
        }
      }
      assert rest == [op] + DiffFrom(oldLines, newLines, i', j');
      AppendStep(result, op, DiffFrom(oldLines, newLines, i', j'));
      result := result + [op];
      i, j := i', j';
    }
  }

  lemma AppendStep<T>(done: seq<T>, x: T, rest: seq<T>)
    ensures (done + [x]) + rest == done + ([x] + rest)
  {
  }

  // ---------------------------------------------------------------------
  // Properties of the diff

  /** The old-side lines an op sequence lists (equal, delete, replace), with indices. */
  function OldSide(ops: seq<DiffOp>): seq<(nat, string)> {
    if ops == [] then []
    else
      match ops[0]
      case Equal(a, _, oi, _) => [(oi, a)] + OldSide(ops[1..])
      case Delete(a, oi) => [(oi, a)] + OldSide(ops[1..])
      case Replace(a, _, oi, _) => [(oi, a)] + OldSide(ops[1..])
      case Insert(_, _) => OldSide(ops[1..])
  }

  /** The new-side lines an op sequence lists (equal, insert, replace), with indices. */
  function NewSide(ops: seq<DiffOp>): seq<(nat, string)> {
    if ops == [] then []
    else
      match ops[0]
      case Equal(_, b, _, ni) => [(ni, b)] + NewSide(ops[1..])
      case Insert(b, ni) => [(ni, b)] + NewSide(ops[1..])
      case Replace(_, b, _, ni) => [(ni, b)] + NewSide(ops[1..])
      case Delete(_, _) => NewSide(ops[1..])
  }

  /** The lines of `s` from index `i` on, each paired with its index. */
  function Indexed(s: seq<string>, i: nat): (r: seq<(nat, string)>)
    requires i <= |s|
    ensures |r| == |s| - i
    ensures forall k :: 0 <= k < |r| ==> r[k] == (i + k, s[i + k])
    decreases |s| - i
  {
    if i == |s| then [] else [(i, s[i])] + Indexed(s, i + 1)
  }

  /** Read in order, the old-side ops list every old line exactly once with
      its index, and the new-side ops every new line. */
  lemma SidesReconstruct(o: seq<string>, n: seq<string>, i: nat, j: nat)
    requires i <= |o| && j <= |n|
    ensures OldSide(DiffFrom(o, n, i, j)) == Indexed(o, i)
    ensures NewSide(DiffFrom(o, n, i, j)) == Indexed(n, j)
  {
    OldSideReconstruct(o, n, i, j);
    NewSideReconstruct(o, n, i, j);
  }

  lemma {:induction false} OldSideReconstruct(o: seq<string>, n: seq<string>, i: nat, j: nat)
    requires i <= |o| && j <= |n|
    ensures OldSide(DiffFrom(o, n, i, j)) == Indexed(o, i)
    decreases |o| - i + |n| - j
  {
    if i < |o| || j < |n| {
      var i2, j2 := DiffHead(o, n, i, j);
      OldSideReconstruct(o, n, i2, j2);
      OldSideStep(o, n, i, j, i2, j2);
    }
  }

  lemma OldSideStep(o: seq<string>, n: seq<string>, i: nat, j: nat, i2: nat, j2: nat)
    requires i <= |o| && j <= |n| && i2 <= |o| && j2 <= |n| && (i2 == i || i2 == i + 1)
    requires OldSide(DiffFrom(o, n, i, j)) == (if i2 == i + 1 then [(i, o[i])] else []) + OldSide(DiffFrom(o, n, i2, j2))
    requires OldSide(DiffFrom(o, n, i2, j2)) == Indexed(o, i2)
    ensures OldSide(DiffFrom(o, n, i, j)) == Indexed(o, i)
  {
    if i2 == i + 1 {
      assert Indexed(o, i) == [(i, o[i])] + Indexed(o, i2);
    }
  }

  lemma {:induction false} NewSideReconstruct(o: seq<string>, n: seq<string>, i: nat, j: nat)
    requires i <= |o| && j <= |n|
    ensures NewSide(DiffFrom(o, n, i, j)) == Indexed(n, j)
    decreases |o| - i + |n| - j
  {
    if i < |o| || j < |n| {
      var i2, j2 := DiffHead(o, n, i, j);
      NewSideReconstruct(o, n, i2, j2);
      NewSideStep(o, n, i, j, i2, j2);
    }
  }

  lemma NewSideStep(o: seq<string>, n: seq<string>, i: nat, j: nat, i2: nat, j2: nat)
    requires i <= |o| && j <= |n| && i2 <= |o| && j2 <= |n| && (j2 == j || j2 == j + 1)
    requires NewSide(DiffFrom(o, n, i, j)) == (if j2 == j + 1 then [(j, n[j])] else []) + NewSide(DiffFrom(o, n, i2, j2))
    requires NewSide(DiffFrom(o, n, i2, j2)) == Indexed(n, j2)
    ensures NewSide(DiffFrom(o, n, i, j)) == Indexed(n, j)
  {
    if j2 == j + 1 {
      assert Indexed(n, j) == [(j, n[j])] + Indexed(n, j2);
    }
  }

  /** The first step of the walk: it moves the old cursor, the new cursor or
      both by one, and lists the old line it passed on the old side and the
      new line it passed on the new side. */
  lemma DiffHead(o: seq<string>, n: seq<string>, i: nat, j: nat) returns (i2: nat, j2: nat)
    requires i <= |o| && j <= |n| && (i < |o| || j < |n|)
    ensures i2 <= |o| && j2 <= |n| && (i2 == i || i2 == i + 1) && (j2 == j || j2 == j + 1) && i + j < i2 + j2
    ensures OldSide(DiffFrom(o, n, i, j)) == (if i2 == i + 1 then [(i, o[i])] else []) + OldSide(DiffFrom(o, n, i2, j2))
    ensures NewSide(DiffFrom(o, n, i, j)) == (if j2 == j + 1 then [(j, n[j])] else []) + NewSide(DiffFrom(o, n, i2, j2))
  {
    var d := DiffFrom(o, n, i, j);
    if i == |o| {
      i2, j2 := i, j + 1;
    } else if j == |n| {
      i2, j2 := i + 1, j;
    } else if o[i] == n[j] {
      i2, j2 := i + 1, j + 1;
    } else {
      var oldInNew := IndexOf(n[j..], o[i]);
      var newInOld := IndexOf(o[i..], n[j]);
      if oldInNew == -1 && newInOld == -1 {
        i2, j2 := i + 1, j + 1;
      } else if oldInNew != -1 && (newInOld == -1 || oldInNew < newInOld) {
        i2, j2 := i, j + 1;
      } else {
        i2, j2 := i + 1, j;
      }
    }
    assert d[1..] == DiffFrom(o, n, i2, j2);
  }

  /** Every operation agrees with the lines it names: `Equal` pairs identical
      lines; `Replace` pairs different lines, neither of which occurs ahead
      on the other side; inserts and deletes carry the line at their index. */
  predicate Sound(o: seq<string>, n: seq<string>, op: DiffOp) {
    match op
    case Equal(a, b, oi, ni) => oi < |o| && ni < |n| && o[oi] == a && n[ni] == b && a == b
    case Replace(a, b, oi, ni) =>
      oi < |o| && ni < |n| && o[oi] == a && n[ni] == b && a !in n[ni..] && b !in o[oi..]
    case Insert(b, ni) => ni < |n| && n[ni] == b
    case Delete(a, oi) => oi < |o| && o[oi] == a
  }

  lemma {:induction false} AllSound(o: seq<string>, n: seq<string>, i: nat, j: nat)
    requires i <= |o| && j <= |n|
    ensures forall op :: op in DiffFrom(o, n, i, j) ==> Sound(o, n, op)
    decreases |o| - i + |n| - j
  {
    if i < |o| || j < |n| {
      var op: DiffOp;
      var i', j' := i, j;
      if i == |o| {
        op, j' := Insert(n[j], j), j + 1;
      } else if j == |n| {
        op, i' := Delete(o[i], i), i + 1;
      } else if o[i] == n[j] {
        op, i', j' := Equal(o[i], n[j], i, j), i + 1, j + 1;
      } else {
        var oldInNew := IndexOf(n[j..], o[i]);
        var newInOld := IndexOf(o[i..], n[j]);
        if oldInNew == -1 && newInOld == -1 {
          op, i', j' := Replace(o[i], n[j], i, j), i + 1, j + 1;
        } else if oldInNew != -1 && (newInOld == -1 || oldInNew < newInOld) {
          op, j' := Insert(n[j], j), j + 1;
        } else {
          op, i' := Delete(o[i], i), i + 1;
        }
      }
      assert DiffFrom(o, n, i, j) == [op] + DiffFrom(o, n, i', j');
      assert Sound(o, n, op);
      AllSound(o, n, i', j');
    }
  }

  /** When the two current lines differ and at least one of them occurs
      ahead on the other side, the step is `Insert` exactly when the old line
      occurs ahead in the new lines and is strictly nearer (or the new line
      does not occur ahead in the old lines); otherwise it is `Delete`. */
  lemma InsertOrDelete(o: seq<string>, n: seq<string>, i: nat, j: nat)
    requires i < |o| && j < |n| && o[i] != n[j]
    requires o[i] in n[j..] || n[j] in o[i..]
    ensures DiffFrom(o, n, i, j)[0].Insert? || DiffFrom(o, n, i, j)[0].Delete?
    ensures DiffFrom(o, n, i, j)[0].Insert? <==>
      o[i] in n[j..] && (n[j] !in o[i..] || IndexOf(n[j..], o[i]) < IndexOf(o[i..], n[j]))
  {
  }

  /** The tie rule: a match at the same distance on both sides is a `Delete`. */
  lemma TieGoesToDelete(o: seq<string>, n: seq<string>, i: nat, j: nat)
    requires i < |o| && j < |n| && o[i] != n[j]
    requires o[i] in n[j..] && n[j] in o[i..]
    requires IndexOf(n[j..], o[i]) == IndexOf(o[i..], n[j])
    ensures DiffFrom(o, n, i, j) == [Delete(o[i], i)] + DiffFrom(o, n, i + 1, j)
  {
  }

  /** Once the old side is exhausted every remaining op inserts the next new line. */
  lemma {:induction false} OldExhausted(o: seq<string>, n: seq<string>, j: nat)
    requires j <= |n|
    ensures |DiffFrom(o, n, |o|, j)| == |n| - j
    ensures forall k :: 0 <= k < |n| - j ==> DiffFrom(o, n, |o|, j)[k] == Insert(n[j + k], j + k)
    decreases |n| - j
  {
    if j < |n| {
      OldExhausted(o, n, j + 1);
      var d, rest := DiffFrom(o, n, |o|, j), DiffFrom(o, n, |o|, j + 1);
      assert d == [Insert(n[j], j)] + rest;
      forall k | 0 < k < |n| - j ensures d[k] == Insert(n[j + k], j + k) {
        assert d[k] == rest[k - 1];
      }
    }
  }

  /** Once the new side is exhausted every remaining op deletes the next old line. */
  lemma {:induction false} NewExhausted(o: seq<string>, n: seq<string>, i: nat)
    requires i <= |o|
    ensures |DiffFrom(o, n, i, |n|)| == |o| - i
    ensures forall k :: 0 <= k < |o| - i ==> DiffFrom(o, n, i, |n|)[k] == Delete(o[i + k], i + k)
    decreases |o| - i
  {
    if i < |o| {
      NewExhausted(o, n, i + 1);
      var d, rest := DiffFrom(o, n, i, |n|), DiffFrom(o, n, i + 1, |n|);
      assert d == [Delete(o[i], i)] + rest;
      forall k | 0 < k < |o| - i ensures d[k] == Delete(o[i + k], i + k) {
        assert d[k] == rest[k - 1];
      }
    }
  }

  /** Comparing a text with itself gives one `Equal` per line and nothing else. */
  lemma {:induction false} IdenticalAllEqual(o: seq<string>, i: nat)
    requires i <= |o|
    ensures |DiffFrom(o, o, i, i)| == |o| - i
    ensures forall k :: 0 <= k < |o| - i ==> DiffFrom(o, o, i, i)[k] == Equal(o[i + k], o[i + k], i + k, i + k)
    decreases |o| - i
  {
    if i < |o| {
      IdenticalAllEqual(o, i + 1);
      var d, rest := DiffFrom(o, o, i, i), DiffFrom(o, o, i + 1, i + 1);
      assert d == [Equal(o[i], o[i], i, i)] + rest;
      forall k | 0 < k < |o| - i ensures d[k] == Equal(o[i + k], o[i + k], i + k, i + k) {
        assert d[k] == rest[k - 1];
      }
    }
  }

  /** Splitting yields at least one line, so even two empty texts give one `Equal`. */
  lemma IdenticalTexts(t: string)
    ensures var ops := Diff(Split(t, '\n'), Split(t, '\n'));
      |ops| >= 1 && forall k :: 0 <= k < |ops| ==> ops[k].Equal?
  {
    IdenticalAllEqual(Split(t, '\n'), 0);
  }

  lemma EmptyTextsExample()
    ensures Diff(Split("", '\n'), Split("", '\n')) == [Equal("", "", 0, 0)]
  {
    assert Split("", '\n') == [""];
  }

  /** ["a","b","c"] against ["a","x","c"]: equal, replace, equal. */
  lemma ReplaceExample()
    ensures Diff(["a", "b", "c"], ["a", "x", "c"])
         == [Equal("a", "a", 0, 0), Replace("b", "x", 1, 1), Equal("c", "c", 2, 2)]
  {
    var o, n := ["a", "b", "c"], ["a", "x", "c"];
    assert n[1..] == ["x", "c"] && o[1..] == ["b", "c"];
    assert IndexOf(n[1..], "b") == -1 && IndexOf(o[1..], "x") == -1;
    assert DiffFrom(o, n, 3, 3) == [];
    assert DiffFrom(o, n, 2, 2) == [Equal("c", "c", 2, 2)];
    assert DiffFrom(o, n, 1, 1) == [Replace("b", "x", 1, 1), Equal("c", "c", 2, 2)];
  }

  /** ["a","b"] against ["b","a"]: each line is one step ahead on the other
      side, the tie deletes "a", then "b" matches and "a" is inserted. */
  lemma SwapExample()
    ensures Diff(["a", "b"], ["b", "a"]) == [Delete("a", 0), Equal("b", "b", 1, 0), Insert("a", 1)]
  {
    var o, n := ["a", "b"], ["b", "a"];
    assert o[0..] == o && n[0..] == n;
    assert IndexOf(n, "a") == 1 && IndexOf(o, "b") == 1;
    assert DiffFrom(o, n, 2, 2) == [];
    assert DiffFrom(o, n, 2, 1) == [Insert("a", 1)];
    assert DiffFrom(o, n, 1, 0) == [Equal("b", "b", 1, 0), Insert("a", 1)];
  }

  // ---------------------------------------------------------------------
  // Version lookups

  /** The initial version every session starts with. */
  function InitialVersion(timestamp: string): PromptVersion {
    PromptVersion("V1", "", "初始版本", timestamp)
  }

  /** `safeVersions`: an empty version list is shown as the single initial version. */
  function SafeVersions(versions: seq<PromptVersion>, timestamp: string): (r: seq<PromptVersion>)
    ensures |r| >= 1
    ensures versions != [] ==> r == versions
    ensures versions == [] ==> r == [InitialVersion(timestamp)]
  {
    if |versions| > 0 then versions else [InitialVersion(timestamp)]
  }

  /** `versions.find((v) => v.version === ver)`. */
  function FindVersion(vs: seq<PromptVersion>, ver: string): (r: Option<PromptVersion>)
    ensures r.Some? <==> exists k :: 0 <= k < |vs| && vs[k].version == ver
    ensures r.Some? ==> r.value in vs && r.value.version == ver
    ensures r.Some? ==> exists k :: 0 <= k < |vs| && vs[k] == r.value
                                    && forall m :: 0 <= m < k ==> vs[m].version != ver
  {
    if vs == [] then None
    else if vs[0].version == ver then Some(vs[0])
    else
      var r := FindVersion(vs[1..], ver);
      assert forall k :: 1 <= k < |vs| ==> vs[k] == vs[1..][k - 1];
      if r.Some? then
        var k :| 0 <= k < |vs[1..]| && vs[1..][k] == r.value && forall m :: 0 <= m < k ==> vs[1..][m].version != ver;
        assert vs[k + 1] == r.value && forall m :: 0 <= m < k + 1 ==> vs[m].version != ver;
        r
      else r
  }

  /** `versions.findIndex((v) => v.version === ver)`. */
  function FindVersionIndex(vs: seq<PromptVersion>, ver: string): (r: int)
    ensures -1 <= r < |vs|
    ensures r >= 0 ==> vs[r].version == ver && forall k :: 0 <= k < r ==> vs[k].version != ver
    ensures r == -1 ==> forall k :: 0 <= k < |vs| ==> vs[k].version != ver
  {
    if vs == [] then -1
    else if vs[0].version == ver then 0
    else
      var r := FindVersionIndex(vs[1..], ver);
      if r == -1 then -1 else r + 1
  }

  /** `getPromptContent` (and `getCurrentPrompt`, the same lookup for the
      current ver): "V1" always reads the base prompt; other labels read
      their stored text, falling back to the base prompt when the ver is
      missing or its text is empty. */
  function GetPromptContent(versions: seq<PromptVersion>, basePrompt: string, ver: string): (r: string)
    ensures ver == "V1" ==> r == basePrompt
    ensures ver != "V1" && FindVersion(versions, ver).None? ==> r == basePrompt
    ensures ver != "V1" && FindVersion(versions, ver).Some? ==>
      r == (if FindVersion(versions, ver).value.content != "" then FindVersion(versions, ver).value.content else basePrompt)
    ensures r == basePrompt || exists v :: v in versions && v.version == ver && v.content == r && r != ""
  {
    if ver == "V1" then basePrompt
    else
      match FindVersion(versions, ver)
      case Some(v) => if v.content != "" then v.content else basePrompt
      case None => basePrompt
  }

  /** The version labels, in order. */
  function VersionTags(vs: seq<PromptVersion>): (r: seq<string>)
    ensures |r| == |vs| && forall k :: 0 <= k < |vs| ==> r[k] == vs[k].version
  {
    if vs == [] then [] else [vs[0].version] + VersionTags(vs[1..])
  }

  /** `handleViewDiff`: with fewer than two versions nothing happens (`None`);
      otherwise the version compared against is the one just before the
      current version, or "V1" when the current version is first or missing. */
  function ViewDiffTarget(safe: seq<PromptVersion>, current: string): (r: Option<string>)
    ensures |safe| < 2 <==> r.None?
    ensures |safe| >= 2 && safe[0].version == current ==> r == Some("V1")
    ensures |safe| >= 2 && (forall k :: 0 <= k < |safe| ==> safe[k].version != current) ==> r == Some("V1")
    ensures r.Some? ==> (r.value == "V1" ||
      exists k :: 1 <= k < |safe| && safe[k].version == current && r.value == safe[k - 1].version
                  && current !in VersionTags(safe[..k]))
  {
    if |safe| < 2 then None
    else
      var idx := FindVersionIndex(safe, current);
      var prevIdx := idx - 1;
      if prevIdx >= 0 then
        assert current !in VersionTags(safe[..idx]) by {
          forall m | 0 <= m < idx ensures VersionTags(safe[..idx])[m] != current {
            assert VersionTags(safe[..idx])[m] == safe[m].version;
          }
        }
        Some(safe[prevIdx].version)
      else Some("V1")
  }

  /** The compared version is the predecessor of the first entry labelled
      with the current version. */
  lemma ViewDiffPredecessor(safe: seq<PromptVersion>, current: string, k: nat)
    requires 1 <= k < |safe| && safe[k].version == current
    requires forall m :: 0 <= m < k ==> safe[m].version != current
    ensures ViewDiffTarget(safe, current) == Some(safe[k - 1].version)
  {
    assert FindVersionIndex(safe, current) == k;
  }

  /** The two texts the comparison dialog diffs: the compared version's
      content and the current prompt. */
  method ViewDiff(versions: seq<PromptVersion>, basePrompt: string, current: string, compare: string)
    returns (ops: seq<DiffOp>)
    ensures ops == Diff(Split(GetPromptContent(versions, basePrompt, compare), '\n'),
                        Split(GetPromptContent(versions, basePrompt, current), '\n'))
  {
    ops := ComputeDiff(GetPromptContent(versions, basePrompt, compare), GetPromptContent(versions, basePrompt, current));
  }
}
