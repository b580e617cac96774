/** Test cases written as text: "用例<n>：<title>" headers followed by lines
    such as "我: …", "用户: …" and "AI: …", plus the `{{…}}` placeholder
    substitution applied to prompts and messages. */
module TestCaseParser {
  import opened Types
  import opened Text
  import opened Seqs

  // ---------------------------------------------------------------------
  // Headers and the lookahead split

  /** Number of ASCII digits in `s` starting at `k` (`\d` is ASCII only). */
  function DigitRun(s: string, k: nat): (d: nat)
    requires k <= |s|
    ensures k + d <= |s|
    ensures forall m :: k <= m < k + d ==> IsDigit(s[m])
    ensures k + d < |s| ==> !IsDigit(s[k + d])
    decreases |s| - k
  {
    if k < |s| && IsDigit(s[k]) then 1 + DigitRun(s, k + 1) else 0
  }

  /** Length of the header `用例\d+：` starting at `k`, or 0 when there is none. */
  function HeaderLength(s: string, k: nat): (r: nat)
    requires k <= |s|
    ensures r == 0 || (r >= 4 && k + r <= |s| && s[k] == '用')
  {
    if k + 2 <= |s| && s[k] == '用' && s[k + 1] == '例' then
      var d := DigitRun(s, k + 2);
      if d >= 1 && k + 2 + d < |s| && s[k + 2 + d] == '：' then 3 + d else 0
    else 0
  }

  /** The positions the split `/(?=用例\d+：)/` cuts at, from `q` on: every
      header position except 0, where an empty match cannot split. */
  function Cuts(s: string, q: nat): (r: seq<nat>)
    requires 1 <= q <= |s| + 1
    ensures forall m :: 0 <= m < |r| ==> q <= r[m] < |s| && HeaderLength(s, r[m]) > 0
    ensures forall m, m' :: 0 <= m < m' < |r| ==> r[m] < r[m']
    decreases |s| + 1 - q
  {
    if q >= |s| then []
    else if HeaderLength(s, q) > 0 then [q] + Cuts(s, q + 1)
    else Cuts(s, q + 1)
  }

  /** The pieces of `s` from `p` on, cut at the increasing positions `cuts`. */
  function Pieces(s: string, p: nat, cuts: seq<nat>): (r: seq<string>)
    requires p <= |s|
    requires forall m :: 0 <= m < |cuts| ==> p <= cuts[m] <= |s|
    requires forall m, m' :: 0 <= m < m' < |cuts| ==> cuts[m] < cuts[m']
    ensures |r| == |cuts| + 1
    decreases |cuts|
  {
    if cuts == [] then [s[p..]]
    else [s[p..cuts[0]]] + Pieces(s, cuts[0], cuts[1..])
  }

  function Concat(parts: seq<string>): string {
    if parts == [] then "" else parts[0] + Concat(parts[1..])
  }

  /** `text.split(/(?=用例\d+：)/)`. */
  function Segments(s: string): seq<string> {
    Pieces(s, 0, Cuts(s, 1))
  }

  lemma {:induction false} PiecesConcat(s: string, p: nat, cuts: seq<nat>)
    requires p <= |s|
    requires forall m :: 0 <= m < |cuts| ==> p <= cuts[m] <= |s|
    requires forall m, m' :: 0 <= m < m' < |cuts| ==> cuts[m] < cuts[m']
    ensures Concat(Pieces(s, p, cuts)) == s[p..]
    decreases |cuts|
  {
    if cuts == [] {
      assert Concat([s[p..]]) == s[p..] + Concat([]);
    } else {
      PiecesConcat(s, cuts[0], cuts[1..]);
      var r := Pieces(s, p, cuts);
      assert r[1..] == Pieces(s, cuts[0], cuts[1..]);
      assert s[p..] == s[p..cuts[0]] + s[cuts[0]..];
    }
  }

  /** Splitting loses nothing: the segments put back together are the text,
      and each segment after the first begins at a header of the text. */
  lemma SegmentsCover(s: string)
    ensures Concat(Segments(s)) == s
    ensures |Segments(s)| == |Cuts(s, 1)| + 1
  {
    PiecesConcat(s, 0, Cuts(s, 1));
  }

  /** A header `用例<n>：` written in the text is a cut exactly when it is not at the very start. */
  lemma CutsExactlyAtHeaders(s: string, k: nat)
    requires k <= |s|
    ensures k in Cuts(s, 1) <==> 0 < k && HeaderLength(s, k) > 0
  {
    CutsAt(s, 1, k);
  }

  lemma {:induction false} CutsAt(s: string, q: nat, k: nat)
    requires 1 <= q <= |s| + 1 && k <= |s|
    ensures k in Cuts(s, q) <==> q <= k < |s| && HeaderLength(s, k) > 0
    decreases |s| + 1 - q
  {
    if q < |s| {
      CutsAt(s, q + 1, k);
      var rest := Cuts(s, q + 1);
      if HeaderLength(s, q) > 0 {
        assert Cuts(s, q) == [q] + rest;
      } else {
        assert Cuts(s, q) == rest;
      }
    } else {
      assert Cuts(s, q) == [];
    }
  }

  // ---------------------------------------------------------------------
  // Cases, titles and message lines

  predicate StartsWithHeader(s: string) {
    HeaderLength(s, 0) > 0
  }

  /** A segment becomes a case when it is not blank and starts with a header once trimmed. */
  predicate IsCaseText(c: string) {
    Trim(c) != "" && StartsWithHeader(Trim(c))
  }

  function ValidCases(segs: seq<string>): (r: seq<string>)
    ensures |r| <= |segs|
  {
    if segs == [] then []
    else if IsCaseText(segs[0]) then [segs[0]] + ValidCases(segs[1..])
    else ValidCases(segs[1..])
  }

  /** Exactly the segments that are case texts are kept. */
  lemma {:induction false} ValidCasesKeep(segs: seq<string>, c: string)
    ensures c in ValidCases(segs) <==> c in segs && IsCaseText(c)
  {
    if segs != [] {
      ValidCasesKeep(segs[1..], c);
      assert segs == [segs[0]] + segs[1..];
    }
  }

  /** The lines of a case, split on '\n', with blank lines dropped (kept untrimmed). */
  function NonBlankLines(ls: seq<string>): (r: seq<string>)
    ensures |r| <= |ls|
  {
    if ls == [] then []
    else if Trim(ls[0]) != "" then [ls[0]] + NonBlankLines(ls[1..])
    else NonBlankLines(ls[1..])
  }

  /** Exactly the lines that are not blank are kept. */
  lemma {:induction false} NonBlankLinesKeep(ls: seq<string>, l: string)
    ensures l in NonBlankLines(ls) <==> l in ls && Trim(l) != ""
  {
    if ls != [] {
      NonBlankLinesKeep(ls[1..], l);
      assert ls == [ls[0]] + ls[1..];
    }
  }

  function CaseLines(caseText: string): seq<string> {
    NonBlankLines(Split(caseText, '\n'))
  }

  /** `line.replace(/^用例\d+：/, '')`. */
  function StripHeader(line: string): (r: string)
    ensures StartsWithHeader(line) ==> r == line[HeaderLength(line, 0)..]
    ensures !StartsWithHeader(line) ==> r == line
  {
    if StartsWithHeader(line) then line[HeaderLength(line, 0)..] else line
  }

  /** The title of the case at position `index`: the first line without its
      header, or "用例<index+1>" when that leaves nothing; then every `**` is
      removed and the result trimmed. */
  function Title(lines: seq<string>, index: nat): string {
    var stripped := if lines == [] then "" else StripHeader(lines[0]);
    var raw := if stripped != "" then stripped else "用例" + NatToString(index + 1);
    Trim(ReplaceAll(raw, "**", ""))
  }

  /** Length of the speaker prefix a trimmed line starts with, or 0. */
  function PrefixLength(line: string): (r: nat)
    ensures r <= |line|
    ensures r > 0 <==> StartsWith(line, "AI:") || StartsWith(line, "我:") || StartsWith(line, "用户:")
  {
    if StartsWith(line, "AI:") then 3
    else if StartsWith(line, "我:") then 2
    else if StartsWith(line, "用户:") then 3
    else 0
  }

  /** The message one line of a case contributes, if any. */
  function LineMessage(raw: string): (r: Option<Message>)
    ensures r.Some? ==> r.value.content != "" && r.value.role != System
  {
    var line := Trim(raw);
    if StartsWith(line, "AI:") || StartsWith(line, "我:") || StartsWith(line, "用户:") then
      var role := if StartsWith(line, "AI:") then Assistant else User;
      var content := Trim(line[PrefixLength(line)..]);
      if content != "" then Some(Message(role, content)) else None
    else None
  }

  /** A line yields a message exactly when, once trimmed, it starts with a
      speaker prefix and something other than white space follows it; the
      content is that remainder trimmed, and only "AI:" gives the assistant. */
  lemma LineMessageSpec(raw: string)
    ensures var line := Trim(raw);
      LineMessage(raw).Some? <==> PrefixLength(line) > 0 && Trim(line[PrefixLength(line)..]) != ""
    ensures var line := Trim(raw);
      LineMessage(raw).Some? ==>
        (LineMessage(raw).value.content == Trim(line[PrefixLength(line)..])
         && (LineMessage(raw).value.role == Assistant <==> StartsWith(line, "AI:")))
  {
  }

  /** What one line adds to the message list: its message, or nothing. */
  function Contribution(raw: string): (r: seq<Message>)
    ensures |r| <= 1
    ensures forall k :: 0 <= k < |r| ==> r[k].content != "" && r[k].role != System
  {
    match LineMessage(raw)
    case Some(m) => [m]
    case None => []
  }

  /** The messages a run of lines contributes, in line order. */
  function MessagesOf(lines: seq<string>): seq<Message> {
    FlatMap(lines, Contribution)
  }

  /** Messages follow line order: the messages of two runs of lines are the
      messages of the first run followed by those of the second. */
  lemma MessagesOfAppend(a: seq<string>, b: seq<string>)
    ensures MessagesOf(a + b) == MessagesOf(a) + MessagesOf(b)
  {
    FlatMapAppend(a, b, Contribution);
  }

  /** Every message has non-empty content and is from the user or the assistant. */
  lemma MessagesWellFormed(lines: seq<string>)
    ensures forall k :: 0 <= k < |MessagesOf(lines)| ==>
      MessagesOf(lines)[k].content != "" && MessagesOf(lines)[k].role != System
  {
    FlatMapAll(lines, Contribution, (m: Message) => m.content != "" && m.role != System);
  }

  /** The message loop of one case: every line after the title line, in order. */
  method ParseCaseMessages(lines: seq<string>) returns (messages: seq<Message>)
    ensures messages == if lines == [] then [] else MessagesOf(lines[1..])
  {
    messages := [];
    if lines == [] {
      return;
    }
    var i := 1;
    while i < |lines|
      invariant 1 <= i <= |lines|
      invariant messages == MessagesOf(lines[1..i])
    {
      FlatMapStep(lines, 1, i, Contribution);
      var line := Trim(lines[i]);
      if StartsWith(line, "AI:") || StartsWith(line, "我:") || StartsWith(line, "用户:") {
        var role := if StartsWith(line, "AI:") then Assistant else User;
        var content := Trim(line[PrefixLength(line)..]);
        if content != "" {
          messages := messages + [Message(role, content)];
        }
      }
      i := i + 1;
    }
    assert lines[1..i] == lines[1..];
  }

  /** The case the segment at position `index` becomes. */
  function CaseOf(caseText: string, index: nat): (c: TestCase)
    ensures c.id == index + 1 && c.status == Pending && c.responses.None? && c.evaluation.None?
    ensures c.passed.None? && c.evaluationDetails.None? && c.overallLevel.None?
    ensures c.overallScore.None? && c.conversationHistory.None?
  {
    var lines := CaseLines(caseText);
    TestCase(index + 1, Title(lines, index), if lines == [] then [] else MessagesOf(lines[1..]),
             Pending, None, None, None, None, None, None, None)
  }

  /** The cases a text describes: one per valid segment, numbered from 1 in
      order of appearance, pending and with no run results. */
  function ParsedCases(text: string): (cases: seq<TestCase>)
    ensures |cases| == |ValidCases(Segments(text))|
    ensures forall k :: 0 <= k < |cases| ==>
      cases[k].id == k + 1 && cases[k].status == Pending && cases[k].responses.None?
      && cases[k].passed.None? && cases[k].evaluationDetails.None? && cases[k].conversationHistory.None?
  {
    MapIndexed(ValidCases(Segments(text)), CaseOf, 0)
  }

  /** One case: its lines, its title and its message loop. */
  method ParseCase(caseText: string, index: nat) returns (c: TestCase)
    ensures c == CaseOf(caseText, index)
  {
    var lines := CaseLines(caseText);
    var messages := ParseCaseMessages(lines);
    c := TestCase(index + 1, Title(lines, index), messages, Pending, None, None, None, None, None, None, None);
  }

  /** `parseTestCasesFromText`: one pending case per valid segment, numbered
      from 1 in order of appearance, with no run results. */
  method ParseTestCasesFromText(text: string) returns (cases: seq<TestCase>)
    ensures cases == ParsedCases(text)
  {
    var valid := ValidCases(Segments(text));
    cases := [];
    var index := 0;
    while index < |valid|
      invariant 0 <= index <= |valid|
      invariant cases == MapIndexed(valid[..index], CaseOf, 0)
    {
      var c := ParseCase(valid[index], index);
      MapIndexedStep(valid, index, CaseOf);
      cases := cases + [c];
      index := index + 1;
    }
    PrefixWhole(valid);
  }

  // ---------------------------------------------------------------------
  // Examples

  /** " AI: 您好" is an assistant line with content "您好". */
  lemma AssistantLineExample()
    ensures LineMessage(" AI: 您好") == Some(Message(Assistant, "您好"))
  {
    var s := " AI: 您好";
    TrimExact(s, 1, |s|);
    var line := s[1..];
    assert Trim(s) == line;
    assert line[..3] == "AI:";
    assert StartsWith(line, "AI:");
    assert PrefixLength(line) == 3;
    var rest := line[3..];
    TrimExact(rest, 1, |rest|);
    assert Trim(rest) == "您好";
  }

  /** The prefix needs the ASCII colon: "AI：" with a full-width colon is ignored. */
  lemma FullWidthColonExample()
    ensures LineMessage("AI：您好") == None
  {
    NoSpeakerPrefix("AI：您好");
  }

  lemma NoSpeakerPrefix(s: string)
    requires s == "AI：您好"
    ensures Trim(s) == s
    ensures !StartsWith(s, "AI:") && !StartsWith(s, "我:") && !StartsWith(s, "用户:")
  {
    TrimExact(s, 0, |s|);
    assert s[..3] != "AI:" by { assert s[2] != ':'; }
    assert s[..2] != "我:" by { assert s[0] != '我'; }
    assert s[..3] != "用户:" by { assert s[0] != '用'; }
  }

  /** A speaker line with nothing after the prefix is dropped. */
  lemma EmptyContentExample()
    ensures LineMessage("我:  ") == None
  {
    var s := "我:  ";
    TrimExact(s, 0, 2);
    var line := s[..2];
    assert line[..2] == "我:";
    assert PrefixLength(line) == 2;
    assert line[2..] == [];
    TrimExact([], 0, 0);
  }

  /** A header line with nothing after the header falls back to "用例<n>". */
  lemma TitleFallbackExample()
    ensures Title(["用例2："], 1) == "用例2"
  {
    var raw := "用例" + NatToString(2);
    FallbackHeaderEmpty();
    assert NatToString(2) == "2";
    FallbackTitleClean(raw);
  }

  /** "用例2：" is all header. */
  lemma FallbackHeaderEmpty()
    ensures StripHeader("用例2：") == ""
  {
    var h := "用例2：";
    assert DigitRun(h, 3) == 0;
    assert DigitRun(h, 2) == 1;
    assert HeaderLength(h, 0) == 4;
  }

  /** "用例2" holds no "**" and no white space at its ends. */
  lemma FallbackTitleClean(raw: string)
    requires raw == "用例2"
    ensures Trim(ReplaceAll(raw, "**", "")) == raw
  {
    assert !Contains(raw, "**") by {
      forall k | 0 <= k <= |raw| ensures !StartsWith(raw[k..], "**") {
        if k + 2 <= |raw| {
          assert raw[k..][1] != '*';
        }
      }
    }
    ReplaceAllAbsent(raw, "**", "");
    TrimExact(raw, 0, |raw|);
  }

  /** The fallback applies only to an empty remainder: "用例1：**" keeps
      "**", which is then removed, leaving an empty title. */
  lemma StarsOnlyTitleExample()
    ensures Title(["用例1：**"], 0) == ""
  {
    var h := "用例1：**";
    assert DigitRun(h, 3) == 0;
    assert DigitRun(h, 2) == 1;
    assert HeaderLength(h, 0) == 4;
    assert StripHeader(h) == "**";
    assert ReplaceAll("**", "**", "") == "";
    TrimExact([], 0, 0);
  }

  /** Text before the first header is a segment of its own, and it is not a case. */
  lemma PreambleExample()
    ensures Segments("x用例1：a") == ["x", "用例1：a"]
    ensures !IsCaseText("x")
  {
    var s := "x用例1：a";
    assert DigitRun(s, 4) == 0;
    assert DigitRun(s, 3) == 1;
    assert HeaderLength(s, 1) == 4;
    assert Cuts(s, 6) == [];
    assert Cuts(s, 5) == [];
    assert Cuts(s, 4) == [];
    assert Cuts(s, 3) == [];
    assert Cuts(s, 2) == [];
    assert Cuts(s, 1) == [1];
    assert Pieces(s, 1, []) == [s[1..]];
    assert Pieces(s, 0, [1]) == [s[0..1]] + Pieces(s, 1, []);
    assert s[0..1] == "x" && s[1..] == "用例1：a";
    TrimExact("x", 0, 1);
    assert HeaderLength("x", 0) == 0;
  }

  // ---------------------------------------------------------------------
  // Placeholder substitution

  datatype Variables = Variables(botName: string, productName: string, language: string)

  /** `replaceVariables`: every `{{botName}}`, then every `{{productName}}`,
      then every `{{language}}` is replaced by its value. */
  function ReplaceVariables(prompt: string, vars: Variables): string {
    var a := ReplaceAll(prompt, "{{botName}}", vars.botName);
    var b := ReplaceAll(a, "{{productName}}", vars.productName);
    ReplaceAll(b, "{{language}}", vars.language)
  }

  /** A text without any placeholder is returned unchanged. */
  lemma ReplaceVariablesAbsent(prompt: string, vars: Variables)
    requires !Contains(prompt, "{{botName}}")
    requires !Contains(prompt, "{{productName}}")
    requires !Contains(prompt, "{{language}}")
    ensures ReplaceVariables(prompt, vars) == prompt
  {
    ReplaceAllAbsent(prompt, "{{botName}}", vars.botName);
    ReplaceAllAbsent(prompt, "{{productName}}", vars.productName);
    ReplaceAllAbsent(prompt, "{{language}}", vars.language);
  }

  /** The three placeholders, in the order `replaceVariables` substitutes them. */
  datatype Slot = BotName | ProductName | Language

  function Rank(slot: Slot): nat {
    match slot
    case BotName => 0
    case ProductName => 1
    case Language => 2
  }

  function Placeholder(slot: Slot): string {
    match slot
    case BotName => "{{botName}}"
    case ProductName => "{{productName}}"
    case Language => "{{language}}"
  }

  function ValueOf(vars: Variables, slot: Slot): string {
    match slot
    case BotName => vars.botName
    case ProductName => vars.productName
    case Language => vars.language
  }

  /** What a slot shows after the first `stage` substitution steps: its
      value once substituted, its placeholder before. */
  function Shown(vars: Variables, slot: Slot, stage: nat): string {
    if Rank(slot) < stage then ValueOf(vars, slot) else Placeholder(slot)
  }

  /** A template after the first `stage` substitution steps: literal parts
      with a slot shown between each two. */
  function Fill(parts: seq<string>, slots: seq<Slot>, vars: Variables, stage: nat): string
    requires |parts| == |slots| + 1
    decreases |slots|
  {
    if slots == [] then parts[0]
    else parts[0] + (Shown(vars, slots[0], stage) + Fill(parts[1..], slots[1..], vars, stage))
  }

  predicate BraceFree(vars: Variables) {
    '{' !in vars.botName && '{' !in vars.productName && '{' !in vars.language
  }

  /** Every placeholder is replaced: in a template whose literal parts
      contain no '{', with values that contain none either, each of
      `{{botName}}`, `{{productName}}` and `{{language}}`, in any mixture
      and any number, becomes its value. */
  lemma ReplaceVariablesFill(parts: seq<string>, slots: seq<Slot>, vars: Variables)
    requires |parts| == |slots| + 1
    requires forall k :: 0 <= k < |parts| ==> '{' !in parts[k]
    requires BraceFree(vars)
    ensures ReplaceVariables(Fill(parts, slots, vars, 0), vars) == Fill(parts, slots, vars, 3)
  {
    var t0 := Fill(parts, slots, vars, 0);
    FillStep(parts, slots, vars, BotName);
    var t1 := ReplaceAll(t0, "{{botName}}", vars.botName);
    assert t1 == Fill(parts, slots, vars, 1);
    FillStep(parts, slots, vars, ProductName);
    var t2 := ReplaceAll(t1, "{{productName}}", vars.productName);
    assert t2 == Fill(parts, slots, vars, 2);
    FillStep(parts, slots, vars, Language);
    assert ReplaceAll(t2, "{{language}}", vars.language) == Fill(parts, slots, vars, 3);
  }

  /** One substitution step turns the placeholders of one slot into its value. */
  lemma {:induction false} FillStep(parts: seq<string>, slots: seq<Slot>, vars: Variables, slot: Slot)
    requires |parts| == |slots| + 1
    requires forall k :: 0 <= k < |parts| ==> '{' !in parts[k]
    requires BraceFree(vars)
    ensures ReplaceAll(Fill(parts, slots, vars, Rank(slot)), Placeholder(slot), ValueOf(vars, slot))
            == Fill(parts, slots, vars, Rank(slot) + 1)
    decreases |slots|
  {
    var p, v, stage := Placeholder(slot), ValueOf(vars, slot), Rank(slot);
    assert '{' !in parts[0];
    if slots == [] {
      ReplaceAllPrefix(parts[0], [], p, v);
      assert parts[0] + [] == parts[0];
    } else {
      var rest := Fill(parts[1..], slots[1..], vars, stage);
      ReplaceAllPrefix(parts[0], Shown(vars, slots[0], stage) + rest, p, v);
      ShownStep(vars, slots[0], slot, rest);
      FillStep(parts[1..], slots[1..], vars, slot);
    }
  }

  /** One slot under one substitution step: the slot being substituted
      shows its value afterwards, and any other slot is passed over whole. */
  lemma ShownStep(vars: Variables, other: Slot, slot: Slot, rest: string)
    requires BraceFree(vars)
    ensures ReplaceAll(Shown(vars, other, Rank(slot)) + rest, Placeholder(slot), ValueOf(vars, slot))
            == Shown(vars, other, Rank(slot) + 1) + ReplaceAll(rest, Placeholder(slot), ValueOf(vars, slot))
  {
    var p, v := Placeholder(slot), ValueOf(vars, slot);
    var x := Shown(vars, other, Rank(slot));
    if other == slot {
      assert x == p;
      assert (x + rest)[..|p|] == p && (x + rest)[|p|..] == rest;
    } else if Rank(other) < Rank(slot) {
      assert '{' !in x;
      ReplaceAllPrefix(x, rest, p, v);
    } else {
      SkipPlaceholder(other, slot, rest, v);
    }
  }

  /** Another slot's placeholder is passed over whole: it differs from the
      pattern in its third character, and only its first two are '{'. */
  lemma SkipPlaceholder(other: Slot, slot: Slot, rest: string, v: string)
    requires other != slot
    ensures ReplaceAll(Placeholder(other) + rest, Placeholder(slot), v)
            == Placeholder(other) + ReplaceAll(rest, Placeholder(slot), v)
  {
    var q, p := Placeholder(other), Placeholder(slot);
    assert q[2] != p[2] && q[2] != '{';
    assert forall k :: 2 <= k < |q| ==> q[k] != '{';
    SkipOpening(q, p, rest, v);
  }

  /** A text that opens like the pattern but parts from it at its third
      character, and holds no other '{', is passed over whole. */
  lemma SkipOpening(q: string, p: string, rest: string, v: string)
    requires |q| >= 3 && |p| >= 3 && p[0] == '{' && p[1] == '{'
    requires q[2] != p[2] && q[2] != '{'
    requires forall k :: 2 <= k < |q| ==> q[k] != '{'
    ensures ReplaceAll(q + rest, p, v) == q + ReplaceAll(rest, p, v)
  {
    var s := q + rest;
    var t := q[2..];
    assert '{' !in t by {
      forall k | 0 <= k < |t| ensures t[k] != '{' { assert t[k] == q[k + 2]; }
    }
    ReplaceAllPrefix(t, rest, p, v);
    assert s[2..] == t + rest;
    if |s| >= |p| {
      assert s[..|p|][2] == q[2];
      var s1 := s[1..];
      if |s1| >= |p| {
        assert s1[..|p|][1] == q[2];
        assert s1[1..] == t + rest;
        assert ReplaceAll(s1, p, v) == [q[1]] + ReplaceAll(t + rest, p, v);
      } else {
        assert |rest| < |p|;
        assert ReplaceAll(rest, p, v) == rest;
      }
      assert ReplaceAll(s, p, v) == [q[0]] + ReplaceAll(s1, p, v);
    } else {
      assert ReplaceAll(rest, p, v) == rest;
    }
    assert q == [q[0]] + ([q[1]] + t);
  }

  /** `replaceMessageVariables`: same length, order and roles; each content substituted. */
  function ReplaceMessageVariables(messages: seq<Message>, vars: Variables): (r: seq<Message>)
    ensures |r| == |messages|
    ensures forall k :: 0 <= k < |r| ==>
      r[k].role == messages[k].role && r[k].content == ReplaceVariables(messages[k].content, vars)
  {
    if messages == [] then []
    else [messages[0].(content := ReplaceVariables(messages[0].content, vars))]
         + ReplaceMessageVariables(messages[1..], vars)
  }

  /** `replaceVariables("我是{{botName}}", …)` puts the bot name in place. */
  lemma ReplaceVariablesExample()
    ensures ReplaceVariables("我是{{botName}}", Variables("小助", "P", "中文")) == "我是小助"
  {
    var vars := Variables("小助", "P", "中文");
    ReplaceVariablesFill(["我是", ""], [BotName], vars);
    assert Fill(["我是", ""], [BotName], vars, 0) == "我是{{botName}}";
    assert Fill(["我是", ""], [BotName], vars, 3) == "我是小助";
  }

  /** The substitutions run one after another, `{{botName}}` first: a
      product placeholder brought in by the bot name is substituted in turn,
      while a bot placeholder brought in by the product name stays. */
  lemma ReplaceVariablesOrder()
    ensures ReplaceVariables("{{botName}}", Variables("{{productName}}", "P", "L")) == "P"
    ensures ReplaceVariables("{{productName}}", Variables("B", "{{botName}}", "L")) == "{{botName}}"
  {
    var bot, product := Placeholder(BotName), Placeholder(ProductName);
    assert ReplaceAll(bot, bot, product) == product by {
      assert bot[..|bot|] == bot && bot[|bot|..] == [];
    }
    assert ReplaceAll(product, product, "P") == "P" by {
      assert product[..|product|] == product && product[|product|..] == [];
    }
    SkipPlaceholder(ProductName, BotName, [], "B");
    assert product + [] == product && bot + [] == bot;
    assert ReplaceAll(product, product, bot) == bot by {
      assert product[..|product|] == product && product[|product|..] == [];
    }
    SkipPlaceholder(BotName, Language, [], "L");
  }
}
