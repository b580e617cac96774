/** String operations of the JavaScript runtime that the core relies on, on
    strings modelled as sequences of characters. */
module Text {

  /** The characters `String.prototype.trim` removes: ECMAScript WhiteSpace
      (tab, vertical tab, form feed, space, no-break space, byte-order mark and
      the Zs category) and LineTerminator (LF, CR, LS, PS). */
  predicate IsSpace(c: char) {
    c == '\t' || c == '\n' || c == '\U{000B}' || c == '\U{000C}' || c == '\r' || c == ' '
    || c == '\U{00A0}' || c == '\U{1680}' || ('\U{2000}' <= c <= '\U{200A}')
    || c == '\U{2028}' || c == '\U{2029}' || c == '\U{202F}' || c == '\U{205F}'
    || c == '\U{3000}' || c == '\U{FEFF}'
  }

  predicate AllSpace(s: string) {
    forall k :: 0 <= k < |s| ==> IsSpace(s[k])
  }

  /** The end of the run of white space that starts at `i`. */
  function SpaceRunEnd(s: string, i: nat): (n: nat)
    requires i <= |s|
    ensures i <= n <= |s|
    ensures forall k :: i <= k < n ==> IsSpace(s[k])
    ensures n < |s| ==> !IsSpace(s[n])
    decreases |s| - i
  {
    if i < |s| && IsSpace(s[i]) then SpaceRunEnd(s, i + 1) else i
  }

  /** The start of the run of white space that ends at `j`. */
  function SpaceRunStart(s: string, j: nat): (m: nat)
    requires j <= |s|
    ensures m <= j
    ensures forall k :: m <= k < j ==> IsSpace(s[k])
    ensures m > 0 ==> !IsSpace(s[m - 1])
  {
    if j > 0 && IsSpace(s[j - 1]) then SpaceRunStart(s, j - 1) else j
  }

  /** `s.trimStart()`. */
  function TrimStart(s: string): string {
    s[SpaceRunEnd(s, 0)..]
  }

  /** `s.trimEnd()`. */
  function TrimEnd(s: string): string {
    s[..SpaceRunStart(s, |s|)]
  }

  /** `s.trim()`. */
  function Trim(s: string): string {
    TrimEnd(TrimStart(s))
  }

  /** The trimmed text is the part of `s` between a white-space prefix and a
      white-space suffix, and it neither starts nor ends with white space. */
  lemma TrimSpec(s: string)
    ensures var r := Trim(s);
      exists i {:trigger s[i..]} :: 0 <= i <= |s| - |r| && r == s[i..i + |r|]
        && AllSpace(s[..i]) && AllSpace(s[i + |r|..])
    ensures var r := Trim(s); r != [] ==> !IsSpace(r[0]) && !IsSpace(r[|r| - 1])
  {
    var n := SpaceRunEnd(s, 0);
    var t := s[n..];
    var m := SpaceRunStart(t, |t|);
    var r := Trim(s);
    assert r == t[..m] == s[n..n + m];
    assert forall k :: 0 <= k < n ==> s[..n][k] == s[k];
    forall k | n + m <= k < |s| ensures IsSpace(s[k]) {
      assert s[k] == t[k - n];
    }
    var u := s[n + m..];
    forall k | 0 <= k < |u| ensures IsSpace(u[k]) {
      assert u[k] == s[n + m + k];
    }
  }

  /** Conversely, a split of `s` into a white-space prefix `s[..i]`, a middle
      `s[i..j]` that neither starts nor ends with white space, and a
      white-space suffix `s[j..]` is the trimmed text. */
  lemma TrimExact(s: string, i: nat, j: nat)
    requires i <= j <= |s|
    requires forall k :: 0 <= k < i ==> IsSpace(s[k])
    requires i < |s| ==> !IsSpace(s[i])
    requires forall k :: j <= k < |s| ==> IsSpace(s[k])
    requires j > i ==> !IsSpace(s[j - 1])
    ensures Trim(s) == s[i..j]
  {
    SpaceRunEndAt(s, 0, i);
    var t := s[i..];
    SpaceRunStartAt(t, |t|, j - i);
  }

  lemma {:induction false} SpaceRunEndAt(s: string, from: nat, n: nat)
    requires from <= n <= |s|
    requires forall k :: from <= k < n ==> IsSpace(s[k])
    requires n < |s| ==> !IsSpace(s[n])
    ensures SpaceRunEnd(s, from) == n
    decreases n - from
  {
    if from < n {
      SpaceRunEndAt(s, from + 1, n);
    }
  }

  lemma {:induction false} SpaceRunStartAt(s: string, hi: nat, m: nat)
    requires m <= hi <= |s|
    requires forall k :: m <= k < hi ==> IsSpace(s[k])
    requires m > 0 ==> !IsSpace(s[m - 1])
    ensures SpaceRunStart(s, hi) == m
    decreases hi
  {
    if m < hi {
      SpaceRunStartAt(s, hi - 1, m);
    }
  }

  /** A string is blank (falsy once trimmed) exactly when it is all white space. */
  lemma TrimEmptyIffBlank(s: string)
    ensures Trim(s) == [] <==> AllSpace(s)
  {
    var n := SpaceRunEnd(s, 0);
    var t := s[n..];
    var m := SpaceRunStart(t, |t|);
    if AllSpace(s) {
      assert n == |s|;
    } else {
      var k :| 0 <= k < |s| && !IsSpace(s[k]);
      assert t[k - n] == s[k];
      assert m > k - n;
    }
  }

  predicate StartsWith(s: string, p: string) {
    |p| <= |s| && s[..|p|] == p
  }

  /** Index of the first element of `s` equal to `x`, or -1 (`Array.prototype.indexOf`). */
  function IndexOf<T(==)>(s: seq<T>, x: T): (r: int)
    ensures -1 <= r < |s|
    ensures r == -1 <==> x !in s
    ensures r >= 0 ==> s[r] == x && x !in s[..r]
    ensures forall k :: 0 <= k < |s| && (r == -1 || k < r) ==> s[k] != x
  {
    if s == [] then -1
    else if s[0] == x then 0
    else
      var k := IndexOf(s[1..], x);
      assert s[1..][..if k >= 0 then k else 0] == s[1..if k >= 0 then k + 1 else 1];
      if k == -1 then -1 else k + 1
  }

  /** Index of the last element of `s` equal to `x`, or -1. */
  function LastIndexOf<T(==)>(s: seq<T>, x: T): (r: int)
    ensures -1 <= r < |s|
    ensures r == -1 <==> x !in s
    ensures r >= 0 ==> s[r] == x && x !in s[r + 1..]
    ensures forall k :: r < k < |s| ==> s[k] != x
  {
    if s == [] then -1
    else if s[|s| - 1] == x then |s| - 1
    else
      var k := LastIndexOf(s[..|s| - 1], x);
      assert k >= 0 ==> s[k + 1..] == s[..|s| - 1][k + 1..] + [s[|s| - 1]];
      k
  }

  /** The first occurrence is the one with no earlier occurrence. */
  lemma IndexOfAt<T>(s: seq<T>, x: T, i: nat)
    requires i < |s| && s[i] == x && x !in s[..i]
    ensures IndexOf(s, x) == i
  {
    assert forall k :: 0 <= k < i ==> s[..i][k] == s[k];
  }

  /** The last occurrence is the one with no later occurrence. */
  lemma LastIndexOfAt<T>(s: seq<T>, x: T, i: nat)
    requires i < |s| && s[i] == x && x !in s[i + 1..]
    ensures LastIndexOf(s, x) == i
  {
    assert forall k :: i < k < |s| ==> s[i + 1..][k - i - 1] == s[k];
  }

  /** Position of the first occurrence of `p` in `s` at or after `from`, or -1
      (`String.prototype.indexOf(p, from)`, for a non-empty `p`). */
  function Find(s: string, p: string, from: nat): (r: int)
    requires p != []
    ensures r == -1 || (from <= r < |s| && StartsWith(s[r..], p))
    decreases |s| - from
  {
    if from >= |s| then -1
    else if StartsWith(s[from..], p) then from
    else Find(s, p, from + 1)
  }

  /** `Find` gives the first match: no position from `from` up to the result
      (or to the end, when there is none) starts one. */
  lemma {:induction false} FindFirst(s: string, p: string, from: nat, k: nat)
    requires p != [] && from <= k <= |s|
    requires var r := Find(s, p, from); k < (if r == -1 then |s| + 1 else r)
    ensures !StartsWith(s[k..], p)
    decreases |s| - from
  {
    if from < |s| && !StartsWith(s[from..], p) && from < k {
      FindFirst(s, p, from + 1, k);
    }
  }

  /** `s.split(d)` for a one-character separator `d`. */
  function Split(s: string, d: char): (r: seq<string>)
    ensures |r| >= 1
    ensures forall k :: 0 <= k < |r| ==> d !in r[k]
  {
    var k := IndexOf(s, d);
    if k == -1 then [s] else [s[..k]] + Split(s[k + 1..], d)
  }

  /** `parts.join(d)`. */
  function Join(parts: seq<string>, d: string): string {
    if parts == [] then ""
    else if |parts| == 1 then parts[0]
    else parts[0] + d + Join(parts[1..], d)
  }

  /** A sequence is what lies before, at and after any of its positions. */
  lemma Around<T>(s: seq<T>, k: nat)
    requires k < |s|
    ensures s == s[..k] + [s[k]] + s[k + 1..]
  {
  }

  lemma JoinCons(x: string, rest: seq<string>, d: string)
    requires rest != []
    ensures Join([x] + rest, d) == x + d + Join(rest, d)
  {
    assert ([x] + rest)[1..] == rest;
  }

  /** Splitting on a character and joining with it gives the text back. */
  lemma {:induction false} JoinSplit(s: string, d: char)
    ensures Join(Split(s, d), [d]) == s
    decreases |s|
  {
    var k := IndexOf(s, d);
    if k != -1 {
      var rest := Split(s[k + 1..], d);
      assert Split(s, d) == [s[..k]] + rest;
      JoinSplit(s[k + 1..], d);
      JoinCons(s[..k], rest, [d]);
      Around(s, k);
    } else {
      assert Split(s, d) == [s];
    }
  }

  /** Joining parts that do not contain the separator and splitting again
      gives the parts back. */
  lemma {:induction false} SplitJoin(parts: seq<string>, d: char)
    requires parts != []
    requires forall k :: 0 <= k < |parts| ==> d !in parts[k]
    ensures Split(Join(parts, [d]), d) == parts
    decreases |parts|
  {
    var s := Join(parts, [d]);
    if |parts| == 1 {
      assert s == parts[0];
      assert IndexOf(s, d) == -1;
    } else {
      var rest := parts[1..];
      JoinCons(parts[0], rest, [d]);
      assert [parts[0]] + rest == parts;
      var k := |parts[0]|;
      assert s[..k] == parts[0] && s[k] == d;
      IndexOfAt(s, d, k);
      assert s[k + 1..] == Join(rest, [d]);
      SplitJoin(rest, d);
    }
  }

  /** `s.replace(/p/g, v)` for a literal, non-empty pattern `p`: occurrences
      are found left to right and never overlap. */
  function ReplaceAll(s: string, p: string, v: string): string
    requires p != []
  {
    if |s| < |p| then s
    else if s[..|p|] == p then v + ReplaceAll(s[|p|..], p, v)
    else [s[0]] + ReplaceAll(s[1..], p, v)
  }

  predicate Contains(s: string, p: string) {
    exists k {:trigger s[k..]} :: 0 <= k <= |s| && StartsWith(s[k..], p)
  }

  /** A text without the pattern comes back unchanged. */
  lemma {:induction false} ReplaceAllAbsent(s: string, p: string, v: string)
    requires p != []
    requires !Contains(s, p)
    ensures ReplaceAll(s, p, v) == s
  {
    if |s| >= |p| {
      assert s[0..] == s;
      assert s[..|p|] != p;
      assert !Contains(s[1..], p) by {
        forall k | 0 <= k <= |s[1..]| ensures !StartsWith(s[1..][k..], p) {
          assert s[1..][k..] == s[k + 1..];
        }
      }
      ReplaceAllAbsent(s[1..], p, v);
    }
  }

  /** Replacing a pattern by itself changes nothing. */
  lemma {:induction false} ReplaceAllSelf(s: string, p: string)
    requires p != []
    ensures ReplaceAll(s, p, p) == s
  {
    if |s| >= |p| {
      if s[..|p|] == p {
        ReplaceAllSelf(s[|p|..], p);
        assert s == s[..|p|] + s[|p|..];
      } else {
        ReplaceAllSelf(s[1..], p);
        assert s == [s[0]] + s[1..];
      }
    }
  }

  /** Text before the pattern's first character passes through unchanged. */
  lemma {:induction false} ReplaceAllPrefix(a: string, rest: string, p: string, v: string)
    requires p != [] && p[0] !in a
    ensures ReplaceAll(a + rest, p, v) == a + ReplaceAll(rest, p, v)
    decreases |a|
  {
    if a != [] {
      assert (a + rest)[0] == a[0];
      assert (a + rest)[1..] == a[1..] + rest;
      if |a + rest| >= |p| {
        assert (a + rest)[..|p|][0] != p[0];
      }
      ReplaceAllPrefix(a[1..], rest, p, v);
      assert a == [a[0]] + a[1..];
    } else {
      assert a + rest == rest;
    }
  }

  /** Every occurrence is replaced: in a template whose literal parts do not
      contain the pattern's first character, each pattern between two parts
      becomes the value. */
  lemma {:induction false} ReplaceAllJoin(parts: seq<string>, p: string, v: string)
    requires p != []
    requires forall k :: 0 <= k < |parts| ==> p[0] !in parts[k]
    ensures ReplaceAll(Join(parts, p), p, v) == Join(parts, v)
    decreases |parts|
  {
    if |parts| == 1 {
      ReplaceAllPrefix(parts[0], [], p, v);
      assert parts[0] + [] == parts[0];
    } else if |parts| > 1 {
      var tail := Join(parts[1..], p);
      ReplaceAllPrefix(parts[0], p + tail, p, v);
      assert Join(parts, p) == parts[0] + (p + tail);
      assert (p + tail)[..|p|] == p && (p + tail)[|p|..] == tail;
      ReplaceAllJoin(parts[1..], p, v);
      assert Join(parts, v) == parts[0] + v + Join(parts[1..], v);
    }
  }

  function DigitChar(d: nat): char
    requires d < 10
  {
    "0123456789"[d]
  }

  predicate IsDigit(c: char) {
    '0' <= c <= '9'
  }

  /** Decimal rendering of a natural number, as `${n}` prints it. */
  function NatToString(n: nat): (r: string)
    ensures |r| >= 1 && forall k :: 0 <= k < |r| ==> IsDigit(r[k])
    ensures |r| > 1 ==> r[0] != '0'
  {
    if n < 10 then [DigitChar(n)] else NatToString(n / 10) + [DigitChar(n % 10)]
  }

  /** Value of a string of decimal digits. */
  function DigitsValue(s: string): nat
    requires forall k :: 0 <= k < |s| ==> IsDigit(s[k])
  {
    if s == [] then 0
    else
      assert IsDigit(s[|s| - 1]);
      DigitsValue(s[..|s| - 1]) * 10 + (s[|s| - 1] as int - '0' as int)
  }

  /** Reading a rendered number back gives the number. */
  lemma {:induction false} NatToStringRoundTrip(n: nat)
    ensures DigitsValue(NatToString(n)) == n
  {
    if n >= 10 {
      NatToStringRoundTrip(n / 10);
      var r := NatToString(n);
      assert r[..|r| - 1] == NatToString(n / 10);
    }
  }

  /** Decimal rendering of an integer, with a leading '-' when negative. */
  function IntToString(i: int): (r: string)
    ensures |r| >= 1 && (i < 0 <==> r[0] == '-')
    ensures forall k :: 0 <= k < |r| ==> IsDigit(r[k]) || r[k] == '-'
  {
    if i < 0 then "-" + NatToString(-i) else NatToString(i)
  }
}
