/** The few ECMAScript string built-ins the metrics code relies on, with their
    exact JavaScript meaning: the `\s` character class (which is also what
    `String.prototype.trim` removes), the line terminators that `.` refuses,
    `startsWith`, `split` on a one-character separator, and `trim`. */
module JsText {

  /** `\s` in a regular expression: the WhiteSpace and LineTerminator code points. */
  predicate IsSpace(c: char) {
    c == '\t' || c == '\n' || c == '\U{B}' || c == '\U{C}' || c == '\r' || c == ' ' ||
    c == '\U{A0}' || c == '\U{1680}' || ('\U{2000}' <= c <= '\U{200A}') ||
    c == '\U{2028}' || c == '\U{2029}' || c == '\U{202F}' || c == '\U{205F}' ||
    c == '\U{3000}' || c == '\U{FEFF}'
  }

  /** The characters `.` does not match when the `s` flag is absent. */
  predicate IsLineTerminator(c: char) {
    c == '\n' || c == '\r' || c == '\U{2028}' || c == '\U{2029}'
  }

  /** Every character matches `\S`. */
  predicate NoSpace(s: string) {
    forall i :: 0 <= i < |s| ==> !IsSpace(s[i])
  }

  /** The first `k` characters of `s` match `\S`. */
  predicate NoSpaceBefore(s: string, k: nat)
    requires k <= |s|
  {
    forall i :: 0 <= i < k ==> !IsSpace(s[i])
  }

  lemma NoSpaceBeforeExtend(s: string, k: nat)
    requires k < |s| && NoSpaceBefore(s, k) && !IsSpace(s[k])
    ensures NoSpaceBefore(s, k + 1)
  {
  }

  /** Every character matches `\s`. */
  predicate AllSpace(s: string) {
    forall i :: 0 <= i < |s| ==> IsSpace(s[i])
  }

  /** Every character matches `.`. */
  predicate NoLineTerminator(s: string) {
    forall i :: 0 <= i < |s| ==> !IsLineTerminator(s[i])
  }

  predicate StartsWith(s: string, prefix: string) {
    |prefix| <= |s| && s[..|prefix|] == prefix
  }

  /** `s.indexOf(c, from)`, with -1 for "not found". */
  function IndexOf(s: string, c: char, from: nat): (i: int)
    ensures i == -1 || (from <= i < |s| && s[i] == c)
    decreases |s| - from
  {
    if from >= |s| then -1
    else if s[from] == c then from
    else IndexOf(s, c, from + 1)
  }

  /** `indexOf` finds the first occurrence, and -1 means there is none. */
  lemma {:induction false} IndexOfFirst(s: string, c: char, from: nat)
    ensures var i := IndexOf(s, c, from);
            (i == -1 ==> forall j :: from <= j < |s| ==> s[j] != c) &&
            (i != -1 ==> forall j :: from <= j < i ==> s[j] != c)
    decreases |s| - from
  {
    if from < |s| && s[from] != c {
      IndexOfFirst(s, c, from + 1);
    }
  }

  /** Conversely, the first occurrence at or after `from` is what `indexOf` returns. */
  lemma {:induction false} IndexOfFinds(s: string, c: char, from: nat, i: nat)
    requires from <= i < |s| && s[i] == c
    requires forall j :: from <= j < i ==> s[j] != c
    ensures IndexOf(s, c, from) == i
    decreases i - from
  {
    if from < i {
      IndexOfFinds(s, c, from + 1, i);
    }
  }

  lemma {:induction false} IndexOfMissing(s: string, c: char, from: nat)
    requires forall j :: from <= j < |s| ==> s[j] != c
    ensures IndexOf(s, c, from) == -1
    decreases |s| - from
  {
    if from < |s| {
      IndexOfMissing(s, c, from + 1);
    }
  }

  /** Where the run starting at `i` of `\s` characters (`spaces`) or of `\S`
      characters (`!spaces`) ends: the position a greedy `\s*` or `\S*` stops at. */
  function RunEnd(s: string, i: nat, spaces: bool): (j: nat)
    requires i <= |s|
    ensures i <= j <= |s|
    decreases |s| - i
  {
    if i < |s| && IsSpace(s[i]) == spaces then RunEnd(s, i + 1, spaces) else i
  }

  /** The run is maximal: every character in it is of the class, the next is not. */
  lemma {:induction false} RunEndMaximal(s: string, i: nat, spaces: bool)
    requires i <= |s|
    ensures var j := RunEnd(s, i, spaces);
            (forall m :: i <= m < j ==> IsSpace(s[m]) == spaces) &&
            (j < |s| ==> IsSpace(s[j]) != spaces)
    decreases |s| - i
  {
    if i < |s| && IsSpace(s[i]) == spaces {
      RunEndMaximal(s, i + 1, spaces);
    }
  }

  /** Conversely, a maximal run ends where `RunEnd` says. */
  lemma {:induction false} RunEndAt(s: string, i: nat, j: nat, spaces: bool)
    requires i <= j <= |s|
    requires forall m :: i <= m < j ==> IsSpace(s[m]) == spaces
    requires j < |s| ==> IsSpace(s[j]) != spaces
    ensures RunEnd(s, i, spaces) == j
    decreases j - i
  {
    if i < j {
      RunEndAt(s, i + 1, j, spaces);
    }
  }

  /** Length of the longest suffix of `s` made of `\s` characters. */
  function TrailingSpaceRun(s: string): (n: nat)
    ensures n <= |s|
    ensures forall i :: |s| - n <= i < |s| ==> IsSpace(s[i])
    ensures n < |s| ==> !IsSpace(s[|s| - n - 1])
  {
    if |s| == 0 || !IsSpace(s[|s| - 1]) then 0
    else 1 + TrailingSpaceRun(s[..|s| - 1])
  }

  /** `s.trim()`: drops the leading and the trailing `\s` runs. */
  function Trim(s: string): (r: string)
    ensures |r| <= |s|
    ensures r != [] ==> !IsSpace(r[0]) && !IsSpace(r[|r| - 1])
  {
    RunEndMaximal(s, 0, true);
    var rest := s[RunEnd(s, 0, true)..];
    rest[..|rest| - TrailingSpaceRun(rest)]
  }

  /** Trimming removes exactly the surrounding whitespace: whatever `\s` is put
      around a text that neither starts nor ends with `\s` is taken off again. */
  lemma TrimOf(pre: string, t: string, post: string)
    requires AllSpace(pre) && AllSpace(post)
    requires t != [] ==> !IsSpace(t[0]) && !IsSpace(t[|t| - 1])
    ensures Trim(pre + t + post) == t
  {
    var s := pre + t + post;
    if t == [] {
      assert s == pre + post;
      RunEndAt(s, 0, |s|, true);
    } else {
      assert s[|pre|] == t[0];
      assert forall m :: 0 <= m < |pre| ==> s[m] == pre[m];
      RunEndAt(s, 0, |pre|, true);
      var rest := s[|pre|..];
      assert rest == t + post;
      assert rest[|rest| - |post| - 1] == t[|t| - 1];
      assert TrailingSpaceRun(rest) == |post|;
    }
  }

  /** `s.split(sep)` for a one-character separator: the maximal pieces between
      separators, so there is always at least one piece and `"".split(sep)`
      is `[""]`. */
  function Split(s: string, sep: char): (parts: seq<string>)
    ensures |parts| >= 1
    ensures forall p :: p in parts ==> sep !in p
    decreases |s|
  {
    var i := IndexOf(s, sep, 0);
    IndexOfFirst(s, sep, 0);
    if i < 0 then [s]
    else
      assert sep !in s[..i] by {
        forall j | 0 <= j < i ensures s[..i][j] != sep { }
      }
      [s[..i]] + Split(s[i + 1..], sep)
  }

  /** A text without the separator is a single piece. */
  lemma SplitNone(s: string, sep: char)
    requires sep !in s
    ensures Split(s, sep) == [s]
  {
    IndexOfMissing(s, sep, 0);
  }

  /** The first piece runs up to the first separator; the rest is split on. */
  lemma SplitFirst(a: string, b: string, sep: char)
    requires sep !in a
    ensures Split(a + [sep] + b, sep) == [a] + Split(b, sep)
  {
    var s := a + [sep] + b;
    IndexOfFinds(s, sep, 0, |a|);
    assert s[..|a|] == a && s[|a| + 1..] == b;
  }

  /** `parts.join(sep)`, the inverse of `Split`. */
  function Join(parts: seq<string>, sep: char): string
    requires |parts| >= 1
  {
    if |parts| == 1 then parts[0] else parts[0] + [sep] + Join(parts[1..], sep)
  }

  /** Splitting loses nothing: joining the pieces back gives the original text. */
  lemma {:induction false} JoinSplit(s: string, sep: char)
    ensures Join(Split(s, sep), sep) == s
    decreases |s|
  {
    var i := IndexOf(s, sep, 0);
    if i >= 0 {
      JoinSplit(s[i + 1..], sep);
      assert s == s[..i] + [sep] + s[i + 1..];
    }
  }

  /** Pieces free of the separator are recovered exactly by splitting their join. */
  lemma {:induction false} SplitJoin(parts: seq<string>, sep: char)
    requires |parts| >= 1
    requires forall p :: p in parts ==> sep !in p
    ensures Split(Join(parts, sep), sep) == parts
  {
    if |parts| > 1 {
      var s := Join(parts, sep);
      var n := |parts[0]|;
      assert s[n] == sep && s[..n] == parts[0];
      assert sep !in parts[0];
      IndexOfFinds(s, sep, 0, n);
      assert s[n + 1..] == Join(parts[1..], sep);
      SplitJoin(parts[1..], sep);
    } else {
      assert parts[0] in parts;
      IndexOfMissing(parts[0], sep, 0);
    }
  }

}
