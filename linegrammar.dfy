/** The three line grammars of the metrics parser, written out as the first
    match a backtracking regular-expression engine finds:

      HELP    ^# HELP (\S+) (.+)$
      TYPE    ^# TYPE (\S+) (\S+)$
      sample  ^(\S+?)(\{([^}]*)\})?\s+(\S+)$

    Each matcher returns the capture groups, or `None` where `String.match`
    returns `null`. Soundness is stated by `HelpLineSound`, `TypeLineSound` and
    `SampleLineSound` (an accepted line is the rendering of its captures); the
    `...Recognised` lemmas are the converse. */
module LineGrammar {
  import opened Options
  import opened JsText

  /** Captures of the HELP pattern. */
  datatype HelpLine = HelpLine(name: string, help: string)

  /** Captures of the TYPE pattern. */
  datatype TypeLine = TypeLine(name: string, metricType: string)

  /** Captures of the sample pattern: the (lazy) name, the text between the
      braces when the brace group took part, the `\s+` gap and the value token. */
  datatype SampleLine = SampleLine(name: string, labelBlock: Option<string>, gap: string, value: string)

  /** A non-empty run of `\S` characters. */
  predicate IsToken(s: string) {
    s != [] && NoSpace(s)
  }

  predicate WellFormedHelp(h: HelpLine) {
    IsToken(h.name) && h.help != [] && NoLineTerminator(h.help)
  }

  function RenderHelp(h: HelpLine): string {
    "# HELP " + h.name + " " + h.help
  }

  predicate WellFormedType(t: TypeLine) {
    IsToken(t.name) && IsToken(t.metricType)
  }

  function RenderType(t: TypeLine): string {
    "# TYPE " + t.name + " " + t.metricType
  }

  predicate WellFormedSample(s: SampleLine) {
    IsToken(s.name) &&
    (s.labelBlock.Some? ==> '}' !in s.labelBlock.value) &&
    s.gap != [] && AllSpace(s.gap) &&
    IsToken(s.value)
  }

  function LabelPart(block: Option<string>): string {
    match block
    case None => ""
    case Some(b) => "{" + b + "}"
  }

  function RenderSample(s: SampleLine): string {
    s.name + LabelPart(s.labelBlock) + s.gap + s.value
  }

  /** Where a directive's `\S+` name sits: it runs from column 7 up to the
      single space, and whatever follows that space is the second capture. */
  lemma DirectiveLayout(prefix: string, name: string, second: string)
    requires |prefix| == 7 && IsToken(name)
    ensures var line := prefix + name + " " + second;
            var n := 7 + |name|;
            StartsWith(line, prefix) && n < |line| && line[n] == ' ' &&
            RunEnd(line, 7, false) == n && line[7..n] == name && line[n + 1..] == second
  {
    var line := prefix + name + " " + second;
    var n := 7 + |name|;
    assert forall m :: 7 <= m < n ==> line[m] == name[m - 7];
    assert line[n] == ' ';
    RunEndAt(line, 7, n, false);
    assert line[..7] == prefix && line[7..n] == name && line[n + 1..] == second;
  }

  /** Cutting a directive line at the end of its name and at the space after it. */
  lemma DirectiveCut(line: string, k: nat)
    requires 7 < k < |line|
    ensures line == line[..7] + line[7..k] + [line[k]] + line[k + 1..]
    ensures (forall m :: 7 <= m < k ==> !IsSpace(line[m])) ==> NoSpace(line[7..k])
  {
    assert line == line[..7] + line[7..k] + [line[k]] + line[k + 1..];
    if forall m :: 7 <= m < k ==> !IsSpace(line[m]) {
      forall i | 0 <= i < k - 7 ensures !IsSpace(line[7..k][i]) {
        assert line[7..k][i] == line[7 + i];
      }
    }
  }

  /** `^# HELP (\S+) (.+)$`. */
  function MatchHelp(line: string): Option<HelpLine> {
    if !StartsWith(line, "# HELP ") then None
    else
      var k := RunEnd(line, 7, false);
      if 7 < k && k + 1 < |line| && line[k] == ' ' && NoLineTerminator(line[k + 1..])
      then Some(HelpLine(line[7..k], line[k + 1..]))
      else None
  }

  /** A recognised HELP line is exactly the rendering of its captures. */
  lemma HelpLineSound(line: string)
    ensures var r := MatchHelp(line);
            r.Some? ==> WellFormedHelp(r.value) && line == RenderHelp(r.value)
  {
    if StartsWith(line, "# HELP ") {
      var k := RunEnd(line, 7, false);
      if 7 < k && k + 1 < |line| {
        RunEndMaximal(line, 7, false);
        DirectiveCut(line, k);
      }
    }
  }

  /** Every well-formed HELP line is recognised with exactly its own captures. */
  lemma HelpLineRecognised(h: HelpLine)
    requires WellFormedHelp(h)
    ensures MatchHelp(RenderHelp(h)) == Some(h)
  {
    DirectiveLayout("# HELP ", h.name, h.help);
  }

  /** `^# TYPE (\S+) (\S+)$`. */
  function MatchType(line: string): Option<TypeLine> {
    if !StartsWith(line, "# TYPE ") then None
    else
      var k := RunEnd(line, 7, false);
      if 7 < k && k + 1 < |line| && line[k] == ' ' && NoSpace(line[k + 1..])
      then Some(TypeLine(line[7..k], line[k + 1..]))
      else None
  }

  /** A recognised TYPE line is exactly the rendering of its captures. */
  lemma TypeLineSound(line: string)
    ensures var r := MatchType(line);
            r.Some? ==> WellFormedType(r.value) && line == RenderType(r.value)
  {
    if StartsWith(line, "# TYPE ") {
      var k := RunEnd(line, 7, false);
      if 7 < k && k + 1 < |line| {
        RunEndMaximal(line, 7, false);
        DirectiveCut(line, k);
      }
    }
  }

  /** Every well-formed TYPE line is recognised with exactly its own captures. */
  lemma TypeLineRecognised(t: TypeLine)
    requires WellFormedType(t)
    ensures MatchType(RenderType(t)) == Some(t)
  {
    DirectiveLayout("# TYPE ", t.name, t.metricType);
  }

  /** `\s+(\S+)$` tried at position `p`: where the value token starts, if the
      rest of the line is a whitespace gap and then one token. */
  function ValueTailAt(line: string, p: nat): (g: Option<nat>)
    requires p <= |line|
    ensures g.Some? ==> p < g.value < |line|
  {
    var g := RunEnd(line, p, true);
    if p < g < |line| && RunEnd(line, g, false) == |line| then Some(g) else None
  }

  lemma ValueTailAtSound(line: string, p: nat)
    requires p <= |line|
    ensures var g := ValueTailAt(line, p);
            g.Some? ==> (forall m :: p <= m < g.value ==> IsSpace(line[m])) &&
                        (forall m :: g.value <= m < |line| ==> !IsSpace(line[m]))
  {
    RunEndMaximal(line, p, true);
    var g := RunEnd(line, p, true);
    if g < |line| {
      RunEndMaximal(line, g, false);
    }
  }

  lemma ValueTailAtFinds(line: string, p: nat, g: nat)
    requires p < g < |line|
    requires forall m :: p <= m < g ==> IsSpace(line[m])
    requires forall m :: g <= m < |line| ==> !IsSpace(line[m])
    ensures ValueTailAt(line, p) == Some(g)
  {
    RunEndAt(line, p, g, true);
    RunEndAt(line, g, |line|, false);
  }

  /** With the lazy name at `k` characters, the optional group taken: a `{`
      at `k`, the first `}` after it (`[^}]*` cannot pass one), and a value
      tail right after that `}`. */
  function BraceAttempt(line: string, k: nat): Option<SampleLine>
    requires 0 < k <= |line|
  {
    var close := if k < |line| && line[k] == '{' then IndexOf(line, '}', k + 1) else -1;
    var g := if close >= 0 then ValueTailAt(line, close + 1) else None;
    if g.Some? then
      Some(SampleLine(line[..k], Some(line[k + 1..close]), line[close + 1..g.value], line[g.value..]))
    else None
  }

  /** With the lazy name at `k` characters, the optional group skipped: a value
      tail right after the name. */
  function GapAttempt(line: string, k: nat): Option<SampleLine>
    requires 0 < k <= |line|
  {
    var g := ValueTailAt(line, k);
    if g.Some? then Some(SampleLine(line[..k], None, line[k..g.value], line[g.value..])) else None
  }

  /** The backtracking search once the lazy name has taken `k` characters:
      first with the group, then without it, then with one more `\S`
      character in the name. */
  function SampleFrom(line: string, k: nat): Option<SampleLine>
    requires 0 < k <= |line|
    decreases |line| - k
  {
    var braced := BraceAttempt(line, k);
    var plain := GapAttempt(line, k);
    if braced.Some? then braced
    else if plain.Some? then plain
    else if k < |line| && !IsSpace(line[k]) then SampleFrom(line, k + 1)
    else None
  }

  /** `^(\S+?)(\{([^}]*)\})?\s+(\S+)$`. */
  function MatchSample(line: string): Option<SampleLine> {
    if |line| > 0 && !IsSpace(line[0]) then SampleFrom(line, 1) else None
  }

  /** A successful group attempt cuts the line into captures that render back
      to it. */
  lemma BraceAttemptSound(line: string, k: nat)
    requires 0 < k <= |line| && NoSpaceBefore(line, k)
    ensures var r := BraceAttempt(line, k);
            r.Some? ==> WellFormedSample(r.value) && line == RenderSample(r.value)
  {
    if k < |line| && line[k] == '{' {
      var close := IndexOf(line, '}', k + 1);
      if close >= 0 && ValueTailAt(line, close + 1).Some? {
        var g := ValueTailAt(line, close + 1).value;
        BraceGroupTaken(line, k, close, g);
        BraceGroupFound(line, k, close, g);
      }
    }
  }

  /** At a `{` whose first `}` is followed by a value tail, the group attempt
      returns those captures. */
  lemma BraceGroupTaken(line: string, k: nat, close: int, g: nat)
    requires 0 < k < |line| && line[k] == '{'
    requires close == IndexOf(line, '}', k + 1) && close >= 0
    requires ValueTailAt(line, close + 1) == Some(g)
    ensures g <= |line| && k + 1 <= close + 1 <= g
    ensures BraceAttempt(line, k) ==
            Some(SampleLine(line[..k], Some(line[k + 1..close]), line[close + 1..g], line[g..]))
  {
  }

  /** The group closed by the first `}` and followed by a value tail. */
  lemma BraceGroupFound(line: string, k: nat, close: int, g: nat)
    requires 0 < k < |line| && line[k] == '{' && NoSpaceBefore(line, k)
    requires close == IndexOf(line, '}', k + 1) && close >= 0
    requires ValueTailAt(line, close + 1) == Some(g)
    ensures var s := SampleLine(line[..k], Some(line[k + 1..close]), line[close + 1..g], line[g..]);
            WellFormedSample(s) && line == RenderSample(s)
  {
    IndexOfFirst(line, '}', k + 1);
    ValueTailAtSound(line, close + 1);
    BraceGroupCaptures(line, k, close, g);
  }

  /** A successful attempt without the group cuts the line into captures that
      render back to it. */
  lemma GapAttemptSound(line: string, k: nat)
    requires 0 < k <= |line| && NoSpaceBefore(line, k)
    ensures var r := GapAttempt(line, k);
            r.Some? ==> WellFormedSample(r.value) && line == RenderSample(r.value)
  {
    if ValueTailAt(line, k).Some? {
      ValueTailAtSound(line, k);
      var g := ValueTailAt(line, k).value;
      assert line == line[..k] + line[k..g] + line[g..];
    }
  }

  lemma BraceGroupCaptures(line: string, k: nat, close: nat, g: nat)
    requires 0 < k < close && close + 1 < g < |line|
    requires line[k] == '{' && line[close] == '}' && NoSpaceBefore(line, k)
    requires forall j :: k + 1 <= j < close ==> line[j] != '}'
    requires forall m :: close + 1 <= m < g ==> IsSpace(line[m])
    requires forall m :: g <= m < |line| ==> !IsSpace(line[m])
    ensures var s := SampleLine(line[..k], Some(line[k + 1..close]), line[close + 1..g], line[g..]);
            WellFormedSample(s) && line == RenderSample(s)
  {
    var block := line[k + 1..close];
    forall j | 0 <= j < |block| ensures block[j] != '}' {
      assert block[j] == line[k + 1 + j];
    }
    assert line == line[..k] + [line[k]] + block + [line[close]] + line[close + 1..g] + line[g..];
  }

  lemma {:induction false} SampleFromSound(line: string, k: nat)
    requires 0 < k <= |line| && NoSpaceBefore(line, k)
    ensures var r := SampleFrom(line, k);
            r.Some? ==> WellFormedSample(r.value) && line == RenderSample(r.value)
    decreases |line| - k
  {
    BraceAttemptSound(line, k);
    GapAttemptSound(line, k);
    if BraceAttempt(line, k).None? && GapAttempt(line, k).None? && k < |line| && !IsSpace(line[k]) {
      NoSpaceBeforeExtend(line, k);
      SampleFromSound(line, k + 1);
    }
  }

  /** A recognised sample line is exactly the rendering of its captures. */
  lemma SampleLineSound(line: string)
    ensures var r := MatchSample(line);
            r.Some? ==> WellFormedSample(r.value) && line == RenderSample(r.value)
  {
    if |line| > 0 && !IsSpace(line[0]) {
      SampleFromSound(line, 1);
    }
  }

  /** At a name character that is neither `{` nor whitespace the search
      moves on to a longer name. */
  lemma SearchPassesNameChar(line: string, k: nat)
    requires 0 < k < |line|
    requires line[k] != '{' && !IsSpace(line[k])
    ensures SampleFrom(line, k) == SampleFrom(line, k + 1)
  {
    assert BraceAttempt(line, k) == None;
    assert GapAttempt(line, k) == None;
  }

  /** The search stops at a `{` whose group is followed by a value tail. */
  lemma SearchStopsAtBrace(line: string, k: nat, close: nat, g: nat)
    requires 0 < k < close < |line| && line[k] == '{'
    requires IndexOf(line, '}', k + 1) == close && ValueTailAt(line, close + 1) == Some(g)
    ensures SampleFrom(line, k) ==
            Some(SampleLine(line[..k], Some(line[k + 1..close]), line[close + 1..g], line[g..]))
  {
    assert BraceAttempt(line, k) ==
           Some(SampleLine(line[..k], Some(line[k + 1..close]), line[close + 1..g], line[g..]));
  }

  /** The search stops where the name is followed by a value tail. */
  lemma SearchStopsAtGap(line: string, k: nat, g: nat)
    requires 0 < k < |line| && line[k] != '{'
    requires ValueTailAt(line, k) == Some(g)
    ensures SampleFrom(line, k) == Some(SampleLine(line[..k], None, line[k..g], line[g..]))
  {
    assert BraceAttempt(line, k) == None;
  }

  /** The search fails at whitespace that does not start a value tail. */
  lemma SearchFailsAtGap(line: string, k: nat)
    requires 0 < k < |line| && IsSpace(line[k])
    requires ValueTailAt(line, k) == None
    ensures SampleFrom(line, k) == None
  {
    assert BraceAttempt(line, k) == None;
    assert GapAttempt(line, k) == None;
  }

  /** Where the captures of a sample sit in its rendering. */
  lemma SampleLayout(s: SampleLine)
    ensures var line := RenderSample(s);
            var n := |s.name|;
            var a := n + |LabelPart(s.labelBlock)|;
            var b := a + |s.gap|;
            |line| == b + |s.value| &&
            line[..n] == s.name && line[a..b] == s.gap && line[b..] == s.value &&
            (forall m :: 0 <= m < n ==> line[m] == s.name[m]) &&
            (s.gap != [] ==> line[a] == s.gap[0])
  {
    var line := RenderSample(s);
    assert line == s.name + LabelPart(s.labelBlock) + s.gap + s.value;
  }

  /** The label block of a rendered sample runs from its `{` to the first `}`
      after it. */
  lemma LabelLayout(s: SampleLine)
    requires s.labelBlock.Some? && '}' !in s.labelBlock.value
    ensures var line := RenderSample(s);
            var n := |s.name|;
            var close := n + 1 + |s.labelBlock.value|;
            close < |line| && line[n] == '{' &&
            IndexOf(line, '}', n + 1) == close && line[n + 1..close] == s.labelBlock.value
  {
    var line := RenderSample(s);
    var blk := s.labelBlock.value;
    var n := |s.name|;
    var close := n + 1 + |blk|;
    assert line == s.name + ("{" + blk + "}") + s.gap + s.value;
    assert forall m :: n <= m <= close ==> line[m] == ("{" + blk + "}")[m - n];
    forall j | n + 1 <= j < close ensures line[j] != '}' {
      assert line[j] == blk[j - n - 1];
    }
    IndexOfFinds(line, '}', n + 1, close);
  }

  /** A whitespace gap and a token at the end of a line form its value tail. */
  lemma ValueTailOf(head: string, gap: string, value: string)
    requires gap != [] && AllSpace(gap) && IsToken(value)
    ensures ValueTailAt(head + gap + value, |head|) == Some(|head| + |gap|)
  {
    var line := head + gap + value;
    var a := |head|;
    var b := a + |gap|;
    forall m | a <= m < b ensures IsSpace(line[m]) {
      assert line[m] == gap[m - a];
    }
    forall m | b <= m < |line| ensures !IsSpace(line[m]) {
      assert line[m] == value[m - b];
    }
    ValueTailAtFinds(line, a, b);
  }

  /** The gap and the value of a rendered sample form a value tail. */
  lemma SampleTail(s: SampleLine)
    requires s.gap != [] && AllSpace(s.gap) && IsToken(s.value)
    ensures var line := RenderSample(s);
            var a := |s.name| + |LabelPart(s.labelBlock)|;
            a < |line| && ValueTailAt(line, a) == Some(a + |s.gap|)
  {
    var head := s.name + LabelPart(s.labelBlock);
    assert RenderSample(s) == head + s.gap + s.value;
    ValueTailOf(head, s.gap, s.value);
  }

  /** Once the lazy name has taken the whole name, the search stops there. */
  lemma SampleAtNameEnd(s: SampleLine)
    requires WellFormedSample(s) && 0 < |s.name|
    ensures |s.name| < |RenderSample(s)| && SampleFrom(RenderSample(s), |s.name|) == Some(s)
  {
    if s.labelBlock.None? {
      PlainAtNameEnd(s);
    } else {
      BracedAtNameEnd(s);
    }
  }

  lemma PlainAtNameEnd(s: SampleLine)
    requires 0 < |s.name| && s.labelBlock.None?
    requires s.gap != [] && AllSpace(s.gap) && IsToken(s.value)
    ensures |s.name| < |RenderSample(s)| && SampleFrom(RenderSample(s), |s.name|) == Some(s)
  {
    var line := RenderSample(s);
    SampleLayout(s);
    SampleTail(s);
    var n := |s.name|;
    var b := n + |s.gap|;
    assert line[n] == s.gap[0];
    assert SampleLine(line[..n], None, line[n..b], line[b..]) == s;
    SearchStopsAtGap(line, n, b);
  }

  lemma BracedAtNameEnd(s: SampleLine)
    requires 0 < |s.name| && s.labelBlock.Some? && '}' !in s.labelBlock.value
    requires s.gap != [] && AllSpace(s.gap) && IsToken(s.value)
    ensures |s.name| < |RenderSample(s)| && SampleFrom(RenderSample(s), |s.name|) == Some(s)
  {
    var line := RenderSample(s);
    var n := |s.name|;
    var close := n + 1 + |s.labelBlock.value|;
    var b := close + 1 + |s.gap|;
    LabelLayout(s);
    SampleTail(s);
    assert |LabelPart(s.labelBlock)| == |s.labelBlock.value| + 2;
    assert ValueTailAt(line, close + 1) == Some(b);
    BracedCaptures(s, line, n, close, b);
    SearchStopsAtBrace(line, n, close, b);
  }

  /** The captures of a rendered sample with a label block, read back by
      position, are that sample. */
  lemma BracedCaptures(s: SampleLine, line: string, n: nat, close: nat, b: nat)
    requires s.labelBlock.Some? && '}' !in s.labelBlock.value
    requires line == RenderSample(s) && n == |s.name|
    requires close == n + 1 + |s.labelBlock.value| && b == close + 1 + |s.gap|
    ensures n < close < b <= |line|
    ensures SampleLine(line[..n], Some(line[n + 1..close]), line[close + 1..b], line[b..]) == s
  {
    LabelLayout(s);
    SampleLayout(s);
    assert |LabelPart(s.labelBlock)| == |s.labelBlock.value| + 2;
  }

  lemma {:induction false} SampleFromSkipsName(s: SampleLine, k: nat)
    requires WellFormedSample(s) && '{' !in s.name
    requires 0 < k <= |s.name|
    ensures k <= |RenderSample(s)| && SampleFrom(RenderSample(s), k) == Some(s)
    decreases |s.name| - k
  {
    var line := RenderSample(s);
    SampleLayout(s);
    if k < |s.name| {
      assert s.name[k] in s.name;
      SearchPassesNameChar(line, k);
      SampleFromSkipsName(s, k + 1);
    } else {
      SampleAtNameEnd(s);
    }
  }

  /** Every well-formed sample line whose name holds no `{` is recognised with
      exactly its own captures. */
  lemma SampleLineRecognised(s: SampleLine)
    requires WellFormedSample(s) && '{' !in s.name
    ensures MatchSample(RenderSample(s)) == Some(s)
  {
    SampleFromSkipsName(s, 1);
    SampleLayout(s);
  }

  /** A line that starts with, or is made only of, whitespace is never a sample. */
  lemma LeadingSpaceRejected(line: string)
    requires line != [] && IsSpace(line[0])
    ensures MatchSample(line) == None
  {
  }

  /** `\S+$` cannot cross whitespace: no value tail starts at or before a
      non-space character that has whitespace somewhere after it. */
  lemma NoValueTailBefore(line: string, p: nat, q: nat, c: nat)
    requires p <= q < c < |line|
    requires !IsSpace(line[q]) && IsSpace(line[c])
    ensures ValueTailAt(line, p) == None
  {
    ValueTailAtSound(line, p);
  }

  /** Where the captures of a sample sit once more text follows it: the name
      and block end at `a`, the value runs from `b` to `c`, and the extra text
      starts at `c`. */
  lemma MoreAfterValueLayout(s: SampleLine, rest: string)
    requires WellFormedSample(s) && rest != [] && IsSpace(rest[0])
    ensures var line := RenderSample(s) + rest;
            var a := |s.name| + |LabelPart(s.labelBlock)|;
            var b := a + |s.gap|;
            var c := b + |s.value|;
            a < b < c < |line| &&
            (forall m :: 0 <= m < |s.name| ==> line[m] == s.name[m]) &&
            IsSpace(line[a]) && !IsSpace(line[b]) && IsSpace(line[c])
  {
    var text := RenderSample(s);
    var line := text + rest;
    var a := |s.name| + |LabelPart(s.labelBlock)|;
    var b := a + |s.gap|;
    SampleLayout(s);
    assert line[b] == s.value[0] by {
      assert text[b..][0] == s.value[0];
    }
    assert line[a] == s.gap[0];
  }

  /** The label block's closing `}` is the first one after any `{` inside the
      block, and right after it comes the gap. */
  lemma BlockBraceCloses(s: SampleLine, rest: string, k: nat)
    requires WellFormedSample(s) && s.labelBlock.Some?
    requires |s.name| <= k < |s.name| + |LabelPart(s.labelBlock)| - 1
    ensures var line := RenderSample(s) + rest;
            var close := |s.name| + |LabelPart(s.labelBlock)| - 1;
            IndexOf(line, '}', k + 1) == close
  {
    var text := RenderSample(s);
    var line := text + rest;
    var n := |s.name|;
    var blk := s.labelBlock.value;
    var close := n + 1 + |blk|;
    LabelLayout(s);
    assert line[close] == text[close];
    forall j | k + 1 <= j < close
      ensures line[j] != '}'
    {
      assert line[j] == text[n + 1..close][j - n - 1];
      assert blk[j - n - 1] in blk;
    }
    IndexOfFinds(line, '}', k + 1, close);
  }

  /** Without the group, no attempt succeeds at a name length up to the gap:
      the value is followed by whitespace. */
  lemma NoGapAttemptBeforeGap(s: SampleLine, rest: string, k: nat)
    requires WellFormedSample(s) && rest != [] && IsSpace(rest[0])
    requires 0 < k <= |s.name| + |LabelPart(s.labelBlock)|
    ensures var line := RenderSample(s) + rest;
            k < |line| && GapAttempt(line, k) == None
  {
    var line := RenderSample(s) + rest;
    var a := |s.name| + |LabelPart(s.labelBlock)|;
    var b := a + |s.gap|;
    MoreAfterValueLayout(s, rest);
    NoValueTailBefore(line, k, b, b + |s.value|);
  }

  /** With the group, no attempt succeeds at a name length up to the gap: a
      `{` there lies in the label block, whose `}` is followed by the gap, the
      value and then whitespace. */
  lemma NoBraceAttemptBeforeGap(s: SampleLine, rest: string, k: nat)
    requires WellFormedSample(s) && '{' !in s.name
    requires rest != [] && IsSpace(rest[0])
    requires 0 < k <= |s.name| + |LabelPart(s.labelBlock)|
    ensures var line := RenderSample(s) + rest;
            k < |line| && BraceAttempt(line, k) == None
  {
    var line := RenderSample(s) + rest;
    var n := |s.name|;
    var a := n + |LabelPart(s.labelBlock)|;
    MoreAfterValueLayout(s, rest);
    if k < n {
      assert s.name[k] in s.name;
      NoBraceNoGroup(line, k);
    } else if s.labelBlock.None? || k == a {
      NoBraceNoGroup(line, k);
    } else if k == a - 1 {
      BlockEndsWithBrace(s, rest);
      NoBraceNoGroup(line, k);
    } else if line[k] == '{' {
      InnerBraceFails(s, rest, k);
    } else {
      NoBraceNoGroup(line, k);
    }
  }

  /** The group can only be tried where the name is followed by `{`. */
  lemma NoBraceNoGroup(line: string, k: nat)
    requires 0 < k < |line| && line[k] != '{'
    ensures BraceAttempt(line, k) == None
  {
  }

  /** A `{` inside the label block opens a group that closes at the block's
      `}`, after which the value is followed by whitespace. */
  lemma InnerBraceFails(s: SampleLine, rest: string, k: nat)
    requires WellFormedSample(s) && s.labelBlock.Some?
    requires rest != [] && IsSpace(rest[0])
    requires |s.name| <= k < |s.name| + |LabelPart(s.labelBlock)| - 1
    ensures BraceAttempt(RenderSample(s) + rest, k) == None
  {
    var line := RenderSample(s) + rest;
    var a := |s.name| + |LabelPart(s.labelBlock)|;
    var b := a + |s.gap|;
    MoreAfterValueLayout(s, rest);
    BlockBraceCloses(s, rest, k);
    NoValueTailBefore(line, a, b, b + |s.value|);
    GroupWithoutTail(line, k, a - 1);
  }

  /** The group is dropped when no value tail follows its `}`. */
  lemma GroupWithoutTail(line: string, k: nat, close: nat)
    requires 0 < k < |line| && IndexOf(line, '}', k + 1) == close
    requires ValueTailAt(line, close + 1) == None
    ensures BraceAttempt(line, k) == None
  {
  }

  /** The label block ends with its `}`, right before the gap. */
  lemma BlockEndsWithBrace(s: SampleLine, rest: string)
    requires s.labelBlock.Some?
    ensures var line := RenderSample(s) + rest;
            var close := |s.name| + |LabelPart(s.labelBlock)| - 1;
            close < |line| && line[close] == '}'
  {
    var text := RenderSample(s);
    var n := |s.name|;
    var close := n + 1 + |s.labelBlock.value|;
    assert text == s.name + ("{" + s.labelBlock.value + "}") + s.gap + s.value;
    assert text[close] == ("{" + s.labelBlock.value + "}")[close - n];
    assert (text + rest)[close] == text[close];
  }

  /** The search over a sample line with more text after its value: at every
      length of the lazy name up to the gap, no attempt succeeds. */
  lemma {:induction false} MoreAfterValueFrom(s: SampleLine, rest: string, k: nat)
    requires WellFormedSample(s) && '{' !in s.name
    requires rest != [] && IsSpace(rest[0])
    requires 0 < k <= |s.name| + |LabelPart(s.labelBlock)|
    ensures k <= |RenderSample(s) + rest| && SampleFrom(RenderSample(s) + rest, k) == None
    decreases |s.name| + |LabelPart(s.labelBlock)| - k
  {
    var line := RenderSample(s) + rest;
    NoBraceAttemptBeforeGap(s, rest, k);
    NoGapAttemptBeforeGap(s, rest, k);
    MoreAfterValueLayout(s, rest);
    if k < |s.name| + |LabelPart(s.labelBlock)| && !IsSpace(line[k]) {
      MoreAfterValueFrom(s, rest, k + 1);
    }
  }

  /** The value must end the line: a sample line followed by more text that
      starts with whitespace (trailing blanks, or a Prometheus timestamp after
      them), with or without a label block, is not a sample line. */
  lemma MoreAfterValueRejected(s: SampleLine, rest: string)
    requires WellFormedSample(s) && '{' !in s.name
    requires rest != [] && IsSpace(rest[0])
    ensures MatchSample(RenderSample(s) + rest) == None
  {
    MoreAfterValueLayout(s, rest);
    MoreAfterValueFrom(s, rest, 1);
  }

}
