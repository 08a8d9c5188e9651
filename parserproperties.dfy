/** What one pass of the metrics parser guarantees, proved on the functional
    model of the loop: which families exist and in what order, what HELP,
    TYPE and sample lines change, which lines change nothing. */
module ParserProperties {
  import opened Options
  import opened JsText
  import opened LineGrammar
  import opened LabelSet
  import opened Exposition

  /** A directive prefix rules out the other one. */
  lemma DirectivePrefixes(line: string)
    ensures !(StartsWith(line, "# HELP") && StartsWith(line, "# TYPE"))
    ensures StartsWith(line, "# HELP ") ==> StartsWith(line, "# HELP")
    ensures StartsWith(line, "# TYPE ") ==> StartsWith(line, "# TYPE")
  {
    if StartsWith(line, "# HELP ") {
      assert line[..6] == line[..7][..6];
    }
    if StartsWith(line, "# TYPE ") {
      assert line[..6] == line[..7][..6];
    }
  }

  /** A line is a HELP declaration exactly when it matches the HELP pattern. */
  lemma ClassifyHelp(line: string)
    ensures Classify(line).Help? <==> MatchHelp(line).Some?
    ensures MatchHelp(line).Some? ==> Classify(line) == Help(MatchHelp(line).value)
  {
    DirectivePrefixes(line);
  }

  /** A line is a TYPE declaration exactly when it matches the TYPE pattern. */
  lemma ClassifyType(line: string)
    ensures Classify(line).Type? <==> MatchType(line).Some?
    ensures MatchType(line).Some? ==> Classify(line) == Type(MatchType(line).value)
  {
    DirectivePrefixes(line);
  }

  /** Every step keeps the cursor on the last family. */
  lemma StepValid(s: State, line: string)
    requires Valid(s)
    ensures Valid(Step(s, line))
  {
  }

  lemma {:induction false} RunValid(s: State, lines: seq<string>)
    requires Valid(s)
    ensures Valid(Run(s, lines))
    decreases |lines|
  {
    if lines != [] {
      StepValid(s, lines[0]);
      RunValid(Step(s, lines[0]), lines[1..]);
    }
  }

  /** Two passes over consecutive pieces of text are one pass over both. */
  lemma {:induction false} RunConcat(s: State, a: seq<string>, b: seq<string>)
    ensures Run(s, a + b) == Run(Run(s, a), b)
    decreases |a|
  {
    if a == [] {
      assert a + b == b;
    } else {
      assert (a + b)[0] == a[0] && (a + b)[1..] == a[1..] + b;
      RunConcat(Step(s, a[0]), a[1..], b);
    }
  }

  /** The (name, help) of each family, in order. */
  function Heads(metrics: seq<Metric>): seq<(string, string)> {
    seq(|metrics|, i requires 0 <= i < |metrics| => (metrics[i].name, metrics[i].help))
  }

  /** The (name, help) captures of a line that matches the HELP pattern. */
  function HelpDecl(line: string): seq<(string, string)> {
    match MatchHelp(line)
    case Some(h) => [(h.name, h.help)]
    case None => []
  }

  /** The (name, help) captures of the lines that match the HELP pattern. */
  function HelpDecls(lines: seq<string>): seq<(string, string)>
    decreases |lines|
  {
    if lines == [] then [] else HelpDecl(lines[0]) + HelpDecls(lines[1..])
  }

  lemma StepHeads(s: State, line: string)
    ensures Heads(Step(s, line).metrics) == Heads(s.metrics) + HelpDecl(line)
  {
    ClassifyHelp(line);
    var r := Step(s, line);
    match Classify(line)
    case Help(h) =>
      assert Heads(r.metrics) == Heads(s.metrics) + [(h.name, h.help)];
    case Type(t) =>
      assert Heads(r.metrics) == Heads(s.metrics);
    case Sample(m) =>
      assert Heads(r.metrics) == Heads(s.metrics);
    case _ =>
  }

  /** Families are created only by lines matching the HELP pattern, one per
      line, in the order of the lines; nothing else adds, removes, renames or
      reorders a family. */
  lemma {:induction false} RunHeads(s: State, lines: seq<string>)
    ensures Heads(Run(s, lines).metrics) == Heads(s.metrics) + HelpDecls(lines)
    decreases |lines|
  {
    if lines != [] {
      RunHeads(Step(s, lines[0]), lines[1..]);
      RunHeadsStep(s, lines);
    }
  }

  lemma RunHeadsStep(s: State, lines: seq<string>)
    requires lines != []
    requires Heads(Run(Step(s, lines[0]), lines[1..]).metrics) ==
             Heads(Step(s, lines[0]).metrics) + HelpDecls(lines[1..])
    ensures Heads(Run(s, lines).metrics) == Heads(s.metrics) + HelpDecls(lines)
  {
    StepHeads(s, lines[0]);
    assert Run(s, lines) == Run(Step(s, lines[0]), lines[1..]);
    assert HelpDecls(lines) == HelpDecl(lines[0]) + HelpDecls(lines[1..]);
    AppendAssociates(Heads(s.metrics), HelpDecl(lines[0]), HelpDecls(lines[1..]));
  }

  lemma AppendAssociates<T>(a: seq<T>, b: seq<T>, c: seq<T>)
    ensures a + (b + c) == (a + b) + c
  {
  }

  /** The families of a parse are exactly the accepted HELP lines, in order:
      as many families as such lines, a repeated name giving a second family. */
  lemma ParseFamilies(text: string)
    ensures Heads(Parse(text)) == HelpDecls(Split(text, '\n'))
    ensures |Parse(text)| == |HelpDecls(Split(text, '\n'))|
  {
    RunHeads(Init, Split(text, '\n'));
  }

  /** An accepted HELP line appends a family with its name and help, an empty
      type and no samples, and makes it the current family. */
  lemma HelpCreatesFamily(s: State, line: string, h: HelpLine)
    requires MatchHelp(line) == Some(h)
    ensures Step(s, line).metrics == s.metrics + [Metric(h.name, h.help, "", [])]
    ensures Step(s, line).current == |s.metrics|
  {
    ClassifyHelp(line);
  }

  /** A line in the TYPE branch creates no family and leaves the cursor, the
      names, the help texts and the samples alone. When it matches the TYPE
      pattern it sets the type of the first family with its name only. */
  lemma TypeLineEffect(s: State, line: string)
    requires StartsWith(line, "# TYPE")
    ensures var r := Step(s, line);
            r.current == s.current && |r.metrics| == |s.metrics| &&
            forall j :: 0 <= j < |s.metrics| ==>
              r.metrics[j].name == s.metrics[j].name &&
              r.metrics[j].help == s.metrics[j].help &&
              r.metrics[j].values == s.metrics[j].values &&
              r.metrics[j].metricType ==
                if MatchType(line).Some? && j == FirstNamed(s.metrics, MatchType(line).value.name)
                then MatchType(line).value.metricType
                else s.metrics[j].metricType
  {
    DirectivePrefixes(line);
    ClassifyType(line);
  }

  /** Of two TYPE lines for the same name, the later one wins. */
  lemma LaterTypeOverwrites(s: State, first: string, second: string)
    requires MatchType(first).Some? && MatchType(second).Some?
    requires MatchType(first).value.name == MatchType(second).value.name
    ensures Step(Step(s, first), second) == Step(s, second)
  {
    ClassifyType(first);
    ClassifyType(second);
    var name := MatchType(first).value.name;
    var i := FirstNamed(s.metrics, name);
    if i != -1 {
      var mid := Step(s, first);
      assert FirstNamed(mid.metrics, name) == i by {
        assert forall j :: 0 <= j < |mid.metrics| ==> mid.metrics[j].name == s.metrics[j].name;
      }
    }
  }

  /** A matching sample line, whatever its metric name, appends one record to
      the current family and changes nothing else; before any family exists
      it changes nothing at all. */
  lemma SampleLineEffect(s: State, line: string, m: SampleLine)
    requires Valid(s)
    requires !StartsWith(line, "# HELP") && !StartsWith(line, "# TYPE")
    requires MatchSample(line) == Some(m)
    ensures s.current == -1 ==> Step(s, line) == s
    ensures s.current != -1 ==>
              var r := Step(s, line);
              var f := s.metrics[s.current];
              r.current == s.current && |r.metrics| == |s.metrics| &&
              r.metrics[s.current] ==
                Metric(f.name, f.help, f.metricType,
                       f.values + [MetricValue(DecodeLabels(m.labelBlock), ParseFloat(m.value))]) &&
              forall j :: 0 <= j < |s.metrics| && j != s.current ==> r.metrics[j] == s.metrics[j]
  {
  }

  /** The records of the sample lines among `lines`, in order. */
  function Records(lines: seq<string>): seq<MetricValue>
    decreases |lines|
  {
    if lines == [] then []
    else
      var first := match Classify(lines[0])
                   case Sample(m) => [MetricValue(DecodeLabels(m.labelBlock), ParseFloat(m.value))]
                   case _ => [];
      first + Records(lines[1..])
  }

  lemma RecordsCons(lines: seq<string>)
    requires lines != []
    ensures Records(lines) == Records([lines[0]]) + Records(lines[1..])
  {
    assert [lines[0]][1..] == [];
  }

  /** `r` is `s` with `records` appended to the current family's samples,
      the cursor and every other family's samples as they were. */
  predicate Appended(s: State, r: State, records: seq<MetricValue>)
    requires 0 <= s.current < |s.metrics|
  {
    r.current == s.current && |r.metrics| == |s.metrics| &&
    r.metrics[s.current].values == s.metrics[s.current].values + records &&
    forall j :: 0 <= j < |s.metrics| && j != s.current ==> r.metrics[j].values == s.metrics[j].values
  }

  lemma AppendedTwice(s: State, t: State, r: State, first: seq<MetricValue>, rest: seq<MetricValue>)
    requires 0 <= s.current < |s.metrics|
    requires Appended(s, t, first) && Appended(t, r, rest)
    ensures Appended(s, r, first + rest)
  {
  }

  /** One line that is not an accepted HELP line, after the first family. */
  lemma StepRecords(s: State, line: string)
    requires Valid(s) && s.current >= 0 && MatchHelp(line).None?
    ensures Valid(Step(s, line)) && Appended(s, Step(s, line), Records([line]))
  {
    ClassifyHelp(line);
    assert Records([line]) == match Classify(line)
                              case Sample(m) => [MetricValue(DecodeLabels(m.labelBlock), ParseFloat(m.value))]
                              case _ => [];
    match Classify(line)
    case Type(t) =>
      DirectivePrefixes(line);
      TypeLineEffect(s, line);
    case _ =>
  }

  /** Between two accepted HELP lines, the sample lines go to the current
      family in source order, and no other family gains a sample. */
  lemma {:induction false} SamplesInOrder(s: State, lines: seq<string>)
    requires Valid(s) && s.current >= 0 && HelpDecls(lines) == []
    ensures Appended(s, Run(s, lines), Records(lines))
    decreases |lines|
  {
    if lines == [] {
    } else {
      var line := lines[0];
      assert MatchHelp(line).None?;
      RecordsCons(lines);
      var t := Step(s, line);
      StepRecords(s, line);
      SamplesInOrder(t, lines[1..]);
      AppendedTwice(s, t, Run(t, lines[1..]), Records([line]), Records(lines[1..]));
    }
  }

  /** Without an accepted HELP line nothing is ever recorded: every sample
      before the first family is dropped. */
  lemma {:induction false} NoHelpNoFamilies(lines: seq<string>)
    requires HelpDecls(lines) == []
    ensures Run(Init, lines) == Init
    decreases |lines|
  {
    if lines != [] {
      ClassifyHelp(lines[0]);
      assert MatchHelp(lines[0]).None?;
      assert Step(Init, lines[0]) == Init;
      NoHelpNoFamilies(lines[1..]);
    }
  }

  /** Lines before the first accepted HELP line do not matter. */
  lemma LeadingLinesDropped(before: seq<string>, after: seq<string>)
    requires HelpDecls(before) == []
    ensures Run(Init, before + after) == Run(Init, after)
  {
    RunConcat(Init, before, after);
    NoHelpNoFamilies(before);
  }

  /** An empty line, a whitespace-only line, and a HELP or TYPE line whose
      pattern fails all leave the state as it was. */
  lemma IgnoredLines(s: State, line: string)
    requires line == [] || AllSpace(line) ||
             (StartsWith(line, "# HELP") && MatchHelp(line).None?) ||
             (StartsWith(line, "# TYPE") && MatchType(line).None?)
    ensures Step(s, line) == s
  {
    DirectivePrefixes(line);
    if line != [] && AllSpace(line) {
      assert IsSpace(line[0]);
      assert !StartsWith(line, "# HELP") && !StartsWith(line, "# TYPE") by {
        assert !IsSpace('#');
      }
      LeadingSpaceRejected(line);
    }
  }

  /** A sample, with or without labels, followed by a third token (a
      Prometheus timestamp) or by trailing whitespace is dropped. */
  lemma TimestampLineIgnored(st: State, m: SampleLine, rest: string)
    requires WellFormedSample(m) && '{' !in m.name && m.name != "#"
    requires rest != [] && IsSpace(rest[0])
    ensures Step(st, RenderSample(m) + rest) == st
  {
    MoreAfterValueRejected(m, rest);
    NoDirectivePrefix(m, rest);
  }

  /** `m{a="b"} 1 2`: a labelled sample with a timestamp is dropped. */
  lemma LabelledTimestampExample(st: State)
    ensures Step(st, "m{a=\"b\"} 1 2") == st
  {
    var m := SampleLine("m", Some("a=\"b\""), " ", "1");
    assert RenderSample(m) + " 2" == "m{a=\"b\"} 1 2";
    TimestampLineIgnored(st, m, " 2");
  }

  /** A line that starts with a sample name other than `#` is in neither
      directive branch. */
  lemma NoDirectivePrefix(m: SampleLine, rest: string)
    requires IsToken(m.name) && m.name != "#"
    ensures var line := RenderSample(m) + rest;
            !StartsWith(line, "# HELP") && !StartsWith(line, "# TYPE")
  {
    var line := RenderSample(m) + rest;
    SampleLayout(m);
    if |m.name| >= 2 {
      assert line[1] == m.name[1];
    } else {
      assert line[0] == m.name[0];
      assert m.name == [m.name[0]];
    }
  }

  /** Deleting ignored lines anywhere in the text changes nothing. */
  lemma IgnoredLineAnywhere(s: State, before: seq<string>, line: string, after: seq<string>)
    requires Classify(line) == Blank || Classify(line) == Unrecognized
    ensures Run(s, before + [line] + after) == Run(s, before + after)
  {
    RunConcat(s, before, [line] + after);
    RunConcat(s, before, after);
    assert before + [line] + after == before + ([line] + after);
  }

  /** A `#` comment that is neither HELP nor TYPE is a sample named `#`: a line
      `# word` appends a record without labels and with value
      `parseFloat(word)` to the current family. */
  lemma CommentLineIsSample(s: State, word: string)
    requires Valid(s) && s.current != -1
    requires IsToken(word)
    requires !StartsWith("# " + word, "# HELP") && !StartsWith("# " + word, "# TYPE")
    ensures Step(s, "# " + word).metrics[s.current].values ==
            s.metrics[s.current].values + [MetricValue([], ParseFloat(word))]
  {
    var m := SampleLine("#", None, " ", word);
    assert RenderSample(m) == "# " + word;
    assert IsSpace(' ') && !IsSpace('#');
    SampleLineRecognised(m);
    SampleLineEffect(s, "# " + word, m);
  }

  /** A line starting with `# HELP` or `# TYPE` never reaches the sample
      pattern, even when it would match it: `# HELP` alone fits the sample
      pattern as the sample `#` with value `HELP`, but it fails the HELP
      pattern and so changes nothing. */
  lemma BareHelpNotSample(s: State)
    ensures MatchSample("# HELP") == Some(SampleLine("#", None, " ", "HELP"))
    ensures Step(s, "# HELP") == s
  {
    var m := SampleLine("#", None, " ", "HELP");
    assert RenderSample(m) == "# HELP";
    assert IsSpace(' ') && !IsSpace('#') && "# HELP"[2] == 'H';
    SampleLineRecognised(m);
    assert StartsWith("# HELP", "# HELP");
  }

  /** `# note`: one record, value `parseFloat("note")`. */
  lemma NoteCommentExample(s: State)
    requires Valid(s) && s.current != -1
    ensures Step(s, "# note").metrics[s.current].values ==
            s.metrics[s.current].values + [MetricValue([], ParseFloat("note"))]
  {
    assert "# note" == "# " + "note";
    assert "# note"[2] == 'n';
    CommentLineIsSample(s, "note");
  }

  /** A HELP line ending in `\r` (a CRLF text) is never accepted: `.` does
      not match the carriage return. */
  lemma CarriageReturnHelpRejected(line: string)
    requires line != [] && line[|line| - 1] == '\r'
    ensures MatchHelp(line) == None
  {
    if StartsWith(line, "# HELP ") {
      var k := RunEnd(line, 7, false);
      if 7 < k && k + 1 < |line| {
        var help := line[k + 1..];
        assert help[|help| - 1] == '\r';
      }
    }
  }

  lemma {:induction false} CarriageReturnLinesNoHelp(lines: seq<string>)
    requires forall line :: line in lines ==> line == [] || line[|line| - 1] == '\r'
    ensures HelpDecls(lines) == []
    decreases |lines|
  {
    if lines != [] {
      assert lines[0] in lines;
      if lines[0] != [] {
        CarriageReturnHelpRejected(lines[0]);
      }
      assert forall line :: line in lines[1..] ==> line in lines;
      CarriageReturnLinesNoHelp(lines[1..]);
    }
  }

  /** A text whose every line ends in `\r\n` parses to no family at all. */
  lemma CrlfTextHasNoFamilies(text: string)
    requires forall line :: line in Split(text, '\n') ==> line == [] || line[|line| - 1] == '\r'
    ensures Parse(text) == []
  {
    CarriageReturnLinesNoHelp(Split(text, '\n'));
    NoHelpNoFamilies(Split(text, '\n'));
  }

}
