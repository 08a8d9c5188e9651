/** One metric family written out as an exposition text (a HELP line, a TYPE
    line and one sample, separated by newlines) is read back by the parser as
    exactly that family. */
module RoundTrip {
  import opened Options
  import opened JsText
  import opened LineGrammar
  import opened Exposition
  import opened ParserProperties

  /** A sample line that fits on one line and is not the bare comment name `#`. */
  predicate OnOneLine(m: SampleLine) {
    m.name != [] && m.name != "#" &&
    '\n' !in m.gap && (m.labelBlock.Some? ==> '\n' !in m.labelBlock.value)
  }

  /** The text of one family. */
  function FamilyText(h: HelpLine, t: TypeLine, m: SampleLine): string {
    RenderHelp(h) + "\n" + RenderType(t) + "\n" + RenderSample(m)
  }

  lemma TokenOnOneLine(s: string)
    requires IsToken(s)
    ensures '\n' !in s
  {
  }

  lemma HelpOnOneLine(h: HelpLine)
    requires WellFormedHelp(h)
    ensures '\n' !in RenderHelp(h)
  {
    TokenOnOneLine(h.name);
  }

  lemma TypeOnOneLine(t: TypeLine)
    requires WellFormedType(t)
    ensures '\n' !in RenderType(t)
  {
    TokenOnOneLine(t.name);
    TokenOnOneLine(t.metricType);
  }

  lemma SampleOnOneLine(m: SampleLine)
    requires WellFormedSample(m) && OnOneLine(m)
    ensures '\n' !in RenderSample(m)
  {
    TokenOnOneLine(m.name);
    TokenOnOneLine(m.value);
  }

  /** The text splits into exactly its three lines. */
  lemma FamilyLines(h: HelpLine, t: TypeLine, m: SampleLine)
    requires WellFormedHelp(h) && WellFormedType(t) && WellFormedSample(m) && OnOneLine(m)
    ensures Split(FamilyText(h, t, m), '\n') == [RenderHelp(h), RenderType(t), RenderSample(m)]
  {
    HelpOnOneLine(h);
    TypeOnOneLine(t);
    SampleOnOneLine(m);
    var rest := RenderType(t) + "\n" + RenderSample(m);
    assert FamilyText(h, t, m) == RenderHelp(h) + ['\n'] + rest;
    assert rest == RenderType(t) + ['\n'] + RenderSample(m);
    SplitFirst(RenderHelp(h), rest, '\n');
    SplitFirst(RenderType(t), RenderSample(m), '\n');
    SplitNone(RenderSample(m), '\n');
  }

  /** The HELP line opens the family, with no type and no samples yet. */
  lemma FirstLineOpens(h: HelpLine)
    requires WellFormedHelp(h)
    ensures Step(Init, RenderHelp(h)) == State([Metric(h.name, h.help, "", [])], 0)
  {
    HelpLineRecognised(h);
    HelpCreatesFamily(Init, RenderHelp(h), h);
  }

  /** The TYPE line for the same name types that family. */
  lemma SecondLineTypes(h: HelpLine, t: TypeLine)
    requires WellFormedType(t) && t.name == h.name
    ensures Step(State([Metric(h.name, h.help, "", [])], 0), RenderType(t)) ==
            State([Metric(h.name, h.help, t.metricType, [])], 0)
  {
    var s := State([Metric(h.name, h.help, "", [])], 0);
    TypeLineRecognised(t);
    assert RenderType(t)[..6] == "# TYPE";
    TypeLineEffect(s, RenderType(t));
    assert FirstNamed(s.metrics, t.name) == 0;
  }

  /** The sample line adds its record to that family. */
  lemma ThirdLineRecords(h: HelpLine, t: TypeLine, m: SampleLine)
    requires WellFormedSample(m) && OnOneLine(m) && '{' !in m.name
    ensures Step(State([Metric(h.name, h.help, t.metricType, [])], 0), RenderSample(m)) ==
            State([Metric(h.name, h.help, t.metricType, [Record(m)])], 0)
  {
    var s := State([Metric(h.name, h.help, t.metricType, [])], 0);
    var line := RenderSample(m);
    NoDirectivePrefix(m, []);
    assert line + [] == line;
    SampleLineRecognised(m);
    SampleLineEffect(s, line, m);
    var r := Step(s, line);
    assert r.metrics == [Metric(h.name, h.help, t.metricType, [Record(m)])] by {
      assert |r.metrics| == 1;
      assert s.metrics[0].values + [Record(m)] == [Record(m)];
    }
  }

  /** Parsing the text of one family gives back that family: its name and
      help from the HELP line, its type from the TYPE line, and the sample's
      labels and value as its one record. */
  lemma {:induction false} FamilyRoundTrip(h: HelpLine, t: TypeLine, m: SampleLine)
    requires WellFormedHelp(h) && WellFormedType(t) && t.name == h.name
    requires WellFormedSample(m) && OnOneLine(m) && '{' !in m.name
    ensures Parse(FamilyText(h, t, m)) == [Metric(h.name, h.help, t.metricType, [Record(m)])]
  {
    var lines := [RenderHelp(h), RenderType(t), RenderSample(m)];
    FamilyLines(h, t, m);
    var s1 := Step(Init, lines[0]);
    FirstLineOpens(h);
    var s2 := Step(s1, lines[1]);
    SecondLineTypes(h, t);
    var s3 := Step(s2, lines[2]);
    ThirdLineRecords(h, t, m);
    assert Run(s3, lines[3..]) == s3;
    assert Run(s2, lines[2..]) == Run(s3, lines[3..]);
    assert Run(s1, lines[1..]) == Run(s2, lines[2..]);
    assert Run(Init, lines) == Run(s1, lines[1..]);
  }

}
