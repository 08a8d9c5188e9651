/** `parsePrometheusMetrics`: one pass over the lines of a metrics text, with
    a state made of the families found so far and a cursor on the family the
    last accepted HELP line created. The functional model (`Classify`, `Step`,
    `Run`, `Parse`) states what one line and the whole pass do; the class
    `MetricsParser` and the method `ParsePrometheusMetrics` are the loop as
    written, proved equal to it. */
module Exposition {
  import opened Options
  import opened JsText
  import opened LineGrammar
  import opened LabelSet

  /** `parseFloat(token)`, kept symbolic: the model never needs the number. */
  datatype Number = ParseFloat(token: string)

  datatype MetricValue = MetricValue(labels: Labels, value: Number)

  datatype Metric = Metric(name: string, help: string, metricType: string, values: seq<MetricValue>)

  /** The families so far, and the index of `currentMetric` (-1 for `null`). */
  datatype State = State(metrics: seq<Metric>, current: int)

  const Init: State := State([], -1)

  /** The cursor is `null` before the first family and the last family after. */
  predicate Valid(s: State) {
    s.current == |s.metrics| - 1
  }

  /** How the loop body treats a line. */
  datatype LineKind =
    | Blank
    | Help(help: HelpLine)
    | Type(decl: TypeLine)
    | Sample(sample: SampleLine)
    | Unrecognized

  /** The branches of the loop body: `if (!line)`, `startsWith("# HELP")`,
      `startsWith("# TYPE")`, then the sample pattern. A line in a directive
      branch whose pattern fails is not tried as a sample. */
  function Classify(line: string): LineKind {
    if line == [] then Blank
    else if StartsWith(line, "# HELP") then
      match MatchHelp(line)
      case Some(h) => Help(h)
      case None => Unrecognized
    else if StartsWith(line, "# TYPE") then
      match MatchType(line)
      case Some(t) => Type(t)
      case None => Unrecognized
    else
      match MatchSample(line)
      case Some(m) => Sample(m)
      case None => Unrecognized
  }

  /** `metrics.find((m) => m.name === name)`, as an index, -1 for `undefined`. */
  function FirstNamed(metrics: seq<Metric>, name: string): (i: int)
    ensures i == -1 || (0 <= i < |metrics| && metrics[i].name == name)
    ensures i == -1 ==> forall j :: 0 <= j < |metrics| ==> metrics[j].name != name
    ensures i != -1 ==> forall j :: 0 <= j < i ==> metrics[j].name != name
  {
    if metrics == [] then -1
    else if metrics[0].name == name then 0
    else
      var j := FirstNamed(metrics[1..], name);
      assert forall k :: 1 <= k < |metrics| ==> metrics[k] == metrics[1..][k - 1];
      if j == -1 then -1 else j + 1
  }

  /** The record a sample line contributes. */
  function Record(m: SampleLine): MetricValue {
    MetricValue(DecodeLabels(m.labelBlock), ParseFloat(m.value))
  }

  /** A new family for an accepted HELP line, which becomes the current one. */
  function AddFamily(s: State, h: HelpLine): State {
    State(s.metrics + [Metric(h.name, h.help, "", [])], |s.metrics|)
  }

  /** `metric.type = type` on the first family with the name, if any. */
  function SetType(s: State, t: TypeLine): State {
    var i := FirstNamed(s.metrics, t.name);
    if i == -1 then s
    else s.(metrics := s.metrics[i := s.metrics[i].(metricType := t.metricType)])
  }

  /** `currentMetric.values.push(...)`, when there is a current family. */
  function AddSample(s: State, m: SampleLine): State {
    if 0 <= s.current < |s.metrics| then
      var f := s.metrics[s.current];
      s.(metrics := s.metrics[s.current := f.(values := f.values + [Record(m)])])
    else s
  }

  /** One iteration of the loop. */
  function Step(s: State, line: string): State {
    match Classify(line)
    case Help(h) => AddFamily(s, h)
    case Type(t) => SetType(s, t)
    case Sample(m) => AddSample(s, m)
    case _ => s
  }

  /** The loop over `lines`, from state `s`. */
  function Run(s: State, lines: seq<string>): State
    decreases |lines|
  {
    if lines == [] then s else Run(Step(s, lines[0]), lines[1..])
  }

  /** `parsePrometheusMetrics(text)`: lines are split on `\n` only. */
  function Parse(text: string): seq<Metric> {
    Run(Init, Split(text, '\n')).metrics
  }

  /** The parser state of one call. */
  class MetricsParser {
    var metrics: seq<Metric>
    var current: int

    function Snapshot(): State
      reads this
    {
      State(metrics, current)
    }

    constructor()
      ensures Snapshot() == Init
    {
      metrics := [];
      current := -1;
    }

    /** The body of `for (const line of lines)`. */
    method ProcessLine(line: string)
      modifies this
      ensures Snapshot() == Step(old(Snapshot()), line)
      ensures old(current) == |old(metrics)| - 1 ==> current == |metrics| - 1
    {
      if line == [] {
        return;
      }
      if StartsWith(line, "# HELP") {
        var h := MatchHelp(line);
        if h.Some? {
          metrics := metrics + [Metric(h.value.name, h.value.help, "", [])];
          current := |metrics| - 1;
        }
      } else if StartsWith(line, "# TYPE") {
        var t := MatchType(line);
        if t.Some? {
          var i := FirstNamed(metrics, t.value.name);
          if i != -1 {
            metrics := metrics[i := metrics[i].(metricType := t.value.metricType)];
          }
        }
      } else {
        var m := MatchSample(line);
        if m.Some? && 0 <= current < |metrics| {
          var labels := DecodeLabelBlock(m.value.labelBlock);
          var f := metrics[current];
          metrics := metrics[current := f.(values := f.values + [MetricValue(labels, ParseFloat(m.value.value))])];
        }
      }
    }
  }

  /** The whole function: a fresh state, then every line in order. */
  method ParsePrometheusMetrics(text: string) returns (result: seq<Metric>)
    ensures result == Parse(text)
  {
    var parser := new MetricsParser();
    var lines := Split(text, '\n');
    var i := 0;
    while i < |lines|
      invariant 0 <= i <= |lines|
      invariant Run(parser.Snapshot(), lines[i..]) == Run(Init, lines)
    {
      assert lines[i..][1..] == lines[i + 1..];
      parser.ProcessLine(lines[i]);
      i := i + 1;
    }
    result := parser.metrics;
  }

}
