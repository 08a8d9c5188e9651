/** `getMetricValue`: the sample values of the first family with a given name,
    as the dashboard reads them out of the parser's result. */
module Query {
  import opened Exposition

  /** `values.map((v) => v.value)` */
  function SampleValues(values: seq<MetricValue>): (r: seq<Number>)
    ensures |r| == |values|
    ensures forall k :: 0 <= k < |values| ==> r[k] == values[k].value
  {
    seq(|values|, k requires 0 <= k < |values| => values[k].value)
  }

  /** `metrics.find((m) => m.name === name)`, then its values, or `[]` when no
      family carries the name. */
  function GetMetricValue(metrics: seq<Metric>, name: string): (r: seq<Number>)
    ensures (forall j :: 0 <= j < |metrics| ==> metrics[j].name != name) ==> r == []
    ensures FirstNamed(metrics, name) != -1 ==>
              r == SampleValues(metrics[FirstNamed(metrics, name)].values)
  {
    var i := FirstNamed(metrics, name);
    if i == -1 then [] else SampleValues(metrics[i].values)
  }

  /** The family that answers is the first one with the name: the result has
      as many values as it has samples, and in the same order. */
  lemma FirstFamilyAnswers(metrics: seq<Metric>, name: string, i: nat)
    requires i < |metrics| && metrics[i].name == name
    requires forall j :: 0 <= j < i ==> metrics[j].name != name
    ensures |GetMetricValue(metrics, name)| == |metrics[i].values|
    ensures forall k :: 0 <= k < |metrics[i].values| ==>
              GetMetricValue(metrics, name)[k] == metrics[i].values[k].value
  {
    var f := FirstNamed(metrics, name);
    assert f == i by {
      if f == -1 {
      } else if f < i {
      } else if f > i {
      }
    }
  }

  /** A family of the same name further down the list, such as the one a
      repeated HELP line creates, never contributes; neither does any change
      to the families after the first match. */
  lemma LaterFamiliesIgnored(metrics: seq<Metric>, more: seq<Metric>, name: string)
    requires exists j :: 0 <= j < |metrics| && metrics[j].name == name
    ensures GetMetricValue(metrics + more, name) == GetMetricValue(metrics, name)
  {
    var i := FirstNamed(metrics, name);
    assert (metrics + more)[i] == metrics[i];
    FirstFamilyAnswers(metrics + more, name, i);
    FirstFamilyAnswers(metrics, name, i);
  }

  /** Families before the first match that carry other names do not matter
      either: only the first match and what it holds decide the answer. */
  lemma OtherNamesIgnored(others: seq<Metric>, metrics: seq<Metric>, name: string)
    requires forall j :: 0 <= j < |others| ==> others[j].name != name
    ensures GetMetricValue(others + metrics, name) == GetMetricValue(metrics, name)
  {
    var i := FirstNamed(metrics, name);
    if i == -1 {
      assert forall j :: 0 <= j < |others + metrics| ==> (others + metrics)[j].name != name by {
        forall j | 0 <= j < |others + metrics|
          ensures (others + metrics)[j].name != name
        {
          if j >= |others| {
            assert (others + metrics)[j] == metrics[j - |others|];
          }
        }
      }
    } else {
      assert (others + metrics)[|others| + i] == metrics[i];
      forall j | 0 <= j < |others| + i
        ensures (others + metrics)[j].name != name
      {
        if j >= |others| {
          assert (others + metrics)[j] == metrics[j - |others|];
        }
      }
      FirstFamilyAnswers(others + metrics, name, |others| + i);
      FirstFamilyAnswers(metrics, name, i);
    }
  }

}
