/** The counting parts of `generateSentimentMetrics`: how many results carry
    each sentiment label, and the core values ranked by how often they were
    predicted, grouped in a `Map` in first-seen order, sorted by count
    (stably, largest first) and cut to five. */
module Sentiment {
  import opened Options
  import opened Ordered
  import opened JsMap

  datatype SentimentLabel = Positive | Negative | Neutral

  /** The fields of a `SentimentResult` the counts read. */
  datatype SentimentResult = SentimentResult(
    sentimentLabel: SentimentLabel, predictedCoreValue: string, coreValueAlignment: int)

  datatype SentimentDistribution = SentimentDistribution(positive: nat, negative: nat, neutral: nat)

  /** The value of a `coreValueCounts` entry. */
  datatype CoreValueTally = CoreValueTally(count: int, totalAlignment: int)

  /** An entry of `topCoreValues`, with the alignment total its average is
      computed from. */
  datatype CoreValueStat = CoreValueStat(value: string, count: int, totalAlignment: int)

  datatype SentimentMetrics = SentimentMetrics(
    totalAnalyzed: nat,
    sentimentDistribution: SentimentDistribution,
    topCoreValues: seq<CoreValueStat>)

  /** How many core values `topCoreValues` keeps. */
  const TopCount: nat := 5

  // ---------------------------------------------------------------------
  // Label distribution

  /** `results.filter((r) => r.sentiment_label === wanted).length` */
  function CountLabel(results: seq<SentimentResult>, wanted: SentimentLabel): nat
    decreases |results|
  {
    if results == [] then 0
    else
      CountLabel(results[..|results| - 1], wanted) +
      if results[|results| - 1].sentimentLabel == wanted then 1 else 0
  }

  function Distribution(results: seq<SentimentResult>): SentimentDistribution {
    SentimentDistribution(
      CountLabel(results, Positive), CountLabel(results, Negative), CountLabel(results, Neutral))
  }

  /** Every result carries exactly one of the three labels, so the three
      counts add up to the number of results. */
  lemma {:induction false} DistributionTotal(results: seq<SentimentResult>)
    ensures var d := Distribution(results);
            d.positive + d.negative + d.neutral == |results|
    decreases |results|
  {
    if results != [] {
      DistributionTotal(results[..|results| - 1]);
    }
  }

  // ---------------------------------------------------------------------
  // Core value counts

  function CoreValues(results: seq<SentimentResult>): seq<string> {
    seq(|results|, i requires 0 <= i < |results| => results[i].predictedCoreValue)
  }

  /** The results that predicted `value`. */
  function Occurrences(results: seq<SentimentResult>, value: string): nat
    decreases |results|
  {
    if results == [] then 0
    else
      Occurrences(results[..|results| - 1], value) +
      if results[|results| - 1].predictedCoreValue == value then 1 else 0
  }

  /** The alignment of the results that predicted `value`, summed. */
  function AlignmentOf(results: seq<SentimentResult>, value: string): int
    decreases |results|
  {
    if results == [] then 0
    else
      var r := results[|results| - 1];
      AlignmentOf(results[..|results| - 1], value) +
      if r.predictedCoreValue == value then r.coreValueAlignment else 0
  }

  /** A predicted value occurs at least once; any other value never. */
  lemma {:induction false} OccurrencesPositive(results: seq<SentimentResult>, value: string)
    ensures value in CoreValues(results) <==> Occurrences(results, value) >= 1
    decreases |results|
  {
    if results != [] {
      var init := results[..|results| - 1];
      assert CoreValues(results) == CoreValues(init) + [results[|init|].predictedCoreValue];
      OccurrencesPositive(init, value);
    }
  }

  /** A value nobody predicted has no alignment either. */
  lemma {:induction false} AlignmentOfAbsent(results: seq<SentimentResult>, value: string)
    requires value !in CoreValues(results)
    ensures AlignmentOf(results, value) == 0
    decreases |results|
  {
    if results != [] {
      var init := results[..|results| - 1];
      assert CoreValues(results) == CoreValues(init) + [results[|init|].predictedCoreValue];
      AlignmentOfAbsent(init, value);
    }
  }

  function Count(t: CoreValueTally): int { t.count }

  /** The tally of `value` over `results`. */
  function TallyOf(results: seq<SentimentResult>, value: string): CoreValueTally {
    CoreValueTally(Occurrences(results, value), AlignmentOf(results, value))
  }

  /** What `coreValueCounts` holds once the results `seen` have been counted:
      one entry per predicted core value in first-seen order, each with the
      number of results predicting it and their alignment total, so that the
      counts together cover every result once. */
  predicate CoreTallies(tally: Entries<CoreValueTally>, seen: seq<SentimentResult>) {
    Keys(tally) == Dedup(CoreValues(seen)) &&
    TalliesMatch(tally, seen) &&
    SumBy(tally, Count) == |seen|
  }

  /** Every entry holds the tally of its core value. */
  predicate TalliesMatch(tally: Entries<CoreValueTally>, seen: seq<SentimentResult>) {
    forall j :: 0 <= j < |tally| ==> tally[j].1 == TallyOf(seen, tally[j].0)
  }

  /** `coreValueCounts.get(value) || { count: 0, totalAlignment: 0 }` */
  function TallyOrZero(tally: Entries<CoreValueTally>, value: string): CoreValueTally {
    match Get(tally, value)
    case None => CoreValueTally(0, 0)
    case Some(t) => t
  }

  /** `coreValueCounts` once the results `seen` have been counted, one at a
      time: read the entry (or a zero one), store it bumped. */
  function TallyAll(seen: seq<SentimentResult>): Entries<CoreValueTally>
    decreases |seen|
  {
    if seen == [] then []
    else
      var tally := TallyAll(seen[..|seen| - 1]);
      var r := seen[|seen| - 1];
      Set(tally, r.predictedCoreValue, Bump(TallyOrZero(tally, r.predictedCoreValue), r))
  }

  /** The counting does what the `Map` is for. */
  lemma {:induction false} TallyAllCoreTallies(seen: seq<SentimentResult>)
    ensures CoreTallies(TallyAll(seen), seen)
    decreases |seen|
  {
    if seen != [] {
      var init := seen[..|seen| - 1];
      TallyAllCoreTallies(init);
      AddResult(init, seen[|seen| - 1], TallyAll(init));
      assert seen == init + [seen[|seen| - 1]];
    }
  }

  /** The `forEach` that fills `coreValueCounts`. */
  method CoreValueCounts(results: seq<SentimentResult>) returns (tally: Entries<CoreValueTally>)
    ensures tally == TallyAll(results)
    ensures CoreTallies(tally, results)
  {
    tally := [];
    var i := 0;
    while i < |results|
      invariant i <= |results|
      invariant tally == TallyAll(results[..i])
    {
      var result := results[i];
      var existing := TallyOrZero(tally, result.predictedCoreValue);
      tally := Set(tally, result.predictedCoreValue, Bump(existing, result));
      assert results[..i + 1][..i] == results[..i];
      i := i + 1;
    }
    assert results[..i] == results;
    TallyAllCoreTallies(results);
  }

  /** The entry a result stores: one more result, its alignment added. */
  function Bump(t: CoreValueTally, r: SentimentResult): CoreValueTally {
    CoreValueTally(t.count + 1, t.totalAlignment + r.coreValueAlignment)
  }

  /** One turn of the `forEach`. */
  lemma AddResult(seen: seq<SentimentResult>, r: SentimentResult, tally: Entries<CoreValueTally>)
    requires CoreTallies(tally, seen)
    ensures CoreTallies(Set(tally, r.predictedCoreValue, Bump(TallyOrZero(tally, r.predictedCoreValue), r)), seen + [r])
  {
    var value := Bump(TallyOrZero(tally, r.predictedCoreValue), r);
    ReadTally(seen, r.predictedCoreValue, tally);
    AddResultKeys(seen, r, tally, value);
    AddResultTallies(seen, r, tally, value);
    AddResultTotal(seen, r, tally, value);
  }

  /** Reading the entry of a value gives its tally over the results so far. */
  lemma ReadTally(seen: seq<SentimentResult>, value: string, tally: Entries<CoreValueTally>)
    requires Keys(tally) == Dedup(CoreValues(seen)) && TalliesMatch(tally, seen)
    ensures Distinct(Keys(tally))
    ensures TallyOrZero(tally, value) == TallyOf(seen, value)
  {
    DedupDistinct(CoreValues(seen));
    DedupElements(CoreValues(seen));
    if EntryIndex(tally, value) == -1 {
      OccurrencesPositive(seen, value);
      AlignmentOfAbsent(seen, value);
    }
  }

  lemma AddResultKeys(seen: seq<SentimentResult>, r: SentimentResult, tally: Entries<CoreValueTally>, value: CoreValueTally)
    requires Keys(tally) == Dedup(CoreValues(seen)) && Distinct(Keys(tally))
    ensures Keys(Set(tally, r.predictedCoreValue, value)) == Dedup(CoreValues(seen + [r]))
  {
    var all := seen + [r];
    assert all[..|seen|] == seen;
    assert CoreValues(all) == CoreValues(seen) + [r.predictedCoreValue];
    DedupSnoc(CoreValues(seen), r.predictedCoreValue);
    DedupElements(CoreValues(seen));
    SetEffect(tally, r.predictedCoreValue, value);
  }

  lemma AddResultTallies(seen: seq<SentimentResult>, r: SentimentResult, tally: Entries<CoreValueTally>, value: CoreValueTally)
    requires Distinct(Keys(tally)) && TalliesMatch(tally, seen)
    requires value == Bump(TallyOf(seen, r.predictedCoreValue), r)
    ensures TalliesMatch(Set(tally, r.predictedCoreValue, value), seen + [r])
  {
    var key := r.predictedCoreValue;
    var t := Set(tally, key, value);
    SetEffect(tally, key, value);
    forall j | 0 <= j < |t|
      ensures t[j].1 == TallyOf(seen + [r], t[j].0)
    {
      TallyOfSnoc(seen, r, t[j].0);
      if t[j].0 == key {
        EntryIndexUnique(t, key, j);
      }
    }
  }

  /** One more result changes the tally of its own core value only. */
  lemma TallyOfSnoc(seen: seq<SentimentResult>, r: SentimentResult, v: string)
    ensures TallyOf(seen + [r], v) == if r.predictedCoreValue == v then Bump(TallyOf(seen, v), r) else TallyOf(seen, v)
  {
    assert (seen + [r])[..|seen|] == seen;
  }

  lemma AddResultTotal(seen: seq<SentimentResult>, r: SentimentResult, tally: Entries<CoreValueTally>, value: CoreValueTally)
    requires SumBy(tally, Count) == |seen|
    requires value == Bump(TallyOrZero(tally, r.predictedCoreValue), r)
    ensures SumBy(Set(tally, r.predictedCoreValue, value), Count) == |seen + [r]|
  {
    SumBySet(tally, r.predictedCoreValue, value, Count);
  }

  // ---------------------------------------------------------------------
  // Ranking

  /** `Array.from(coreValueCounts.entries()).map(...)` */
  function Stats(tally: Entries<CoreValueTally>): (r: seq<CoreValueStat>)
    ensures |r| == |tally|
  {
    seq(|tally|, j requires 0 <= j < |tally| => CoreValueStat(tally[j].0, tally[j].1.count, tally[j].1.totalAlignment))
  }

  /** The ranking input defined from the results alone: the predicted core
      values in first-seen order, each with its tally. */
  function CoreValueStats(results: seq<SentimentResult>): (r: seq<CoreValueStat>)
    ensures |r| == |Dedup(CoreValues(results))|
  {
    var values := Dedup(CoreValues(results));
    seq(|values|, j requires 0 <= j < |values| =>
      CoreValueStat(values[j], Occurrences(results, values[j]), AlignmentOf(results, values[j])))
  }

  /** Each core value in the ranking input was predicted at least once. */
  lemma CoreValueStatsPositive(results: seq<SentimentResult>)
    ensures forall x :: x in CoreValueStats(results) ==> x.count >= 1
  {
    var values := Dedup(CoreValues(results));
    DedupElements(CoreValues(results));
    forall x | x in CoreValueStats(results)
      ensures x.count >= 1
    {
      var j :| 0 <= j < |values| && CoreValueStats(results)[j] == x;
      OccurrencesPositive(results, values[j]);
    }
  }

  predicate SortedByCount(s: seq<CoreValueStat>) {
    forall i, j :: 0 <= i < j < |s| ==> s[i].count >= s[j].count
  }

  /** The entries of `xs` whose count is `c`, in order. */
  function WithCount(xs: seq<CoreValueStat>, c: int): seq<CoreValueStat>
    decreases |xs|
  {
    if xs == [] then []
    else (if xs[0].count == c then [xs[0]] else []) + WithCount(xs[1..], c)
  }

  /** Put `x` before the first entry whose count is not larger than its own. */
  function Insert(x: CoreValueStat, s: seq<CoreValueStat>): seq<CoreValueStat>
    decreases |s|
  {
    if s == [] || x.count >= s[0].count then [x] + s
    else [s[0]] + Insert(x, s[1..])
  }

  /** `.sort((a, b) => b.count - a.count)`: largest count first, entries of
      equal count in their original order (the sort is stable). */
  function SortByCount(xs: seq<CoreValueStat>): seq<CoreValueStat>
    decreases |xs|
  {
    if xs == [] then [] else Insert(xs[0], SortByCount(xs[1..]))
  }

  lemma {:induction false} InsertPermutes(x: CoreValueStat, s: seq<CoreValueStat>)
    ensures multiset(Insert(x, s)) == multiset(s) + multiset{x}
    decreases |s|
  {
    if s != [] && x.count < s[0].count {
      InsertPermutes(x, s[1..]);
      assert s == [s[0]] + s[1..];
    }
  }

  lemma {:induction false} InsertSorted(x: CoreValueStat, s: seq<CoreValueStat>)
    requires SortedByCount(s)
    ensures SortedByCount(Insert(x, s))
    decreases |s|
  {
    if s != [] && x.count < s[0].count {
      InsertSorted(x, s[1..]);
      InsertPermutes(x, s[1..]);
      var r := Insert(x, s);
      forall j | 1 <= j < |r|
        ensures r[0].count >= r[j].count
      {
        var y := r[j];
        assert y in multiset(Insert(x, s[1..]));
        assert y == x || y in s[1..];
      }
    }
  }

  lemma WithCountCons(y: CoreValueStat, ys: seq<CoreValueStat>, c: int)
    ensures WithCount([y] + ys, c) == (if y.count == c then [y] else []) + WithCount(ys, c)
  {
    assert ([y] + ys)[0] == y && ([y] + ys)[1..] == ys;
  }

  lemma {:induction false} InsertWithCount(x: CoreValueStat, s: seq<CoreValueStat>, c: int)
    ensures WithCount(Insert(x, s), c) == (if x.count == c then [x] else []) + WithCount(s, c)
    decreases |s|
  {
    if s == [] || x.count >= s[0].count {
      WithCountCons(x, s, c);
    } else {
      var own := if x.count == c then [x] else [];
      var head := if s[0].count == c then [s[0]] else [];
      var tail := WithCount(s[1..], c);
      InsertWithCount(x, s[1..], c);
      WithCountCons(s[0], Insert(x, s[1..]), c);
      WithCountCons(s[0], s[1..], c);
      assert s == [s[0]] + s[1..];
      assert WithCount(Insert(x, s), c) == head + (own + tail);
      assert WithCount(s, c) == head + tail;
      assert head == [] || own == [];
    }
  }

  /** The sorted list is ordered by count. */
  lemma {:induction false} SortByCountSorted(xs: seq<CoreValueStat>)
    ensures SortedByCount(SortByCount(xs))
    decreases |xs|
  {
    if xs != [] {
      SortByCountSorted(xs[1..]);
      InsertSorted(xs[0], SortByCount(xs[1..]));
    }
  }

  /** The sorted list holds the same entries. */
  lemma {:induction false} SortByCountPermutes(xs: seq<CoreValueStat>)
    ensures multiset(SortByCount(xs)) == multiset(xs)
    decreases |xs|
  {
    if xs != [] {
      SortByCountPermutes(xs[1..]);
      InsertPermutes(xs[0], SortByCount(xs[1..]));
      assert xs == [xs[0]] + xs[1..];
    }
  }

  /** The sort is stable: among entries of equal count, the original order
      is kept. */
  lemma {:induction false} SortByCountStable(xs: seq<CoreValueStat>, c: int)
    ensures WithCount(SortByCount(xs), c) == WithCount(xs, c)
    decreases |xs|
  {
    if xs != [] {
      SortByCountStable(xs[1..], c);
      InsertWithCount(xs[0], SortByCount(xs[1..]), c);
    }
  }

  /** `.slice(0, 5)` of the sorted list. */
  function TopCoreValues(stats: seq<CoreValueStat>): seq<CoreValueStat> {
    var sorted := SortByCount(stats);
    if |sorted| <= TopCount then sorted else sorted[..TopCount]
  }

  /** The sorted list has the input's entries, as many as the input. */
  lemma SortByCountMembers(xs: seq<CoreValueStat>)
    ensures |SortByCount(xs)| == |xs|
    ensures forall x :: x in SortByCount(xs) <==> x in xs
  {
    var sorted := SortByCount(xs);
    SortByCountPermutes(xs);
    assert |sorted| == |multiset(sorted)|;
    forall x
      ensures x in sorted <==> x in xs
    {
      assert x in sorted <==> x in multiset(sorted);
      assert x in xs <==> x in multiset(xs);
    }
  }

  /** In a list ordered by count, an entry outside a prefix counts no more
      than any entry inside it. */
  lemma PrefixRanked(sorted: seq<CoreValueStat>, n: nat)
    requires SortedByCount(sorted) && n <= |sorted|
    ensures forall i, y :: 0 <= i < n && y in sorted && y !in sorted[..n] ==> y.count <= sorted[i].count
  {
    forall i, y | 0 <= i < n && y in sorted && y !in sorted[..n]
      ensures y.count <= sorted[i].count
    {
      var k :| 0 <= k < |sorted| && sorted[k] == y;
      assert k >= n;
    }
  }

  /** At most five entries, largest count first, every one taken from the
      input, and none of the input entries left out counts more than any
      entry kept. */
  lemma TopCoreValuesRanked(stats: seq<CoreValueStat>)
    ensures |TopCoreValues(stats)| == if |stats| <= TopCount then |stats| else TopCount
    ensures SortedByCount(TopCoreValues(stats))
    ensures forall x :: x in TopCoreValues(stats) ==> x in stats
    ensures forall i, y :: 0 <= i < |TopCoreValues(stats)| && y in stats && y !in TopCoreValues(stats) ==>
              y.count <= TopCoreValues(stats)[i].count
  {
    var sorted := SortByCount(stats);
    SortByCountSorted(stats);
    SortByCountMembers(stats);
    var n := if |sorted| <= TopCount then |sorted| else TopCount;
    assert TopCoreValues(stats) == sorted[..n];
    PrefixRanked(sorted, n);
  }

  // ---------------------------------------------------------------------
  // The whole computation

  /** The counting parts of `generateSentimentMetrics`. */
  method GenerateSentimentMetrics(results: seq<SentimentResult>) returns (m: SentimentMetrics)
    ensures m.totalAnalyzed == |results|
    ensures m.sentimentDistribution == Distribution(results)
    ensures m.sentimentDistribution.positive + m.sentimentDistribution.negative +
            m.sentimentDistribution.neutral == m.totalAnalyzed
    ensures m.topCoreValues == TopCoreValues(CoreValueStats(results))
    ensures forall x :: x in m.topCoreValues ==> x.count >= 1
    ensures StatTotal(CoreValueStats(results)) == m.totalAnalyzed
  {
    var tally := CoreValueCounts(results);
    var stats := Stats(tally);
    TallyStats(tally, results);
    DistributionTotal(results);
    CoreValueStatsPositive(results);
    TopCoreValuesRanked(stats);
    m := SentimentMetrics(|results|, Distribution(results), TopCoreValues(stats));
  }

  /** The counts of all ranked core values, before the cut, added up. */
  function StatTotal(stats: seq<CoreValueStat>): int
    decreases |stats|
  {
    if stats == [] then 0 else StatTotal(stats[..|stats| - 1]) + stats[|stats| - 1].count
  }

  /** The `Map` the loop fills lists exactly the ranking input defined from
      the results, and its counts add up to the number of results. */
  lemma TallyStats(tally: Entries<CoreValueTally>, results: seq<SentimentResult>)
    requires CoreTallies(tally, results)
    ensures Stats(tally) == CoreValueStats(results)
    ensures StatTotal(Stats(tally)) == |results|
  {
    assert forall j :: 0 <= j < |tally| ==> tally[j].0 == Keys(tally)[j];
    StatTotalSum(tally);
  }

  lemma {:induction false} StatTotalSum(tally: Entries<CoreValueTally>)
    ensures StatTotal(Stats(tally)) == SumBy(tally, Count)
    decreases |tally|
  {
    if tally != [] {
      var init := tally[..|tally| - 1];
      assert Stats(tally)[..|init|] == Stats(init);
      StatTotalSum(init);
    }
  }

}
