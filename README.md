# Metrics parsing and dashboard counts of the employee-awards front-end

This project models, in Dafny, the computational core of the employee-awards
dashboard front-end:

- **The Prometheus text parser** `parsePrometheusMetrics`
  (`src/services/parseMetrics.ts`). It splits the text on `\n` and walks the
  lines with a nullable "current family" cursor. A `# HELP name text` line
  opens a new family. A `# TYPE name type` line sets the type of the first
  family with that name. Any other line, one starting with neither `# HELP`
  nor `# TYPE`, that matches `^(\S+?)(\{([^}]*)\})?\s+(\S+)$` adds a sample
  to the current family, if there is one. The sample's label block is
  decoded into a JavaScript object.
- **The lookup** `getMetricValue` (`src/services/helpers.ts`). It returns the
  sample values of the first family with a given name.
- **The onboarding summary** `generateOnboardingMetrics`
  (`src/utils/mockData.ts`). It counts distinct managers and projects by id,
  totals the employees, and groups employees by manager name in a `Map`. It
  then counts the managers with more than 15 employees.
- **The counting parts of** `generateSentimentMetrics`
  (`src/utils/mockData.ts`):
  - the POSITIVE/NEGATIVE/NEUTRAL distribution;
  - the `Map` of core-value tallies;
  - the ranking: stable sort by count, largest first, cut to five.

Layout:

| file | module | what it holds |
|---|---|---|
| `options.dfy` | `Options` | `Option` |
| `jstext.dfy` | `JsText` | JavaScript string built-ins: `\s`, `indexOf`, `trim`, `split` on one character with `join` as its inverse |
| `ordered.dfy` | `Ordered` | `Dedup`, the first-seen order of a JavaScript `Set` |
| `jsmap.dfy` | `JsMap` | a JavaScript `Map` keyed by strings, as entries in insertion order |
| `linegrammar.dfy` | `LineGrammar` | the three regular expressions, as first-match functions, with soundness and recognition lemmas |
| `labelset.dfy` | `LabelSet` | the label-block decoder |
| `exposition.dfy` | `Exposition` | the parser: one step per line as a function, the imperative class and method proved against it |
| `parserproperties.dfy` | `ParserProperties` | what a parse guarantees |
| `roundtrip.dfy` | `RoundTrip` | the text of one family parses back to that family |
| `query.dfy` | `Query` | `getMetricValue` |
| `onboarding.dfy` | `Onboarding` | `generateOnboardingMetrics` |
| `sentiment.dfy` | `Sentiment` | the counting parts of `generateSentimentMetrics` |

### How the source is represented

- **Loops.** The `for` and `forEach` loops that update state become Dafny
  `method`s with `while` loops. Each method is proved against a functional
  fold:
  - `Step`/`Run` for the parser;
  - `CountAll` for the manager `Map`;
  - `TallyAll` for the core-value `Map`;
  - `DecodeFrom` for the label object.

  What the source promises is proved about those folds.
- **Parser state.** The parser's mutable state (`metrics`, `currentMetric`)
  is the class `Exposition.MetricsParser`. `currentMetric` is held as an
  index into `metrics`.
- **Maps and objects.** A JavaScript `Map` and the label object are both
  lists of entries in insertion order.
- **Regex matching.** The regular expressions are written out as the
  backtracking order they follow:
  1. the lazy name grows one character at a time;
  2. at each length, the brace group is tried before no group;
  3. the value is the last token, preceded by a run of whitespace.

  `.` excludes the ECMAScript line terminators. `\s` is the ECMAScript
  whitespace set.

### Quirks of the code that the model keeps

- **Samples attach by position, not by name.** A sample line is appended to
  the most recently opened family whatever its metric name. A line `# note`
  that is neither HELP nor TYPE matches the sample pattern with name `#`, so
  it also becomes a sample (`ParserProperties.CommentLineIsSample`).
- **The directive prefix decides the branch.** A line starting with `# HELP`
  or `# TYPE` that fails its own pattern is dropped, even when the sample
  pattern would match it: `# HELP` alone is no sample
  (`ParserProperties.BareHelpNotSample`).
- **The label check happens before trimming and stripping.** The `k && v`
  test is applied to the key before `trim()` and to the value before its
  quotes are stripped. So `{key=""}` keeps a label with the empty value
  (`LabelSet.EmptyQuotedValue`). A second `=` cuts the value short
  (`LabelSet.SecondEqualsTruncates`).
- **Lines are split on `\n` only.** A HELP line ending in `\r` fails `.+$`,
  so a CRLF text yields no family at all
  (`ParserProperties.CrlfTextHasNoFamilies`).

## Model

| member | source | states |
|---|---|---|
| LineGrammar.MatchHelp | src/services/parseMetrics.ts:23 | the HELP pattern as a first-match function; what it accepts is stated by `HelpLineSound` and `HelpLineRecognised` |
| LineGrammar.MatchType | src/services/parseMetrics.ts:29 | the TYPE pattern; stated by `TypeLineSound` and `TypeLineRecognised` |
| LineGrammar.MatchSample | src/services/parseMetrics.ts:35 | the sample pattern, searched in backtracking order; stated by `SampleLineSound`, `SampleLineRecognised`, the `Search*` lemmas and `MoreAfterValueRejected` |
| Exposition.Classify | src/services/parseMetrics.ts:20-54 | which branch of the loop body a line takes; used by `Step` |
| Exposition.Step | src/services/parseMetrics.ts:20-54 | one turn of the loop on the state; stated by `HelpCreatesFamily`, `TypeLineEffect`, `SampleLineEffect` and `IgnoredLines` |
| Exposition.Parse | src/services/parseMetrics.ts:14-58 | the whole parse; stated by `ParseFamilies`, `SamplesInOrder`, `NoHelpNoFamilies` and `RoundTrip.FamilyRoundTrip` |
| Exposition.FirstNamed | src/services/parseMetrics.ts:30 | `metrics.find` by name: the index of a family with the name and none before it, or -1 when no family has it |
| Exposition.MetricsParser.constructor | src/services/parseMetrics.ts:15-17 | a fresh parse has no families and a null current family |
| Exposition.MetricsParser.ProcessLine | src/services/parseMetrics.ts:19-55 | one turn of the loop takes the parser state to `Step` of the old state and the line, and keeps the cursor on the last family |
| Exposition.ParsePrometheusMetrics | src/services/parseMetrics.ts:14-58 | the imperative parse returns exactly `Parse(text)`, the fold of `Step` over the `\n`-split lines |
| JsText.JoinSplit | src/services/parseMetrics.ts:16 | `split("\n")` loses nothing: joining the lines gives back the text |
| JsText.SplitJoin | src/services/parseMetrics.ts:16 | lines free of `\n` are recovered exactly by splitting their join |
| JsText.TrimOf | src/services/parseMetrics.ts:44 | `trim()` removes exactly the surrounding whitespace |
| LineGrammar.HelpLineSound | src/services/parseMetrics.ts:23 | an accepted HELP line is exactly `# HELP ` + a whitespace-free name + ` ` + a non-empty help text without line terminators |
| LineGrammar.HelpLineRecognised | src/services/parseMetrics.ts:23 | every such line is accepted, with exactly its name and help as captures |
| LineGrammar.TypeLineSound | src/services/parseMetrics.ts:29 | an accepted TYPE line is exactly `# TYPE ` + name + ` ` + type, both whitespace-free |
| LineGrammar.TypeLineRecognised | src/services/parseMetrics.ts:29 | every such line is accepted, with exactly its name and type |
| LineGrammar.SampleLineSound | src/services/parseMetrics.ts:35 | an accepted sample line is its name, optional `{block}` without `}`, a whitespace gap and one value token, in that order |
| LineGrammar.SampleLineRecognised | src/services/parseMetrics.ts:35 | every well-formed sample line whose name has no `{` is accepted with exactly those captures |
| LineGrammar.SearchPassesNameChar | src/services/parseMetrics.ts:35 | the lazy name grows past any character that is neither `{` nor whitespace |
| LineGrammar.SearchStopsAtBrace | src/services/parseMetrics.ts:35 | at a `{`, the group up to the first `}` is tried first, and it wins when a gap and a final value follow |
| LineGrammar.SearchStopsAtGap | src/services/parseMetrics.ts:35 | the search stops at the first name length followed by a gap and a final value |
| LineGrammar.SearchFailsAtGap | src/services/parseMetrics.ts:35 | whitespace that does not start the final gap ends the search without a match |
| LineGrammar.LeadingSpaceRejected | src/services/parseMetrics.ts:35 | a line starting with whitespace is never a sample |
| LineGrammar.MoreAfterValueRejected | src/services/parseMetrics.ts:35 | every well-formed sample line whose name has no `{`, with or without a label block, followed by whitespace and more text (such as a timestamp) is no sample |
| LabelSet.Fragment | src/services/parseMetrics.ts:42-43 | one piece's `split("=")` and `k && v` test; stated by `FragmentAssigns`, `FragmentWithoutEquals` and `FragmentEmptySide` |
| LabelSet.StripQuotes | src/services/parseMetrics.ts:44 | the quote-stripping `replace`; stated by `StripQuotesQuoted` and `StripQuotesBare` |
| LabelSet.Assign | src/services/parseMetrics.ts:44 | the object assignment `labels[k] = v`; stated by `AssignEffect` |
| LabelSet.DecodeLabels | src/services/parseMetrics.ts:40-47 | the decoded labels of a block; stated by `DecodeLabelsMeaning` and the example lemmas below |
| LabelSet.AssignEffect | src/services/parseMetrics.ts:44 | `labels[k] = v` keeps keys distinct, appends only a new key, makes `k` read `v` and every other key read as before, and never creates `__proto__` |
| LabelSet.StripQuotesQuoted | src/services/parseMetrics.ts:44 | `replace(/^"\|"$/g, "")` removes exactly the two surrounding quotes |
| LabelSet.StripQuotesBare | src/services/parseMetrics.ts:44 | a value without surrounding quotes is unchanged |
| LabelSet.FragmentAssigns | src/services/parseMetrics.ts:42-44 | a piece `key=value[=...]` with both sides non-empty assigns the trimmed key to the unquoted value |
| LabelSet.FragmentWithoutEquals | src/services/parseMetrics.ts:42-43 | a piece without `=` assigns nothing |
| LabelSet.FragmentEmptySide | src/services/parseMetrics.ts:43 | a piece with an empty key or an empty value, before trimming, assigns nothing |
| LabelSet.DecodeLabelBlock | src/services/parseMetrics.ts:38-47 | the `forEach` over the `,`-pieces produces `DecodeLabels(block)` |
| LabelSet.DecodeLabelsMeaning | src/services/parseMetrics.ts:40-46 | the decoded keys are the assigned keys in first-assignment order, all distinct, and each reads as the last value assigned to it |
| LabelSet.OneLabel | src/services/parseMetrics.ts:40-46 | `{k=v}` gives one label (trimmed key, unquoted value), none for `__proto__` |
| LabelSet.TwoPieces | src/services/parseMetrics.ts:41 | two pieces are applied in order |
| LabelSet.TwoLabels | src/services/parseMetrics.ts:40-46 | `{k1=v1,k2=v2}` gives two labels in order, or one holding `v2` when the trimmed keys agree |
| LabelSet.EmptyQuotedValue | src/services/parseMetrics.ts:43-44 | `{k=""}` keeps the label, with the empty value |
| LabelSet.SecondEqualsTruncates | src/services/parseMetrics.ts:42 | `{k=v=more}` keeps only `v` |
| LabelSet.KeyTrimmed | src/services/parseMetrics.ts:44 | whitespace around a key is dropped |
| LabelSet.ProtoKeyIgnored | src/services/parseMetrics.ts:44 | `{__proto__=v}` creates no label |
| LabelSet.NoBlockNoLabels | src/services/parseMetrics.ts:40 | no block or an empty block gives no labels |
| ParserProperties.RunValid | src/services/parseMetrics.ts:25-26 | the current family is always the last family created |
| ParserProperties.RunConcat | src/services/parseMetrics.ts:19-55 | parsing two runs of lines in a row is one pass over both |
| ParserProperties.ParseFamilies | src/services/parseMetrics.ts:22-27 | the families of a parse are the accepted HELP lines, in order and as many, a repeated name giving a second family |
| ParserProperties.HelpCreatesFamily | src/services/parseMetrics.ts:22-27 | an accepted HELP line appends a family with its name and help, empty type and no values, and makes it current |
| ParserProperties.TypeLineEffect | src/services/parseMetrics.ts:28-31 | a TYPE line changes only the type of the first family with its name, creates nothing and keeps the cursor |
| ParserProperties.LaterTypeOverwrites | src/services/parseMetrics.ts:28-31 | of two TYPE lines for one name, the later one decides |
| ParserProperties.SampleLineEffect | src/services/parseMetrics.ts:32-53 | a sample appends its decoded labels and `parseFloat` value to the current family only, or changes nothing when there is none |
| ParserProperties.SamplesInOrder | src/services/parseMetrics.ts:36-53 | between two HELP lines, the samples are appended to the current family in source order, and no other family gains a sample |
| ParserProperties.NoHelpNoFamilies | src/services/parseMetrics.ts:36 | without an accepted HELP line, the parse state stays empty |
| ParserProperties.LeadingLinesDropped | src/services/parseMetrics.ts:36 | lines before the first accepted HELP line do not affect the result |
| ParserProperties.IgnoredLines | src/services/parseMetrics.ts:20-31 | empty and whitespace-only lines, and HELP/TYPE lines whose pattern fails, leave the state unchanged |
| ParserProperties.IgnoredLineAnywhere | src/services/parseMetrics.ts:19-55 | removing an ignored line anywhere from the text leaves the result unchanged |
| ParserProperties.TimestampLineIgnored | src/services/parseMetrics.ts:35-36 | a sample line whose name has no `{` and is not `#`, with or without labels, followed by a timestamp or trailing whitespace is dropped |
| ParserProperties.LabelledTimestampExample | src/services/parseMetrics.ts:35-36 | the line `m{a="b"} 1 2` changes nothing |
| ParserProperties.CommentLineIsSample | src/services/parseMetrics.ts:32-53 | `# word` that is neither HELP nor TYPE appends a sample with no labels and `parseFloat(word)` |
| ParserProperties.BareHelpNotSample | src/services/parseMetrics.ts:22-27 | the line `# HELP` fits the sample pattern as the sample `#` with value `HELP`, yet it leaves the state unchanged, because it takes the HELP branch and fails the HELP pattern |
| ParserProperties.NoteCommentExample | src/services/parseMetrics.ts:32-53 | `# note` appends one sample, valued `parseFloat("note")` |
| ParserProperties.CarriageReturnHelpRejected | src/services/parseMetrics.ts:23 | a HELP line ending in `\r` is never accepted |
| ParserProperties.CrlfTextHasNoFamilies | src/services/parseMetrics.ts:16-27 | a text whose lines all end in `\r` parses to no family |
| RoundTrip.FamilyLines | src/services/parseMetrics.ts:16 | the text of one family splits into exactly its HELP, TYPE and sample lines |
| RoundTrip.FamilyRoundTrip | src/services/parseMetrics.ts:14-58 | a HELP, a TYPE and a sample line for one name parse to exactly that family: its name, help and type, and one sample with its decoded labels and value |
| JsMap.SetEffect | src/utils/mockData.ts:325-328 | `map.set` keeps keys distinct and in insertion order, makes the key read the new value and leaves every other key as before |
| JsMap.SumBySet | src/utils/mockData.ts:324-328 | adding to one entry through `get`/`set` adds that amount to the sum of the values |
| Query.SampleValues | src/services/helpers.ts:6 | `values.map((v) => v.value)`: as many numbers as samples, each the sample's value |
| Query.GetMetricValue | src/services/helpers.ts:3-7 | `[]` when no family has the name, otherwise the mapped values of the family `find` returns |
| Query.FirstFamilyAnswers | src/services/helpers.ts:4-6 | the answer has the first matching family's sample values, as many and in order |
| Query.LaterFamiliesIgnored | src/services/helpers.ts:4 | families after the first match, including duplicates of its name, never change the answer |
| Query.OtherNamesIgnored | src/services/helpers.ts:4 | families with other names before the match never change the answer |
| Onboarding.TotalEmployees | src/utils/mockData.ts:320 | the `reduce` sum of employee counts; tied to the distribution by `GenerateOnboardingMetrics` and `DistributionTotal` |
| Onboarding.CountAll | src/utils/mockData.ts:323-330 | the `Map` after the `forEach`; stated by `CountAllTallies` |
| Onboarding.DistinctCount | src/utils/mockData.ts:318-319 | `new Set(ids).size` is at most the number of mappings, and at least one when there are any |
| Onboarding.ManagerEmployeeCounts | src/utils/mockData.ts:322-330 | the `forEach` gives one entry per distinct manager name, in first-seen order, each holding that name's employees, and the entries sum to the total |
| Onboarding.CountAllTallies | src/utils/mockData.ts:322-330 | the same facts, about the fold that specifies the loop |
| Onboarding.AddMapping | src/utils/mockData.ts:324-328 | one `get(name) \|\| 0` then `set` turn keeps those facts for one more mapping |
| Onboarding.DistributionTotal | src/utils/mockData.ts:332-337 | the distribution holds the same employees as the `Map` |
| Onboarding.Overloaded | src/utils/mockData.ts:339-341 | the overloaded managers are exactly the distribution entries above 15, each as many times as it occurs there, so there are no more of them than entries |
| Onboarding.GenerateOnboardingMetrics | src/utils/mockData.ts:315-350 | managers and projects are counted by distinct id; `totalEmployees` is the sum, and the distribution also sums to it; one distribution entry per distinct name, in first-seen order, holding that name's employees; overloaded is at most the distribution length |
| Onboarding.ManagersByIdLoadsByName | src/utils/mockData.ts:318-330 | two mappings with different ids but the same manager name count as two managers and one distribution entry |
| Sentiment.CountLabel | src/utils/mockData.ts:443-445 | `filter(label).length`; stated by `DistributionTotal` |
| Sentiment.TallyAll | src/utils/mockData.ts:453-462 | the `Map` after the `forEach`; stated by `TallyAllCoreTallies` |
| Sentiment.SortByCount | src/utils/mockData.ts:470 | the stable sort, largest count first; stated by `SortByCountSorted`, `SortByCountPermutes` and `SortByCountStable` |
| Sentiment.TopCoreValues | src/utils/mockData.ts:470-471 | the sort followed by `slice(0, 5)`; stated by `TopCoreValuesRanked` |
| Sentiment.DistributionTotal | src/utils/mockData.ts:442-446 | positive + negative + neutral equals the number of results |
| Sentiment.OccurrencesPositive | src/utils/mockData.ts:453-462 | a core value is counted at least once exactly when some result predicted it |
| Sentiment.CoreValueCounts | src/utils/mockData.ts:449-462 | the `forEach` gives one entry per predicted core value, in first-seen order, holding its count and alignment total, and the counts sum to the number of results |
| Sentiment.TallyAllCoreTallies | src/utils/mockData.ts:449-462 | the same facts, about the fold that specifies the loop |
| Sentiment.AddResult | src/utils/mockData.ts:454-461 | one `get \|\| {0, 0}` then `set` turn keeps those facts for one more result |
| Sentiment.TallyStats | src/utils/mockData.ts:464-469 | the mapped `Map` entries are the core values in first-seen order, each with its count and alignment, counts summing to the number of results |
| Sentiment.CoreValueStatsPositive | src/utils/mockData.ts:464-469 | every ranked core value has a count of at least one |
| Sentiment.SortByCountSorted | src/utils/mockData.ts:470 | the sort orders by count, largest first |
| Sentiment.SortByCountPermutes | src/utils/mockData.ts:470 | the sort keeps exactly the same entries (a permutation) |
| Sentiment.SortByCountStable | src/utils/mockData.ts:470 | the sort is stable: entries of equal count keep their order |
| Sentiment.TopCoreValuesRanked | src/utils/mockData.ts:464-471 | `topCoreValues` has min(n, 5) entries, largest count first, all from the input, and no entry left out counts more than one kept |
| Sentiment.GenerateSentimentMetrics | src/utils/mockData.ts:435-471 | `totalAnalyzed` is the number of results; the distribution sums to it; the top values are the ranking of the per-value tallies, each counted at least once, and those counts sum to `totalAnalyzed` |

## Left out

- `parseFloat` is not modelled: a value is the symbolic `ParseFloat(token)`, so `NaN`, infinities and numeric equality of different spellings are not captured.
- Floating-point averages are not modelled: `averageSentimentScore`, `averageAlignment` (kept as the alignment total it is divided from) and the division by zero on an empty result list.
- The project-sentiment (`projectSentiments`, `src/utils/mockData.ts:473-496`) and manager-performance (`managerPerformance`, `src/utils/mockData.ts:498-521`) parts of `generateSentimentMetrics` are not modelled; they are further float averages over the same grouping.
- The random `faker` generators in `src/utils/mockData.ts` that produce the mock inputs are not modelled: they are randomness, not logic.
- Exposition.MetricsParser.ProcessLine: the shared `currentMetric` object is modelled as an index into `metrics`, so aliasing between the cursor and the list is not captured; the observable families are the same.
- LabelSet.Assign: the JavaScript rule that integer-like keys of an object are listed first, in numeric order, is not modelled; keys keep creation order.
- Strings are sequences of code points; UTF-16 surrogate pairs are not modelled.
- Onboarding: `employeeCount` is an unbounded integer; floating-point rounding of large sums is not modelled.
- Only the record fields the core reads are modelled (ids, names, counts, labels, core value, alignment).
