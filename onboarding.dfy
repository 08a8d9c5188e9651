/** `generateOnboardingMetrics`: the summary of manager-to-project
    assignments shown on the onboarding page. Managers and projects are
    counted by id, employees are summed, and the per-manager load is grouped
    by manager name in a `Map`, in the order the names first appear. */
module Onboarding {
  import opened Options
  import opened Ordered
  import opened JsMap

  /** The fields of a `ManagerProjectMapping` the summary reads. */
  datatype ManagerProjectMapping = ManagerProjectMapping(
    managerId: string, managerName: string, projectId: string, employeeCount: int)

  datatype ManagerLoad = ManagerLoad(managerName: string, employeeCount: int)

  datatype OnboardingMetrics = OnboardingMetrics(
    totalManagers: nat,
    totalProjects: nat,
    totalEmployees: int,
    overloadedManagers: nat,
    managerDistribution: seq<ManagerLoad>)

  /** A manager with more employees than this is overloaded. */
  const OverloadLimit: int := 15

  function ManagerIds(mappings: seq<ManagerProjectMapping>): seq<string> {
    seq(|mappings|, i requires 0 <= i < |mappings| => mappings[i].managerId)
  }

  function ProjectIds(mappings: seq<ManagerProjectMapping>): seq<string> {
    seq(|mappings|, i requires 0 <= i < |mappings| => mappings[i].projectId)
  }

  function ManagerNames(mappings: seq<ManagerProjectMapping>): seq<string> {
    seq(|mappings|, i requires 0 <= i < |mappings| => mappings[i].managerName)
  }

  /** `new Set(xs).size` */
  function DistinctCount(xs: seq<string>): (n: nat)
    ensures n <= |xs|
    ensures xs != [] ==> n >= 1
  {
    DedupLength(xs);
    DedupElements(xs);
    assert xs != [] ==> xs[0] in Dedup(xs);
    |Dedup(xs)|
  }

  /** `mappings.reduce((sum, m) => sum + m.employeeCount, 0)` */
  function TotalEmployees(mappings: seq<ManagerProjectMapping>): int
    decreases |mappings|
  {
    if mappings == [] then 0
    else TotalEmployees(mappings[..|mappings| - 1]) + mappings[|mappings| - 1].employeeCount
  }

  /** The employees of all mappings whose manager is called `name`. */
  function EmployeesOf(mappings: seq<ManagerProjectMapping>, name: string): int
    decreases |mappings|
  {
    if mappings == [] then 0
    else
      var m := mappings[|mappings| - 1];
      EmployeesOf(mappings[..|mappings| - 1], name) + if m.managerName == name then m.employeeCount else 0
  }

  /** A name no mapping carries has no employees. */
  lemma {:induction false} EmployeesOfAbsent(mappings: seq<ManagerProjectMapping>, name: string)
    requires name !in ManagerNames(mappings)
    ensures EmployeesOf(mappings, name) == 0
    decreases |mappings|
  {
    if mappings != [] {
      var init := mappings[..|mappings| - 1];
      assert ManagerNames(init) == ManagerNames(mappings)[..|init|];
      assert mappings[|init|].managerName == ManagerNames(mappings)[|init|];
      EmployeesOfAbsent(init, name);
    }
  }

  /** `map.get(key) || 0` */
  function CountOrZero(counts: Entries<int>, key: string): int {
    match Get(counts, key)
    case None => 0
    case Some(n) => n
  }

  function Identity(n: int): int { n }

  /** What the `Map` holds once the mappings `seen` have been counted: one
      entry per manager name in first-seen order, each holding the employees
      of that name, so that together they hold every employee. */
  predicate Tallies(counts: Entries<int>, seen: seq<ManagerProjectMapping>) {
    Keys(counts) == Dedup(ManagerNames(seen)) &&
    CountsMatch(counts, seen) &&
    SumBy(counts, Identity) == TotalEmployees(seen)
  }

  /** Every entry holds the employees of its name. */
  predicate CountsMatch(counts: Entries<int>, seen: seq<ManagerProjectMapping>) {
    forall j :: 0 <= j < |counts| ==> counts[j].1 == EmployeesOf(seen, counts[j].0)
  }

  /** The `Map` once the mappings `seen` have been counted, one at a time:
      `get(name) || 0`, add the employees, `set`. */
  function CountAll(seen: seq<ManagerProjectMapping>): Entries<int>
    decreases |seen|
  {
    if seen == [] then []
    else
      var counts := CountAll(seen[..|seen| - 1]);
      var m := seen[|seen| - 1];
      Set(counts, m.managerName, CountOrZero(counts, m.managerName) + m.employeeCount)
  }

  /** The counting does what the `Map` is for. */
  lemma {:induction false} CountAllTallies(seen: seq<ManagerProjectMapping>)
    ensures Tallies(CountAll(seen), seen)
    decreases |seen|
  {
    if seen != [] {
      var init := seen[..|seen| - 1];
      CountAllTallies(init);
      AddMapping(init, seen[|seen| - 1], CountAll(init));
      assert seen == init + [seen[|seen| - 1]];
    }
  }

  /** The `forEach` that fills `managerEmployeeCounts`. */
  method ManagerEmployeeCounts(mappings: seq<ManagerProjectMapping>) returns (counts: Entries<int>)
    ensures counts == CountAll(mappings)
    ensures Tallies(counts, mappings)
  {
    counts := [];
    var i := 0;
    while i < |mappings|
      invariant i <= |mappings|
      invariant counts == CountAll(mappings[..i])
    {
      var mapping := mappings[i];
      var current := CountOrZero(counts, mapping.managerName);
      counts := Set(counts, mapping.managerName, current + mapping.employeeCount);
      assert mappings[..i + 1][..i] == mappings[..i];
      i := i + 1;
    }
    assert mappings[..i] == mappings;
    CountAllTallies(mappings);
  }

  /** One turn of the `forEach`: `get(name) || 0`, add the employees, `set`. */
  lemma AddMapping(seen: seq<ManagerProjectMapping>, m: ManagerProjectMapping, counts: Entries<int>)
    requires Tallies(counts, seen)
    ensures Tallies(Set(counts, m.managerName, CountOrZero(counts, m.managerName) + m.employeeCount), seen + [m])
  {
    var value := CountOrZero(counts, m.managerName) + m.employeeCount;
    ReadCount(seen, m.managerName, counts);
    AddMappingKeys(seen, m, counts, value);
    AddMappingCounts(seen, m, counts, value);
    AddMappingTotal(seen, m, counts, value);
  }

  /** Reading the count of a name gives the employees seen under it so far. */
  lemma ReadCount(seen: seq<ManagerProjectMapping>, name: string, counts: Entries<int>)
    requires Keys(counts) == Dedup(ManagerNames(seen)) && CountsMatch(counts, seen)
    ensures Distinct(Keys(counts))
    ensures CountOrZero(counts, name) == EmployeesOf(seen, name)
  {
    DedupDistinct(ManagerNames(seen));
    DedupElements(ManagerNames(seen));
    if EntryIndex(counts, name) == -1 {
      EmployeesOfAbsent(seen, name);
    }
  }

  lemma AddMappingKeys(seen: seq<ManagerProjectMapping>, m: ManagerProjectMapping, counts: Entries<int>, value: int)
    requires Keys(counts) == Dedup(ManagerNames(seen)) && Distinct(Keys(counts))
    ensures Keys(Set(counts, m.managerName, value)) == Dedup(ManagerNames(seen + [m]))
  {
    var all := seen + [m];
    assert all[..|seen|] == seen;
    assert ManagerNames(all) == ManagerNames(seen) + [m.managerName];
    DedupSnoc(ManagerNames(seen), m.managerName);
    DedupElements(ManagerNames(seen));
    SetEffect(counts, m.managerName, value);
  }

  lemma AddMappingCounts(seen: seq<ManagerProjectMapping>, m: ManagerProjectMapping, counts: Entries<int>, value: int)
    requires Distinct(Keys(counts)) && CountsMatch(counts, seen)
    requires value == EmployeesOf(seen, m.managerName) + m.employeeCount
    ensures CountsMatch(Set(counts, m.managerName, value), seen + [m])
  {
    var name := m.managerName;
    var r := Set(counts, name, value);
    SetEffect(counts, name, value);
    forall j | 0 <= j < |r|
      ensures r[j].1 == EmployeesOf(seen + [m], r[j].0)
    {
      EmployeesOfSnoc(seen, m, r[j].0);
      if r[j].0 == name {
        EntryIndexUnique(r, name, j);
      }
    }
  }

  /** One more mapping adds employees to its own manager name only. */
  lemma EmployeesOfSnoc(seen: seq<ManagerProjectMapping>, m: ManagerProjectMapping, name: string)
    ensures EmployeesOf(seen + [m], name) ==
            EmployeesOf(seen, name) + if m.managerName == name then m.employeeCount else 0
  {
    assert (seen + [m])[..|seen|] == seen;
  }

  lemma AddMappingTotal(seen: seq<ManagerProjectMapping>, m: ManagerProjectMapping, counts: Entries<int>, value: int)
    requires SumBy(counts, Identity) == TotalEmployees(seen)
    requires value == CountOrZero(counts, m.managerName) + m.employeeCount
    ensures SumBy(Set(counts, m.managerName, value), Identity) == TotalEmployees(seen + [m])
  {
    var all := seen + [m];
    assert all[..|seen|] == seen;
    SumBySet(counts, m.managerName, value, Identity);
  }

  /** `Array.from(managerEmployeeCounts.entries()).map(...)` */
  function Distribution(counts: Entries<int>): (r: seq<ManagerLoad>)
    ensures |r| == |counts|
    ensures forall j :: 0 <= j < |r| ==> r[j] == ManagerLoad(counts[j].0, counts[j].1)
  {
    seq(|counts|, j requires 0 <= j < |counts| => ManagerLoad(counts[j].0, counts[j].1))
  }

  /** `managerDistribution.filter((m) => m.employeeCount > 15)` */
  function Overloaded(loads: seq<ManagerLoad>): (r: seq<ManagerLoad>)
    ensures |r| <= |loads|
    ensures forall x :: x in r <==> x in loads && x.employeeCount > OverloadLimit
    ensures forall x :: multiset(r)[x] == if x.employeeCount > OverloadLimit then multiset(loads)[x] else 0
    decreases |loads|
  {
    if loads == [] then []
    else
      var init := Overloaded(loads[..|loads| - 1]);
      var x := loads[|loads| - 1];
      assert loads == loads[..|loads| - 1] + [x];
      assert multiset(loads) == multiset(loads[..|loads| - 1]) + multiset{x};
      if x.employeeCount > OverloadLimit then init + [x] else init
  }

  /** The whole function: managers and projects counted by id, employees
      summed, and the per-name distribution, which accounts for every
      employee once, with its overloaded entries counted. */
  method GenerateOnboardingMetrics(mappings: seq<ManagerProjectMapping>) returns (r: OnboardingMetrics)
    ensures r.totalManagers == DistinctCount(ManagerIds(mappings)) <= |mappings|
    ensures r.totalProjects == DistinctCount(ProjectIds(mappings)) <= |mappings|
    ensures r.totalEmployees == TotalEmployees(mappings) == LoadTotal(r.managerDistribution)
    ensures |r.managerDistribution| == DistinctCount(ManagerNames(mappings))
    ensures forall j :: 0 <= j < |r.managerDistribution| ==>
              r.managerDistribution[j].managerName == Dedup(ManagerNames(mappings))[j] &&
              r.managerDistribution[j].employeeCount == EmployeesOf(mappings, r.managerDistribution[j].managerName)
    ensures r.overloadedManagers == |Overloaded(r.managerDistribution)| <= |r.managerDistribution|
  {
    var counts := ManagerEmployeeCounts(mappings);
    DedupLength(ManagerNames(mappings));
    var distribution := Distribution(counts);
    DistributionTotal(counts);
    assert forall j :: 0 <= j < |counts| ==> counts[j].0 == Keys(counts)[j];
    r := OnboardingMetrics(
      DistinctCount(ManagerIds(mappings)),
      DistinctCount(ProjectIds(mappings)),
      TotalEmployees(mappings),
      |Overloaded(distribution)|,
      distribution);
  }

  function LoadTotal(loads: seq<ManagerLoad>): int
    decreases |loads|
  {
    if loads == [] then 0 else LoadTotal(loads[..|loads| - 1]) + loads[|loads| - 1].employeeCount
  }

  /** The distribution holds the same employees as the `Map` it lists. */
  lemma {:induction false} DistributionTotal(counts: Entries<int>)
    ensures LoadTotal(Distribution(counts)) == SumBy(counts, Identity)
    decreases |counts|
  {
    if counts != [] {
      var init := counts[..|counts| - 1];
      assert Distribution(counts)[..|init|] == Distribution(init);
      DistributionTotal(init);
    }
  }

  /** Managers are counted by id but grouped by name: two mappings of
      different manager ids that share a name make two managers and one
      distribution entry. */
  lemma ManagersByIdLoadsByName(a: ManagerProjectMapping, b: ManagerProjectMapping)
    requires a.managerId != b.managerId && a.managerName == b.managerName
    ensures DistinctCount(ManagerIds([a, b])) == 2
    ensures DistinctCount(ManagerNames([a, b])) == 1
  {
    assert ManagerIds([a, b]) == [] + [a.managerId] + [b.managerId];
    DedupSnoc([], a.managerId);
    DedupSnoc([a.managerId], b.managerId);
    assert ManagerNames([a, b]) == [] + [a.managerName] + [b.managerName];
    DedupSnoc([], a.managerName);
    DedupSnoc([a.managerName], b.managerName);
  }

}
