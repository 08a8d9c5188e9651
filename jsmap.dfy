/** An ECMAScript `Map` keyed by strings: its entries in key insertion order.
    `set` on a present key replaces the value where it stands; on a new key
    it adds an entry last. */
module JsMap {
  import opened Options
  import opened Ordered

  type Entries<V> = seq<(string, V)>

  function Keys<V>(m: Entries<V>): seq<string> {
    seq(|m|, i requires 0 <= i < |m| => m[i].0)
  }

  /** Position of `key` among the entries, or -1. */
  function EntryIndex<V>(m: Entries<V>, key: string): (i: int)
    ensures i == -1 || (0 <= i < |m| && m[i].0 == key)
    ensures i == -1 <==> key !in Keys(m)
  {
    if m == [] then -1
    else if m[0].0 == key then
      assert Keys(m)[0] == key;
      0
    else
      var j := EntryIndex(m[1..], key);
      assert Keys(m) == [m[0].0] + Keys(m[1..]);
      if j == -1 then -1 else j + 1
  }

  /** `map.get(key)`, `None` standing for `undefined`. */
  function Get<V>(m: Entries<V>, key: string): (r: Option<V>)
    ensures r.None? <==> key !in Keys(m)
  {
    var i := EntryIndex(m, key);
    if i == -1 then None else Some(m[i].1)
  }

  /** `map.set(key, value)` */
  function Set<V>(m: Entries<V>, key: string, value: V): (r: Entries<V>)
    ensures |r| == if key in Keys(m) then |m| else |m| + 1
  {
    var i := EntryIndex(m, key);
    if i == -1 then m + [(key, value)] else m[i := (key, value)]
  }

  /** In a map whose keys are distinct, the entry found for a key is the
      only one with that key. */
  lemma EntryIndexUnique<V>(m: Entries<V>, key: string, j: nat)
    requires Distinct(Keys(m)) && j < |m| && m[j].0 == key
    ensures EntryIndex(m, key) == j
  {
    var i := EntryIndex(m, key);
    assert Keys(m)[i] == Keys(m)[j];
  }

  /** `set` adds the key at the end when it is new and keeps the key order
      otherwise; reading any key afterwards gives the new value for `key`
      and the old entry for every other key. */
  lemma SetEffect<V>(m: Entries<V>, key: string, value: V)
    requires Distinct(Keys(m))
    ensures Keys(Set(m, key, value)) == if key in Keys(m) then Keys(m) else Keys(m) + [key]
    ensures Distinct(Keys(Set(m, key, value)))
    ensures forall j :: 0 <= j < |m| && m[j].0 != key ==> Set(m, key, value)[j] == m[j]
    ensures forall j :: 0 <= j < |Set(m, key, value)| && Set(m, key, value)[j].0 != key ==>
              j < |m| && Set(m, key, value)[j] == m[j]
    ensures Get(Set(m, key, value), key) == Some(value)
    ensures forall other :: other != key ==> Get(Set(m, key, value), other) == Get(m, other)
  {
    var r := Set(m, key, value);
    var i := EntryIndex(m, key);
    if i == -1 {
      assert Keys(r) == Keys(m) + [key];
      EntryIndexUnique(r, key, |m|);
    } else {
      assert Keys(r) == Keys(m);
      EntryIndexUnique(r, key, i);
    }
    forall other | other != key
      ensures Get(r, other) == Get(m, other)
    {
      var j := EntryIndex(m, other);
      if j != -1 {
        EntryIndexUnique(r, other, j);
      }
    }
  }

  /** The sum of `f` over the values, in entry order. */
  function SumBy<V>(m: Entries<V>, f: V -> int): int
    decreases |m|
  {
    if m == [] then 0 else SumBy(m[..|m| - 1], f) + f(m[|m| - 1].1)
  }

  lemma {:induction false} SumByUpdate<V>(m: Entries<V>, i: nat, entry: (string, V), f: V -> int)
    requires i < |m|
    ensures SumBy(m[i := entry], f) == SumBy(m, f) - f(m[i].1) + f(entry.1)
    decreases |m|
  {
    var last := |m| - 1;
    if i < last {
      assert m[i := entry][..last] == m[..last][i := entry];
      SumByUpdate(m[..last], i, entry, f);
    } else {
      assert m[i := entry][..last] == m[..last];
    }
  }

  /** `map.set(key, get(key) + amount)` (with a missing key read as 0) adds
      `amount` to the sum of the values. */
  lemma SumBySet<V>(m: Entries<V>, key: string, value: V, f: V -> int)
    ensures SumBy(Set(m, key, value), f) ==
            SumBy(m, f) + f(value) - (match Get(m, key) case None => 0 case Some(previous) => f(previous))
  {
    var i := EntryIndex(m, key);
    if i == -1 {
      assert (m + [(key, value)])[..|m|] == m;
    } else {
      SumByUpdate(m, i, (key, value), f);
    }
  }

}
