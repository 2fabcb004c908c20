/**
 * A counting dictionary of the kind the report components build with
 * `acc[key] = (acc[key] || 0) + 1`: its entries in insertion order, each key
 * once.
 */
module Tally {
  import opened Wrappers

  datatype Entry = Entry(key: string, count: nat)

  predicate DistinctKeys(entries: seq<Entry>)
  {
    forall i, j | 0 <= i < j < |entries| :: entries[i].key != entries[j].key
  }

  /** The position of `key`, when it has an entry. */
  function Find(entries: seq<Entry>, key: string): (r: Option<nat>)
    ensures r.Some? ==> r.value < |entries| && entries[r.value].key == key
    ensures r.None? ==> forall i | 0 <= i < |entries| :: entries[i].key != key
  {
    if |entries| == 0 then None
    else if entries[|entries| - 1].key == key then Some(|entries| - 1)
    else Find(entries[..|entries| - 1], key)
  }

  /** `acc[key]`, with a missing key read as 0 (`|| 0`). */
  function CountOf(entries: seq<Entry>, key: string): nat
  {
    var i := Find(entries, key);
    if i.Some? then entries[i.value].count else 0
  }

  lemma CountOfAt(entries: seq<Entry>, i: nat)
    requires DistinctKeys(entries) && i < |entries|
    ensures CountOf(entries, entries[i].key) == entries[i].count
  {
  }

  /**
   * `acc[key] = (acc[key] || 0) + 1`: an existing entry goes up by one in
   * place; a new key is added last with count 1.
   */
  function Bump(entries: seq<Entry>, key: string): (r: seq<Entry>)
    ensures Find(entries, key).Some? ==>
      var i := Find(entries, key).value;
      r == entries[i := Entry(key, entries[i].count + 1)]
    ensures Find(entries, key).None? ==> r == entries + [Entry(key, 1)]
  {
    var i := Find(entries, key);
    if i.Some? then entries[i.value := Entry(key, entries[i.value].count + 1)]
    else entries + [Entry(key, 1)]
  }

  /** Bumping keeps the keys distinct and adds one to exactly the bumped key. */
  lemma BumpCounts(entries: seq<Entry>, key: string)
    requires DistinctKeys(entries)
    ensures DistinctKeys(Bump(entries, key))
    ensures forall k :: CountOf(Bump(entries, key), k) == CountOf(entries, k) + (if k == key then 1 else 0)
    ensures forall i | 0 <= i < |entries| :: Bump(entries, key)[i].key == entries[i].key
  {
    var r := Bump(entries, key);
    forall k ensures CountOf(r, k) == CountOf(entries, k) + (if k == key then 1 else 0) {
      var j := Find(entries, k);
      if j.Some? {
        CountOfAt(r, j.value);
      } else if k == key {
        CountOfAt(r, |entries|);
      } else {
        assert forall i | 0 <= i < |r| :: r[i].key != k;
      }
    }
  }

  /** The sum of the counts. */
  function Sum(entries: seq<Entry>): nat
  {
    if |entries| == 0 then 0 else Sum(entries[..|entries| - 1]) + entries[|entries| - 1].count
  }

  lemma {:induction false} SumIncrement(entries: seq<Entry>, i: nat, key: string)
    requires i < |entries|
    ensures Sum(entries[i := Entry(key, entries[i].count + 1)]) == Sum(entries) + 1
    decreases |entries|
  {
    var r := entries[i := Entry(key, entries[i].count + 1)];
    var n := |entries| - 1;
    if i < n {
      assert r[..n] == entries[..n][i := Entry(key, entries[i].count + 1)];
      SumIncrement(entries[..n], i, key);
    } else {
      assert r[..n] == entries[..n];
    }
  }

  /** Every bump adds exactly one to the total. */
  lemma SumBump(entries: seq<Entry>, key: string)
    ensures Sum(Bump(entries, key)) == Sum(entries) + 1
  {
    var i := Find(entries, key);
    if i.Some? {
      SumIncrement(entries, i.value, key);
    } else {
      assert (entries + [Entry(key, 1)])[..|entries|] == entries;
    }
  }
}
