/**
  A Python dict from names to counts (`class_total`, `class_matched`,
  `missed_classes`), kept as its entries in insertion order so that the order
  in which the scripts print it is part of the value.
 */
module Counters {

  /** One key of the dict and its count. */
  datatype Entry = Entry(key: string, count: nat)

  type Counter = seq<Entry>

  /** The keys in insertion order. */
  function Keys(d: Counter): seq<string> {
    seq(|d|, i requires 0 <= i < |d| => d[i].key)
  }

  predicate DistinctKeys(d: Counter) {
    forall i, j :: 0 <= i < j < |d| ==> d[i].key != d[j].key
  }

  /** `d.get(k, 0)`, and the read of a `defaultdict(int)`. */
  function Get(d: Counter, k: string): nat {
    if d == [] then 0
    else if d[0].key == k then d[0].count
    else Get(d[1..], k)
  }

  /** The sum of the dict's values. */
  function Total(d: Counter): nat {
    if d == [] then 0 else d[0].count + Total(d[1..])
  }

  /**
    `d[k] = d.get(k, 0) + 1`: the count of k goes up by one and every other
    count stays.
   */
  function Inc(d: Counter, k: string): (r: Counter)
    ensures Get(r, k) == Get(d, k) + 1
    ensures forall k' :: k' != k ==> Get(r, k') == Get(d, k')
    ensures Total(r) == Total(d) + 1
  {
    if d == [] then [Entry(k, 1)]
    else if d[0].key == k then [Entry(k, d[0].count + 1)] + d[1..]
    else [d[0]] + Inc(d[1..], k)
  }

  /**
    Inc keeps the keys distinct: an existing key stays where it is, and a new
    key is appended after the existing ones, as a Python dict does.
   */
  lemma {:induction false} IncKeys(d: Counter, k: string)
    ensures Keys(Inc(d, k)) == if k in Keys(d) then Keys(d) else Keys(d) + [k]
    ensures DistinctKeys(d) ==> DistinctKeys(Inc(d, k))
  {
    IncKeysOrder(d, k);
    if DistinctKeys(d) {
      var r := Inc(d, k);
      assert forall j :: 0 <= j < |d| ==> Keys(d)[j] == d[j].key;
      assert forall j :: 0 <= j < |r| ==> Keys(r)[j] == r[j].key;
    }
  }

  /** The key order after Inc. */
  lemma {:induction false} IncKeysOrder(d: Counter, k: string)
    ensures Keys(Inc(d, k)) == if k in Keys(d) then Keys(d) else Keys(d) + [k]
  {
    if d == [] {
      assert Keys(Inc(d, k)) == [k];
    } else if d[0].key == k {
      assert Keys(d)[0] == k;
      assert Keys(Inc(d, k)) == Keys(d);
    } else {
      IncKeysOrder(d[1..], k);
      assert Keys(d) == [d[0].key] + Keys(d[1..]);
      assert Keys(Inc(d, k)) == [d[0].key] + Keys(Inc(d[1..], k));
    }
  }
}
