/** Weighted items grouped by key: keys in first-seen order, one sum per key, and the total they conserve. */
module Grouping {
  import opened Graphs

  datatype Item<K> = Item(key: K, weight: real)

  /** The keys in the order of their first occurrence. */
  function FirstSeen<K(==)>(keys: seq<K>): seq<K> {
    if keys == [] then []
    else
      var r := FirstSeen(keys[..|keys| - 1]);
      var k := keys[|keys| - 1];
      if k in r then r else r + [k]
  }

  lemma {:induction false} FirstSeenKeys<K>(keys: seq<K>)
    ensures Distinct(FirstSeen(keys))
    ensures forall k :: k in FirstSeen(keys) <==> k in keys
  {
    if keys != [] {
      var rest := keys[..|keys| - 1];
      FirstSeenKeys(rest);
      assert keys == rest + [keys[|keys| - 1]];
    }
  }

  lemma FirstSeenSnoc<K>(keys: seq<K>, k: K)
    ensures FirstSeen(keys + [k]) == if k in keys then FirstSeen(keys) else FirstSeen(keys) + [k]
  {
    assert (keys + [k])[..|keys|] == keys;
    FirstSeenKeys(keys);
  }

  ghost function SumFor<K>(items: seq<Item<K>>, k: K): real {
    if items == [] then 0.0
    else
      var last := items[|items| - 1];
      SumFor(items[..|items| - 1], k) + if last.key == k then last.weight else 0.0
  }

  ghost function Total<K>(items: seq<Item<K>>): real {
    if items == [] then 0.0 else Total(items[..|items| - 1]) + items[|items| - 1].weight
  }

  lemma SumForSnoc<K>(items: seq<Item<K>>, x: Item<K>, k: K)
    ensures SumFor(items + [x], k) == SumFor(items, k) + if x.key == k then x.weight else 0.0
    ensures Total(items + [x]) == Total(items) + x.weight
  {
    assert (items + [x])[..|items|] == items;
  }

  /** The sums of the listed keys, added up. */
  ghost function GroupTotal<K>(order: seq<K>, items: seq<Item<K>>): real {
    if order == [] then 0.0
    else GroupTotal(order[..|order| - 1], items) + SumFor(items, order[|order| - 1])
  }

  lemma {:induction false} GroupTotalEmpty<K>(order: seq<K>)
    ensures GroupTotal(order, []) == 0.0
  {
    if order != [] {
      GroupTotalEmpty(order[..|order| - 1]);
    }
  }

  /** One more item adds its weight to the listed sums exactly when its key is listed. */
  lemma {:induction false} GroupTotalSnoc<K>(order: seq<K>, items: seq<Item<K>>, x: Item<K>)
    requires Distinct(order)
    ensures GroupTotal(order, items + [x]) == GroupTotal(order, items) + if x.key in order then x.weight else 0.0
  {
    if order != [] {
      var rest, k := order[..|order| - 1], order[|order| - 1];
      assert order == rest + [k];
      assert Distinct(rest);
      GroupTotalSnoc(rest, items, x);
      SumForSnoc(items, x, k);
    }
  }

  /** Grouping loses no weight: over any repetition-free list of all keys, the sums add up to the total. */
  lemma {:induction false} GroupsConserve<K>(order: seq<K>, items: seq<Item<K>>)
    requires Distinct(order)
    requires forall x :: x in items ==> x.key in order
    ensures GroupTotal(order, items) == Total(items)
  {
    if items == [] {
      GroupTotalEmpty(order);
    } else {
      var rest, x := items[..|items| - 1], items[|items| - 1];
      assert items == rest + [x];
      GroupsConserve(order, rest);
      GroupTotalSnoc(order, rest, x);
    }
  }
}
