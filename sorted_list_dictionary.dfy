/** The insertion-ordered dictionary both generations store their tables in:
    a list of optional pairs in insertion order and a key -> slot table.
    Removal leaves a tombstone in the list, so surviving entries keep their
    slot and the enumeration order stays the order of insertion. */
module SortedListDictionaries {
  import opened Wrappers

  // ---------------------------------------------------------------------
  // Ordered pair sequences: the abstract value of a dictionary

  /** The pairs an enumeration yields: the live slots, in list order. */
  function LivePairs<K(==), V>(list: seq<Option<(K, V)>>): (r: seq<(K, V)>)
    ensures |r| <= |list|
  {
    if list == [] then [] else LivePairs(list[..|list| - 1]) + SlotPairs(list[|list| - 1])
  }

  /** What one slot contributes to an enumeration. */
  function SlotPairs<K, V>(slot: Option<(K, V)>): (r: seq<(K, V)>)
    ensures |r| <= 1
  {
    if slot.Some? then [slot.value] else []
  }

  function KeySet<K(==), V>(items: seq<(K, V)>): set<K> {
    set i | 0 <= i < |items| :: items[i].0
  }

  predicate DistinctKeys<K(==), V>(items: seq<(K, V)>) {
    forall i, j :: 0 <= i < j < |items| ==> items[i].0 != items[j].0
  }

  /** The value stored under `k`, if any (the first one if keys repeat). */
  function Lookup<K(==), V>(items: seq<(K, V)>, k: K): (r: Option<V>)
    ensures r.Some? <==> k in KeySet(items)
    ensures r.Some? ==> exists i :: 0 <= i < |items| && items[i] == (k, r.value)
  {
    if items == [] then None
    else if items[0].0 == k then Some(items[0].1)
    else
      var r := Lookup(items[1..], k);
      assert KeySet(items) == {items[0].0} + KeySet(items[1..]) by {
        assert forall i :: 0 < i < |items| ==> items[i].0 == items[1..][i - 1].0;
        assert forall i :: 0 <= i < |items| - 1 ==> items[1..][i].0 == items[i + 1].0;
      }
      if r.Some? then
        ghost var i :| 0 <= i < |items[1..]| && items[1..][i] == (k, r.value);
        assert items[i + 1] == (k, r.value);
        r
      else r
  }

  /** The pairs left after removing key `k`, order kept. */
  function Without<K(==), V>(items: seq<(K, V)>, k: K): (r: seq<(K, V)>)
    ensures KeySet(r) == KeySet(items) - {k}
    ensures DistinctKeys(items) ==> DistinctKeys(r)
  {
    if items == [] then []
    else
      var front := items[..|items| - 1];
      var last := items[|items| - 1];
      KeySetSnoc(front, last);
      KeySetSnoc(Without(front, k), last);
      DistinctSnoc(front, last);
      DistinctSnoc(Without(front, k), last);
      assert items == front + [last];
      if last.0 == k then Without(front, k) else Without(front, k) + [last]
  }

  /** The pairs with the value under key `k` replaced by `v`, in place. */
  function WithValue<K(==), V>(items: seq<(K, V)>, k: K, v: V): (r: seq<(K, V)>)
    ensures |r| == |items|
    ensures forall i :: 0 <= i < |items| ==> r[i] == if items[i].0 == k then (k, v) else items[i]
  {
    if items == [] then []
    else
      var front := items[..|items| - 1];
      var last := items[|items| - 1];
      WithValue(front, k, v) + [if last.0 == k then (k, v) else last]
  }

  lemma KeySetSnoc<K, V>(items: seq<(K, V)>, p: (K, V))
    ensures KeySet(items + [p]) == KeySet(items) + {p.0}
  {
    var s := items + [p];
    forall x | x in KeySet(s) ensures x in KeySet(items) + {p.0} {
      var i :| 0 <= i < |s| && s[i].0 == x;
      if i < |items| { assert items[i].0 == x; }
    }
    forall x | x in KeySet(items) ensures x in KeySet(s) {
      var i :| 0 <= i < |items| && items[i].0 == x;
      assert s[i].0 == x;
    }
    assert s[|items|].0 == p.0;
  }

  lemma DistinctSnoc<K, V>(items: seq<(K, V)>, p: (K, V))
    ensures DistinctKeys(items + [p]) <==> DistinctKeys(items) && p.0 !in KeySet(items)
  {
    var s := items + [p];
    assert forall i :: 0 <= i < |items| ==> s[i] == items[i];
    if DistinctKeys(s) {
      forall i | 0 <= i < |items| ensures items[i].0 != p.0 {
        assert s[i].0 != s[|items|].0;
      }
    }
  }

  // ---------------------------------------------------------------------
  // The invariant tying the list to the key table

  /** Every key in the table names a live slot holding that key. */
  ghost predicate IndexSound<K, V>(list: seq<Option<(K, V)>>, indexes: map<K, nat>) {
    forall k :: k in indexes ==>
      indexes[k] < |list| && list[indexes[k]].Some? && list[indexes[k]].value.0 == k
  }

  /** Every live slot is the one the table records for its key. */
  ghost predicate Complete<K, V>(list: seq<Option<(K, V)>>, indexes: map<K, nat>) {
    forall i :: 0 <= i < |list| && list[i].Some? ==>
      list[i].value.0 in indexes && indexes[list[i].value.0] == i
  }

  /** The slot `i` of `list` is the `j`-th live one. */
  lemma {:induction false} LivePairsIndex<K, V>(list: seq<Option<(K, V)>>, j: nat)
    requires j < |LivePairs(list)|
    ensures exists i :: 0 <= i < |list| && list[i] == Some(LivePairs(list)[j])
    decreases |list|
  {
    var front := list[..|list| - 1];
    if j < |LivePairs(front)| {
      LivePairsIndex(front, j);
      var i :| 0 <= i < |front| && front[i] == Some(LivePairs(front)[j]);
      assert list[i] == front[i];
    } else {
      assert list[|list| - 1] == Some(LivePairs(list)[j]);
    }
  }

  /** A live slot shows up in the live pairs, after the live slots before it. */
  lemma {:induction false} LivePairsOfSlot<K, V>(list: seq<Option<(K, V)>>, i: nat)
    requires i < |list| && list[i].Some?
    ensures |LivePairs(list[..i])| < |LivePairs(list)|
    ensures LivePairs(list)[|LivePairs(list[..i])|] == list[i].value
    decreases |list|
  {
    var front := list[..|list| - 1];
    if i < |list| - 1 {
      assert front[..i] == list[..i];
      LivePairsOfSlot(front, i);
    } else {
      assert list[..i] == front;
    }
  }

  /** With a consistent table, the live pairs have distinct keys, and their
      keys are exactly the keys in the table. */
  lemma LiveKeysAreIndexed<K, V>(list: seq<Option<(K, V)>>, indexes: map<K, nat>)
    requires IndexSound(list, indexes) && Complete(list, indexes)
    ensures KeySet(LivePairs(list)) == indexes.Keys
    ensures DistinctKeys(LivePairs(list))
  {
    var items := LivePairs(list);
    forall k | k in indexes ensures k in KeySet(items) {
      LivePairsOfSlot(list, indexes[k]);
      assert items[|LivePairs(list[..indexes[k]])|].0 == k;
    }
    forall k | k in KeySet(items) ensures k in indexes {
      var j :| 0 <= j < |items| && items[j].0 == k;
      LivePairsIndex(list, j);
    }
    LiveDistinct(list, indexes);
  }

  lemma {:induction false} LiveDistinct<K, V>(list: seq<Option<(K, V)>>, indexes: map<K, nat>)
    requires IndexSound(list, indexes) && Complete(list, indexes)
    ensures DistinctKeys(LivePairs(list))
    decreases |list|
  {
    if list != [] {
      var n := |list|;
      var front := list[..n - 1];
      var frontIndexes := map k | k in indexes && indexes[k] < n - 1 :: indexes[k];
      assert IndexSound(front, frontIndexes);
      LiveDistinct(front, frontIndexes);
      if list[n - 1].Some? {
        var k := list[n - 1].value.0;
        forall j | 0 <= j < |LivePairs(front)| ensures LivePairs(front)[j].0 != k {
          LivePairsIndex(front, j);
          var i :| 0 <= i < |front| && front[i] == Some(LivePairs(front)[j]);
          assert list[i] == front[i];
        }
      }
    }
  }

  /** `Count` (the size of the table) is the number of pairs an enumeration yields. */
  lemma CountIsLiveCount<K, V>(list: seq<Option<(K, V)>>, indexes: map<K, nat>)
    requires IndexSound(list, indexes) && Complete(list, indexes)
    ensures |indexes| == |LivePairs(list)|
  {
    LiveKeysAreIndexed(list, indexes);
    DistinctKeysCard(LivePairs(list));
  }

  lemma {:induction false} DistinctKeysCard<K, V>(items: seq<(K, V)>)
    requires DistinctKeys(items)
    ensures |KeySet(items)| == |items|
    decreases |items|
  {
    if items != [] {
      var front := items[..|items| - 1];
      var last := items[|items| - 1];
      assert items == front + [last];
      KeySetSnoc(front, last);
      DistinctKeysCard(front);
      DistinctSnoc(front, last);
    }
  }

  /** Tombstoning the one slot that holds `k` removes `k` from the live pairs
      and leaves every other pair where it was. */
  lemma {:induction false} TombstoneIsWithout<K, V>(list: seq<Option<(K, V)>>, i: nat, k: K)
    requires i < |list| && list[i].Some? && list[i].value.0 == k
    requires forall j :: 0 <= j < |list| && j != i && list[j].Some? ==> list[j].value.0 != k
    ensures LivePairs(list[i := None]) == Without(LivePairs(list), k)
    decreases |list|
  {
    var n := |list|;
    var front, last := list[..n - 1], list[n - 1];
    var list' := list[i := None];
    assert LivePairs(list) == LivePairs(front) + SlotPairs(last);
    if i < n - 1 {
      assert list'[..n - 1] == front[i := None] && list'[n - 1] == last;
      assert LivePairs(list') == LivePairs(front[i := None]) + SlotPairs(last);
      assert front[i] == list[i];
      forall j | 0 <= j < |front| && j != i && front[j].Some? ensures front[j].value.0 != k {
        assert front[j] == list[j];
      }
      TombstoneIsWithout(front, i, k);
      WithoutSnocOther(LivePairs(front), last, k);
    } else {
      TombstoneLast(list, k);
    }
  }

  /** The same when the key sits in the last slot. */
  lemma TombstoneLast<K, V>(list: seq<Option<(K, V)>>, k: K)
    requires list != [] && list[|list| - 1].Some? && list[|list| - 1].value.0 == k
    requires forall j :: 0 <= j < |list| - 1 && list[j].Some? ==> list[j].value.0 != k
    ensures LivePairs(list[|list| - 1 := None]) == Without(LivePairs(list), k)
  {
    var n := |list|;
    var front, last := list[..n - 1], list[n - 1];
    var list' := list[n - 1 := None];
    assert LivePairs(list) == LivePairs(front) + [last.value];
    assert list'[..n - 1] == front;
    assert LivePairs(list') == LivePairs(front);
    forall j | 0 <= j < |front| && front[j].Some? ensures front[j].value.0 != k {
      assert front[j] == list[j];
    }
    WithoutAbsent(LivePairs(front), k, front);
    WithoutSnocKey(LivePairs(front), last.value, k);
  }

  lemma WithoutSnocOther<K, V>(items: seq<(K, V)>, last: Option<(K, V)>, k: K)
    requires last.Some? ==> last.value.0 != k
    ensures Without(items + SlotPairs(last), k) == Without(items, k) + SlotPairs(last)
  {
    if last.Some? {
      assert (items + [last.value])[..|items|] == items;
    } else {
      assert items + [] == items;
    }
  }

  lemma WithoutSnocKey<K, V>(items: seq<(K, V)>, last: (K, V), k: K)
    requires last.0 == k
    ensures Without(items + [last], k) == Without(items, k)
  {
    assert (items + [last])[..|items|] == items;
  }

  /** Removing a key no live slot of `list` holds changes nothing. */
  lemma {:induction false} WithoutAbsent<K, V>(items: seq<(K, V)>, k: K, list: seq<Option<(K, V)>>)
    requires items == LivePairs(list)
    requires forall j :: 0 <= j < |list| && list[j].Some? ==> list[j].value.0 != k
    ensures Without(items, k) == items
    decreases |list|
  {
    if list != [] {
      var front := list[..|list| - 1];
      WithoutAbsent(LivePairs(front), k, front);
      WithoutSnocOther(LivePairs(front), list[|list| - 1], k);
    }
  }

  /** Overwriting the slot that holds `k` replaces the value in place. */
  lemma {:induction false} OverwriteIsWithValue<K, V>(list: seq<Option<(K, V)>>, i: nat, k: K, v: V)
    requires i < |list| && list[i].Some? && list[i].value.0 == k
    requires forall j :: 0 <= j < |list| && j != i && list[j].Some? ==> list[j].value.0 != k
    ensures LivePairs(list[i := Some((k, v))]) == WithValue(LivePairs(list), k, v)
    decreases |list|
  {
    var n := |list|;
    if i < n - 1 {
      var front, last := list[..n - 1], list[n - 1];
      var list' := list[i := Some((k, v))];
      assert LivePairs(list) == LivePairs(front) + SlotPairs(last);
      assert list'[..n - 1] == front[i := Some((k, v))] && list'[n - 1] == last;
      assert LivePairs(list') == LivePairs(front[i := Some((k, v))]) + SlotPairs(last);
      assert front[i] == list[i];
      forall j | 0 <= j < |front| && j != i && front[j].Some? ensures front[j].value.0 != k {
        assert front[j] == list[j];
      }
      OverwriteIsWithValue(front, i, k, v);
      WithValueSnoc(LivePairs(front), last, k, v);
    } else {
      OverwriteLast(list, k, v);
    }
  }

  /** The same when the key sits in the last slot. */
  lemma OverwriteLast<K, V>(list: seq<Option<(K, V)>>, k: K, v: V)
    requires list != [] && list[|list| - 1].Some? && list[|list| - 1].value.0 == k
    requires forall j :: 0 <= j < |list| - 1 && list[j].Some? ==> list[j].value.0 != k
    ensures LivePairs(list[|list| - 1 := Some((k, v))]) == WithValue(LivePairs(list), k, v)
  {
    var n := |list|;
    var front, last := list[..n - 1], list[n - 1];
    var list' := list[n - 1 := Some((k, v))];
    assert LivePairs(list) == LivePairs(front) + SlotPairs(last);
    assert list'[..n - 1] == front && list'[n - 1] == Some((k, v));
    assert LivePairs(list') == LivePairs(front) + SlotPairs(Some((k, v)));
    forall j | 0 <= j < |front| && front[j].Some? ensures front[j].value.0 != k {
      assert front[j] == list[j];
    }
    WithValueAbsent(LivePairs(front), k, v, front);
    WithValueSnoc(LivePairs(front), last, k, v);
  }

  lemma WithValueSnoc<K, V>(items: seq<(K, V)>, last: Option<(K, V)>, k: K, v: V)
    ensures WithValue(items + SlotPairs(last), k, v)
         == WithValue(items, k, v) + SlotPairs(if last.Some? && last.value.0 == k then Some((k, v)) else last)
  {
    if last.Some? {
      assert (items + [last.value])[..|items|] == items;
    } else {
      assert items + [] == items;
    }
  }

  lemma {:induction false} WithValueAbsent<K, V>(items: seq<(K, V)>, k: K, v: V, list: seq<Option<(K, V)>>)
    requires items == LivePairs(list)
    requires forall j :: 0 <= j < |list| && list[j].Some? ==> list[j].value.0 != k
    ensures WithValue(items, k, v) == items
    decreases |list|
  {
    if list != [] {
      var front := list[..|list| - 1];
      WithValueAbsent(LivePairs(front), k, v, front);
      WithValueSnoc(LivePairs(front), list[|list| - 1], k, v);
    }
  }

  /** Tombstoning a key's slot and dropping the key from the table keeps
      the two consistent. */
  lemma TombstoneKeepsValid<K, V>(list: seq<Option<(K, V)>>, indexes: map<K, nat>, k: K)
    requires IndexSound(list, indexes) && Complete(list, indexes) && k in indexes
    ensures IndexSound(list[indexes[k] := None], indexes - {k})
    ensures Complete(list[indexes[k] := None], indexes - {k})
  {
  }

  // ---------------------------------------------------------------------
  // The class

  class SortedListDictionary<K(==), V> {
    var list: seq<Option<(K, V)>>
    var indexes: map<K, nat>
    /** `default(TValue)`, what a failed `TryGetValue` hands back. */
    const defaultValue: V

    /** Holds in every reachable state, including after a failed `Add`. */
    ghost predicate Sound()
      reads this
    {
      IndexSound(list, indexes)
    }

    /** The list and the table agree: every live slot is indexed. */
    ghost predicate Valid()
      reads this
    {
      IndexSound(list, indexes) && Complete(list, indexes)
    }

    /** The pairs in enumeration order. */
    function Items(): seq<(K, V)>
      reads this
    {
      LivePairs(list)
    }

    constructor (defaultValue: V)
      ensures Valid() && list == [] && indexes == map[] && this.defaultValue == defaultValue
    {
      list := [];
      indexes := map[];
      this.defaultValue := defaultValue;
    }

    /** `Add` appends the pair and then records its slot; a key already in
        the table makes `Dictionary.Add` throw (`ok == false`) after the list
        has grown, leaving an unindexed live slot behind. */
    method Add(key: K, value: V) returns (ok: bool)
      requires Valid()
      modifies this
      ensures list == old(list) + [Some((key, value))]
      ensures ok <==> key !in old(indexes)
      ensures ok ==> indexes == old(indexes)[key := |old(list)|]
      ensures !ok ==> indexes == old(indexes)
      ensures Sound() && (Valid() <==> ok)
      ensures Items() == old(Items()) + [(key, value)]
    {
      list := list + [Some((key, value))];
      if key in indexes {
        assert list[|list| - 1].Some? && list[|list| - 1].value.0 in indexes;
        assert indexes[key] != |list| - 1;
        return false;
      }
      indexes := indexes[key := |list| - 1];
      ok := true;
    }

    /** `Remove` tombstones the key's slot and drops it from the table;
        no other slot moves. An absent key changes nothing. */
    method Remove(key: K)
      requires Valid()
      modifies this
      ensures Valid()
      ensures |list| == |old(list)|
      ensures key in old(indexes) ==> list == old(list)[old(indexes)[key] := None]
      ensures key !in old(indexes) ==> list == old(list)
      ensures indexes == old(indexes) - {key}
      ensures Items() == Without(old(Items()), key)
    {
      if key in indexes {
        var index := indexes[key];
        TombstoneIsWithout(list, index, key);
        TombstoneKeepsValid(list, indexes, key);
        indexes := indexes - {key};
        list := list[index := None];
      } else {
        WithoutAbsent(LivePairs(list), key, list);
      }
    }

    /** The indexer's setter: overwrite in place, keeping the position;
        an absent key changes nothing. */
    method Set(key: K, value: V)
      requires Valid()
      modifies this
      ensures Valid()
      ensures indexes == old(indexes)
      ensures key in indexes ==> list == old(list)[indexes[key] := Some((key, value))]
      ensures key !in indexes ==> list == old(list)
      ensures Items() == WithValue(old(Items()), key, value)
    {
      if key in indexes {
        var index := indexes[key];
        OverwriteIsWithValue(list, index, key, value);
        list := list[index := Some((key, value))];
      } else {
        WithValueAbsent(LivePairs(list), key, value, list);
      }
    }

    method Contains(key: K) returns (b: bool)
      requires Valid()
      ensures b <==> key in indexes
      ensures b <==> key in KeySet(Items())
    {
      LiveKeysAreIndexed(list, indexes);
      b := key in indexes;
    }

    method Count() returns (n: nat)
      requires Valid()
      ensures n == |indexes| && n == |Items()|
    {
      CountIsLiveCount(list, indexes);
      n := |indexes|;
    }

    method TryGetValue(key: K) returns (found: bool, value: V)
      requires Sound()
      ensures found <==> key in indexes
      ensures found ==> list[indexes[key]] == Some((key, value))
      ensures !found ==> value == defaultValue
      ensures Valid() ==> (found <==> key in KeySet(Items()))
      ensures Valid() && found ==> Lookup(Items(), key) == Some(value)
    {
      if key in indexes {
        var index := indexes[key];
        var pair := list[index];
        if pair.Some? {
          found, value := true, pair.value.1;
          if Valid() {
            LiveKeysAreIndexed(list, indexes);
            LookupDistinct(Items(), key, value, list, index);
          }
          return;
        }
      }
      if Valid() {
        LiveKeysAreIndexed(list, indexes);
      }
      found, value := false, defaultValue;
    }

    /** The enumeration: the live pairs, in slot order, tombstones skipped. */
    method GetEnumerator() returns (pairs: seq<(K, V)>)
      ensures pairs == Items()
    {
      pairs := [];
      var i := 0;
      var size := |list|;
      while i < size
        invariant 0 <= i <= size
        invariant pairs == LivePairs(list[..i])
      {
        assert list[..i + 1][..i] == list[..i];
        if list[i].Some? {
          pairs := pairs + [list[i].value];
        }
        i := i + 1;
      }
      assert list[..size] == list;
    }
  }

  /** With distinct keys, the live slot for `k` gives the value `Lookup` finds. */
  lemma LookupDistinct<K, V>(items: seq<(K, V)>, k: K, v: V, list: seq<Option<(K, V)>>, i: nat)
    requires items == LivePairs(list) && DistinctKeys(items)
    requires i < |list| && list[i] == Some((k, v))
    ensures Lookup(items, k) == Some(v)
  {
    LivePairsOfSlot(list, i);
    var j := |LivePairs(list[..i])|;
    assert items[j] == (k, v);
    var r := Lookup(items, k);
    var j' :| 0 <= j' < |items| && items[j'] == (k, r.value);
    assert j' == j;
  }
}
