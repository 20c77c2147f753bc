/** The loops both generations of YAMLParser.cs run over one dictionary at a
    time: the two loops of `GenerateDiffs`, the loops of `ComputeResults`,
    the `foreach` of `Apply`, and the loops that fill a dictionary from its
    packed keys and its values and pack it back. Each is proved against the
    function of the `Operations` module (or of this one) that specifies it. */
module Engine {
  import opened Wrappers
  import opened HexKeys
  import opened SortedListDictionaries
  import opened Operations

  // ---------------------------------------------------------------------
  // GenerateDiffs

  /** Once a comparison has thrown, the first loop has thrown. */
  lemma {:induction false} ChangesFailSticks<V>(source: Pairs<V>, n: nat, modif: Pairs<V>,
                                                differs: Comparison<V>, removed: V)
    requires n <= |source| && Changes(source[..n], modif, differs, removed).None?
    ensures Changes(source, modif, differs, removed).None?
    decreases |source|
  {
    if n < |source| {
      var front := source[..|source| - 1];
      assert front[..n] == source[..n];
      ChangesFailSticks(front, n, modif, differs, removed);
    } else {
      assert source[..n] == source;
    }
  }

  /** `GenerateDiffs` on one dictionary: the base's pairs in enumeration
      order, then the variant's; `None` once a comparison throws. The
      operations never repeat a key, so filing them in a dictionary never
      throws. */
  method GenerateDiff<V>(source: SortedListDictionary<int32, V>, modif: SortedListDictionary<int32, V>,
                         differs: Comparison<V>, removed: V)
    returns (ops: Option<seq<Operation<V>>>)
    requires source.Valid() && modif.Valid()
    ensures ops == Diff(source.Items(), modif.Items(), differs, removed)
    ensures ops.Some? ==> DistinctOps(ops.value)
  {
    var changes := CollectChanges(source, modif, differs, removed);
    if changes.None? {
      return None;
    }
    var additions := CollectAdditions(source, modif);
    ops := Some(changes.value + additions);
    LiveKeysAreIndexed(source.list, source.indexes);
    LiveKeysAreIndexed(modif.list, modif.indexes);
    DiffPerKey(source.Items(), modif.Items(), differs, removed);
  }

  /** The first loop of `GenerateDiffs`: over the base's pairs, looking each
      key up in the variant. */
  method CollectChanges<V>(source: SortedListDictionary<int32, V>, modif: SortedListDictionary<int32, V>,
                           differs: Comparison<V>, removed: V)
    returns (changes: Option<seq<Operation<V>>>)
    requires modif.Valid()
    ensures changes == Changes(source.Items(), modif.Items(), differs, removed)
  {
    var pairs := source.GetEnumerator();
    var acc: seq<Operation<V>> := [];
    var i := 0;
    while i < |pairs|
      invariant 0 <= i <= |pairs|
      invariant Changes(pairs[..i], modif.Items(), differs, removed) == Some(acc)
    {
      var p := pairs[i];
      assert pairs[..i + 1][..i] == pairs[..i];
      var found, value := modif.TryGetValue(p.0);
      if found {
        var d := differs(value, p.1);
        if d.None? {
          ChangesFailSticks(pairs, i + 1, modif.Items(), differs, removed);
          return None;
        }
        if d.value {
          acc := acc + [Operation(p.0, value, Modification)];
        } else {
          assert acc + [] == acc;
        }
      } else {
        acc := acc + [Operation(p.0, removed, Removal)];
      }
      i := i + 1;
    }
    assert pairs[..i] == pairs;
    changes := Some(acc);
  }

  /** The second loop of `GenerateDiffs`: over the variant's pairs, asking
      the base whether it holds each key. */
  method CollectAdditions<V>(source: SortedListDictionary<int32, V>, modif: SortedListDictionary<int32, V>)
    returns (additions: seq<Operation<V>>)
    requires source.Valid()
    ensures additions == Additions(source.Items(), modif.Items())
  {
    var pairs := modif.GetEnumerator();
    additions := [];
    var j := 0;
    while j < |pairs|
      invariant 0 <= j <= |pairs|
      invariant additions == Additions(source.Items(), pairs[..j])
    {
      var p := pairs[j];
      assert pairs[..j + 1][..j] == pairs[..j];
      var present := source.Contains(p.0);
      if !present {
        additions := additions + [Operation(p.0, p.1, Addition)];
      } else {
        assert additions + [] == additions;
      }
      j := j + 1;
    }
    assert pairs[..j] == pairs;
  }

  // ---------------------------------------------------------------------
  // ComputeResults

  /** The loop over side A's operations: each is accepted unless side B's
      dictionary holds its key, in which case the pair is a conflict. */
  method SplitSide<V>(a: seq<Operation<V>>, b: seq<Operation<V>>)
    returns (own: seq<Operation<V>>, conflicts: seq<Conflict<V>>)
    ensures own == OnlyIn(a, b) && conflicts == Conflicts(a, b)
  {
    own, conflicts := [], [];
    var i := 0;
    while i < |a|
      invariant 0 <= i <= |a|
      invariant own == OnlyIn(a[..i], b) && conflicts == Conflicts(a[..i], b)
    {
      var op := a[i];
      assert a[..i + 1][..i] == a[..i];
      var op2 := FindOp(b, op.key);
      if op2.Some? {
        conflicts := conflicts + [(op, op2.value)];
        assert own + [] == own;
      } else {
        own := own + [op];
        assert conflicts + [] == conflicts;
      }
      i := i + 1;
    }
    assert a[..i] == a;
  }

  /** The loop over side B's operations: each is accepted unless side A's
      dictionary holds its key. */
  method KeepOwn<V>(b: seq<Operation<V>>, a: seq<Operation<V>>) returns (own: seq<Operation<V>>)
    ensures own == OnlyIn(b, a)
  {
    own := [];
    var i := 0;
    while i < |b|
      invariant 0 <= i <= |b|
      invariant own == OnlyIn(b[..i], a)
    {
      var op := b[i];
      assert b[..i + 1][..i] == b[..i];
      var op2 := FindOp(a, op.key);
      if op2.None? {
        own := own + [op];
      } else {
        assert own + [] == own;
      }
      i := i + 1;
    }
    assert b[..i] == b;
  }

  // ---------------------------------------------------------------------
  // Apply

  /** Once an operation has thrown, the replay has thrown. */
  lemma {:induction false} ApplyFailSticks<V>(items: Pairs<V>, ops: seq<Operation<V>>, n: nat)
    requires n <= |ops| && ApplyOps(items, ops[..n]).None?
    ensures ApplyOps(items, ops).None?
    decreases |ops|
  {
    if n < |ops| {
      var front := ops[..|ops| - 1];
      assert front[..n] == ops[..n];
      ApplyFailSticks(items, front, n);
    } else {
      assert ops[..n] == ops;
    }
  }

  /** The `foreach` of `Apply` on one dictionary: `Add`, the indexer's
      setter or `Remove`, per operation kind, in list order. An `Add` of a
      key already there throws (`ok == false`). */
  method ApplyOperations<V>(d: SortedListDictionary<int32, V>, ops: seq<Operation<V>>) returns (ok: bool)
    requires d.Valid()
    modifies d
    ensures ok <==> ApplyOps(old(d.Items()), ops).Some?
    ensures ok ==> d.Valid() && d.Items() == ApplyOps(old(d.Items()), ops).value
  {
    ghost var base := d.Items();
    var i := 0;
    while i < |ops|
      invariant 0 <= i <= |ops|
      invariant d.Valid()
      invariant ApplyOps(base, ops[..i]) == Some(d.Items())
    {
      ApplyOpsStep(base, ops, i);
      var applied := ApplyOne(d, ops[i]);
      if !applied {
        ApplyFailSticks(base, ops, i + 1);
        return false;
      }
      i := i + 1;
    }
    assert ops[..i] == ops;
    ok := true;
  }

  /** One turn of that loop: the dictionary call the operation's kind
      names. */
  method ApplyOne<V>(d: SortedListDictionary<int32, V>, op: Operation<V>) returns (ok: bool)
    requires d.Valid()
    modifies d
    ensures ok <==> ApplyOp(old(d.Items()), op).Some?
    ensures ok ==> d.Valid() && d.Items() == ApplyOp(old(d.Items()), op).value
  {
    match op.kind {
      case Addition =>
        LiveKeysAreIndexed(d.list, d.indexes);
        ok := d.Add(op.key, op.value);
      case Modification =>
        d.Set(op.key, op.value);
        ok := true;
      case Removal =>
        d.Remove(op.key);
        ok := true;
    }
  }

  /** One more operation of the `foreach` of `Apply`. */
  lemma ApplyOpsStep<V>(items: Pairs<V>, ops: seq<Operation<V>>, i: nat)
    requires i < |ops|
    ensures ApplyOps(items, ops[..i + 1]) ==
      if ApplyOps(items, ops[..i]).Some? then ApplyOp(ApplyOps(items, ops[..i]).value, ops[i]) else None
  {
    assert ops[..i + 1][..i] == ops[..i];
  }

  // ---------------------------------------------------------------------
  // Filling a dictionary from its packed keys, and packing it back

  /** The keys, paired in order with the values, as far as both go. */
  function Zip<V>(keys: seq<int32>, values: seq<V>): (r: Pairs<V>)
    ensures |r| == if |keys| <= |values| then |keys| else |values|
    ensures forall i :: 0 <= i < |r| ==> r[i] == (keys[i], values[i])
  {
    seq(if |keys| <= |values| then |keys| else |values|,
        i requires 0 <= i < |keys| && i < |values| => (keys[i], values[i]))
  }

  /** What filling a dictionary holding `base` gives: the pairs appended in
      order, or `None` where an `Add` meets a key already there or an index
      runs past the end of the shorter list. `byValues` says which list the
      loop runs over (the other one is indexed). */
  function Filled<V>(base: Pairs<V>, keys: seq<int32>, values: seq<V>, byValues: bool): Option<Pairs<V>> {
    var z := Zip(keys, values);
    if (if byValues then |values| <= |keys| else |keys| <= |values|) && DistinctKeys(base + z)
    then Some(base + z) else None
  }

  /** A key repeated inside a prefix repeats in the whole. */
  lemma RepeatInPrefix<V>(s: Pairs<V>, n: nat, p: (int32, V))
    requires n < |s| && s[n] == p && p.0 in KeySet(s[..n])
    ensures !DistinctKeys(s)
  {
    var j :| 0 <= j < n && s[..n][j].0 == p.0;
    assert s[j].0 == s[n].0;
  }

  /** One step of a fill: the pair `i` appended. */
  lemma FillStep<V>(base: Pairs<V>, keys: seq<int32>, values: seq<V>, i: nat)
    requires i < |keys| && i < |values|
    ensures base + Zip(keys[..i + 1], values[..i + 1]) == base + Zip(keys[..i], values[..i]) + [(keys[i], values[i])]
    ensures (base + Zip(keys, values))[..|base| + i] == base + Zip(keys[..i], values[..i])
    ensures (base + Zip(keys, values))[|base| + i] == (keys[i], values[i])
  {
    assert Zip(keys[..i + 1], values[..i + 1]) == Zip(keys[..i], values[..i]) + [(keys[i], values[i])];
    assert (base + Zip(keys, values))[..|base| + i] == base + Zip(keys[..i], values[..i]);
  }

  /** What the loop ran over ran out with the other list still holding
      entries: the fill is the whole zip. */
  lemma FillDone<V>(base: Pairs<V>, keys: seq<int32>, values: seq<V>, i: nat)
    requires i <= |keys| && i <= |values| && (i == |keys| || i == |values|)
    ensures Zip(keys[..i], values[..i]) == Zip(keys, values)
  {
  }

  /** A key met again by a fill: the whole fill repeats a key. */
  lemma FillRepeats<V>(base: Pairs<V>, keys: seq<int32>, values: seq<V>, i: nat)
    requires i < |keys| && i < |values|
    requires keys[i] in KeySet(base + Zip(keys[..i], values[..i]))
    ensures !DistinctKeys(base + Zip(keys, values))
  {
    FillStep(base, keys, values, i);
    RepeatInPrefix(base + Zip(keys, values), |base| + i, (keys[i], values[i]));
  }

  /** `data.dictionary.Add(keys[index++], value)` for each value in order
      (the loop of `Parse*Dictionary` that runs over the values). */
  method FillByValues<V>(d: SortedListDictionary<int32, V>, keys: seq<int32>, values: seq<V>) returns (ok: bool)
    requires d.Valid()
    modifies d
    ensures ok <==> Filled(old(d.Items()), keys, values, true).Some?
    ensures ok ==> d.Valid() && d.Items() == Filled(old(d.Items()), keys, values, true).value
  {
    ghost var base := d.Items();
    var index := 0;
    while index < |values|
      invariant 0 <= index <= |values| && index <= |keys|
      invariant d.Valid() && d.Items() == base + Zip(keys[..index], values[..index])
    {
      if index >= |keys| {
        return false;
      }
      LiveKeysAreIndexed(d.list, d.indexes);
      var added := d.Add(keys[index], values[index]);
      if !added {
        FillRepeats(base, keys, values, index);
        return false;
      }
      FillStep(base, keys, values, index);
      index := index + 1;
    }
    LiveKeysAreIndexed(d.list, d.indexes);
    FillDone(base, keys, values, index);
    ok := true;
  }

  /** `data.dictionary.Add(keys[i], values[i])` for each key in order (the
      loop of the older `ParseVersionDictionary`, which runs over the keys). */
  method FillByKeys<V>(d: SortedListDictionary<int32, V>, keys: seq<int32>, values: seq<V>) returns (ok: bool)
    requires d.Valid()
    modifies d
    ensures ok <==> Filled(old(d.Items()), keys, values, false).Some?
    ensures ok ==> d.Valid() && d.Items() == Filled(old(d.Items()), keys, values, false).value
  {
    ghost var base := d.Items();
    var i := 0;
    var count := |keys|;
    while i < count
      invariant 0 <= i <= count && i <= |values|
      invariant d.Valid() && d.Items() == base + Zip(keys[..i], values[..i])
    {
      if i >= |values| {
        return false;
      }
      LiveKeysAreIndexed(d.list, d.indexes);
      var added := d.Add(keys[i], values[i]);
      if !added {
        FillRepeats(base, keys, values, i);
        return false;
      }
      FillStep(base, keys, values, i);
      i := i + 1;
    }
    LiveKeysAreIndexed(d.list, d.indexes);
    FillDone(base, keys, values, i);
    ok := true;
  }

  /** The loop of `Write*Dictionary`: for each pair in enumeration order,
      the reversed-pair `x8` rendering of its key is appended to the packed
      keys and its value to the list. */
  method PackKeys<V>(pairs: Pairs<V>) returns (keys: string, values: seq<V>)
    ensures keys == EncodeKeys(Firsts(pairs)) && values == Seconds(pairs)
  {
    keys, values := "", [];
    var i := 0;
    while i < |pairs|
      invariant 0 <= i <= |pairs|
      invariant keys == EncodeKeys(Firsts(pairs[..i])) && values == Seconds(pairs[..i])
    {
      var piece := ReverseHexString(FormatX8(pairs[i].0));
      assert Firsts(pairs[..i + 1])[..i] == Firsts(pairs[..i]);
      keys := keys + piece;
      values := values + [pairs[i].1];
      i := i + 1;
    }
    assert pairs[..i] == pairs;
  }

  /** Packing one more key appends its eight characters. */
  lemma EncodeStep(ks: seq<int32>, i: nat)
    requires i < |ks|
    ensures EncodeKeys(ks[..i + 1]) == EncodeKeys(ks[..i]) + EncodeKey(ks[i])
  {
    assert ks[..i + 1][..i] == ks[..i];
  }

  lemma ZipOfPairs<V>(items: Pairs<V>)
    ensures [] + Zip(Firsts(items), Seconds(items)) == items
  {
    var z := Zip(Firsts(items), Seconds(items));
    assert |z| == |items|;
    assert forall i :: 0 <= i < |z| ==> z[i] == items[i];
  }

  /** Packing a dictionary and filling an empty one from the result gives
      the same pairs in the same order, whichever list the fill runs over. */
  lemma PackThenFill<V>(items: Pairs<V>, byValues: bool)
    requires DistinctKeys(items)
    ensures DecodeKeys(EncodeKeys(Firsts(items))) == Some(Firsts(items))
    ensures Filled([], Firsts(items), Seconds(items), byValues) == Some(items)
  {
    DecodeEncodeKeys(Firsts(items));
    ZipOfPairs(items);
  }
}
