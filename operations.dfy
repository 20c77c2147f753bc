/** The merge engine both generations of YAMLParser.cs share, for one
    dictionary at a time: `GenerateDiffs` turns a base and a variant into
    operations, `ComputeResults` splits the operations of two variants into
    accepted ones and conflicts, and `Apply` replays operations on a
    dictionary. The two generations differ only in the value type, in how
    two values are compared and in what a removal carries; those are the
    parameters here. */
module Operations {
  import opened Wrappers
  import opened HexKeys
  import opened SortedListDictionaries

  datatype OperationType = Addition | Modification | Removal

  /** `Operation<int, U>`: one change to the value under `key`. */
  datatype Operation<V> = Operation(key: int32, value: V, kind: OperationType)

  /** A dictionary's pairs in enumeration order. */
  type Pairs<V> = seq<(int32, V)>

  /** The first components of pairs, in order: the keys of a dictionary's
      pairs, or the A side of each conflict. */
  function Firsts<A, B>(ps: seq<(A, B)>): (r: seq<A>)
    ensures |r| == |ps| && forall i :: 0 <= i < |ps| ==> r[i] == ps[i].0
  {
    seq(|ps|, i requires 0 <= i < |ps| => ps[i].0)
  }

  /** The second components, in order. */
  function Seconds<A, B>(ps: seq<(A, B)>): (r: seq<B>)
    ensures |r| == |ps| && forall i :: 0 <= i < |ps| ==> r[i] == ps[i].1
  {
    seq(|ps|, i requires 0 <= i < |ps| => ps[i].1)
  }

  // ---------------------------------------------------------------------
  // A `Dictionary<int, Operation>` as the list of its operations, each
  // filed under its own key, in insertion order

  function OpKeys<V>(ops: seq<Operation<V>>): set<int32> {
    if ops == [] then {} else OpKeys(ops[..|ops| - 1]) + {ops[|ops| - 1].key}
  }

  /** No two operations share a key, as in a dictionary keyed by them. */
  predicate DistinctOps<V>(ops: seq<Operation<V>>) {
    ops == [] || (DistinctOps(ops[..|ops| - 1]) && ops[|ops| - 1].key !in OpKeys(ops[..|ops| - 1]))
  }

  /** `TryGetValue` on the operations: the first one under `k`. */
  function FindOp<V>(ops: seq<Operation<V>>, k: int32): (r: Option<Operation<V>>)
    ensures r.Some? <==> k in OpKeys(ops)
    ensures r.Some? ==> r.value in ops && r.value.key == k
  {
    if ops == [] then None
    else
      var front := ops[..|ops| - 1];
      var last := ops[|ops| - 1];
      assert forall x :: x in front ==> x in ops;
      match FindOp(front, k)
      case Some(op) => Some(op)
      case None => if last.key == k then Some(last) else None
  }

  lemma OpsSnoc<V>(ops: seq<Operation<V>>, x: Operation<V>)
    ensures (ops + [x])[..|ops|] == ops && (ops + [x])[|ops|] == x
    ensures OpKeys(ops + [x]) == OpKeys(ops) + {x.key}
    ensures DistinctOps(ops + [x]) <==> DistinctOps(ops) && x.key !in OpKeys(ops)
    ensures forall k :: FindOp(ops + [x], k) == if k in OpKeys(ops) then FindOp(ops, k)
                                                else if x.key == k then Some(x) else None
  {
    assert (ops + [x])[..|ops|] == ops;
  }

  /** Two lists of operations with no key in common: looking up in their
      concatenation looks up in the one holding the key. */
  lemma OpsAppend<V>(a: seq<Operation<V>>, b: seq<Operation<V>>)
    ensures OpKeys(a + b) == OpKeys(a) + OpKeys(b)
    ensures DistinctOps(a) && DistinctOps(b) && OpKeys(a) !! OpKeys(b) ==> DistinctOps(a + b)
    ensures forall k :: FindOp(a + b, k) == if k in OpKeys(a) then FindOp(a, k) else FindOp(b, k)
  {
    OpKeysAppend(a, b);
    DistinctAppend(a, b);
    FindOpAppend(a, b);
  }

  lemma {:induction false} OpKeysAppend<V>(a: seq<Operation<V>>, b: seq<Operation<V>>)
    ensures OpKeys(a + b) == OpKeys(a) + OpKeys(b)
    decreases |b|
  {
    if b == [] {
      assert a + b == a;
    } else {
      var front, last := b[..|b| - 1], b[|b| - 1];
      OpKeysAppend(a, front);
      assert a + b == (a + front) + [last];
      OpsSnoc(a + front, last);
    }
  }

  lemma {:induction false} DistinctAppend<V>(a: seq<Operation<V>>, b: seq<Operation<V>>)
    ensures DistinctOps(a) && DistinctOps(b) && OpKeys(a) !! OpKeys(b) ==> DistinctOps(a + b)
    decreases |b|
  {
    if b == [] {
      assert a + b == a;
    } else if DistinctOps(a) && DistinctOps(b) && OpKeys(a) !! OpKeys(b) {
      var front, last := b[..|b| - 1], b[|b| - 1];
      assert b == front + [last];
      OpsSnoc(front, last);
      DistinctAppend(a, front);
      OpKeysAppend(a, front);
      assert a + b == (a + front) + [last];
      OpsSnoc(a + front, last);
    }
  }

  lemma {:induction false} FindOpAppend<V>(a: seq<Operation<V>>, b: seq<Operation<V>>)
    ensures forall k :: FindOp(a + b, k) == if k in OpKeys(a) then FindOp(a, k) else FindOp(b, k)
    decreases |b|
  {
    if b == [] {
      assert a + b == a;
    } else {
      var front, last := b[..|b| - 1], b[|b| - 1];
      FindOpAppend(a, front);
      OpKeysAppend(a, front);
      assert a + b == (a + front) + [last];
      assert b == front + [last];
      OpsSnoc(a + front, last);
      OpsSnoc(front, last);
    }
  }

  lemma {:induction false} OpKeysMembers<V>(ops: seq<Operation<V>>)
    ensures forall x :: x in ops ==> x.key in OpKeys(ops)
    decreases |ops|
  {
    if ops != [] {
      var front, last := ops[..|ops| - 1], ops[|ops| - 1];
      OpKeysMembers(front);
      assert ops == front + [last];
      OpsSnoc(front, last);
    }
  }

  /** With distinct keys, an operation in the list is the one filed under
      its key. */
  lemma {:induction false} FindOpOfMember<V>(ops: seq<Operation<V>>, x: Operation<V>)
    requires DistinctOps(ops) && x in ops
    ensures FindOp(ops, x.key) == Some(x)
    decreases |ops|
  {
    var front, last := ops[..|ops| - 1], ops[|ops| - 1];
    assert ops == front + [last];
    OpsSnoc(front, last);
    if x != last {
      FindOpOfMember(front, x);
    } else {
      OpKeysMembers(front);
    }
  }

  // ---------------------------------------------------------------------
  // Pairs, as a dictionary's enumeration yields them

  lemma {:induction false} LookupSnoc<V>(items: Pairs<V>, p: (int32, V), k: int32)
    ensures Lookup(items + [p], k) == if Lookup(items, k).Some? then Lookup(items, k)
                                      else if p.0 == k then Some(p.1) else None
    decreases |items|
  {
    if items != [] {
      assert (items + [p])[1..] == items[1..] + [p];
      LookupSnoc(items[1..], p, k);
    }
  }

  /** With distinct keys, the pair at position `i` is what its key looks up. */
  lemma {:induction false} LookupAt<V>(items: Pairs<V>, i: nat)
    requires DistinctKeys(items) && i < |items|
    ensures Lookup(items, items[i].0) == Some(items[i].1)
  {
    var r := Lookup(items, items[i].0);
    var j :| 0 <= j < |items| && items[j] == (items[i].0, r.value);
    assert j == i;
  }

  lemma PairsSnoc<V>(items: Pairs<V>, p: (int32, V))
    ensures (items + [p])[..|items|] == items && (items + [p])[|items|] == p
    ensures KeySet(items + [p]) == KeySet(items) + {p.0}
    ensures DistinctKeys(items + [p]) <==> DistinctKeys(items) && p.0 !in KeySet(items)
    ensures forall k :: Lookup(items + [p], k) == if k in KeySet(items) then Lookup(items, k)
                                                  else if p.0 == k then Some(p.1) else None
  {
    assert (items + [p])[..|items|] == items;
    KeySetSnoc(items, p);
    DistinctSnoc(items, p);
    forall k ensures Lookup(items + [p], k) == if k in KeySet(items) then Lookup(items, k)
                                              else if p.0 == k then Some(p.1) else None
    {
      LookupSnoc(items, p, k);
    }
  }

  // ---------------------------------------------------------------------
  // GenerateDiffs, for one dictionary

  /** How `GenerateDiffs` compares the variant's value `w` with the base's
      `v`: `Some(true)` when they differ, `None` when the comparison throws. */
  type Comparison<!V> = (V, V) -> Option<bool>

  /** What the first loop of `GenerateDiffs` files for the base pair `p`: a
      removal (carrying `removed`) when the variant lacks the key, a
      modification (carrying the variant's value) when the values differ,
      nothing when they do not; `None` when the comparison throws. */
  function ChangeOf<V>(p: (int32, V), modif: Pairs<V>, differs: Comparison<V>, removed: V)
    : Option<seq<Operation<V>>>
  {
    match Lookup(modif, p.0)
    case None => Some([Operation(p.0, removed, Removal)])
    case Some(w) =>
      match differs(w, p.1)
      case None => None
      case Some(d) => Some(if d then [Operation(p.0, w, Modification)] else [])
  }

  /** The first loop: the base pairs in order, failing once a comparison
      throws. */
  function Changes<V>(source: Pairs<V>, modif: Pairs<V>, differs: Comparison<V>, removed: V)
    : Option<seq<Operation<V>>>
  {
    if source == [] then Some([])
    else
      match (Changes(source[..|source| - 1], modif, differs, removed),
             ChangeOf(source[|source| - 1], modif, differs, removed))
      case (Some(ops), Some(c)) => Some(ops + c)
      case _ => None
  }

  /** The second loop: an addition for each variant pair whose key the base
      lacks, in the variant's order. */
  function Additions<V>(source: Pairs<V>, modif: Pairs<V>): seq<Operation<V>> {
    if modif == [] then []
    else Additions(source, modif[..|modif| - 1]) + AdditionOf(source, modif[|modif| - 1])
  }

  /** What the second loop files for the variant pair `p`. */
  function AdditionOf<V>(source: Pairs<V>, p: (int32, V)): seq<Operation<V>> {
    if p.0 in KeySet(source) then [] else [Operation(p.0, p.1, Addition)]
  }

  lemma AdditionOfSpec<V>(source: Pairs<V>, p: (int32, V))
    ensures var c := AdditionOf(source, p);
      && DistinctOps(c) && OpKeys(c) <= {p.0} && OpKeys(c) !! KeySet(source)
      && forall k :: FindOp(c, k) == if k == p.0 && k !in KeySet(source) then Some(Operation(k, p.1, Addition)) else None
  {
    var c := AdditionOf(source, p);
    if c != [] {
      assert c == [] + [c[0]];
      OpsSnoc([], c[0]);
    }
  }

  /** `GenerateDiffs` on one dictionary. */
  function Diff<V>(source: Pairs<V>, modif: Pairs<V>, differs: Comparison<V>, removed: V)
    : Option<seq<Operation<V>>>
  {
    match Changes(source, modif, differs, removed)
    case None => None
    case Some(ops) => Some(ops + Additions(source, modif))
  }

  /** The operation a diff should file under key `k`, given the base's value
      `sv` and the variant's `mv` there. */
  function ExpectedOf<V>(k: int32, sv: Option<V>, mv: Option<V>, differs: Comparison<V>, removed: V)
    : Option<Operation<V>>
  {
    match (sv, mv)
    case (Some(v), Some(w)) => if differs(w, v) == Some(true) then Some(Operation(k, w, Modification)) else None
    case (Some(_), None) => Some(Operation(k, removed, Removal))
    case (None, Some(w)) => Some(Operation(k, w, Addition))
    case (None, None) => None
  }

  /** The operation a diff should hold for key `k`, decided from the two
      dictionaries alone. */
  function Expected<V>(source: Pairs<V>, modif: Pairs<V>, differs: Comparison<V>, removed: V, k: int32)
    : Option<Operation<V>>
  {
    ExpectedOf(k, Lookup(source, k), Lookup(modif, k), differs, removed)
  }

  /** What one base pair files is the expected operation for its key. */
  lemma ChangeOfIsExpected<V>(p: (int32, V), modif: Pairs<V>, differs: Comparison<V>, removed: V)
    requires ChangeOf(p, modif, differs, removed).Some?
    ensures var c := ChangeOf(p, modif, differs, removed).value;
      && DistinctOps(c) && OpKeys(c) <= {p.0}
      && forall k :: FindOp(c, k)
                     == if k == p.0 then ExpectedOf(k, Some(p.1), Lookup(modif, k), differs, removed) else None
  {
    var c := ChangeOf(p, modif, differs, removed).value;
    if c != [] {
      assert c == [] + [c[0]];
      OpsSnoc([], c[0]);
    }
  }

  lemma {:induction false} ChangesPerKey<V>(source: Pairs<V>, modif: Pairs<V>, differs: Comparison<V>, removed: V)
    requires DistinctKeys(source)
    requires Changes(source, modif, differs, removed).Some?
    ensures var ops := Changes(source, modif, differs, removed).value;
      && DistinctOps(ops) && OpKeys(ops) <= KeySet(source)
      && forall k :: FindOp(ops, k) == if k in KeySet(source) then Expected(source, modif, differs, removed, k) else None
    decreases |source|
  {
    if source != [] {
      var front, p := source[..|source| - 1], source[|source| - 1];
      assert source == front + [p];
      PairsSnoc(front, p);
      ChangesPerKey(front, modif, differs, removed);
      var ops := Changes(front, modif, differs, removed).value;
      var c := ChangeOf(p, modif, differs, removed).value;
      ChangeOfIsExpected(p, modif, differs, removed);
      OpsAppend(ops, c);
    }
  }

  lemma {:induction false} AdditionsPerKey<V>(source: Pairs<V>, modif: Pairs<V>)
    requires DistinctKeys(modif)
    ensures var ops := Additions(source, modif);
      && DistinctOps(ops) && OpKeys(ops) !! KeySet(source)
      && forall k :: FindOp(ops, k) == if k in KeySet(modif) && k !in KeySet(source)
                                       then Some(Operation(k, Lookup(modif, k).value, Addition)) else None
    decreases |modif|
  {
    if modif != [] {
      var front, p := modif[..|modif| - 1], modif[|modif| - 1];
      assert modif == front + [p];
      PairsSnoc(front, p);
      AdditionsPerKey(source, front);
      var ops := Additions(source, front);
      var c := AdditionOf(source, p);
      AdditionOfSpec(source, p);
      OpsAppend(ops, c);
      var all := Additions(source, modif);
      assert all == ops + c;
      assert OpKeys(ops) !! OpKeys(c) by {
        forall k | k in OpKeys(ops) ensures k in KeySet(front) {
          assert FindOp(ops, k).Some?;
        }
      }
      forall k ensures FindOp(all, k) == if k in KeySet(modif) && k !in KeySet(source)
                                          then Some(Operation(k, Lookup(modif, k).value, Addition)) else None
      {
        if k in KeySet(front) {
          assert Lookup(modif, k) == Lookup(front, k);
        }
      }
    }
  }

  /** `GenerateDiffs` files exactly one operation under each key the
      dictionaries disagree on and none under any other: a modification
      carrying the variant's value where the comparison says the values
      differ, a removal where the variant lacks the key, an addition where
      the base lacks it. */
  lemma DiffPerKey<V>(source: Pairs<V>, modif: Pairs<V>, differs: Comparison<V>, removed: V)
    requires DistinctKeys(source) && DistinctKeys(modif)
    requires Diff(source, modif, differs, removed).Some?
    ensures var ops := Diff(source, modif, differs, removed).value;
      && DistinctOps(ops)
      && forall k :: FindOp(ops, k) == Expected(source, modif, differs, removed, k)
  {
    var changes := Changes(source, modif, differs, removed).value;
    var additions := Additions(source, modif);
    ChangesPerKey(source, modif, differs, removed);
    AdditionsPerKey(source, modif);
    OpsAppend(changes, additions);
  }

  /** `GenerateDiffs` throws exactly when comparing the two values of some
      key both dictionaries hold throws. */
  lemma {:induction false} DiffFails<V>(source: Pairs<V>, modif: Pairs<V>, differs: Comparison<V>, removed: V)
    ensures Diff(source, modif, differs, removed).None? <==>
      exists i :: 0 <= i < |source| && Lookup(modif, source[i].0).Some?
                  && differs(Lookup(modif, source[i].0).value, source[i].1).None?
    decreases |source|
  {
    if source != [] {
      var front, p := source[..|source| - 1], source[|source| - 1];
      DiffFails(front, modif, differs, removed);
      assert forall i :: 0 <= i < |front| ==> source[i] == front[i];
      if Changes(front, modif, differs, removed).None? {
        var i :| 0 <= i < |front| && Lookup(modif, front[i].0).Some?
                 && differs(Lookup(modif, front[i].0).value, front[i].1).None?;
        assert source[i] == front[i];
      }
    }
  }

  /** Comparing a dictionary with itself: when every value compares equal
      to itself, the diff is empty. */
  lemma DiffOfSelf<V>(d: Pairs<V>, differs: Comparison<V>, removed: V)
    requires DistinctKeys(d)
    requires forall i :: 0 <= i < |d| ==> differs(d[i].1, d[i].1) == Some(false)
    ensures Diff(d, d, differs, removed) == Some([])
  {
    assert d[..|d|] == d;
    NoChangesOnSelf(d, d, differs, removed);
    NoAdditionsOnSelf(d, d);
    var none: seq<Operation<V>> := [];
    assert none + none == none;
  }

  lemma {:induction false} NoChangesOnSelf<V>(front: Pairs<V>, d: Pairs<V>, differs: Comparison<V>, removed: V)
    requires DistinctKeys(d) && |front| <= |d| && front == d[..|front|]
    requires forall i :: 0 <= i < |d| ==> differs(d[i].1, d[i].1) == Some(false)
    ensures Changes(front, d, differs, removed) == Some([])
    decreases |front|
  {
    if front != [] {
      var n := |front|;
      assert front[..n - 1] == d[..n - 1];
      NoChangesOnSelf(front[..n - 1], d, differs, removed);
      LookupAt(d, n - 1);
      assert front[n - 1] == d[n - 1];
      assert ChangeOf(front[n - 1], d, differs, removed) == Some([]);
      var none: seq<Operation<V>> := [];
      assert none + none == none;
    }
  }

  lemma {:induction false} NoAdditionsOnSelf<V>(source: Pairs<V>, modif: Pairs<V>)
    requires KeySet(modif) <= KeySet(source)
    ensures Additions(source, modif) == []
    decreases |modif|
  {
    if modif != [] {
      var front, p := modif[..|modif| - 1], modif[|modif| - 1];
      assert modif == front + [p];
      KeySetSnoc(front, p);
      NoAdditionsOnSelf(source, front);
    }
  }

  // ---------------------------------------------------------------------
  // ComputeResults, for one dictionary

  /** The operations of `a` whose key `b` does not touch, in order: what
      the loop over `a` (or over `b`, with the roles swapped) accepts. */
  function OnlyIn<V>(a: seq<Operation<V>>, b: seq<Operation<V>>): seq<Operation<V>> {
    if a == [] then [] else OnlyIn(a[..|a| - 1], b) + Own(a[|a| - 1], b)
  }

  /** What the loop accepts of `op`: it, unless `b` touched its key. */
  function Own<V>(op: Operation<V>, b: seq<Operation<V>>): seq<Operation<V>> {
    if op.key in OpKeys(b) then [] else [op]
  }

  lemma OwnSpec<V>(op: Operation<V>, b: seq<Operation<V>>)
    ensures var c := Own(op, b);
      && DistinctOps(c) && OpKeys(c) <= {op.key} && OpKeys(c) !! OpKeys(b)
      && forall k :: FindOp(c, k) == if k == op.key && k !in OpKeys(b) then Some(op) else None
  {
    var c := Own(op, b);
    if c != [] {
      assert c == [] + [c[0]];
      OpsSnoc([], c[0]);
    }
  }

  /** A conflict: the operation of side A and the one of side B on the same key. */
  type Conflict<V> = (Operation<V>, Operation<V>)

  /** The conflict pairs the loop over `a` records, in `a`'s order: each
      operation of `a` whose key `b` also touched, with `b`'s operation. */
  function Conflicts<V>(a: seq<Operation<V>>, b: seq<Operation<V>>): seq<Conflict<V>> {
    if a == [] then []
    else
      var op := a[|a| - 1];
      Conflicts(a[..|a| - 1], b) + (match FindOp(b, op.key) case Some(op2) => [(op, op2)] case None => [])
  }

  /** What a merge accepts for one dictionary: side A's own operations, then
      side B's own ones. */
  function Accepted<V>(a: seq<Operation<V>>, b: seq<Operation<V>>): seq<Operation<V>> {
    OnlyIn(a, b) + OnlyIn(b, a)
  }

  /** The conflict pair recorded for key `k`, if any. */
  function FindConflict<V>(cs: seq<Conflict<V>>, k: int32): Option<Conflict<V>> {
    if cs == [] then None
    else
      match FindConflict(cs[..|cs| - 1], k)
      case Some(c) => Some(c)
      case None => if cs[|cs| - 1].0.key == k then Some(cs[|cs| - 1]) else None
  }

  /** The keys of the conflict pairs, each once. */
  predicate DistinctConflicts<V>(cs: seq<Conflict<V>>) {
    cs == [] || (DistinctConflicts(cs[..|cs| - 1]) && FindConflict(cs[..|cs| - 1], cs[|cs| - 1].0.key).None?)
  }

  lemma {:induction false} OnlyInKeys<V>(a: seq<Operation<V>>, b: seq<Operation<V>>)
    requires DistinctOps(a)
    ensures var r := OnlyIn(a, b);
      DistinctOps(r) && OpKeys(r) <= OpKeys(a) && OpKeys(r) !! OpKeys(b)
    decreases |a|
  {
    if a != [] {
      var front, op := a[..|a| - 1], a[|a| - 1];
      assert a == front + [op];
      OpsSnoc(front, op);
      OnlyInKeys(front, b);
      OwnSpec(op, b);
      OpsAppend(OnlyIn(front, b), Own(op, b));
    }
  }

  lemma {:induction false} OnlyInPerKey<V>(a: seq<Operation<V>>, b: seq<Operation<V>>)
    requires DistinctOps(a)
    ensures forall k :: FindOp(OnlyIn(a, b), k) == if k in OpKeys(b) then None else FindOp(a, k)
    decreases |a|
  {
    if a != [] {
      var front, op := a[..|a| - 1], a[|a| - 1];
      assert a == front + [op];
      assert OnlyIn(a, b) == OnlyIn(front, b) + Own(op, b);
      OpsSnoc(front, op);
      OnlyInKeys(front, b);
      OnlyInPerKey(front, b);
      forall k ensures FindOp(OnlyIn(a, b), k) == if k in OpKeys(b) then None else FindOp(a, k) {
        OnlyInStep(front, op, b, k);
      }
    }
  }

  lemma OnlyInStep<V>(front: seq<Operation<V>>, op: Operation<V>, b: seq<Operation<V>>, k: int32)
    requires OpKeys(OnlyIn(front, b)) <= OpKeys(front) && OpKeys(OnlyIn(front, b)) !! OpKeys(b)
    requires FindOp(OnlyIn(front, b), k) == if k in OpKeys(b) then None else FindOp(front, k)
    ensures FindOp(OnlyIn(front, b) + Own(op, b), k) == if k in OpKeys(b) then None else FindOp(front + [op], k)
  {
    var r, c := OnlyIn(front, b), Own(op, b);
    OpsSnoc(front, op);
    OwnSpec(op, b);
    OpsAppend(r, c);
  }

  lemma {:induction false} ConflictsPerKey<V>(a: seq<Operation<V>>, b: seq<Operation<V>>)
    requires DistinctOps(a)
    ensures var cs := Conflicts(a, b);
      && DistinctConflicts(cs)
      && forall k :: FindConflict(cs, k) == if k in OpKeys(a) && k in OpKeys(b)
                                            then Some((FindOp(a, k).value, FindOp(b, k).value)) else None
    decreases |a|
  {
    if a != [] {
      var front, op := a[..|a| - 1], a[|a| - 1];
      assert a == front + [op];
      OpsSnoc(front, op);
      ConflictsPerKey(front, b);
      var cs := Conflicts(front, b);
      match FindOp(b, op.key)
      case None =>
        assert cs + [] == cs;
      case Some(op2) =>
        var pair := (op, op2);
        assert (cs + [pair])[..|cs|] == cs;
    }
  }

  /** `ComputeResults` partitions the keys the two sides touched: a key both
      touched becomes exactly one conflict pair (A's operation, B's
      operation) and is never accepted; a key one side touched has that
      side's operation accepted, exactly once. */
  lemma MergePartition<V>(a: seq<Operation<V>>, b: seq<Operation<V>>)
    requires DistinctOps(a) && DistinctOps(b)
    ensures DistinctOps(Accepted(a, b)) && DistinctConflicts(Conflicts(a, b))
    ensures forall k ::
              FindOp(Accepted(a, b), k) ==
                if k in OpKeys(a) && k in OpKeys(b) then None
                else if k in OpKeys(a) then FindOp(a, k) else FindOp(b, k)
    ensures forall k ::
              FindConflict(Conflicts(a, b), k) ==
                if k in OpKeys(a) && k in OpKeys(b) then Some((FindOp(a, k).value, FindOp(b, k).value)) else None
  {
    OnlyInKeys(a, b);
    OnlyInKeys(b, a);
    OnlyInPerKey(a, b);
    OnlyInPerKey(b, a);
    OpsAppend(OnlyIn(a, b), OnlyIn(b, a));
    ConflictsPerKey(a, b);
  }

  /** One dictionary's loop records no conflict exactly when the two
      variants touched no key in common. */
  lemma NoConflictIff<V>(a: seq<Operation<V>>, b: seq<Operation<V>>)
    requires DistinctOps(a)
    ensures Conflicts(a, b) == [] <==> OpKeys(a) !! OpKeys(b)
  {
    var cs := Conflicts(a, b);
    ConflictsPerKey(a, b);
    if cs != [] {
      var k := cs[|cs| - 1].0.key;
      assert FindConflict(cs, k).Some?;
    }
    if k :| k in OpKeys(a) && k in OpKeys(b) {
      assert FindConflict(cs, k).Some?;
    }
  }

  /** Swapping the two sides accepts the same operations, as a multiset and
      in another order. */
  lemma MergeSwapAccepted<V>(a: seq<Operation<V>>, b: seq<Operation<V>>)
    ensures multiset(Accepted(a, b)) == multiset(Accepted(b, a))
    ensures OpKeys(Accepted(a, b)) == OpKeys(Accepted(b, a))
  {
    OpsAppend(OnlyIn(a, b), OnlyIn(b, a));
    OpsAppend(OnlyIn(b, a), OnlyIn(a, b));
  }

  /** Swapping the two sides records the same conflicts, each pair swapped. */
  lemma MergeSwapConflicts<V>(a: seq<Operation<V>>, b: seq<Operation<V>>)
    requires DistinctOps(a) && DistinctOps(b)
    ensures forall k :: FindConflict(Conflicts(b, a), k) == Swapped(FindConflict(Conflicts(a, b), k))
  {
    ConflictsPerKey(a, b);
    ConflictsPerKey(b, a);
  }

  function Swapped<V>(c: Option<Conflict<V>>): Option<Conflict<V>> {
    match c
    case Some(pair) => Some((pair.1, pair.0))
    case None => None
  }

  // ---------------------------------------------------------------------
  // Apply, for one dictionary

  /** One operation on a dictionary: an addition appends (and throws on a
      key already there), a modification overwrites in place (nothing for
      an absent key), a removal drops the key (nothing for an absent key). */
  function ApplyOp<V>(items: Pairs<V>, op: Operation<V>): Option<Pairs<V>> {
    match op.kind
    case Addition => if op.key in KeySet(items) then None else Some(items + [(op.key, op.value)])
    case Modification => Some(WithValue(items, op.key, op.value))
    case Removal => Some(Without(items, op.key))
  }

  /** The `foreach` of `Apply`: the operations in list order, stopping at
      the first that throws. */
  function ApplyOps<V>(items: Pairs<V>, ops: seq<Operation<V>>): Option<Pairs<V>> {
    if ops == [] then Some(items)
    else
      match ApplyOps(items, ops[..|ops| - 1])
      case None => None
      case Some(r) => ApplyOp(r, ops[|ops| - 1])
  }

  /** The value under a key after the operation filed under it, if any. */
  function After<V>(current: Option<V>, op: Option<Operation<V>>): Option<V> {
    match op
    case None => current
    case Some(o) =>
      match o.kind
      case Addition => Some(o.value)
      case Modification => if current.Some? then Some(o.value) else None
      case Removal => None
  }

  lemma {:induction false} LookupWithValue<V>(items: Pairs<V>, k: int32, v: V)
    requires DistinctKeys(items)
    ensures DistinctKeys(WithValue(items, k, v)) && KeySet(WithValue(items, k, v)) == KeySet(items)
    ensures forall j ::
              Lookup(WithValue(items, k, v), j) == if j == k && Lookup(items, k).Some? then Some(v) else Lookup(items, j)
  {
    var r := WithValue(items, k, v);
    assert forall i :: 0 <= i < |items| ==> r[i].0 == items[i].0;
    assert KeySet(r) == KeySet(items) by {
      forall x | x in KeySet(r) ensures x in KeySet(items) {
        var i :| 0 <= i < |r| && r[i].0 == x;
      }
      forall x | x in KeySet(items) ensures x in KeySet(r) {
        var i :| 0 <= i < |items| && items[i].0 == x;
        assert r[i].0 == x;
      }
    }
    forall j ensures Lookup(r, j) == if j == k && Lookup(items, k).Some? then Some(v) else Lookup(items, j) {
      if j in KeySet(items) {
        var i :| 0 <= i < |items| && items[i].0 == j;
        LookupAt(items, i);
        LookupAt(r, i);
      }
    }
  }

  lemma {:induction false} LookupWithout<V>(items: Pairs<V>, k: int32)
    requires DistinctKeys(items)
    ensures forall j :: Lookup(Without(items, k), j) == if j == k then None else Lookup(items, j)
    decreases |items|
  {
    if items != [] {
      var front, p := items[..|items| - 1], items[|items| - 1];
      assert items == front + [p];
      PairsSnoc(front, p);
      LookupWithout(front, k);
      if p.0 != k {
        PairsSnoc(Without(front, k), p);
      }
    }
  }

  lemma ApplyOpPerKey<V>(items: Pairs<V>, op: Operation<V>)
    requires DistinctKeys(items) && ApplyOp(items, op).Some?
    ensures var r := ApplyOp(items, op).value;
      && DistinctKeys(r)
      && forall j :: Lookup(r, j) == if j == op.key then After(Lookup(items, j), Some(op)) else Lookup(items, j)
  {
    match op.kind
    case Addition =>
      PairsSnoc(items, (op.key, op.value));
    case Modification =>
      LookupWithValue(items, op.key, op.value);
    case Removal =>
      LookupWithout(items, op.key);
  }

  /** Replaying operations with distinct keys changes each key as its own
      operation says and leaves every other key alone. */
  lemma {:induction false} ApplyPerKey<V>(items: Pairs<V>, ops: seq<Operation<V>>)
    requires DistinctKeys(items) && DistinctOps(ops)
    requires ApplyOps(items, ops).Some?
    ensures var r := ApplyOps(items, ops).value;
      && DistinctKeys(r)
      && forall k :: Lookup(r, k) == After(Lookup(items, k), FindOp(ops, k))
    decreases |ops|
  {
    if ops != [] {
      var front, op := ops[..|ops| - 1], ops[|ops| - 1];
      assert ops == front + [op];
      OpsSnoc(front, op);
      ApplyPerKey(items, front);
      ApplyOpPerKey(ApplyOps(items, front).value, op);
    }
  }

  /** With distinct keys, `Apply` throws exactly when an addition meets a
      key the dictionary already holds. */
  lemma {:induction false} ApplySucceeds<V>(items: Pairs<V>, ops: seq<Operation<V>>)
    requires DistinctKeys(items) && DistinctOps(ops)
    ensures ApplyOps(items, ops).Some? <==>
      forall k :: FindOp(ops, k).Some? && FindOp(ops, k).value.kind == Addition ==> k !in KeySet(items)
    decreases |ops|
  {
    if ops != [] {
      var front, op := ops[..|ops| - 1], ops[|ops| - 1];
      assert ops == front + [op];
      OpsSnoc(front, op);
      ApplySucceeds(items, front);
      if ApplyOps(items, front).Some? {
        ApplyPerKey(items, front);
        var r := ApplyOps(items, front).value;
        assert Lookup(r, op.key) == Lookup(items, op.key);
      }
    }
  }

  // ---------------------------------------------------------------------
  // The engine, end to end

  /** The value a key should have once a variant's diff is replayed on the
      base: the variant's, except where the comparison calls the two values
      equal, where the base's stays. */
  function Resolved<V>(source: Pairs<V>, modif: Pairs<V>, differs: Comparison<V>, k: int32): Option<V> {
    match (Lookup(source, k), Lookup(modif, k))
    case (Some(v), Some(w)) => if differs(w, v) == Some(true) then Some(w) else Some(v)
    case (_, m) => m
  }

  /** Replaying the diff of a variant on its base never throws and gives
      the variant back, up to values the comparison calls equal. */
  lemma ApplyDiff<V>(source: Pairs<V>, modif: Pairs<V>, differs: Comparison<V>, removed: V)
    requires DistinctKeys(source) && DistinctKeys(modif)
    requires Diff(source, modif, differs, removed).Some?
    ensures var ops := Diff(source, modif, differs, removed).value;
      && ApplyOps(source, ops).Some?
      && forall k :: Lookup(ApplyOps(source, ops).value, k) == Resolved(source, modif, differs, k)
  {
    var ops := Diff(source, modif, differs, removed).value;
    DiffPerKey(source, modif, differs, removed);
    ApplySucceeds(source, ops);
    ApplyPerKey(source, ops);
  }

  /** Replaying the accepted operations of two lists with distinct keys
      never throws when neither list adds a key the base already holds; a
      key both lists touched keeps the base's value, any other key changes
      as the one list touching it says. */
  lemma ApplyAccepted<V>(source: Pairs<V>, da: seq<Operation<V>>, db: seq<Operation<V>>)
    requires DistinctKeys(source) && DistinctOps(da) && DistinctOps(db)
    requires forall k :: FindOp(da, k).Some? && FindOp(da, k).value.kind == Addition ==> k !in KeySet(source)
    requires forall k :: FindOp(db, k).Some? && FindOp(db, k).value.kind == Addition ==> k !in KeySet(source)
    ensures ApplyOps(source, Accepted(da, db)).Some?
    ensures forall k ::
              Lookup(ApplyOps(source, Accepted(da, db)).value, k) ==
                if k in OpKeys(da) && k in OpKeys(db) then Lookup(source, k)
                else if k in OpKeys(da) then After(Lookup(source, k), FindOp(da, k))
                else After(Lookup(source, k), FindOp(db, k))
  {
    MergePartition(da, db);
    var acc := Accepted(da, db);
    ApplySucceeds(source, acc);
    ApplyPerKey(source, acc);
  }

  /** Replaying the expected operation of a key gives the resolved value. */
  lemma ResolvedIsAfter<V>(source: Pairs<V>, modif: Pairs<V>, differs: Comparison<V>, removed: V, k: int32)
    ensures After(Lookup(source, k), Expected(source, modif, differs, removed, k)) == Resolved(source, modif, differs, k)
  {
  }

  /** The value a three-way merge should leave under `k`, decided from the
      three dictionaries alone: the base's where both variants changed the
      key, the changing variant's where one did. */
  function Merged<V>(source: Pairs<V>, a: Pairs<V>, b: Pairs<V>, differs: Comparison<V>, removed: V, k: int32)
    : Option<V>
  {
    var changedA := Expected(source, a, differs, removed, k).Some?;
    var changedB := Expected(source, b, differs, removed, k).Some?;
    if changedA && changedB then Lookup(source, k)
    else if changedA then Resolved(source, a, differs, k)
    else Resolved(source, b, differs, k)
  }

  /** The three-way merge of one dictionary: replaying what `ComputeResults`
      accepts from the diffs of two variants against their common base
      never throws, and leaves every key with its merged value. */
  lemma ApplyMerge<V>(source: Pairs<V>, a: Pairs<V>, b: Pairs<V>, differs: Comparison<V>, removed: V)
    requires DistinctKeys(source) && DistinctKeys(a) && DistinctKeys(b)
    requires Diff(source, a, differs, removed).Some? && Diff(source, b, differs, removed).Some?
    ensures var da, db := Diff(source, a, differs, removed).value, Diff(source, b, differs, removed).value;
      && ApplyOps(source, Accepted(da, db)).Some?
      && DistinctKeys(ApplyOps(source, Accepted(da, db)).value)
      && forall k :: Lookup(ApplyOps(source, Accepted(da, db)).value, k) == Merged(source, a, b, differs, removed, k)
  {
    var da, db := Diff(source, a, differs, removed).value, Diff(source, b, differs, removed).value;
    DiffPerKey(source, a, differs, removed);
    DiffPerKey(source, b, differs, removed);
    ApplyAccepted(source, da, db);
    MergePartition(da, db);
    ApplyPerKey(source, Accepted(da, db));
    var r := ApplyOps(source, Accepted(da, db)).value;
    forall k ensures Lookup(r, k) == Merged(source, a, b, differs, removed, k) {
      ResolvedIsAfter(source, a, differs, removed, k);
      ResolvedIsAfter(source, b, differs, removed, k);
    }
  }
}
