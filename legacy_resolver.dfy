/** The resolver of the older generation (`ConsoleApplication1/YAMLParser`):
    the same diff, merge and replay as the current one, over a text
    dictionary of nullable strings and a version dictionary of ints. The
    version dictionary packs its values as hex, like its keys. The
    document tree the values come from is not part of this model: parsing
    starts from, and writing ends with, the scalar values of the `m_keys`
    and `m_values` nodes. */
module LegacyResolver {
  import opened Wrappers
  import opened Strings
  import opened HexKeys
  import opened SortedListDictionaries
  import opened Operations
  import opened Engine
  import opened Rendering

  /** A text value; `None` is `null`. */
  type Text = Option<string>

  /** `!string.Equals(value, pair.Value)`: never throws, and two nulls are
      equal. */
  function TextDiffer(w: Text, v: Text): Option<bool> {
    Some(w != v)
  }

  /** `value != pair.Value`. */
  function VersionDiffer(w: int32, v: int32): Option<bool> {
    Some(w != v)
  }

  /** What a removal carries in each dictionary. */
  const TextRemoved: Text := None
  const VersionRemoved: int32 := 0

  datatype Tables = Tables(text: Pairs<Text>, version: Pairs<int32>)

  predicate DistinctTables(t: Tables) {
    DistinctKeys(t.text) && DistinctKeys(t.version)
  }

  class Data {
    const textKeyDictionary: SortedListDictionary<int32, Text>
    const versionDictionary: SortedListDictionary<int32, int32>

    ghost predicate Valid()
      reads this, textKeyDictionary, versionDictionary
    {
      textKeyDictionary.Valid() && versionDictionary.Valid()
    }

    function Contents(): Tables
      reads this, textKeyDictionary, versionDictionary
    {
      Tables(textKeyDictionary.Items(), versionDictionary.Items())
    }

    constructor ()
      ensures Valid() && Contents() == Tables([], [])
      ensures fresh(textKeyDictionary) && fresh(versionDictionary)
    {
      textKeyDictionary := new SortedListDictionary(None);
      versionDictionary := new SortedListDictionary(0);
    }
  }

  lemma ContentsDistinct(data: Data)
    requires data.Valid()
    ensures DistinctTables(data.Contents())
  {
    LiveKeysAreIndexed(data.textKeyDictionary.list, data.textKeyDictionary.indexes);
    LiveKeysAreIndexed(data.versionDictionary.list, data.versionDictionary.indexes);
  }

  datatype Modifications = Modifications(textKeyOperations: seq<Operation<Text>>,
                                         versionOperations: seq<Operation<int32>>)

  /** An operation of either dictionary, as the untyped `Operation` base
      class holds it in a conflict pair. */
  datatype AnyOperation = TextOp(text: Operation<Text>) | VersionOp(version: Operation<int32>)

  type AnyConflict = (AnyOperation, AnyOperation)

  datatype ModificationResult = ModificationResult(textKeyOperations: seq<Operation<Text>>,
                                                   versionOperations: seq<Operation<int32>>,
                                                   invalidOperations: seq<AnyConflict>)

  // ---------------------------------------------------------------------
  // GenerateDiffs

  function DiffsOf(source: Tables, modif: Tables): Modifications
    requires Diff(source.text, modif.text, TextDiffer, TextRemoved).Some?
    requires Diff(source.version, modif.version, VersionDiffer, VersionRemoved).Some?
  {
    Modifications(Diff(source.text, modif.text, TextDiffer, TextRemoved).value,
                  Diff(source.version, modif.version, VersionDiffer, VersionRemoved).value)
  }

  /** Neither comparison throws, so neither diff does. */
  lemma {:induction false} DiffsSucceed(source: Tables, modif: Tables)
    ensures Diff(source.text, modif.text, TextDiffer, TextRemoved).Some?
    ensures Diff(source.version, modif.version, VersionDiffer, VersionRemoved).Some?
  {
    DiffFails(source.text, modif.text, TextDiffer, TextRemoved);
    DiffFails(source.version, modif.version, VersionDiffer, VersionRemoved);
  }

  method GenerateDiffs(source: Data, modif: Data) returns (m: Modifications)
    requires source.Valid() && modif.Valid()
    ensures DiffsSucceeded(source.Contents(), modif.Contents())
    ensures m == DiffsOf(source.Contents(), modif.Contents())
    ensures DistinctOps(m.textKeyOperations) && DistinctOps(m.versionOperations)
  {
    DiffsSucceed(source.Contents(), modif.Contents());
    var text := GenerateDiff(source.textKeyDictionary, modif.textKeyDictionary, TextDiffer, TextRemoved);
    var version := GenerateDiff(source.versionDictionary, modif.versionDictionary, VersionDiffer, VersionRemoved);
    m := Modifications(text.value, version.value);
  }

  predicate DiffsSucceeded(source: Tables, modif: Tables) {
    && Diff(source.text, modif.text, TextDiffer, TextRemoved).Some?
    && Diff(source.version, modif.version, VersionDiffer, VersionRemoved).Some?
  }

  /** Under every key, the text diff modifies exactly where the strings
      differ, removes with a null, adds what only the variant holds; the
      version diff does the same for ints and removes with 0. */
  lemma DiffsPerKey(source: Tables, modif: Tables)
    requires DistinctTables(source) && DistinctTables(modif)
    ensures DiffsSucceeded(source, modif)
    ensures var m := DiffsOf(source, modif);
      && DistinctOps(m.textKeyOperations) && DistinctOps(m.versionOperations)
      && (forall k ::
            var sv, mv := Lookup(source.text, k), Lookup(modif.text, k);
            FindOp(m.textKeyOperations, k) ==
              if sv.Some? && mv.Some? then
                (if mv.value != sv.value then Some(Operation(k, mv.value, Modification)) else None)
              else if sv.Some? then Some(Operation(k, None, Removal))
              else if mv.Some? then Some(Operation(k, mv.value, Addition))
              else None)
      && (forall k ::
            var sv, mv := Lookup(source.version, k), Lookup(modif.version, k);
            FindOp(m.versionOperations, k) ==
              if sv.Some? && mv.Some? then
                (if mv.value != sv.value then Some(Operation(k, mv.value, Modification)) else None)
              else if sv.Some? then Some(Operation(k, 0, Removal))
              else if mv.Some? then Some(Operation(k, mv.value, Addition))
              else None)
  {
    DiffsSucceed(source, modif);
    DiffPerKey(source.text, modif.text, TextDiffer, TextRemoved);
    DiffPerKey(source.version, modif.version, VersionDiffer, VersionRemoved);
  }

  /** A document diffed against itself files nothing. */
  lemma DiffsOfSelf(t: Tables)
    requires DistinctTables(t)
    ensures DiffsSucceeded(t, t) && DiffsOf(t, t) == Modifications([], [])
  {
    DiffOfSelf(t.text, TextDiffer, TextRemoved);
    DiffOfSelf(t.version, VersionDiffer, VersionRemoved);
  }

  // ---------------------------------------------------------------------
  // ComputeResults

  function LiftText(cs: seq<Conflict<Text>>): (r: seq<AnyConflict>)
    ensures |r| == |cs| && forall i :: 0 <= i < |cs| ==> r[i] == (TextOp(cs[i].0), TextOp(cs[i].1))
  {
    seq(|cs|, i requires 0 <= i < |cs| => (TextOp(cs[i].0), TextOp(cs[i].1)))
  }

  function LiftVersion(cs: seq<Conflict<int32>>): (r: seq<AnyConflict>)
    ensures |r| == |cs| && forall i :: 0 <= i < |cs| ==> r[i] == (VersionOp(cs[i].0), VersionOp(cs[i].1))
  {
    seq(|cs|, i requires 0 <= i < |cs| => (VersionOp(cs[i].0), VersionOp(cs[i].1)))
  }

  function ResultsOf(a: Modifications, b: Modifications): ModificationResult {
    ModificationResult(Accepted(a.textKeyOperations, b.textKeyOperations),
                       Accepted(a.versionOperations, b.versionOperations),
                       LiftText(Conflicts(a.textKeyOperations, b.textKeyOperations))
                       + LiftVersion(Conflicts(a.versionOperations, b.versionOperations)))
  }

  method ComputeResults(a: Modifications, b: Modifications) returns (result: ModificationResult)
    ensures result == ResultsOf(a, b)
  {
    var ownText, textConflicts := SplitSide(a.textKeyOperations, b.textKeyOperations);
    var ownVersion, versionConflicts := SplitSide(a.versionOperations, b.versionOperations);
    var theirText := KeepOwn(b.textKeyOperations, a.textKeyOperations);
    var theirVersion := KeepOwn(b.versionOperations, a.versionOperations);
    result := ModificationResult(ownText + theirText, ownVersion + theirVersion,
                                 LiftText(textConflicts) + LiftVersion(versionConflicts));
  }

  /** The conflict pairs hold exactly the keys both variants touched, the
      text ones first, each with the two variants' operations; those keys
      are accepted from neither; every other key is accepted from the one
      variant that touched it. */
  lemma ResultsPerKey(a: Modifications, b: Modifications)
    requires DistinctOps(a.textKeyOperations) && DistinctOps(a.versionOperations)
    requires DistinctOps(b.textKeyOperations) && DistinctOps(b.versionOperations)
    ensures var r, n := ResultsOf(a, b), |Conflicts(a.textKeyOperations, b.textKeyOperations)|;
      && n <= |r.invalidOperations|
      && DistinctOps(r.textKeyOperations) && DistinctOps(r.versionOperations)
      && r.invalidOperations[..n] == LiftText(Conflicts(a.textKeyOperations, b.textKeyOperations))
      && r.invalidOperations[n..] == LiftVersion(Conflicts(a.versionOperations, b.versionOperations))
      && (forall k ::
            FindOp(r.textKeyOperations, k) ==
              if k in OpKeys(a.textKeyOperations) && k in OpKeys(b.textKeyOperations) then None
              else if k in OpKeys(a.textKeyOperations) then FindOp(a.textKeyOperations, k)
              else FindOp(b.textKeyOperations, k))
      && (forall k ::
            FindOp(r.versionOperations, k) ==
              if k in OpKeys(a.versionOperations) && k in OpKeys(b.versionOperations) then None
              else if k in OpKeys(a.versionOperations) then FindOp(a.versionOperations, k)
              else FindOp(b.versionOperations, k))
      && (forall k ::
            FindConflict(Conflicts(a.textKeyOperations, b.textKeyOperations), k) ==
              if k in OpKeys(a.textKeyOperations) && k in OpKeys(b.textKeyOperations)
              then Some((FindOp(a.textKeyOperations, k).value, FindOp(b.textKeyOperations, k).value))
              else None)
      && (forall k ::
            FindConflict(Conflicts(a.versionOperations, b.versionOperations), k) ==
              if k in OpKeys(a.versionOperations) && k in OpKeys(b.versionOperations)
              then Some((FindOp(a.versionOperations, k).value, FindOp(b.versionOperations, k).value))
              else None)
  {
    var r, n := ResultsOf(a, b), |Conflicts(a.textKeyOperations, b.textKeyOperations)|;
    assert r.invalidOperations[..n] == LiftText(Conflicts(a.textKeyOperations, b.textKeyOperations));
    assert r.invalidOperations[n..] == LiftVersion(Conflicts(a.versionOperations, b.versionOperations));
    MergePartition(a.textKeyOperations, b.textKeyOperations);
    MergePartition(a.versionOperations, b.versionOperations);
  }

  /** Swapping the variants accepts the same operations and records the
      same conflicts, each pair swapped. */
  lemma ResultsSwap(a: Modifications, b: Modifications)
    requires DistinctOps(a.textKeyOperations) && DistinctOps(a.versionOperations)
    requires DistinctOps(b.textKeyOperations) && DistinctOps(b.versionOperations)
    ensures multiset(ResultsOf(a, b).textKeyOperations) == multiset(ResultsOf(b, a).textKeyOperations)
    ensures multiset(ResultsOf(a, b).versionOperations) == multiset(ResultsOf(b, a).versionOperations)
    ensures forall k ::
              FindConflict(Conflicts(b.textKeyOperations, a.textKeyOperations), k) ==
                Swapped(FindConflict(Conflicts(a.textKeyOperations, b.textKeyOperations), k))
    ensures forall k ::
              FindConflict(Conflicts(b.versionOperations, a.versionOperations), k) ==
                Swapped(FindConflict(Conflicts(a.versionOperations, b.versionOperations), k))
  {
    MergeSwapAccepted(a.textKeyOperations, b.textKeyOperations);
    MergeSwapAccepted(a.versionOperations, b.versionOperations);
    MergeSwapConflicts(a.textKeyOperations, b.textKeyOperations);
    MergeSwapConflicts(a.versionOperations, b.versionOperations);
  }

  /** `ComputeResults` records no conflict exactly when no key of either
      dictionary has an operation in both variants. */
  lemma NoConflictsIff(a: Modifications, b: Modifications)
    requires DistinctOps(a.textKeyOperations) && DistinctOps(a.versionOperations)
    ensures ResultsOf(a, b).invalidOperations == [] <==>
      OpKeys(a.textKeyOperations) !! OpKeys(b.textKeyOperations)
      && OpKeys(a.versionOperations) !! OpKeys(b.versionOperations)
  {
    NoConflictIff(a.textKeyOperations, b.textKeyOperations);
    NoConflictIff(a.versionOperations, b.versionOperations);
  }

  // ---------------------------------------------------------------------
  // Apply

  function AppliedTo(t: Tables, r: ModificationResult): Option<Tables> {
    match (ApplyOps(t.text, r.textKeyOperations), ApplyOps(t.version, r.versionOperations))
    case (Some(x), Some(y)) => Some(Tables(x, y))
    case _ => None
  }

  method Apply(result: ModificationResult, data: Data) returns (ok: bool)
    requires data.Valid()
    modifies data.textKeyDictionary, data.versionDictionary
    ensures ok <==> AppliedTo(old(data.Contents()), result).Some?
    ensures ok ==> data.Valid() && data.Contents() == AppliedTo(old(data.Contents()), result).value
  {
    ok := ApplyOperations(data.textKeyDictionary, result.textKeyOperations);
    if !ok {
      return;
    }
    ok := ApplyOperations(data.versionDictionary, result.versionOperations);
  }

  /** The three-way merge: replaying what two variants' diffs accept never
      throws and leaves every key with its merged value. */
  lemma ThreeWayMerge(source: Tables, a: Tables, b: Tables)
    requires DistinctTables(source) && DistinctTables(a) && DistinctTables(b)
    ensures DiffsSucceeded(source, a) && DiffsSucceeded(source, b)
    ensures var r := ResultsOf(DiffsOf(source, a), DiffsOf(source, b));
      && AppliedTo(source, r).Some?
      && DistinctTables(AppliedTo(source, r).value)
      && (forall k ::
            Lookup(AppliedTo(source, r).value.text, k) ==
              Merged(source.text, a.text, b.text, TextDiffer, TextRemoved, k))
      && (forall k ::
            Lookup(AppliedTo(source, r).value.version, k) ==
              Merged(source.version, a.version, b.version, VersionDiffer, VersionRemoved, k))
  {
    DiffsSucceed(source, a);
    DiffsSucceed(source, b);
    ApplyMerge(source.text, a.text, b.text, TextDiffer, TextRemoved);
    ApplyMerge(source.version, a.version, b.version, VersionDiffer, VersionRemoved);
  }

  /** With total comparisons, the merged value is simple: a key both
      variants changed keeps the base's value; one variant changed is taken
      from that variant, removal included. */
  lemma MergedText(source: Pairs<Text>, a: Pairs<Text>, b: Pairs<Text>, k: int32)
    ensures Merged(source, a, b, TextDiffer, TextRemoved, k) ==
      var sv, av, bv := Lookup(source, k), Lookup(a, k), Lookup(b, k);
      if av != sv && bv != sv then sv else if av != sv then av else bv
  {
  }

  lemma MergedVersion(source: Pairs<int32>, a: Pairs<int32>, b: Pairs<int32>, k: int32)
    ensures Merged(source, a, b, VersionDiffer, VersionRemoved, k) ==
      var sv, av, bv := Lookup(source, k), Lookup(a, k), Lookup(b, k);
      if av != sv && bv != sv then sv else if av != sv then av else bv
  {
  }

  // ---------------------------------------------------------------------
  // Errors

  /** `Operation.ToString` of either dictionary: a null text renders as
      nothing, an int in decimal. */
  function AnyOpText(op: AnyOperation): string {
    match op
    case TextOp(o) => OperationText(o.kind, o.key as int, if o.value.Some? then o.value.value else "")
    case VersionOp(o) => OperationText(o.kind, o.key as int, IntText(o.value as int))
  }

  function Rendered(ops: seq<AnyOperation>): (r: seq<string>)
    ensures |r| == |ops| && forall i :: 0 <= i < |ops| ==> r[i] == AnyOpText(ops[i])
  {
    seq(|ops|, i requires 0 <= i < |ops| => AnyOpText(ops[i]))
  }

  /** What `Errors` returns: nothing without conflicts; otherwise each
      side's operations, each ended by its own line end, inside the
      conflict markers. */
  function ErrorsText(cs: seq<AnyConflict>, newLine: string): string {
    if cs == [] then ""
    else Framed(Unlines(Rendered(Firsts(cs)), newLine), Unlines(Rendered(Seconds(cs)), newLine), newLine)
  }

  method Errors(result: ModificationResult, newLine: string) returns (text: string)
    ensures text == ErrorsText(result.invalidOperations, newLine)
  {
    var cs := result.invalidOperations;
    if |cs| == 0 {
      return "";
    }
    var a, b := "", "";
    var index := 0;
    while index < |cs|
      invariant 0 <= index <= |cs|
      invariant a == Unlines(Rendered(Firsts(cs[..index])), newLine)
      invariant b == Unlines(Rendered(Seconds(cs[..index])), newLine)
    {
      var pair := cs[index];
      ErrorsStep(cs, index, newLine);
      a := a + AnyOpText(pair.0) + newLine;
      b := b + AnyOpText(pair.1) + newLine;
      index := index + 1;
    }
    assert cs[..index] == cs;
    text := Framed(a, b, newLine);
  }

  /** One turn of the loop of `Errors`: a line more on each side. */
  lemma ErrorsStep(cs: seq<AnyConflict>, i: nat, newLine: string)
    requires i < |cs|
    ensures Unlines(Rendered(Firsts(cs[..i + 1])), newLine)
         == Unlines(Rendered(Firsts(cs[..i])), newLine) + AnyOpText(cs[i].0) + newLine
    ensures Unlines(Rendered(Seconds(cs[..i + 1])), newLine)
         == Unlines(Rendered(Seconds(cs[..i])), newLine) + AnyOpText(cs[i].1) + newLine
  {
    PairsStep(cs, i);
    assert Rendered(Firsts(cs[..i + 1])) == Rendered(Firsts(cs[..i])) + [AnyOpText(cs[i].0)];
    assert Rendered(Seconds(cs[..i + 1])) == Rendered(Seconds(cs[..i])) + [AnyOpText(cs[i].1)];
    UnlinesSnoc(Rendered(Firsts(cs[..i])), AnyOpText(cs[i].0), newLine);
    UnlinesSnoc(Rendered(Seconds(cs[..i])), AnyOpText(cs[i].1), newLine);
  }

  /** `Errors` is empty exactly when there is no conflict; otherwise it is
      the opening marker, side A's operations one per line, an empty line,
      the separator, side B's operations one per line, an empty line, and
      the closing marker. */
  lemma ErrorsLayout(cs: seq<AnyConflict>, newLine: string)
    ensures ErrorsText(cs, newLine) == "" <==> cs == []
    ensures cs != [] ==>
      ErrorsText(cs, newLine) ==
        Unlines(["<<<<<<< HEAD"] + Rendered(Firsts(cs)) + ["", "======="] + Rendered(Seconds(cs)) + ["", ">>>>>>> "],
                newLine)
  {
    if cs != [] {
      var left, right := Rendered(Firsts(cs)), Rendered(Seconds(cs));
      FramedLined(left, right, newLine);
      var ls := ["<<<<<<< HEAD"] + left + ["", "======="] + right + ["", ">>>>>>> "];
      UnlinesAppend(["<<<<<<< HEAD"], ls[1..], newLine);
      assert ls == ["<<<<<<< HEAD"] + ls[1..];
      OneLine("<<<<<<< HEAD", newLine);
    }
  }

  // ---------------------------------------------------------------------
  // The dictionaries' packed forms

  /** What `ParseTextKeyDictionary` reads from the `m_keys` scalar and the
      scalars of the `m_values` sequence: `None` where the keys are null or
      do not decode, the values outnumber the keys, or a key repeats. */
  function ParsedText(keysValue: Option<string>, values: seq<Text>): Option<Pairs<Text>> {
    match keysValue
    case None => None
    case Some(s) =>
      match DecodeKeys(s)
      case None => None
      case Some(ks) => Filled([], ks, values, true)
  }

  /** What `ParseVersionDictionary` reads from the two scalars: both
      decoded, paired up to the number of keys; `None` where a scalar is
      null or does not decode, the keys outnumber the values, or a key
      repeats. */
  function ParsedVersion(keysValue: Option<string>, valuesValue: Option<string>): Option<Pairs<int32>> {
    match (keysValue, valuesValue)
    case (Some(s), Some(t)) =>
      (match (DecodeKeys(s), DecodeKeys(t))
       case (Some(ks), Some(vs)) => Filled([], ks, vs, false)
       case _ => None)
    case _ => None
  }

  method ParseTextKeyDictionary(keysValue: Option<string>, values: seq<Text>, data: Data) returns (ok: bool)
    requires data.Valid() && data.textKeyDictionary.Items() == []
    modifies data.textKeyDictionary
    ensures ok <==> ParsedText(keysValue, values).Some?
    ensures ok ==> data.Valid() && data.textKeyDictionary.Items() == ParsedText(keysValue, values).value
  {
    if keysValue.None? {
      return false;
    }
    var keys := ParseSerializedIntArray(keysValue.value);
    if keys.None? {
      return false;
    }
    ok := FillByValues(data.textKeyDictionary, keys.value, values);
  }

  method ParseVersionDictionary(keysValue: Option<string>, valuesValue: Option<string>, data: Data)
    returns (ok: bool)
    requires data.Valid() && data.versionDictionary.Items() == []
    modifies data.versionDictionary
    ensures ok <==> ParsedVersion(keysValue, valuesValue).Some?
    ensures ok ==> data.Valid() && data.versionDictionary.Items() == ParsedVersion(keysValue, valuesValue).value
  {
    if keysValue.None? {
      return false;
    }
    var keys := ParseSerializedIntArray(keysValue.value);
    if keys.None? || valuesValue.None? {
      return false;
    }
    var values := ParseSerializedIntArray(valuesValue.value);
    if values.None? {
      return false;
    }
    ok := FillByKeys(data.versionDictionary, keys.value, values.value);
  }

  /** `WriteTextKeyDictionary`: the packed keys and the value scalars, in
      the dictionary's order. */
  method WriteTextKeyDictionary(data: Data) returns (keysValue: string, values: seq<Text>)
    ensures keysValue == EncodeKeys(Firsts(data.textKeyDictionary.Items()))
    ensures values == Seconds(data.textKeyDictionary.Items())
  {
    var pairs := data.textKeyDictionary.GetEnumerator();
    keysValue, values := PackKeys(pairs);
  }

  /** `WriteVersionDictionary`: keys and values packed in one loop. */
  method WriteVersionDictionary(data: Data) returns (keysValue: string, valuesValue: string)
    ensures keysValue == EncodeKeys(Firsts(data.versionDictionary.Items()))
    ensures valuesValue == EncodeKeys(Seconds(data.versionDictionary.Items()))
  {
    var pairs := data.versionDictionary.GetEnumerator();
    ghost var ks, vs := Firsts(pairs), Seconds(pairs);
    keysValue, valuesValue := "", "";
    var i := 0;
    while i < |pairs|
      invariant 0 <= i <= |pairs|
      invariant keysValue == EncodeKeys(ks[..i]) && valuesValue == EncodeKeys(vs[..i])
    {
      var keyPiece := ReverseHexString(FormatX8(pairs[i].0));
      var valuePiece := ReverseHexString(FormatX8(pairs[i].1));
      EncodeStep(ks, i);
      EncodeStep(vs, i);
      keysValue := keysValue + keyPiece;
      valuesValue := valuesValue + valuePiece;
      i := i + 1;
    }
    assert ks[..i] == ks && vs[..i] == vs;
  }

  /** Writing the text dictionary and parsing what was written gives the
      same pairs in the same order. */
  lemma TextWriteThenParse(items: Pairs<Text>)
    requires DistinctKeys(items)
    ensures ParsedText(Some(EncodeKeys(Firsts(items))), Seconds(items)) == Some(items)
  {
    PackThenFill(items, true);
  }

  /** Writing the version dictionary and parsing what was written gives the
      same ordered `int -> int` map. */
  lemma VersionWriteThenParse(items: Pairs<int32>)
    requires DistinctKeys(items)
    ensures ParsedVersion(Some(EncodeKeys(Firsts(items))), Some(EncodeKeys(Seconds(items)))) == Some(items)
  {
    PackThenFill(items, false);
    DecodeEncodeKeys(Seconds(items));
  }

  /** `ParseDocument`, from the four scalar values of the two dictionary
      nodes: the text dictionary, then the version one. */
  method ParseDocument(textKeys: Option<string>, textValues: seq<Text>,
                       versionKeys: Option<string>, versionValues: Option<string>)
    returns (data: Data, ok: bool)
    ensures fresh(data) && fresh(data.textKeyDictionary) && fresh(data.versionDictionary)
    ensures ok <==> ParsedText(textKeys, textValues).Some? && ParsedVersion(versionKeys, versionValues).Some?
    ensures ok ==> data.Valid()
    ensures ok ==>
              data.Contents() ==
                Tables(ParsedText(textKeys, textValues).value, ParsedVersion(versionKeys, versionValues).value)
  {
    data := new Data();
    ok := ParseTextKeyDictionary(textKeys, textValues, data);
    if !ok {
      return;
    }
    ok := ParseVersionDictionary(versionKeys, versionValues, data);
  }

  /** `WriteDocument`, to the four scalar values: writing then parsing a
      valid `Data` gives back its contents. */
  method WriteDocument(data: Data)
    returns (textKeys: string, textValues: seq<Text>, versionKeys: string, versionValues: string)
    requires data.Valid()
    ensures ParsedText(Some(textKeys), textValues) == Some(data.Contents().text)
    ensures ParsedVersion(Some(versionKeys), Some(versionValues)) == Some(data.Contents().version)
  {
    textKeys, textValues := WriteTextKeyDictionary(data);
    versionKeys, versionValues := WriteVersionDictionary(data);
    ContentsDistinct(data);
    TextWriteThenParse(data.Contents().text);
    VersionWriteThenParse(data.Contents().version);
  }
}
