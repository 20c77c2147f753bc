/** The resolver of the current generation (`YAMLParser` and its helper
    classes `Data`, `Modifications` and `ModificationResult`): it reads the
    text-key and version dictionaries of a base document and two variants,
    diffs each variant against the base, accepts the changes only one
    variant made, replays them on the base and writes the base back, and
    renders the changes both variants made as conflict markers. */
module Resolver {
  import opened Wrappers
  import opened Strings
  import opened Lines
  import opened HexKeys
  import opened SortedListDictionaries
  import opened Operations
  import opened Engine
  import opened Rendering
  import Chains
  import Documents

  /** A `Line` reference; `None` is `null`, the value a removal carries. */
  type Entry = Option<LineState>

  /** `!string.Equals(value.ScalarValue, pair.Value.ScalarValue)` for the
      variant's line `w` and the base's line `v`: `None` where a line is
      null or its scalar throws. */
  function LinesDiffer(w: Entry, v: Entry): Option<bool> {
    match (w, v)
    case (Some(x), Some(y)) =>
      (match (ScalarOf(x), ScalarOf(y))
       case (Some(s), Some(t)) => Some(s != t)
       case _ => None)
    case _ => None
  }

  /** A line whose scalar can be read. */
  predicate Readable(e: Entry) {
    e.Some? && ScalarOf(e.value).Some?
  }

  /** Every value of a dictionary is a readable line. */
  predicate AllReadable(items: Pairs<Entry>) {
    forall i :: 0 <= i < |items| ==> Readable(items[i].1)
  }

  /** The comparison throws exactly on an unreadable line, and calls two
      readable lines different exactly when their scalars differ. */
  lemma LinesDifferSpec(w: Entry, v: Entry)
    ensures LinesDiffer(w, v).Some? <==> Readable(w) && Readable(v)
    ensures LinesDiffer(w, v) == Some(true) <==>
      Readable(w) && Readable(v) && ScalarOf(w.value).value != ScalarOf(v.value).value
    ensures Readable(w) ==> LinesDiffer(w, w) == Some(false)
  {
  }

  /** The two dictionaries of a `Data`, as values. */
  datatype Tables = Tables(text: Pairs<Entry>, version: Pairs<Entry>)

  predicate DistinctTables(t: Tables) {
    DistinctKeys(t.text) && DistinctKeys(t.version)
  }

  /** The two dictionaries `YAMLParser` works on. */
  class Data {
    const textKeyDictionary: SortedListDictionary<int32, Entry>
    const versionDictionary: SortedListDictionary<int32, Entry>

    ghost predicate Valid()
      reads this, textKeyDictionary, versionDictionary
    {
      textKeyDictionary != versionDictionary && textKeyDictionary.Valid() && versionDictionary.Valid()
    }

    function Contents(): Tables
      reads this, textKeyDictionary, versionDictionary
    {
      Tables(textKeyDictionary.Items(), versionDictionary.Items())
    }

    constructor ()
      ensures Valid() && Contents() == Tables([], [])
      ensures fresh(textKeyDictionary) && fresh(versionDictionary)
    {
      textKeyDictionary := new SortedListDictionary(None);
      versionDictionary := new SortedListDictionary(None);
    }
  }

  /** What a valid `Data` holds has distinct keys. */
  lemma ContentsDistinct(data: Data)
    requires data.Valid()
    ensures DistinctTables(data.Contents())
  {
    LiveKeysAreIndexed(data.textKeyDictionary.list, data.textKeyDictionary.indexes);
    LiveKeysAreIndexed(data.versionDictionary.list, data.versionDictionary.indexes);
  }

  /** The operations of one variant, per dictionary, in the order they
      were filed. */
  datatype Modifications = Modifications(textKeyOperations: seq<Operation<Entry>>,
                                         versionOperations: seq<Operation<Entry>>)

  /** The accepted operations per dictionary and the conflicting pairs. */
  datatype ModificationResult = ModificationResult(textKeyOperations: seq<Operation<Entry>>,
                                                   versionOperations: seq<Operation<Entry>>,
                                                   invalidOperations: seq<Conflict<Entry>>)

  // ---------------------------------------------------------------------
  // GenerateDiffs

  /** What `GenerateDiffs` files for a variant: the diff of each dictionary,
      or `None` when a comparison throws. */
  function DiffsOf(source: Tables, modif: Tables): Option<Modifications> {
    match (Diff(source.text, modif.text, LinesDiffer, None), Diff(source.version, modif.version, LinesDiffer, None))
    case (Some(t), Some(v)) => Some(Modifications(t, v))
    case _ => None
  }

  method GenerateDiffs(source: Data, modif: Data) returns (m: Option<Modifications>)
    requires source.Valid() && modif.Valid()
    ensures m == DiffsOf(source.Contents(), modif.Contents())
    ensures m.Some? ==> DistinctOps(m.value.textKeyOperations) && DistinctOps(m.value.versionOperations)
  {
    var text := GenerateDiff(source.textKeyDictionary, modif.textKeyDictionary, LinesDiffer, None);
    if text.None? {
      return None;
    }
    var version := GenerateDiff(source.versionDictionary, modif.versionDictionary, LinesDiffer, None);
    if version.None? {
      return None;
    }
    m := Some(Modifications(text.value, version.value));
  }

  /** Each dictionary's diff files, under every key, the operation the two
      values there call for; the diff throws only when a key both hold has
      an unreadable line. */
  lemma DiffsPerKey(source: Tables, modif: Tables)
    requires DistinctTables(source) && DistinctTables(modif)
    ensures DiffsOf(source, modif).None? <==>
      (exists i :: 0 <= i < |source.text| && Lookup(modif.text, source.text[i].0).Some?
                   && !(Readable(Lookup(modif.text, source.text[i].0).value) && Readable(source.text[i].1)))
      || (exists i :: 0 <= i < |source.version| && Lookup(modif.version, source.version[i].0).Some?
                      && !(Readable(Lookup(modif.version, source.version[i].0).value) && Readable(source.version[i].1)))
    ensures DiffsOf(source, modif).Some? ==>
      var m := DiffsOf(source, modif).value;
      && DistinctOps(m.textKeyOperations) && DistinctOps(m.versionOperations)
      && (forall k :: FindOp(m.textKeyOperations, k) == Expected(source.text, modif.text, LinesDiffer, None, k))
      && (forall k :: FindOp(m.versionOperations, k) == Expected(source.version, modif.version, LinesDiffer, None, k))
  {
    DiffFails(source.text, modif.text, LinesDiffer, None);
    DiffFails(source.version, modif.version, LinesDiffer, None);
    forall w: Entry, v: Entry ensures LinesDiffer(w, v).None? <==> !(Readable(w) && Readable(v)) {
      LinesDifferSpec(w, v);
    }
    if DiffsOf(source, modif).Some? {
      DiffPerKey(source.text, modif.text, LinesDiffer, None);
      DiffPerKey(source.version, modif.version, LinesDiffer, None);
    }
  }

  /** A document diffed against itself files nothing, provided every line
      can be read. */
  lemma DiffsOfSelf(t: Tables)
    requires DistinctTables(t) && AllReadable(t.text) && AllReadable(t.version)
    ensures DiffsOf(t, t) == Some(Modifications([], []))
  {
    forall i | 0 <= i < |t.text| ensures LinesDiffer(t.text[i].1, t.text[i].1) == Some(false) {
      LinesDifferSpec(t.text[i].1, t.text[i].1);
    }
    forall i | 0 <= i < |t.version| ensures LinesDiffer(t.version[i].1, t.version[i].1) == Some(false) {
      LinesDifferSpec(t.version[i].1, t.version[i].1);
    }
    DiffOfSelf(t.text, LinesDiffer, None);
    DiffOfSelf(t.version, LinesDiffer, None);
  }

  // ---------------------------------------------------------------------
  // ComputeResults

  /** What `ComputeResults` builds from the two variants' operations. */
  function ResultsOf(a: Modifications, b: Modifications): ModificationResult {
    ModificationResult(Accepted(a.textKeyOperations, b.textKeyOperations),
                       Accepted(a.versionOperations, b.versionOperations),
                       Conflicts(a.textKeyOperations, b.textKeyOperations)
                       + Conflicts(a.versionOperations, b.versionOperations))
  }

  method ComputeResults(a: Modifications, b: Modifications) returns (result: ModificationResult)
    ensures result == ResultsOf(a, b)
  {
    var ownText, textConflicts := SplitSide(a.textKeyOperations, b.textKeyOperations);
    var ownVersion, versionConflicts := SplitSide(a.versionOperations, b.versionOperations);
    var theirText := KeepOwn(b.textKeyOperations, a.textKeyOperations);
    var theirVersion := KeepOwn(b.versionOperations, a.versionOperations);
    result := ModificationResult(ownText + theirText, ownVersion + theirVersion, textConflicts + versionConflicts);
  }

  /** A key only one variant touched keeps that variant's operation; a key
      both touched is accepted from neither and recorded as a conflict,
      the text-key conflicts first and the version ones after them. */
  lemma ResultsPerKey(a: Modifications, b: Modifications)
    requires DistinctOps(a.textKeyOperations) && DistinctOps(a.versionOperations)
    requires DistinctOps(b.textKeyOperations) && DistinctOps(b.versionOperations)
    ensures var r, n := ResultsOf(a, b), |Conflicts(a.textKeyOperations, b.textKeyOperations)|;
      && n <= |r.invalidOperations|
      && DistinctOps(r.textKeyOperations) && DistinctOps(r.versionOperations)
      && DistinctConflicts(r.invalidOperations[..n]) && DistinctConflicts(r.invalidOperations[n..])
      && (forall k ::
            FindOp(r.textKeyOperations, k) ==
              if k in OpKeys(a.textKeyOperations) && k in OpKeys(b.textKeyOperations) then None
              else if k in OpKeys(a.textKeyOperations) then FindOp(a.textKeyOperations, k)
              else FindOp(b.textKeyOperations, k))
      && (forall k ::
            FindOp(r.versionOperations, k) ==
              if k in OpKeys(a.versionOperations) && k in OpKeys(b.versionOperations) then None
              else if k in OpKeys(a.versionOperations) then FindOp(a.versionOperations, k)
              else FindOp(b.versionOperations, k))
      && (forall k ::
            FindConflict(r.invalidOperations[..n], k) ==
              if k in OpKeys(a.textKeyOperations) && k in OpKeys(b.textKeyOperations)
              then Some((FindOp(a.textKeyOperations, k).value, FindOp(b.textKeyOperations, k).value))
              else None)
      && (forall k ::
            FindConflict(r.invalidOperations[n..], k) ==
              if k in OpKeys(a.versionOperations) && k in OpKeys(b.versionOperations)
              then Some((FindOp(a.versionOperations, k).value, FindOp(b.versionOperations, k).value))
              else None)
  {
    var r, n := ResultsOf(a, b), |Conflicts(a.textKeyOperations, b.textKeyOperations)|;
    assert r.invalidOperations[..n] == Conflicts(a.textKeyOperations, b.textKeyOperations);
    assert r.invalidOperations[n..] == Conflicts(a.versionOperations, b.versionOperations);
    MergePartition(a.textKeyOperations, b.textKeyOperations);
    MergePartition(a.versionOperations, b.versionOperations);
  }

  /** Swapping the variants accepts the same operations and records the
      same conflicts, each pair swapped. */
  lemma ResultsSwap(a: Modifications, b: Modifications)
    requires DistinctOps(a.textKeyOperations) && DistinctOps(a.versionOperations)
    requires DistinctOps(b.textKeyOperations) && DistinctOps(b.versionOperations)
    ensures multiset(ResultsOf(a, b).textKeyOperations) == multiset(ResultsOf(b, a).textKeyOperations)
    ensures multiset(ResultsOf(a, b).versionOperations) == multiset(ResultsOf(b, a).versionOperations)
    ensures forall k ::
              FindConflict(Conflicts(b.textKeyOperations, a.textKeyOperations), k) ==
                Swapped(FindConflict(Conflicts(a.textKeyOperations, b.textKeyOperations), k))
    ensures forall k ::
              FindConflict(Conflicts(b.versionOperations, a.versionOperations), k) ==
                Swapped(FindConflict(Conflicts(a.versionOperations, b.versionOperations), k))
  {
    MergeSwapAccepted(a.textKeyOperations, b.textKeyOperations);
    MergeSwapAccepted(a.versionOperations, b.versionOperations);
    MergeSwapConflicts(a.textKeyOperations, b.textKeyOperations);
    MergeSwapConflicts(a.versionOperations, b.versionOperations);
  }

  // ---------------------------------------------------------------------
  // Apply

  /** What `Apply` leaves: each dictionary with its accepted operations
      replayed, or `None` once one throws. */
  function AppliedTo(t: Tables, r: ModificationResult): Option<Tables> {
    match (ApplyOps(t.text, r.textKeyOperations), ApplyOps(t.version, r.versionOperations))
    case (Some(x), Some(y)) => Some(Tables(x, y))
    case _ => None
  }

  method Apply(result: ModificationResult, data: Data) returns (ok: bool)
    requires data.Valid()
    modifies data.textKeyDictionary, data.versionDictionary
    ensures ok <==> AppliedTo(old(data.Contents()), result).Some?
    ensures ok ==> data.Valid() && data.Contents() == AppliedTo(old(data.Contents()), result).value
  {
    ok := ApplyOperations(data.textKeyDictionary, result.textKeyOperations);
    if !ok {
      return;
    }
    ok := ApplyOperations(data.versionDictionary, result.versionOperations);
  }

  /** The three-way merge the program performs: the accepted operations of
      two variants' diffs replay on the base without throwing, and every key
      of both dictionaries ends with its merged value (the base's where both
      variants changed it, the changing variant's where one did). */
  lemma ThreeWayMerge(source: Tables, a: Tables, b: Tables)
    requires DistinctTables(source) && DistinctTables(a) && DistinctTables(b)
    requires DiffsOf(source, a).Some? && DiffsOf(source, b).Some?
    ensures var r := ResultsOf(DiffsOf(source, a).value, DiffsOf(source, b).value);
      && AppliedTo(source, r).Some?
      && DistinctTables(AppliedTo(source, r).value)
      && (forall k ::
            Lookup(AppliedTo(source, r).value.text, k) == Merged(source.text, a.text, b.text, LinesDiffer, None, k))
      && (forall k ::
            Lookup(AppliedTo(source, r).value.version, k) ==
              Merged(source.version, a.version, b.version, LinesDiffer, None, k))
  {
    ApplyMerge(source.text, a.text, b.text, LinesDiffer, None);
    ApplyMerge(source.version, a.version, b.version, LinesDiffer, None);
  }

  /** `ComputeResults` records no conflict exactly when no key of either
      dictionary has an operation in both variants. */
  lemma NoConflictsIff(a: Modifications, b: Modifications)
    requires DistinctOps(a.textKeyOperations) && DistinctOps(a.versionOperations)
    ensures ResultsOf(a, b).invalidOperations == [] <==>
      OpKeys(a.textKeyOperations) !! OpKeys(b.textKeyOperations)
      && OpKeys(a.versionOperations) !! OpKeys(b.versionOperations)
  {
    NoConflictIff(a.textKeyOperations, b.textKeyOperations);
    NoConflictIff(a.versionOperations, b.versionOperations);
  }

  /** The merge records no conflict exactly when no key of either
      dictionary was changed by both variants. */
  lemma CleanMergeIff(source: Tables, a: Tables, b: Tables)
    requires DistinctTables(source) && DistinctTables(a) && DistinctTables(b)
    requires DiffsOf(source, a).Some? && DiffsOf(source, b).Some?
    ensures ResultsOf(DiffsOf(source, a).value, DiffsOf(source, b).value).invalidOperations == [] <==>
      forall k ::
        && !(Expected(source.text, a.text, LinesDiffer, None, k).Some?
             && Expected(source.text, b.text, LinesDiffer, None, k).Some?)
        && !(Expected(source.version, a.version, LinesDiffer, None, k).Some?
             && Expected(source.version, b.version, LinesDiffer, None, k).Some?)
  {
    CleanTableIff(source.text, a.text, b.text);
    CleanTableIff(source.version, a.version, b.version);
  }

  /** One dictionary of `CleanMergeIff`. */
  lemma CleanTableIff(source: Pairs<Entry>, a: Pairs<Entry>, b: Pairs<Entry>)
    requires DistinctKeys(source) && DistinctKeys(a) && DistinctKeys(b)
    requires Diff(source, a, LinesDiffer, None).Some? && Diff(source, b, LinesDiffer, None).Some?
    ensures Conflicts(Diff(source, a, LinesDiffer, None).value, Diff(source, b, LinesDiffer, None).value) == [] <==>
      forall k :: !(Expected(source, a, LinesDiffer, None, k).Some? && Expected(source, b, LinesDiffer, None, k).Some?)
  {
    var da, db := Diff(source, a, LinesDiffer, None).value, Diff(source, b, LinesDiffer, None).value;
    DiffPerKey(source, a, LinesDiffer, None);
    DiffPerKey(source, b, LinesDiffer, None);
    NoConflictIff(da, db);
    assert forall k :: k in OpKeys(da) <==> Expected(source, a, LinesDiffer, None, k).Some?;
    assert forall k :: k in OpKeys(db) <==> Expected(source, b, LinesDiffer, None, k).Some?;
  }

  // ---------------------------------------------------------------------
  // Errors

  /** A line as string interpolation renders it: its scalar, nothing for
      null; `None` where the scalar throws. */
  function EntryText(e: Entry): Option<string> {
    match e
    case None => Some("")
    case Some(l) => ScalarOf(l)
  }

  /** `Operation.ToString`. */
  function OpText(op: Operation<Entry>): Option<string> {
    match EntryText(op.value)
    case None => None
    case Some(v) => Some(OperationText(op.kind, op.key as int, v))
  }

  /** What `Errors` returns: nothing without conflicts; otherwise both
      sides' operations, joined by `"\n"`, inside the conflict markers. */
  function ErrorsText(cs: seq<Conflict<Entry>>, newLine: string): Option<string> {
    if cs == [] then Some("")
    else
      match (RenderAll(Firsts(cs), OpText), RenderAll(Seconds(cs), OpText))
      case (Some(left), Some(right)) => Some(Framed(Join(left, "\n"), Join(right, "\n"), newLine))
      case _ => None
  }

  method Errors(result: ModificationResult, newLine: string) returns (text: Option<string>)
    ensures text == ErrorsText(result.invalidOperations, newLine)
  {
    var cs := result.invalidOperations;
    if |cs| == 0 {
      return Some("");
    }
    var a, b := "", "";
    ghost var left: seq<string>, right: seq<string> := [], [];
    var index := 0;
    while index < |cs|
      invariant 0 <= index <= |cs|
      invariant RenderAll(Firsts(cs[..index]), OpText) == Some(left)
      invariant RenderAll(Seconds(cs[..index]), OpText) == Some(right)
      invariant a == Join(left, "\n") && b == Join(right, "\n")
    {
      PairsStep(cs, index);
      if index != 0 {
        a := a + "\n";
        b := b + "\n";
      }
      var pair := cs[index];
      var x := OpText(pair.0);
      if x.None? {
        assert Firsts(cs)[..index + 1] == Firsts(cs[..index + 1]);
        RenderFailSticks(Firsts(cs), index + 1, OpText);
        return None;
      }
      var y := OpText(pair.1);
      if y.None? {
        assert Seconds(cs)[..index + 1] == Seconds(cs[..index + 1]);
        RenderFailSticks(Seconds(cs), index + 1, OpText);
        return None;
      }
      JoinSnoc(left, x.value);
      JoinSnoc(right, y.value);
      a := a + x.value;
      b := b + y.value;
      left, right := left + [x.value], right + [y.value];
      index := index + 1;
    }
    assert cs[..index] == cs;
    text := Some(Framed(a, b, newLine));
  }

  /** `Errors` is empty exactly when there is no conflict; with `"\n"` line
      ends, its text is the opening marker, side A's operations one per
      line, the separator, side B's operations one per line and the
      closing marker. */
  lemma ErrorsLayout(cs: seq<Conflict<Entry>>)
    ensures ErrorsText(cs, "\n") == Some("") <==> cs == []
    ensures cs != [] && ErrorsText(cs, "\n").Some? ==>
      var left, right := RenderAll(Firsts(cs), OpText).value, RenderAll(Seconds(cs), OpText).value;
      ErrorsText(cs, "\n").value ==
        Unlines(["<<<<<<< HEAD"] + left + ["======="] + right + [">>>>>>> "], "\n")
  {
    if cs != [] && ErrorsText(cs, "\n").Some? {
      var left, right := RenderAll(Firsts(cs), OpText).value, RenderAll(Seconds(cs), OpText).value;
      FramedJoined(left, right);
      var ls := ["<<<<<<< HEAD"] + left + ["======="] + right + [">>>>>>> "];
      UnlinesAppend(["<<<<<<< HEAD"], ls[1..], "\n");
      assert ls == ["<<<<<<< HEAD"] + ls[1..];
      OneLine("<<<<<<< HEAD", "\n");
    }
  }

  /** Rendering a conflict never throws when its operations carry readable
      lines or nothing. */
  lemma ErrorsRender(cs: seq<Conflict<Entry>>, newLine: string)
    requires forall i :: 0 <= i < |cs| ==> EntryText(cs[i].0.value).Some? && EntryText(cs[i].1.value).Some?
    ensures ErrorsText(cs, newLine).Some?
  {
    RenderAllTotal(Firsts(cs), OpText);
    RenderAllTotal(Seconds(cs), OpText);
  }

  // ---------------------------------------------------------------------
  // ParseDocument and WriteDocument

  /** Each line as a non-null reference. */
  function Somes(ls: seq<LineState>): (r: seq<Entry>)
    ensures |r| == |ls| && forall i :: 0 <= i < |ls| ==> r[i] == Some(ls[i])
  {
    seq(|ls|, i requires 0 <= i < |ls| => Some(ls[i]))
  }

  /** The lines behind the references, where none is null. */
  function Present(es: seq<Entry>): (r: Option<seq<LineState>>)
    ensures r.Some? <==> forall i :: 0 <= i < |es| ==> es[i].Some?
    ensures r.Some? ==> Somes(r.value) == es
  {
    if forall i :: 0 <= i < |es| ==> es[i].Some? then
      Some(seq(|es|, i requires 0 <= i < |es| => es[i].value))
    else None
  }

  /** What `ParseTextKeyDictionary` or `ParseVersionDictionary` reads from
      a keys string and a values block: the decoded keys paired in order
      with the lines, or `None` where the keys or the block are null, a key
      does not decode, the block has more lines than there are keys, or a
      key repeats. */
  function ParsedTable(keys: Option<string>, lines: Option<seq<LineState>>): Option<Pairs<Entry>> {
    match (keys, lines)
    case (Some(s), Some(ls)) =>
      (match DecodeKeys(s)
       case None => None
       case Some(ks) => Filled([], ks, Somes(ls), true))
    case _ => None
  }

  method ParseTable(d: SortedListDictionary<int32, Entry>, keys: Option<string>, lines: Option<seq<LineState>>)
    returns (ok: bool)
    requires d.Valid() && d.Items() == []
    modifies d
    ensures ok <==> ParsedTable(keys, lines).Some?
    ensures ok ==> d.Valid() && d.Items() == ParsedTable(keys, lines).value
  {
    if keys.None? || lines.None? {
      return false;
    }
    var ks := ParseSerializedIntArray(keys.value);
    if ks.None? {
      return false;
    }
    ok := FillByValues(d, ks.value, Somes(lines.value));
  }

  /** What `ParseDocument` reads from a document. */
  function DocumentTables(document: Documents.Document): Option<Tables>
    reads document
  {
    match (ParsedTable(document.textDictionary.keys, document.TextDictionaryValues()),
           ParsedTable(document.versionDictionary.keys, document.VersionDictionaryValues()))
    case (Some(t), Some(v)) => Some(Tables(t, v))
    case _ => None
  }

  method ParseDocument(document: Documents.Document) returns (data: Data, ok: bool)
    ensures fresh(data) && fresh(data.textKeyDictionary) && fresh(data.versionDictionary)
    ensures ok <==> DocumentTables(document).Some?
    ensures ok ==> data.Valid() && data.Contents() == DocumentTables(document).value
  {
    data := new Data();
    ok := ParseTable(data.textKeyDictionary, document.textDictionary.keys, document.TextDictionaryValues());
    if !ok {
      return;
    }
    ok := ParseTable(data.versionDictionary, document.versionDictionary.keys, document.VersionDictionaryValues());
  }

  /** What writing one dictionary does to the chains: the keys line
      rewritten, then the values block replaced, when there is one. */
  function WrittenChains(chains: seq<Chains.Chain>, d: Documents.Keyed, keys: string, lines: seq<LineState>)
    : seq<Chains.Chain>
    requires d.keysLine.Some?
  {
    var c := Documents.RewriteKeysAt(chains, d.keysLine.value, keys);
    if d.values.Some? then Documents.ReplaceValuesAt(c, d.values.value, lines) else c
  }

  /** `WriteTextKeyDictionary`: the keys, packed in the dictionary's order,
      then the lines, in the same order. */
  method WriteTextKeyDictionary(document: Documents.Document, data: Data) returns (ok: bool)
    requires data.Valid()
    modifies document
    ensures var items := data.textKeyDictionary.Items();
      document.textDictionary == old(document.textDictionary).(keys := Some(EncodeKeys(Firsts(items))))
    ensures document.versionDictionary == old(document.versionDictionary)
    ensures document.textCollectionDictionary == old(document.textCollectionDictionary)
    ensures ok <==> old(document.textDictionary.keysLine).Some? && Present(Seconds(data.textKeyDictionary.Items())).Some?
    ensures ok ==>
              document.chains ==
                WrittenChains(old(document.chains), old(document.textDictionary),
                              EncodeKeys(Firsts(data.textKeyDictionary.Items())),
                              Present(Seconds(data.textKeyDictionary.Items())).value)
    ensures old(document.Valid()) ==> document.Valid()
    ensures ok && old(document.Valid()) && old(document.textDictionary.values).Some? ==>
      Somes(document.TextDictionaryValues().value) == Seconds(data.textKeyDictionary.Items())
  {
    var pairs := data.textKeyDictionary.GetEnumerator();
    var keys, values := PackKeys(pairs);
    ok := document.SetTextDictionaryKeys(keys);
    if !ok {
      return;
    }
    var lines := Present(values);
    if lines.None? {
      return false;
    }
    document.SetTextDictionaryValues(lines.value);
    if old(document.Valid()) && document.textDictionary.values.Some? {
      var r := old(document.textDictionary.keysLine.value);
      var b := document.textDictionary.values.value;
      Documents.ValuesReadBack(Documents.RewriteKeysAt(old(document.chains), r, keys), b, lines.value, b);
    }
  }

  /** `WriteVersionDictionary`, the same for the version dictionary. */
  method WriteVersionDictionary(document: Documents.Document, data: Data) returns (ok: bool)
    requires data.Valid()
    modifies document
    ensures var items := data.versionDictionary.Items();
      document.versionDictionary == old(document.versionDictionary).(keys := Some(EncodeKeys(Firsts(items))))
    ensures document.textDictionary == old(document.textDictionary)
    ensures document.textCollectionDictionary == old(document.textCollectionDictionary)
    ensures ok <==> old(document.versionDictionary.keysLine).Some? && Present(Seconds(data.versionDictionary.Items())).Some?
    ensures ok ==>
              document.chains ==
                WrittenChains(old(document.chains), old(document.versionDictionary),
                              EncodeKeys(Firsts(data.versionDictionary.Items())),
                              Present(Seconds(data.versionDictionary.Items())).value)
    ensures old(document.Valid()) ==> document.Valid()
    ensures ok && old(document.Valid()) && old(document.versionDictionary.values).Some? ==>
      Somes(document.VersionDictionaryValues().value) == Seconds(data.versionDictionary.Items())
  {
    var pairs := data.versionDictionary.GetEnumerator();
    var keys, values := PackKeys(pairs);
    ok := document.SetVersionDictionaryKeys(keys);
    if !ok {
      return;
    }
    var lines := Present(values);
    if lines.None? {
      return false;
    }
    document.SetVersionDictionaryValues(lines.value);
    if old(document.Valid()) && document.versionDictionary.values.Some? {
      var r := old(document.versionDictionary.keysLine.value);
      var b := document.versionDictionary.values.value;
      Documents.ValuesReadBack(Documents.RewriteKeysAt(old(document.chains), r, keys), b, lines.value, b);
    }
  }

  /** `WriteDocument`: the text-key dictionary, then the version one; the
      first that throws ends it. */
  method WriteDocument(document: Documents.Document, data: Data) returns (ok: bool)
    requires data.Valid()
    modifies document
    ensures ok ==> document.textDictionary.keys == Some(EncodeKeys(Firsts(data.textKeyDictionary.Items())))
    ensures ok ==> document.versionDictionary.keys == Some(EncodeKeys(Firsts(data.versionDictionary.Items())))
    ensures ok <==>
      && old(document.textDictionary.keysLine).Some? && Present(Seconds(data.textKeyDictionary.Items())).Some?
      && old(document.versionDictionary.keysLine).Some? && Present(Seconds(data.versionDictionary.Items())).Some?
    ensures old(document.Valid()) ==> document.Valid()
  {
    ok := WriteTextKeyDictionary(document, data);
    if !ok {
      return;
    }
    ok := WriteVersionDictionary(document, data);
  }

  /** A dictionary whose lines are all there survives a write and a parse:
      its keys, encoded, decode back, and pairing them with its lines again
      gives it back. */
  lemma WriteThenParse(items: Pairs<Entry>)
    requires DistinctKeys(items)
    requires Present(Seconds(items)).Some?
    ensures ParsedTable(Some(EncodeKeys(Firsts(items))), Present(Seconds(items))) == Some(items)
  {
    PackThenFill(items, true);
  }

  /** Every line a parsed dictionary holds is a line of the block, none
      null. */
  lemma ParsedLinesPresent(keys: Option<string>, lines: Option<seq<LineState>>)
    requires ParsedTable(keys, lines).Some?
    ensures keys.Some? && lines.Some?
    ensures var items := ParsedTable(keys, lines).value;
      && DistinctKeys(items)
      && Present(Seconds(items)) == Some(lines.value)
  {
    var ks := DecodeKeys(keys.value).value;
    var items := ParsedTable(keys, lines).value;
    assert items == Zip(ks, Somes(lines.value));
    assert Seconds(items) == Somes(lines.value);
    var p := Present(Somes(lines.value)).value;
    assert forall i :: 0 <= i < |p| ==> Somes(p)[i] == Some(lines.value[i]);
    assert p == lines.value;
  }
}
