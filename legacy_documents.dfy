/** The older document parser: the same chain of blocks, five states, no
    quoted scalars, no collection dictionary, and a version dictionary whose
    values are one packed line. */
module LegacyDocuments {
  import opened Wrappers
  import opened Strings
  import opened Lines
  import opened Chains
  import opened Scanning
  import opened HexKeys
  import Documents

  // ---------------------------------------------------------------------
  // The state machine, as values

  datatype State =
    | ParsingRaw
    | ParsingTextKeys
    | ParsingTextValues
    | ParsingVersionKeys
    | ParsingVersionValues

  /** The parser's local variables besides the current block. */
  datatype Mode = Mode(state: State, dictionaryDepth: int)

  const InitialMode: Mode := Mode(ParsingRaw, 0)

  /** Which marker list a raw line mentions, text first. */
  datatype Marker = NoMarker | TextMarker | VersionMarker

  function MarkerOf(line: string, textNames: seq<string>, versionNames: seq<string>): Marker {
    if Mentions(line, textNames) then TextMarker
    else if Mentions(line, versionNames) then VersionMarker
    else NoMarker
  }

  /** What one iteration of the loop does with the current line. Every
      action but `EndDictionary` consumes the line. */
  datatype Action =
    | AddRaw(openBlock: bool)        // an untouched line, in a new block or not
    | ReadTextKeys                   // the text keys line and its `m_values:` line
    | ReadVersionKeys                // the version keys line
    | ReadVersionValues              // the version values line, closing the block
    | AddEntry(scalarDepth: int)     // a new entry line
    | AppendToEntry                  // one more fragment of the last entry
    | EndDictionary                  // back to raw lines, in a new block

  datatype Step = Step(action: Action, next: Mode)

  /** One turn of the loop of `Parse`: the action taken on `line`, whose
      indentation is `depth`, and the mode after it. */
  function Decide(m: Mode, marker: Marker, line: string, depth: nat): Step {
    match m.state
    case ParsingRaw =>
      (match marker
       case TextMarker => Step(AddRaw(false), Mode(ParsingTextKeys, depth))
       case VersionMarker => Step(AddRaw(true), Mode(ParsingVersionKeys, depth))
       case NoMarker => Step(AddRaw(false), m))
    case ParsingTextKeys => Step(ReadTextKeys, m.(state := ParsingTextValues))
    case ParsingTextValues =>
      if depth <= m.dictionaryDepth then Step(EndDictionary, m.(state := ParsingRaw))
      else if StartsWith(TrimStartSpaces(line), "-") then Step(AddEntry(depth + 2), m)
      else Step(AppendToEntry, m)
    case ParsingVersionKeys => Step(ReadVersionKeys, m.(state := ParsingVersionValues))
    case ParsingVersionValues =>
      if depth <= m.dictionaryDepth then Step(EndDictionary, m.(state := ParsingRaw))
      else Step(ReadVersionValues, m.(state := ParsingRaw))
  }

  // ---------------------------------------------------------------------
  // Properties of the state machine

  /** A raw line is always kept; a version marker opens a new block before
      it and a text marker does not; a marker records the line's
      indentation as the dictionary depth. */
  lemma RawLinesAndMarkers(m: Mode, marker: Marker, line: string, depth: nat)
    requires m.state == ParsingRaw
    ensures var st := Decide(m, marker, line, depth);
      && st.action == AddRaw(marker == VersionMarker)
      && (marker == NoMarker ==> st.next == m)
      && (marker == TextMarker ==> st.next == Mode(ParsingTextKeys, depth))
      && (marker == VersionMarker ==> st.next == Mode(ParsingVersionKeys, depth))
  {
  }

  /** Only the two values states end a dictionary, exactly on a line
      indented at most as deep as the marker, and go back to raw lines. */
  lemma EndDictionaryExactly(m: Mode, marker: Marker, line: string, depth: nat)
    ensures var st := Decide(m, marker, line, depth);
      st.action == EndDictionary <==>
        (m.state == ParsingTextValues || m.state == ParsingVersionValues) && depth <= m.dictionaryDepth
    ensures var st := Decide(m, marker, line, depth);
      st.action == EndDictionary ==> st.next == m.(state := ParsingRaw)
  {
  }

  /** In the text values state, a deeper line starts an entry with scalar
      depth two past its indentation exactly when it starts with `-`, and
      is otherwise appended to the last entry; no quote is looked at. */
  lemma EntriesAndContinuations(m: Mode, marker: Marker, line: string, depth: nat)
    requires m.state == ParsingTextValues && depth > m.dictionaryDepth
    ensures var st := Decide(m, marker, line, depth);
      && (st.action == AddEntry(depth + 2) <==> StartsWith(TrimStartSpaces(line), "-"))
      && (st.action == AppendToEntry <==> !StartsWith(TrimStartSpaces(line), "-"))
      && st.next == m
  {
  }

  /** The version values are the one line after the keys line: a deeper
      line there is read as the values, and the parser goes back to raw
      lines right after it. */
  lemma VersionValuesLine(m: Mode, marker: Marker, line: string, depth: nat)
    requires m.state == ParsingVersionValues && depth > m.dictionaryDepth
    ensures Decide(m, marker, line, depth) == Step(ReadVersionValues, m.(state := ParsingRaw))
  {
  }

  /** The keys states read their line unconditionally. */
  lemma KeysStatesMoveOn(m: Mode, marker: Marker, line: string, depth: nat)
    ensures m.state == ParsingTextKeys ==>
      Decide(m, marker, line, depth) == Step(ReadTextKeys, m.(state := ParsingTextValues))
    ensures m.state == ParsingVersionKeys ==>
      Decide(m, marker, line, depth) == Step(ReadVersionKeys, m.(state := ParsingVersionValues))
  {
  }

  /** How the actions and the version states go together: what the parser
      relies on to know where the version keys line is. */
  predicate Consistent(from: State, action: Action, to: State) {
    && (to == ParsingVersionValues <==> action == ReadVersionKeys)
    && (from == ParsingVersionValues ==> to == ParsingRaw && (action == EndDictionary || action == ReadVersionValues))
    && (action == EndDictionary ==> from != ParsingRaw && to == ParsingRaw)
    && (action == AppendToEntry ==> from == to)
  }

  lemma DecideConsistent(m: Mode, marker: Marker, line: string, depth: nat)
    ensures var st := Decide(m, marker, line, depth);
      Consistent(m.state, st.action, st.next.state)
  {
  }

  // ---------------------------------------------------------------------
  // The parser's moves on the chain

  /** What every action but `ReadTextKeys` does to the chain: the line is
      kept (except by `EndDictionary`, which only closes the block), and
      the version values line closes its block. `None` is a continuation
      met in an empty block, where the source's indexer throws. */
  function Act(k: Cursor, action: Action, l: string): Option<Cursor>
    requires !action.ReadTextKeys?
  {
    match action
    case AddRaw(openBlock) =>
      Some(Keep(if openBlock then NewBlock(k) else k, NewLine(l)))
    case ReadVersionKeys =>
      Some(Keep(k, NewLine(l)))
    case ReadVersionValues =>
      Some(NewBlock(Keep(k, NewLine(l))))
    case AddEntry(scalarDepth) =>
      Some(Keep(k, WithDepth(NewLine(l), scalarDepth)))
    case AppendToEntry =>
      if k.current == [] then None else Some(AppendToLast(k, l))
    case EndDictionary =>
      Some(NewBlock(k))
  }

  /** `Act` fails exactly on a continuation in an empty block; otherwise it
      never touches a closed block, and the text grows by the line, except
      at `EndDictionary`, which keeps no line. A kept version line is the
      last line of its block, a closed one for the values line. */
  lemma ActKeepsText(k: Cursor, action: Action, l: string)
    requires !action.ReadTextKeys?
    ensures Act(k, action, l).None? <==> action == AppendToEntry && k.current == []
    ensures var r := Act(k, action, l);
      r.Some? ==> k.closed <= r.value.closed
    ensures var r := Act(k, action, l);
      r.Some? ==> Written(r.value) == Written(k) + (if action == EndDictionary then [] else [l])
    ensures action == ReadVersionKeys ==>
      var r := Act(k, action, l).value;
      r.closed == k.closed && r.current == k.current + [NewLine(l)]
    ensures action == ReadVersionValues ==>
      var r := Act(k, action, l).value;
      r.closed == k.closed + [k.current + [NewLine(l)]]
    ensures action == EndDictionary ==> Act(k, action, l).value.closed == k.closed + [k.current]
  {
    match action
    case AddRaw(openBlock) =>
      var k1 := if openBlock then NewBlock(k) else k;
      assert k.closed <= k1.closed && Written(k1) == Written(k);
    case ReadVersionValues =>
      var k1 := Keep(k, NewLine(l));
      assert Written(NewBlock(k1)) == Written(k1);
    case AddEntry(scalarDepth) =>
      assert WithDepth(NewLine(l), scalarDepth).rawStrings == [l];
    case ReadVersionKeys =>
    case AppendToEntry =>
    case EndDictionary =>
  }

  // ---------------------------------------------------------------------
  // What the parser records

  /** `m_textDictionaryKeys`, `m_textDictionaryKeysLine` and
      `m_textDictionaryValuesBlock`. */
  datatype TextFields = TextFields(keys: Option<string>, keysLine: Option<LineRef>, values: Option<BlockRef>)

  /** `m_versionDictionaryKeys`, `m_versionDictionaryKeysLine`,
      `m_versionDictionaryValues` and `m_versionDictionaryValuesLine`. */
  datatype VersionFields = VersionFields(keys: Option<string>, keysLine: Option<LineRef>,
                                         values: Option<string>, valuesLine: Option<LineRef>)

  datatype Found = Found(text: TextFields, version: VersionFields)

  const NotFound := Found(TextFields(None, None, None), VersionFields(None, None, None, None))

  /** The text dictionary read in chain `n`, which is `c`: its keys line and
      the `m_values:` line after it end their block, the values block is the
      next one, and the keys are group 2 of the key regex on the keys line. */
  predicate TextRecorded(d: TextFields, c: Chain, n: nat) {
    && d.keysLine.Some? && d.values.Some?
    && d.keysLine.value.chain == n && d.values.value.chain == n
    && d.values.value.block == d.keysLine.value.block + 1 < |c|
    && d.keysLine.value.line + 2 == |c[d.keysLine.value.block]|
    && d.keys == Some(KeysOf(c[d.keysLine.value.block][d.keysLine.value.line].value))
  }

  /** A packed line read in chain `n`: `r` names a line of the blocks `bs`,
      and `packed` is group 2 of the key regex on it. */
  predicate LineRecorded(packed: Option<string>, r: Option<LineRef>, bs: Chain, n: nat) {
    && r.Some? && r.value.chain == n && r.value.block < |bs| && r.value.line < |bs[r.value.block]|
    && packed == Some(KeysOf(bs[r.value.block][r.value.line].value))
  }

  /** While the parser waits for the version values, the version keys line
      is the last line of the current block. */
  predicate Pending(d: VersionFields, k: Cursor, n: nat) {
    && k.current != []
    && d.keysLine == Some(LineRef(n, |k.closed|, |k.current| - 1))
    && d.keys == Some(KeysOf(k.current[|k.current| - 1].value))
  }

  /** The parse ended on the text keys line `l`, padded with the null
      header after it. */
  predicate PaddedText(found: Found, c: Chain, l: string) {
    PaddedAfter(found.text.keysLine, found.text.values, c, l)
  }

  /** What the parse of chain `n` did so far to the fields `before`, the
      parser being in `state` with cursor `k`: each group of fields is
      untouched or names lines of the closed blocks (the version keys line
      may still be pending). */
  predicate Recorded(before: Found, found: Found, k: Cursor, state: State, n: nat) {
    && (found.text == before.text || TextRecorded(found.text, Chained(k), n))
    && (state == ParsingVersionValues ==> Pending(found.version, k, n))
    && (state != ParsingVersionValues ==>
          (found.version.keys, found.version.keysLine) == (before.version.keys, before.version.keysLine)
          || LineRecorded(found.version.keys, found.version.keysLine, k.closed, n))
    && ((found.version.values, found.version.valuesLine) == (before.version.values, before.version.valuesLine)
        || LineRecorded(found.version.values, found.version.valuesLine, k.closed, n))
  }

  /** The same, once the chain `c` is complete. */
  predicate Final(before: Found, found: Found, c: Chain, n: nat) {
    && (found.text == before.text || TextRecorded(found.text, c, n))
    && ((found.version.keys, found.version.keysLine) == (before.version.keys, before.version.keysLine)
        || LineRecorded(found.version.keys, found.version.keysLine, c, n))
    && ((found.version.values, found.version.valuesLine) == (before.version.values, before.version.valuesLine)
        || LineRecorded(found.version.values, found.version.valuesLine, c, n))
  }

  lemma LineRecordedGrows(packed: Option<string>, r: Option<LineRef>, bs: Chain, bs': Chain, n: nat)
    requires LineRecorded(packed, r, bs, n) && bs <= bs'
    ensures LineRecorded(packed, r, bs', n)
  {
    assert bs'[r.value.block] == bs[r.value.block];
  }

  lemma TextRecordedGrows(d: TextFields, k: Cursor, k': Cursor, n: nat)
    requires TextRecorded(d, Chained(k), n) && k.closed <= k'.closed
    ensures TextRecorded(d, Chained(k'), n)
  {
    var b := d.keysLine.value.block;
    if b < |k.closed| {
      assert Chained(k')[b] == k'.closed[b] == k.closed[b] == Chained(k)[b];
    }
  }

  /** At the end of the loop, what was recorded names lines of the chain. */
  lemma RecordedIsFinal(before: Found, found: Found, k: Cursor, state: State, n: nat)
    requires Recorded(before, found, k, state, n)
    ensures Final(before, found, Chained(k), n)
  {
    var c := Chained(k);
    assert k.closed <= c;
    if (found.version.keys, found.version.keysLine) != (before.version.keys, before.version.keysLine) {
      if state == ParsingVersionValues {
        assert c[|k.closed|] == k.current;
      } else {
        LineRecordedGrows(found.version.keys, found.version.keysLine, k.closed, c, n);
      }
    }
    if (found.version.values, found.version.valuesLine) != (before.version.values, before.version.valuesLine) {
      LineRecordedGrows(found.version.values, found.version.valuesLine, k.closed, c, n);
    }
  }

  // ---------------------------------------------------------------------
  // The loop

  /** How the parser classifies line `l` in `mode`. */
  method Classify(l: string, mode: Mode, textNames: seq<string>, versionNames: seq<string>)
    returns (step: Step)
    ensures step == StepOn(l, mode, textNames, versionNames)
    ensures Consistent(mode.state, step.action, step.next.state)
  {
    var depth := CountStartSpaces(l);
    var marker := NoMarker;
    if mode.state == ParsingRaw {
      var isText := ContainsLine(l, textNames);
      if isText {
        marker := TextMarker;
      } else {
        var isVersion := ContainsLine(l, versionNames);
        if isVersion {
          marker := VersionMarker;
        }
      }
    }
    step := Decide(mode, marker, l, depth);
    DecideConsistent(mode, marker, l, depth);
  }

  /** The text keys state: the keys line and its `m_values:` line are kept
      (see `Documents.ReadKeys`) and the text dictionary is recorded there. */
  method TextKeysTurn(reader: Reader, k: Cursor, found: Found, l: string, n: nat,
                      ghost before: Found, ghost start: nat, ghost consumed: nat)
    returns (nk: Cursor, nfound: Found, line: Option<string>, ghost consumedNow: nat, ghost padded: bool)
    requires start <= consumed < |reader.input| && reader.pos == consumed + 1 && reader.input[consumed] == l
    requires Written(k) == reader.input[start..consumed]
    requires Recorded(before, found, k, ParsingTextKeys, n)
    modifies reader
    ensures consumed < consumedNow <= |reader.input| && reader.pos <= |reader.input|
    ensures line.Some? ==> reader.pos == consumedNow + 1 && line.value == reader.input[consumedNow]
    ensures line.None? ==> reader.pos == consumedNow == |reader.input|
    ensures !padded ==> Written(nk) == reader.input[start..consumedNow]
    ensures padded ==> Written(nk) == reader.input[start..consumedNow] + [""]
    ensures padded ==> line.None?
    ensures Recorded(before, nfound, nk, ParsingTextValues, n)
    ensures padded ==>
      consumed + 1 == |reader.input| && PaddedText(nfound, Chained(nk), l)
    ensures TextKeysTurned(reader.input, consumed, k, found, l, n, nk, nfound, consumedNow, padded)
  {
    var keysLine, values;
    nk, keysLine, values, line, consumedNow, padded := Documents.ReadKeys(reader, k, l, n, start, consumed);
    if found.text != before.text {
      TextRecordedGrows(found.text, k, nk, n);
    }
    if (found.version.keys, found.version.keysLine) != (before.version.keys, before.version.keysLine) {
      LineRecordedGrows(found.version.keys, found.version.keysLine, k.closed, nk.closed, n);
    }
    if (found.version.values, found.version.valuesLine) != (before.version.values, before.version.valuesLine) {
      LineRecordedGrows(found.version.values, found.version.valuesLine, k.closed, nk.closed, n);
    }
    nfound := TextNoted(found, l, ShapeOf(k), n);
  }

  /** The version fields after `action` on line `l`, the cursor before it
      having sizes `s`. */
  function NoteVersion(found: Found, action: Action, l: string, s: Shape, n: nat): Found {
    if action == ReadVersionKeys then
      found.(version := found.version.(keys := Some(KeysOf(l)), keysLine := Some(LineRef(n, s.blocks, s.lines))))
    else if action == ReadVersionValues then
      found.(version := found.version.(values := Some(KeysOf(l)), valuesLine := Some(LineRef(n, s.blocks, s.lines))))
    else found
  }

  /** Every action but the text keys: what `Act` does to the chain keeps
      the fields recorded, with the version lines noted where they are
      kept. */
  lemma NoteVersionRecorded(before: Found, found: Found, k: Cursor, action: Action, l: string,
                            from: State, to: State, n: nat)
    requires !action.ReadTextKeys? && Act(k, action, l).Some?
    requires Consistent(from, action, to)
    requires Recorded(before, found, k, from, n)
    ensures Recorded(before, NoteVersion(found, action, l, ShapeOf(k), n), Act(k, action, l).value, to, n)
  {
    ActKeepsText(k, action, l);
    var nk := Act(k, action, l).value;
    var nf := NoteVersion(found, action, l, ShapeOf(k), n);
    if found.text != before.text {
      TextRecordedGrows(found.text, k, nk, n);
    }
    assert nf.text == found.text;
    NoteVersionKeysRecorded(before, found, k, action, l, from, to, n);
    NoteVersionValuesRecorded(before, found, k, action, l, from, to, n);
  }

  /** The version keys part of `NoteVersionRecorded`. */
  lemma NoteVersionKeysRecorded(before: Found, found: Found, k: Cursor, action: Action, l: string,
                                from: State, to: State, n: nat)
    requires !action.ReadTextKeys? && Act(k, action, l).Some?
    requires Consistent(from, action, to)
    requires Recorded(before, found, k, from, n)
    ensures var nk := Act(k, action, l).value;
      var d := NoteVersion(found, action, l, ShapeOf(k), n).version;
      && (to == ParsingVersionValues ==> Pending(d, nk, n))
      && (to != ParsingVersionValues ==>
            (d.keys, d.keysLine) == (before.version.keys, before.version.keysLine)
            || LineRecorded(d.keys, d.keysLine, nk.closed, n))
  {
    ActKeepsText(k, action, l);
    var nk := Act(k, action, l).value;
    if action == ReadVersionKeys {
      assert nk.current[|k.current|] == NewLine(l);
    } else if from == ParsingVersionValues {
      assert nk.closed[|k.closed|][|k.current| - 1] == k.current[|k.current| - 1];
    } else if (found.version.keys, found.version.keysLine) != (before.version.keys, before.version.keysLine) {
      LineRecordedGrows(found.version.keys, found.version.keysLine, k.closed, nk.closed, n);
    }
  }

  /** The version values part of `NoteVersionRecorded`. */
  lemma NoteVersionValuesRecorded(before: Found, found: Found, k: Cursor, action: Action, l: string,
                                  from: State, to: State, n: nat)
    requires !action.ReadTextKeys? && Act(k, action, l).Some?
    requires Recorded(before, found, k, from, n)
    ensures var nk := Act(k, action, l).value;
      var d := NoteVersion(found, action, l, ShapeOf(k), n).version;
      (d.values, d.valuesLine) == (before.version.values, before.version.valuesLine)
      || LineRecorded(d.values, d.valuesLine, nk.closed, n)
  {
    ActKeepsText(k, action, l);
    var nk := Act(k, action, l).value;
    if action == ReadVersionValues {
      assert nk.closed[|k.closed|][|k.current|] == NewLine(l);
    } else if (found.version.values, found.version.valuesLine) != (before.version.values, before.version.valuesLine) {
      LineRecordedGrows(found.version.values, found.version.valuesLine, k.closed, nk.closed, n);
    }
  }

  /** Any other action: `Act` on the chain, the version lines recorded,
      and the next line read unless the action was `EndDictionary`.
      `ok == false` is a continuation met in an empty block. */
  method ActTurn(reader: Reader, k: Cursor, action: Action, found: Found, l: string, n: nat,
                 ghost from: State, ghost to: State, ghost before: Found, ghost start: nat, ghost consumed: nat)
    returns (ok: bool, nk: Cursor, nfound: Found, line: Option<string>, ghost consumedNow: nat)
    requires !action.ReadTextKeys? && Consistent(from, action, to)
    requires start <= consumed < |reader.input| && reader.pos == consumed + 1 && reader.input[consumed] == l
    requires Written(k) == reader.input[start..consumed]
    requires Recorded(before, found, k, from, n)
    modifies reader
    ensures consumed <= consumedNow <= |reader.input| && reader.pos <= |reader.input|
    ensures line.Some? ==> reader.pos == consumedNow + 1 && line.value == reader.input[consumedNow]
    ensures line.None? ==> reader.pos == consumedNow == |reader.input|
    ensures Written(nk) == reader.input[start..consumedNow]
    ensures !ok ==> line.Some?
    ensures ok ==> consumed < consumedNow || (consumedNow == consumed && line.Some? && action == EndDictionary)
    ensures !ok ==> nk == k && nfound == found
    ensures Recorded(before, nfound, nk, to, n)
    ensures ActTurned(k, action, found, l, n, consumed, ok, nk, nfound, consumedNow)
  {
    ok, nk, nfound, line, consumedNow := true, k, found, Some(l), consumed;
    var r := Act(k, action, l);
    ActKeepsText(k, action, l);
    if r.None? {
      ok := false;
      return;
    }
    nk := r.value;
    nfound := NoteVersion(found, action, l, ShapeOf(k), n);
    NoteVersionRecorded(before, found, k, action, l, from, to, n);
    if action != EndDictionary {
      Documents.Consume(reader.input, start, consumed);
      consumedNow := consumed + 1;
      line := reader.ReadLine();
    }
  }

  // ---------------------------------------------------------------------
  // The parse as a function of the input

  /** `Act` on sizes alone. */
  function ActShape(s: Shape, action: Action): Option<Shape>
    requires !action.ReadTextKeys?
  {
    match action
    case AddRaw(openBlock) => Some(if openBlock then Shape(s.blocks + 1, 1) else s.(lines := s.lines + 1))
    case ReadVersionKeys => Some(s.(lines := s.lines + 1))
    case ReadVersionValues => Some(Shape(s.blocks + 1, 0))
    case AddEntry(_) => Some(s.(lines := s.lines + 1))
    case AppendToEntry => if s.lines == 0 then None else Some(s)
    case EndDictionary => Some(Shape(s.blocks + 1, 0))
  }

  /** `ActShape` is what `Act` does to the sizes of the cursor. */
  lemma ActShapeOf(k: Cursor, action: Action, l: string)
    requires !action.ReadTextKeys?
    ensures Act(k, action, l).None? <==> ActShape(ShapeOf(k), action).None?
    ensures Act(k, action, l).Some? ==> ShapeOf(Act(k, action, l).value) == ActShape(ShapeOf(k), action).value
  {
  }

  /** The fields after the text keys line `l`, the cursor before it having
      sizes `s`: the keys, the line and the values block after it. */
  function TextNoted(found: Found, l: string, s: Shape, n: nat): Found {
    found.(text := TextFields(Some(KeysOf(l)), Some(LineRef(n, s.blocks, s.lines)), Some(BlockRef(n, s.blocks + 1))))
  }

  /** What the text keys turn on line `input[i] == l` leaves: the sizes and
      the fields as above, and the index of the next line, two on unless
      the input ends after `l` (`padded`). */
  predicate TextKeysTurned(input: seq<string>, i: nat, k: Cursor, found: Found, l: string, n: nat,
                           nk: Cursor, nfound: Found, next: nat, padded: bool)
  {
    && ShapeOf(nk) == Documents.KeysShape(ShapeOf(k))
    && nfound == TextNoted(found, l, ShapeOf(k), n)
    && (padded <==> i + 1 == |input|)
    && next == if padded then i + 1 else i + 2
  }

  /** What any other turn on line `l`, the `i`th, leaves: `Act`'s cursor
      and the version fields noted, or, when `Act` fails, everything as it
      was; the next line is the same one after `EndDictionary`. */
  predicate ActTurned(k: Cursor, action: Action, found: Found, l: string, n: nat, i: nat,
                      ok: bool, nk: Cursor, nfound: Found, next: nat)
    requires !action.ReadTextKeys?
  {
    && Act(k, action, l) == (if ok then Some(nk) else None)
    && (!ok ==> nk == k && nfound == found)
    && (ok ==> nfound == NoteVersion(found, action, l, ShapeOf(k), n))
    && next == if ok && action != EndDictionary then i + 1 else i
  }

  /** Where a turn leaves the parse: whether it went through, the sizes of
      the cursor, the mode and the fields after it, the index of the next
      line to look at, and whether the input ended right after the text
      keys line (`padded`). */
  datatype Outcome = Outcome(ok: bool, shape: Shape, mode: Mode, found: Found, next: nat, padded: bool)

  /** The step the parser takes on line `l` in mode `m`: markers are looked
      for only in the raw state, and the depth is the count of leading
      spaces. */
  function StepOn(l: string, m: Mode, textNames: seq<string>, versionNames: seq<string>): Step {
    Decide(m, if m.state == ParsingRaw then MarkerOf(l, textNames, versionNames) else NoMarker,
           l, |l| - |TrimStartSpaces(l)|)
  }

  /** One turn of the loop on line `input[i]`, the cursor having sizes `s`:
      the text keys action also takes the header after the line, any other
      action is `Act`, and only `EndDictionary` leaves the line to be looked
      at again. */
  function TurnAt(input: seq<string>, i: nat, s: Shape, m: Mode, found: Found, textNames: seq<string>,
                  versionNames: seq<string>, n: nat): (r: Outcome)
    requires i < |input|
    ensures i <= r.next <= |input|
    ensures r.ok ==> i < r.next || (r.next == i && m.state != ParsingRaw && r.mode.state == ParsingRaw)
  {
    var l := input[i];
    var step := StepOn(l, m, textNames, versionNames);
    EndDictionaryExactly(m, if m.state == ParsingRaw then MarkerOf(l, textNames, versionNames) else NoMarker,
                         l, |l| - |TrimStartSpaces(l)|);
    if step.action.ReadTextKeys? then
      var padded := i + 1 == |input|;
      Outcome(true, Documents.KeysShape(s), step.next, TextNoted(found, l, s, n),
              if padded then i + 1 else i + 2, padded)
    else
      match ActShape(s, step.action)
      case None => Outcome(false, s, step.next, found, i, false)
      case Some(t) =>
        Outcome(true, t, step.next, NoteVersion(found, step.action, l, s, n),
                if step.action == EndDictionary then i else i + 1, false)
  }

  /** `TurnAt` on the text keys line is what `TextKeysTurned` says. */
  lemma TurnAtTextKeys(input: seq<string>, i: nat, k: Cursor, m: Mode, found: Found, textNames: seq<string>,
                       versionNames: seq<string>, n: nat, step: Step, nk: Cursor, nfound: Found, next: nat,
                       padded: bool)
    requires i < |input|
    requires step == StepOn(input[i], m, textNames, versionNames) && step.action.ReadTextKeys?
    requires TextKeysTurned(input, i, k, found, input[i], n, nk, nfound, next, padded)
    ensures TurnAt(input, i, ShapeOf(k), m, found, textNames, versionNames, n)
      == Outcome(true, ShapeOf(nk), step.next, nfound, next, padded)
  {
  }

  /** `TurnAt` on a line with any other action is what `ActTurned` says. */
  lemma TurnAtAct(input: seq<string>, i: nat, k: Cursor, m: Mode, found: Found, textNames: seq<string>,
                  versionNames: seq<string>, n: nat, step: Step, ok: bool, nk: Cursor, nfound: Found,
                  next: nat)
    requires i < |input|
    requires step == StepOn(input[i], m, textNames, versionNames) && !step.action.ReadTextKeys?
    requires ActTurned(k, step.action, found, input[i], n, i, ok, nk, nfound, next)
    ensures TurnAt(input, i, ShapeOf(k), m, found, textNames, versionNames, n)
      == Outcome(ok, ShapeOf(nk), step.next, nfound, next, false)
  {
    ActShapeOf(k, step.action, input[i]);
  }

  /** The whole loop from line `i` on: turns until the input runs out, a
      turn fails, or the text keys line ends the input. */
  function Run(input: seq<string>, i: nat, s: Shape, m: Mode, found: Found, textNames: seq<string>,
               versionNames: seq<string>, n: nat): Outcome
    requires i <= |input|
    decreases |input| - i, if m.state == ParsingRaw then 0 else 1, 1
  {
    if i == |input| then Outcome(true, s, m, found, i, false)
    else Continue(input, i, m, TurnAt(input, i, s, m, found, textNames, versionNames, n), textNames, versionNames, n)
  }

  /** The loop after the turn on line `i` in mode `m` left `t`: it stops
      there when the turn failed or the input ended after the text keys
      line, and
      runs on from `t` otherwise. */
  function Continue(input: seq<string>, i: nat, m: Mode, t: Outcome, textNames: seq<string>,
                    versionNames: seq<string>, n: nat): Outcome
    requires i < |input| && i <= t.next <= |input|
    requires t.ok ==> i < t.next || (t.next == i && m.state != ParsingRaw && t.mode.state == ParsingRaw)
    decreases |input| - i, if m.state == ParsingRaw then 0 else 1, 0
  {
    if !t.ok || t.padded then t
    else Run(input, t.next, t.shape, t.mode, t.found, textNames, versionNames, n)
  }

  /** `Run` from a line is one turn and then, unless the turn failed or
      ended the input after the text keys line, `Run` from where it left
      off. */
  lemma RunAfterTurn(input: seq<string>, i: nat, s: Shape, m: Mode, found: Found, textNames: seq<string>,
                     versionNames: seq<string>, n: nat)
    requires i < |input|
    ensures var t := TurnAt(input, i, s, m, found, textNames, versionNames, n);
      Run(input, i, s, m, found, textNames, versionNames, n)
      == if !t.ok || t.padded then t else Run(input, t.next, t.shape, t.mode, t.found, textNames, versionNames, n)
  {
  }

  /** `Run` at the end of the input stops there. */
  lemma RunAtEnd(input: seq<string>, s: Shape, m: Mode, found: Found, textNames: seq<string>,
                 versionNames: seq<string>, n: nat)
    ensures Run(input, |input|, s, m, found, textNames, versionNames, n) == Outcome(true, s, m, found, |input|, false)
  {
  }

  /** `b` is the turn after `a`: `a` went through, did not end the input
      after the text keys line, and left a line to look at. */
  predicate Leads(input: seq<string>, textNames: seq<string>, versionNames: seq<string>, n: nat, a: Outcome,
                  b: Outcome) {
    && a.ok && !a.padded && a.next < |input|
    && b == TurnAt(input, a.next, a.shape, a.mode, a.found, textNames, versionNames, n)
  }

  /** Outcome `j + 1` of `trace` is the turn after outcome `j`. */
  predicate LeadsAt(input: seq<string>, textNames: seq<string>, versionNames: seq<string>, n: nat,
                    trace: seq<Outcome>, j: nat)
    requires j + 1 < |trace|
  {
    Leads(input, textNames, versionNames, n, trace[j], trace[j + 1])
  }

  /** Each outcome of `trace` is the turn after the one before it. */
  predicate Linked(input: seq<string>, textNames: seq<string>, versionNames: seq<string>, n: nat, trace: seq<Outcome>) {
    forall j :: 0 <= j < |trace| - 1 ==> LeadsAt(input, textNames, versionNames, n, trace, j)
  }

  /** `Run` stops at `o`. */
  predicate Halts(input: seq<string>, o: Outcome) {
    !o.ok || o.padded || o.next == |input|
  }

  /** A linked trace from a live outcome to one where `Run` stops is what
      `Run` computes. */
  lemma {:induction false} LinkedRun(input: seq<string>, textNames: seq<string>, versionNames: seq<string>,
                                     n: nat, trace: seq<Outcome>, i: nat, s: Shape, m: Mode, found: Found)
    requires i <= |input| && trace != [] && trace[0] == Outcome(true, s, m, found, i, false)
    requires Linked(input, textNames, versionNames, n, trace)
    requires Halts(input, trace[|trace| - 1])
    ensures Run(input, i, s, m, found, textNames, versionNames, n) == trace[|trace| - 1]
    decreases |trace|
  {
    var a := trace[0];
    if |trace| == 1 {
      RunAtEnd(input, a.shape, a.mode, a.found, textNames, versionNames, n);
    } else {
      assert LeadsAt(input, textNames, versionNames, n, trace, 0);
      RunAfterTurn(input, a.next, a.shape, a.mode, a.found, textNames, versionNames, n);
      var t := trace[1];
      if |trace| > 2 {
        assert LeadsAt(input, textNames, versionNames, n, trace, 1);
        var rest := trace[1..];
        LinkedTail(input, textNames, versionNames, n, trace);
        LinkedRun(input, textNames, versionNames, n, rest, t.next, t.shape, t.mode, t.found);
      } else if t.ok && !t.padded {
        RunAtEnd(input, t.shape, t.mode, t.found, textNames, versionNames, n);
      }
    }
  }

  /** A linked trace stays linked without its first outcome. */
  lemma LinkedTail(input: seq<string>, textNames: seq<string>, versionNames: seq<string>, n: nat, trace: seq<Outcome>)
    requires trace != [] && Linked(input, textNames, versionNames, n, trace)
    ensures Linked(input, textNames, versionNames, n, trace[1..])
  {
    var rest := trace[1..];
    forall j | 0 <= j < |rest| - 1
      ensures LeadsAt(input, textNames, versionNames, n, rest, j)
    {
      assert LeadsAt(input, textNames, versionNames, n, trace, j + 1);
      assert rest[j] == trace[j + 1] && rest[j + 1] == trace[j + 2];
    }
  }

  /** A linked trace stays linked when the turn after its last outcome is
      added. */
  lemma LinkedExtends(input: seq<string>, textNames: seq<string>, versionNames: seq<string>, n: nat,
                      trace: seq<Outcome>, o: Outcome)
    requires trace != [] && Linked(input, textNames, versionNames, n, trace)
    requires Leads(input, textNames, versionNames, n, trace[|trace| - 1], o)
    ensures Linked(input, textNames, versionNames, n, trace + [o])
  {
    var t := trace + [o];
    forall j | 0 <= j < |t| - 1
      ensures LeadsAt(input, textNames, versionNames, n, t, j)
    {
      if j < |trace| - 1 {
        assert LeadsAt(input, textNames, versionNames, n, trace, j);
        assert t[j] == trace[j] && t[j + 1] == trace[j + 1];
      }
    }
  }

  /** A turn of the loop: the index of the line it looks at and the mode
      it is in. */
  datatype Visit = Visit(at: nat, mode: Mode)

  /** The turns `Run` takes, in order. */
  function Visits(input: seq<string>, i: nat, s: Shape, m: Mode, found: Found, textNames: seq<string>,
                  versionNames: seq<string>, n: nat): (vs: seq<Visit>)
    requires i <= |input|
    ensures i < |input| ==> vs != [] && vs[0] == Visit(i, m)
    decreases |input| - i, if m.state == ParsingRaw then 0 else 1, 1
  {
    if i == |input| then []
    else [Visit(i, m)] + VisitsAfter(input, i, m, TurnAt(input, i, s, m, found, textNames, versionNames, n),
                                     textNames, versionNames, n)
  }

  /** The turns after the one on line `i` in mode `m`, which left `t`. */
  function VisitsAfter(input: seq<string>, i: nat, m: Mode, t: Outcome, textNames: seq<string>,
                       versionNames: seq<string>, n: nat): seq<Visit>
    requires i < |input| && i <= t.next <= |input|
    requires t.ok ==> i < t.next || (t.next == i && m.state != ParsingRaw && t.mode.state == ParsingRaw)
    decreases |input| - i, if m.state == ParsingRaw then 0 else 1, 0
  {
    if !t.ok || t.padded then [] else Visits(input, t.next, t.shape, t.mode, t.found, textNames, versionNames, n)
  }

  /** `Visits` from a line is that line's visit and then, unless its turn
      failed or ended the input after a keys line, `Visits` from where the
      turn left off. */
  lemma VisitsAfterTurn(input: seq<string>, i: nat, s: Shape, m: Mode, found: Found, textNames: seq<string>,
                        versionNames: seq<string>, n: nat)
    requires i < |input|
    ensures var t := TurnAt(input, i, s, m, found, textNames, versionNames, n);
      Visits(input, i, s, m, found, textNames, versionNames, n)
      == [Visit(i, m)] + if !t.ok || t.padded then [] else Visits(input, t.next, t.shape, t.mode, t.found,
                                                                  textNames, versionNames, n)
  {
  }

  /** The last visit in state `st`, if there is one. */
  function LastIn(vs: seq<Visit>, st: State): (r: Option<Visit>)
    ensures r.Some? <==> exists j :: 0 <= j < |vs| && vs[j].mode.state == st
    ensures r.Some? ==> exists j :: 0 <= j < |vs| && vs[j] == r.value && vs[j].mode.state == st
                                    && forall j' :: j < j' < |vs| ==> vs[j'].mode.state != st
  {
    if vs == [] then None
    else
      var later := LastIn(vs[1..], st);
      if later.Some? then later
      else if vs[0].mode.state == st then Some(vs[0])
      else None
  }

  /** The state a raw line with `marker` sends the next line into. */
  function MarkedState(marker: Marker): State {
    match marker
    case TextMarker => ParsingTextKeys
    case VersionMarker => ParsingVersionKeys
    case NoMarker => ParsingRaw
  }

  /** Line `l` reaches past the depth of the dictionary `m` is in. */
  predicate Deeper(l: string, m: Mode) {
    |l| - |TrimStartSpaces(l)| > m.dictionaryDepth
  }

  /** A turn in the text keys state reads the line as the text keys; no
      other turn touches the text fields. */
  lemma TurnText(input: seq<string>, i: nat, s: Shape, m: Mode, found: Found, textNames: seq<string>,
                 versionNames: seq<string>, n: nat)
    requires i < |input|
    ensures var t := TurnAt(input, i, s, m, found, textNames, versionNames, n);
      && (m.state == ParsingTextKeys ==> t.ok && t.found == TextNoted(found, input[i], s, n))
      && (m.state != ParsingTextKeys ==> t.found.text == found.text)
  {
  }

  /** A turn in the version keys state reads the line as the version keys,
      and a turn in the version values state on a deeper line reads it as
      the packed values; no other turn touches those fields. */
  lemma TurnVersion(input: seq<string>, i: nat, s: Shape, m: Mode, found: Found, textNames: seq<string>,
                    versionNames: seq<string>, n: nat)
    requires i < |input|
    ensures var t := TurnAt(input, i, s, m, found, textNames, versionNames, n);
      && (m.state == ParsingVersionKeys ==>
            t.ok && t.found.version.keys == Some(KeysOf(input[i]))
            && t.found.version.keysLine == Some(LineRef(n, s.blocks, s.lines)))
      && (m.state != ParsingVersionKeys ==>
            (t.found.version.keys, t.found.version.keysLine) == (found.version.keys, found.version.keysLine))
      && (m.state == ParsingVersionValues && Deeper(input[i], m) ==>
            t.ok && t.found.version.values == Some(KeysOf(input[i]))
            && t.found.version.valuesLine == Some(LineRef(n, s.blocks, s.lines)))
      && (!(m.state == ParsingVersionValues && Deeper(input[i], m)) ==>
            (t.found.version.values, t.found.version.valuesLine) == (found.version.values, found.version.valuesLine))
  {
  }

  /** A raw line is always kept, and sends the next line into the state its
      marker names. */
  lemma TurnRaw(input: seq<string>, i: nat, s: Shape, m: Mode, found: Found, textNames: seq<string>,
                versionNames: seq<string>, n: nat)
    requires i < |input| && m.state == ParsingRaw
    ensures var t := TurnAt(input, i, s, m, found, textNames, versionNames, n);
      && t.ok && !t.padded && t.next == i + 1
      && t.mode.state == MarkedState(MarkerOf(input[i], textNames, versionNames))
  {
  }

  /** The parse's text fields are the ones it started from when no turn
      was in the text keys state; otherwise they hold the keys of the line
      of the last such turn, with its line and values block. */
  lemma {:induction false} RunReadsText(input: seq<string>, i: nat, s: Shape, m: Mode, found: Found,
                                        textNames: seq<string>, versionNames: seq<string>, n: nat)
    requires i <= |input|
    ensures var r := Run(input, i, s, m, found, textNames, versionNames, n);
      match LastIn(Visits(input, i, s, m, found, textNames, versionNames, n), ParsingTextKeys)
      case None => r.found.text == found.text
      case Some(v) =>
        && v.at < |input|
        && r.found.text.keys == Some(KeysOf(input[v.at]))
        && r.found.text.keysLine.Some? && r.found.text.values.Some?
    decreases |input| - i, if m.state == ParsingRaw then 0 else 1
  {
    if i < |input| {
      var t := TurnAt(input, i, s, m, found, textNames, versionNames, n);
      TurnText(input, i, s, m, found, textNames, versionNames, n);
      RunAfterTurn(input, i, s, m, found, textNames, versionNames, n);
      var vs := Visits(input, i, s, m, found, textNames, versionNames, n);
      VisitsAfterTurn(input, i, s, m, found, textNames, versionNames, n);
      if !t.ok || t.padded {
        assert vs == [Visit(i, m)];
        assert vs[1..] == [];
      } else {
        RunReadsText(input, t.next, t.shape, t.mode, t.found, textNames, versionNames, n);
        assert vs[1..] == Visits(input, t.next, t.shape, t.mode, t.found, textNames, versionNames, n);
      }
    }
  }

  /** The version keys and their line are the ones the parse started from
      when no turn was in the version keys state; otherwise they hold the
      keys of the line of the last such turn. */
  lemma {:induction false} RunReadsVersionKeys(input: seq<string>, i: nat, s: Shape, m: Mode, found: Found,
                                               textNames: seq<string>, versionNames: seq<string>, n: nat)
    requires i <= |input|
    ensures var r := Run(input, i, s, m, found, textNames, versionNames, n);
      match LastIn(Visits(input, i, s, m, found, textNames, versionNames, n), ParsingVersionKeys)
      case None => (r.found.version.keys, r.found.version.keysLine) == (found.version.keys, found.version.keysLine)
      case Some(v) =>
        && v.at < |input|
        && r.found.version.keys == Some(KeysOf(input[v.at])) && r.found.version.keysLine.Some?
    decreases |input| - i, if m.state == ParsingRaw then 0 else 1
  {
    if i < |input| {
      var t := TurnAt(input, i, s, m, found, textNames, versionNames, n);
      TurnVersion(input, i, s, m, found, textNames, versionNames, n);
      RunAfterTurn(input, i, s, m, found, textNames, versionNames, n);
      var vs := Visits(input, i, s, m, found, textNames, versionNames, n);
      VisitsAfterTurn(input, i, s, m, found, textNames, versionNames, n);
      if !t.ok || t.padded {
        assert vs == [Visit(i, m)];
        assert vs[1..] == [];
      } else {
        RunReadsVersionKeys(input, t.next, t.shape, t.mode, t.found, textNames, versionNames, n);
        assert vs[1..] == Visits(input, t.next, t.shape, t.mode, t.found, textNames, versionNames, n);
      }
    }
  }

  /** The packed version values and their line are the ones the parse
      started from when no turn was in the version values state; when the
      last such turn was on a deeper line, they are that line's. */
  lemma {:induction false} RunReadsVersionValues(input: seq<string>, i: nat, s: Shape, m: Mode, found: Found,
                                                 textNames: seq<string>, versionNames: seq<string>, n: nat)
    requires i <= |input|
    ensures var r := Run(input, i, s, m, found, textNames, versionNames, n);
      match LastIn(Visits(input, i, s, m, found, textNames, versionNames, n), ParsingVersionValues)
      case None =>
        (r.found.version.values, r.found.version.valuesLine) == (found.version.values, found.version.valuesLine)
      case Some(v) =>
        && v.at < |input|
        && (Deeper(input[v.at], v.mode) ==>
              r.found.version.values == Some(KeysOf(input[v.at])) && r.found.version.valuesLine.Some?)
    decreases |input| - i, if m.state == ParsingRaw then 0 else 1
  {
    if i < |input| {
      var t := TurnAt(input, i, s, m, found, textNames, versionNames, n);
      TurnVersion(input, i, s, m, found, textNames, versionNames, n);
      RunAfterTurn(input, i, s, m, found, textNames, versionNames, n);
      var vs := Visits(input, i, s, m, found, textNames, versionNames, n);
      VisitsAfterTurn(input, i, s, m, found, textNames, versionNames, n);
      if !t.ok || t.padded {
        assert vs == [Visit(i, m)];
        assert vs[1..] == [];
      } else {
        RunReadsVersionValues(input, t.next, t.shape, t.mode, t.found, textNames, versionNames, n);
        assert vs[1..] == Visits(input, t.next, t.shape, t.mode, t.found, textNames, versionNames, n);
      }
    }
  }

  /** The line after a raw line is visited next, in the state the raw
      line's marker names. */
  lemma VisitAfterRaw(input: seq<string>, i: nat, s: Shape, m: Mode, found: Found, textNames: seq<string>,
                      versionNames: seq<string>, n: nat)
    requires i + 1 < |input| && m.state == ParsingRaw
    ensures var vs := Visits(input, i, s, m, found, textNames, versionNames, n);
      && 1 < |vs| && vs[1].at == i + 1
      && vs[1].mode.state == MarkedState(MarkerOf(input[i], textNames, versionNames))
  {
    var t := TurnAt(input, i, s, m, found, textNames, versionNames, n);
    TurnRaw(input, i, s, m, found, textNames, versionNames, n);
    VisitsAfterTurn(input, i, s, m, found, textNames, versionNames, n);
  }

  /** A visited raw line that is not the last line of the input is
      followed by a visit to the next line, in the state its marker names. */
  lemma {:induction false} VisitFollowsMarker(input: seq<string>, i: nat, s: Shape, m: Mode, found: Found,
                                              textNames: seq<string>, versionNames: seq<string>, n: nat,
                                              j: nat)
    requires i <= |input|
    requires var vs := Visits(input, i, s, m, found, textNames, versionNames, n);
      j < |vs| && vs[j].mode.state == ParsingRaw && vs[j].at + 1 < |input|
    ensures var vs := Visits(input, i, s, m, found, textNames, versionNames, n);
      && j + 1 < |vs| && vs[j + 1].at == vs[j].at + 1
      && vs[j + 1].mode.state == MarkedState(MarkerOf(input[vs[j].at], textNames, versionNames))
    decreases j
  {
    var t := TurnAt(input, i, s, m, found, textNames, versionNames, n);
    var vs := Visits(input, i, s, m, found, textNames, versionNames, n);
    VisitsAfterTurn(input, i, s, m, found, textNames, versionNames, n);
    if j == 0 {
      VisitAfterRaw(input, i, s, m, found, textNames, versionNames, n);
    } else {
      var rest := Visits(input, t.next, t.shape, t.mode, t.found, textNames, versionNames, n);
      assert vs[j] == rest[j - 1];
      VisitFollowsMarker(input, t.next, t.shape, t.mode, t.found, textNames, versionNames, n, j - 1);
      assert vs[j + 1] == rest[j];
    }
  }

  /** A visited raw line that mentions the text or the version names, and
      is not the input's last line, makes the parse read that dictionary's
      keys. */
  lemma RunFindsMarked(input: seq<string>, i: nat, s: Shape, m: Mode, found: Found, textNames: seq<string>,
                       versionNames: seq<string>, n: nat, j: nat)
    requires i <= |input|
    requires var vs := Visits(input, i, s, m, found, textNames, versionNames, n);
      j < |vs| && vs[j].mode.state == ParsingRaw && vs[j].at + 1 < |input|
    ensures var vs := Visits(input, i, s, m, found, textNames, versionNames, n);
      var marker := MarkerOf(input[vs[j].at], textNames, versionNames);
      var r := Run(input, i, s, m, found, textNames, versionNames, n);
      && (marker == TextMarker ==> r.found.text.keys.Some?)
      && (marker == VersionMarker ==> r.found.version.keys.Some?)
  {
    var vs := Visits(input, i, s, m, found, textNames, versionNames, n);
    VisitFollowsMarker(input, i, s, m, found, textNames, versionNames, n, j);
    RunReadsText(input, i, s, m, found, textNames, versionNames, n);
    RunReadsVersionKeys(input, i, s, m, found, textNames, versionNames, n);
    assert vs[j + 1] in vs;
  }

  /** The loop of `Parse`, building chain `n` from the fields `before`:
      every line read is kept exactly once and in order, so the text of the
      chain is the input, with one empty line more when the input ends
      right after the text keys line. A continuation met while the current
      block is empty throws: `ok == false`, and the chain holds the lines
      kept until then. */
  method Scan(reader: Reader, textNames: seq<string>, versionNames: seq<string>, before: Found, n: nat)
    returns (ok: bool, c: Chain, found: Found, ghost padded: bool)
    requires reader.pos <= |reader.input|
    modifies reader
    ensures c != []
    ensures ok ==> reader.pos == |reader.input|
    ensures ok ==> Text(c) == reader.input[old(reader.pos)..] + (if padded then [""] else [])
    ensures !ok ==> Text(c) <= reader.input[old(reader.pos)..]
    ensures Final(before, found, c, n)
    ensures padded ==>
      && ok && old(reader.pos) < |reader.input|
      && PaddedText(found, c, reader.input[|reader.input| - 1])
    ensures var r := Run(reader.input, old(reader.pos), Shape(0, 0), InitialMode, before, textNames, versionNames, n);
      ok == r.ok && found == r.found && padded == r.padded && |c| == r.shape.blocks + 1
  {
    ghost var start := reader.pos;
    var k, state;
    ghost var trace;
    ok, k, state, found, padded, trace := ScanLines(reader, textNames, versionNames, before, n);
    LinkedRun(reader.input, textNames, versionNames, n, trace, start, Shape(0, 0), InitialMode, before);
    c := Chained(k);
    WrittenIsText(k);
    RecordedIsFinal(before, found, k, state, n);
  }

  /** The loop of `Parse`: turns until the input runs out or a turn fails,
      leaving the cursor `k`, the state the parser ended in and the fields
      found. */
  method ScanLines(reader: Reader, textNames: seq<string>, versionNames: seq<string>, before: Found, n: nat)
    returns (ok: bool, k: Cursor, state: State, found: Found, ghost padded: bool, ghost trace: seq<Outcome>)
    requires reader.pos <= |reader.input|
    modifies reader
    ensures ok ==> reader.pos == |reader.input|
    ensures ok ==> Written(k) == reader.input[old(reader.pos)..] + (if padded then [""] else [])
    ensures !ok ==> Written(k) <= reader.input[old(reader.pos)..]
    ensures Recorded(before, found, k, state, n)
    ensures padded ==>
      && ok && old(reader.pos) < |reader.input|
      && PaddedText(found, Chained(k), reader.input[|reader.input| - 1])
    ensures trace != [] && trace[0] == Outcome(true, Shape(0, 0), InitialMode, before, old(reader.pos), false)
    ensures Linked(reader.input, textNames, versionNames, n, trace) && Halts(reader.input, trace[|trace| - 1])
    ensures var o := trace[|trace| - 1];
      ok == o.ok && ShapeOf(k) == o.shape && found == o.found && padded == o.padded
  {
    ghost var start := reader.pos;
    k := Cursor([], []);
    var mode := InitialMode;
    ghost var consumed := reader.pos;
    padded := false;
    found := before;
    ok := true;
    trace := [Outcome(true, Shape(0, 0), InitialMode, before, start, false)];
    var line := reader.ReadLine();
    while line.Some? && ok
      invariant reader.pos <= |reader.input|
      invariant start <= consumed <= |reader.input|
      invariant line.Some? ==> reader.pos == consumed + 1 && line.value == reader.input[consumed]
      invariant line.None? ==> reader.pos == consumed == |reader.input|
      invariant !padded ==> Written(k) == reader.input[start..consumed]
      invariant padded ==> Written(k) == reader.input[start..consumed] + [""]
      invariant padded ==> line.None? && ok && start < |reader.input|
      invariant padded ==>
        PaddedText(found, Chained(k), reader.input[|reader.input| - 1])
      invariant !ok ==> line.Some?
      invariant Recorded(before, found, k, mode.state, n)
      invariant trace != [] && trace[0] == Outcome(true, Shape(0, 0), InitialMode, before, start, false)
      invariant trace[|trace| - 1] == Outcome(ok, ShapeOf(k), mode, found, consumed, padded)
      invariant Linked(reader.input, textNames, versionNames, n, trace)
      decreases |reader.input| - reader.pos, if line.Some? && ok then 1 else 0, if mode.state == ParsingRaw then 0 else 1
    {
      ok, k, mode, found, line, consumed, padded, trace :=
        Turn(reader, k, mode, found, line.value, textNames, versionNames, n, before, start, consumed, trace);
    }
    state := mode.state;
    if ok {
      assert reader.input[start..consumed] == reader.input[start..];
    } else {
      SlicePrefix(reader.input, start, consumed);
    }
  }

  /** One turn of the scan: line `l` is classified in `mode`, acted on, and
      the next line read; what is written and recorded stays accounted for,
      and the turn moves the reader on or, closing a dictionary, returns to
      the raw state. */
  method Turn(reader: Reader, k: Cursor, mode: Mode, found: Found, l: string,
              textNames: seq<string>, versionNames: seq<string>, n: nat,
              ghost before: Found, ghost start: nat, ghost consumed: nat, ghost trace: seq<Outcome>)
    returns (ok: bool, nk: Cursor, nmode: Mode, nfound: Found, line: Option<string>,
             ghost consumedNow: nat, ghost padded: bool, ghost trace': seq<Outcome>)
    requires start <= consumed < |reader.input| && reader.pos == consumed + 1 && reader.input[consumed] == l
    requires Written(k) == reader.input[start..consumed]
    requires Recorded(before, found, k, mode.state, n)
    requires trace != [] && trace[|trace| - 1] == Outcome(true, ShapeOf(k), mode, found, consumed, false)
    requires Linked(reader.input, textNames, versionNames, n, trace)
    modifies reader
    ensures start <= consumedNow <= |reader.input| && reader.pos <= |reader.input|
    ensures line.Some? ==> reader.pos == consumedNow + 1 && line.value == reader.input[consumedNow]
    ensures line.None? ==> reader.pos == consumedNow == |reader.input|
    ensures !padded ==> Written(nk) == reader.input[start..consumedNow]
    ensures padded ==> Written(nk) == reader.input[start..consumedNow] + [""]
    ensures padded ==> line.None?
    ensures !ok ==> line.Some?
    ensures Recorded(before, nfound, nk, nmode.state, n)
    ensures padded ==>
      && ok && consumed + 1 == |reader.input|
      && PaddedText(nfound, Chained(nk), l)
    ensures old(reader.pos) <= reader.pos
    ensures ok && line.Some? ==>
      old(reader.pos) < reader.pos || (mode.state != ParsingRaw && nmode.state == ParsingRaw)
    ensures trace' == trace + [Outcome(ok, ShapeOf(nk), nmode, nfound, consumedNow, padded)]
    ensures Linked(reader.input, textNames, versionNames, n, trace')
  {
    var step := Classify(l, mode, textNames, versionNames);
    padded := false;
    ghost var input := reader.input;
    if step.action.ReadTextKeys? {
      ok := true;
      nk, nfound, line, consumedNow, padded := TextKeysTurn(reader, k, found, l, n, before, start, consumed);
      TurnAtTextKeys(input, consumed, k, mode, found, textNames, versionNames, n, step, nk, nfound,
                     consumedNow, padded);
    } else {
      ok, nk, nfound, line, consumedNow :=
        ActTurn(reader, k, step.action, found, l, n, mode.state, step.next.state, before, start, consumed);
      TurnAtAct(input, consumed, k, mode, found, textNames, versionNames, n, step, ok, nk, nfound, consumedNow);
    }
    nmode := step.next;
    trace' := trace + [Outcome(ok, ShapeOf(nk), nmode, nfound, consumedNow, padded)];
    LinkedExtends(input, textNames, versionNames, n, trace, trace'[|trace|]);
  }

  // ---------------------------------------------------------------------
  // The setters on the chains

  /** The keys written are the keys the document now holds: after the text
      keys setter, a recorded text dictionary whose keys line ends in its
      hex run is still recorded there, with `value` (hex, possibly empty) as
      its keys. */
  lemma SetTextKeysStaysRecorded(chains: seq<Chain>, d: TextFields, value: string)
    requires d.keysLine.Some? && d.keysLine.value.chain < |chains|
    requires TextRecorded(d, chains[d.keysLine.value.chain], d.keysLine.value.chain)
    requires var r := d.keysLine.value;
      var s := chains[r.chain][r.block][r.line].value;
      FirstMatch(s, 0).Some? && FirstMatch(s, 0).value.end == |s|
    requires AllHex(value)
    ensures var r := d.keysLine.value;
      TextRecorded(d.(keys := Some(value)), Documents.RewriteKeysAt(chains, r, value)[r.chain], r.chain)
  {
    var r := d.keysLine.value;
    KeysOfRewrite(chains[r.chain][r.block][r.line].value, value);
  }

  /** The same for a packed version line (the keys or the values line):
      after its setter it is still recorded, with `value` as what it packs. */
  lemma SetLineStaysRecorded(chains: seq<Chain>, packed: Option<string>, r: LineRef, value: string)
    requires r.chain < |chains| && LineRecorded(packed, Some(r), chains[r.chain], r.chain)
    requires var s := chains[r.chain][r.block][r.line].value;
      FirstMatch(s, 0).Some? && FirstMatch(s, 0).value.end == |s|
    requires AllHex(value)
    ensures LineRecorded(Some(value), Some(r), Documents.RewriteKeysAt(chains, r, value)[r.chain], r.chain)
  {
    var s := chains[r.chain][r.block][r.line].value;
    var res: seq<Chain> := Documents.RewriteKeysAt(chains, r, value);
    assert LineIn(chains, Some(r));
    assert res[r.chain][r.block][r.line].value == RewriteKeys(s, value);
    KeysOfRewrite(s, value);
  }

  // ---------------------------------------------------------------------
  // The document

  class Document {
    const textKeyDictionaryName: seq<string>
    const versionDictionaryName: seq<string>

    /** The chain of every `Parse` so far, oldest first; the last one is
        `m_blockChain`'s. */
    var chains: seq<Chain>

    var textDictionary: TextFields
    var versionDictionary: VersionFields

    /** The values block names a block of a chain. */
    predicate Valid()
      reads this
    {
      BlockIn(chains, textDictionary.values)
    }

    function Fields(): Found
      reads this
    {
      Found(textDictionary, versionDictionary)
    }

    function Output(): seq<string>
      reads this
      requires chains != []
    {
      Text(chains[|chains| - 1])
    }

    constructor (textKeyDictionaryName: seq<string>, versionDictionaryName: seq<string>)
      ensures Valid()
      ensures this.textKeyDictionaryName == textKeyDictionaryName
      ensures this.versionDictionaryName == versionDictionaryName
      ensures chains == [] && Fields() == NotFound
    {
      this.textKeyDictionaryName := textKeyDictionaryName;
      this.versionDictionaryName := versionDictionaryName;
      chains := [];
      textDictionary, versionDictionary := NotFound.text, NotFound.version;
    }

    /** `Parse`: every line the reader still holds, cut into a new chain
        (see `Scan`); the fields become the ones `Run` computes, and
        `RunReadsText`, `RunReadsVersionKeys`, `RunReadsVersionValues` and
        `RunFindsMarked` say which lines they come from. When the parse
        throws, the fields hold what was found until then. */
    method Parse(reader: Reader) returns (ok: bool, ghost padded: bool)
      requires Valid() && reader.pos <= |reader.input|
      modifies this, reader
      ensures |chains| == |old(chains)| + 1 && chains[..|old(chains)|] == old(chains)
      ensures ok ==> reader.pos == |reader.input|
      ensures ok ==> Output() == reader.input[old(reader.pos)..] + (if padded then [""] else [])
      ensures !ok ==> Output() <= reader.input[old(reader.pos)..]
      ensures Valid()
      ensures Final(old(Fields()), Fields(), chains[|chains| - 1], |chains| - 1)
      ensures padded ==>
        && ok && old(reader.pos) < |reader.input|
        && PaddedAfter(textDictionary.keysLine, textDictionary.values, chains[|chains| - 1],
                       reader.input[|reader.input| - 1])
      ensures var r := Run(reader.input, old(reader.pos), Shape(0, 0), InitialMode, old(Fields()),
                           textKeyDictionaryName, versionDictionaryName, |old(chains)|);
        ok == r.ok && Fields() == r.found && padded == r.padded && |chains[|chains| - 1]| == r.shape.blocks + 1
    {
      var c, found;
      ok, c, found, padded := Scan(reader, textKeyDictionaryName, versionDictionaryName, Fields(), |chains|);
      chains := chains + [c];
      textDictionary, versionDictionary := found.text, found.version;
    }

    function TextDictionaryValues(): Option<seq<LineState>>
      reads this
    {
      Documents.LinesAt(chains, textDictionary.values)
    }

    /** `TextDictionaryKeys`'s setter: the field takes `value`, then the
        keys line is rewritten; a null keys line throws (`ok == false`). */
    method SetTextDictionaryKeys(value: string) returns (ok: bool)
      modifies this
      ensures textDictionary == old(textDictionary).(keys := Some(value)) && versionDictionary == old(versionDictionary)
      ensures ok <==> textDictionary.keysLine.Some?
      ensures ok ==> chains == Documents.RewriteKeysAt(old(chains), textDictionary.keysLine.value, value)
      ensures !ok ==> chains == old(chains)
      ensures old(Valid()) ==> Valid()
    {
      textDictionary := textDictionary.(keys := Some(value));
      if textDictionary.keysLine.None? {
        return false;
      }
      chains := Documents.RewriteKeysAt(chains, textDictionary.keysLine.value, value);
      ok := true;
    }

    /** `TextDictionaryValues`'s setter; a null block does nothing. */
    method SetTextDictionaryValues(value: seq<LineState>)
      modifies this
      ensures Fields() == old(Fields())
      ensures textDictionary.values.Some? ==>
        chains == Documents.ReplaceValuesAt(old(chains), textDictionary.values.value, value)
      ensures textDictionary.values.None? ==> chains == old(chains)
      ensures old(Valid()) ==> Valid()
    {
      if textDictionary.values.None? {
        return;
      }
      chains := Documents.ReplaceValuesAt(chains, textDictionary.values.value, value);
    }

    /** `VersionDictionaryKeys`'s setter, on the version keys line. */
    method SetVersionDictionaryKeys(value: string) returns (ok: bool)
      modifies this
      ensures versionDictionary == old(versionDictionary).(keys := Some(value)) && textDictionary == old(textDictionary)
      ensures ok <==> versionDictionary.keysLine.Some?
      ensures ok ==> chains == Documents.RewriteKeysAt(old(chains), versionDictionary.keysLine.value, value)
      ensures !ok ==> chains == old(chains)
      ensures old(Valid()) ==> Valid()
    {
      versionDictionary := versionDictionary.(keys := Some(value));
      if versionDictionary.keysLine.None? {
        return false;
      }
      chains := Documents.RewriteKeysAt(chains, versionDictionary.keysLine.value, value);
      ok := true;
    }

    /** `VersionDictionaryValues`'s setter: the same rewrite, on the values
        line. */
    method SetVersionDictionaryValues(value: string) returns (ok: bool)
      modifies this
      ensures versionDictionary == old(versionDictionary).(values := Some(value)) && textDictionary == old(textDictionary)
      ensures ok <==> versionDictionary.valuesLine.Some?
      ensures ok ==> chains == Documents.RewriteKeysAt(old(chains), versionDictionary.valuesLine.value, value)
      ensures !ok ==> chains == old(chains)
      ensures old(Valid()) ==> Valid()
    {
      versionDictionary := versionDictionary.(values := Some(value));
      if versionDictionary.valuesLine.None? {
        return false;
      }
      chains := Documents.RewriteKeysAt(chains, versionDictionary.valuesLine.value, value);
      ok := true;
    }

    /** `Save`: the last chain, line after line; a document never parsed
        has no chain (`ok == false`). */
    method Save(writer: Writer) returns (ok: bool)
      modifies writer
      ensures ok <==> chains != []
      ensures ok ==> writer.lines == old(writer.lines) + Output()
      ensures !ok ==> writer.lines == old(writer.lines)
    {
      if chains == [] {
        return false;
      }
      Documents.WriteChain(chains[|chains| - 1], writer);
      ok := true;
    }
  }
}
