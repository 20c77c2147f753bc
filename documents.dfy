/** The current document parser: a line-by-line state machine that cuts a
    serialised asset into a chain of blocks, so that the key line and the
    value lines of each dictionary can be swapped while every other line is
    written back as it was read. */
module Documents {
  import opened Wrappers
  import opened Strings
  import opened Lines
  import opened Chains
  import opened Scanning
  import opened HexKeys

  // ---------------------------------------------------------------------
  // The state machine, as values

  datatype State =
    | ParsingRaw
    | ParsingTextKeys
    | ParsingTextValues
    | ParsingVersionKeys
    | ParsingVersionValuesVersion
    | ParsingVersionValuesComment
    | ParsingTextCollectionKeys
    | ParsingTextCollectionValues

  /** The parser's local variables besides the current block: `state`,
      `currentEscapeChar`, `isInEscape` and `dictionaryDepth`. */
  datatype Mode = Mode(state: State, escapeChar: char, inEscape: bool, dictionaryDepth: int)

  /** `(char) 0`. */
  const NUL: char := 0 as char
  /** The length of `"comment: "`: where a comment's quote may stand. */
  const CommentDelta: nat := 9

  const InitialMode: Mode := Mode(ParsingRaw, NUL, false, 0)

  predicate IsQuote(c: char) {
    c == '\'' || c == '"'
  }

  /** `line.Length > index ? line[index] : (char) 0`. */
  function EscapeAt(line: string, index: nat): char {
    if index < |line| then line[index] else NUL
  }

  /** Which marker list a raw line mentions, tried in the parser's order:
      text, then version, then collection. */
  datatype Marker = NoMarker | TextMarker | VersionMarker | CollectionMarker

  function MarkerOf(line: string, textNames: seq<string>, versionNames: seq<string>,
                    collectionNames: seq<string>): Marker {
    if Mentions(line, textNames) then TextMarker
    else if Mentions(line, versionNames) then VersionMarker
    else if Mentions(line, collectionNames) then CollectionMarker
    else NoMarker
  }

  /** What one iteration of the loop does with the current line. Every
      action but `EndDictionary` consumes the line. */
  datatype Action =
    | AddRaw(openBlock: bool)        // an untouched line, in a new block or not
    | ReadTextKeys                   // the text keys line and its `m_values:` line
    | ReadVersionKeys                // the version keys line and its `m_values:` line
    | OpenCollectionKeys             // the collection's `m_keys:` line
    | OpenCollectionValues           // the collection's `m_values:` line
    | AddEntry(scalarDepth: int)     // a new entry line
    | AppendToEntry                  // one more fragment of the last entry
    | EndDictionary                  // back to raw lines, in a new block

  datatype Step = Step(action: Action, next: Mode)

  /** The quote check every values state ends with: the escape closes on a
      line ending with the quote character. */
  function CloseEscape(m: Mode, line: string): Mode {
    if m.inEscape && EndsWith(line, [m.escapeChar]) then m.(escapeChar := NUL, inEscape := false)
    else m
  }

  /** A line of a list dictionary: a `-` line outside an escape starts an
      entry whose data (and quote) begin two columns after the dash's
      indentation; any other line continues the last entry. */
  function EntryStep(m: Mode, line: string, depth: nat): Step {
    var dataDepth := depth + 2;
    if StartsWith(TrimStartSpaces(line), "-") && !m.inEscape then
      var c := EscapeAt(line, dataDepth);
      Step(AddEntry(dataDepth), CloseEscape(m.(escapeChar := c, inEscape := IsQuote(c)), line))
    else
      Step(AppendToEntry, CloseEscape(m, line))
  }

  /** A comment line of a version entry: always a fragment of the entry;
      outside an escape its quote is looked for after `comment: `; once no
      escape is open the next line is a version line again. */
  function CommentStep(m: Mode, line: string, depth: nat): Step {
    var checked := if !m.inEscape then
      var c := EscapeAt(line, depth + CommentDelta);
      m.(escapeChar := c, inEscape := IsQuote(c))
    else m;
    var closed := CloseEscape(checked, line);
    Step(AppendToEntry, if !closed.inEscape then closed.(state := ParsingVersionValuesVersion) else closed)
  }

  /** One turn of the loop of `Parse`: the action taken on `line`, whose
      indentation is `depth`, and the mode after it. */
  function Decide(m: Mode, hasCollection: bool, marker: Marker, line: string, depth: nat): Step {
    match m.state
    case ParsingRaw =>
      (match marker
       case TextMarker => Step(AddRaw(false), m.(state := ParsingTextKeys, dictionaryDepth := depth))
       case VersionMarker => Step(AddRaw(true), m.(state := ParsingVersionKeys, dictionaryDepth := depth))
       case CollectionMarker => Step(AddRaw(true), m.(state := ParsingTextCollectionKeys, dictionaryDepth := depth))
       case NoMarker => Step(AddRaw(false), m))
    case ParsingTextKeys => Step(ReadTextKeys, m.(state := ParsingTextValues))
    case ParsingVersionKeys => Step(ReadVersionKeys, m.(state := ParsingVersionValuesVersion))
    case ParsingTextCollectionKeys =>
      if !hasCollection then Step(OpenCollectionKeys, m)
      else if StartsWith(TrimStartSpaces(line), "m_values:") && !m.inEscape then
        Step(OpenCollectionValues, m.(state := ParsingTextCollectionValues))
      else EntryStep(m, line, depth)
    case ParsingTextValues =>
      if depth <= m.dictionaryDepth && !m.inEscape then Step(EndDictionary, m.(state := ParsingRaw))
      else EntryStep(m, line, depth)
    case ParsingTextCollectionValues =>
      if depth <= m.dictionaryDepth && !m.inEscape then Step(EndDictionary, m.(state := ParsingRaw))
      else EntryStep(m, line, depth)
    case ParsingVersionValuesVersion =>
      if depth <= m.dictionaryDepth && !m.inEscape then Step(EndDictionary, m.(state := ParsingRaw))
      else Step(AddEntry(depth + 2), m.(state := ParsingVersionValuesComment))
    case ParsingVersionValuesComment => CommentStep(m, line, depth)
  }

  /** The states in which a quoted scalar may be open. */
  predicate MayEscape(s: State) {
    s == ParsingTextValues || s == ParsingTextCollectionValues
    || s == ParsingTextCollectionKeys || s == ParsingVersionValuesComment
  }

  /** The invariant the mode keeps: an open escape has a quote as its escape
      character and only happens inside a dictionary's entries. */
  predicate ModeInvariant(m: Mode) {
    m.inEscape ==> IsQuote(m.escapeChar) && MayEscape(m.state)
  }

  predicate IsValuesState(s: State) {
    s == ParsingTextValues || s == ParsingTextCollectionValues || s == ParsingVersionValuesVersion
  }

  // ---------------------------------------------------------------------
  // Properties of the state machine

  /** Every step keeps the mode invariant. */
  lemma DecidePreservesInvariant(m: Mode, hasCollection: bool, marker: Marker, line: string, depth: nat)
    requires ModeInvariant(m)
    ensures ModeInvariant(Decide(m, hasCollection, marker, line, depth).next)
  {
    match m.state {
      case ParsingTextCollectionKeys =>
        if hasCollection && !(StartsWith(TrimStartSpaces(line), "m_values:") && !m.inEscape) {
          EntryStepKeepsInvariant(m, line, depth);
        }
      case ParsingTextValues =>
        EntryStepKeepsInvariant(m, line, depth);
      case ParsingTextCollectionValues =>
        EntryStepKeepsInvariant(m, line, depth);
      case ParsingVersionValuesComment =>
        CommentStepKeepsInvariant(m, line, depth);
      case _ =>
    }
  }

  lemma EntryStepKeepsInvariant(m: Mode, line: string, depth: nat)
    requires ModeInvariant(m) && MayEscape(m.state)
    ensures ModeInvariant(EntryStep(m, line, depth).next) && EntryStep(m, line, depth).next.state == m.state
  {
    if StartsWith(TrimStartSpaces(line), "-") && !m.inEscape {
      var c := EscapeAt(line, depth + 2);
      var quoted := m.(escapeChar := c, inEscape := IsQuote(c));
      assert ModeInvariant(quoted);
      assert EntryStep(m, line, depth).next == CloseEscape(quoted, line);
    } else {
      assert EntryStep(m, line, depth).next == CloseEscape(m, line);
    }
  }

  lemma CommentStepKeepsInvariant(m: Mode, line: string, depth: nat)
    requires ModeInvariant(m) && m.state == ParsingVersionValuesComment
    ensures ModeInvariant(CommentStep(m, line, depth).next)
  {
  }

  /** Only the three values states end a dictionary, and they end it exactly
      on a line indented at most as deep as the dictionary's marker while no
      escape is open; the parser then returns to raw lines. */
  lemma EndDictionaryExactly(m: Mode, hasCollection: bool, marker: Marker, line: string, depth: nat)
    ensures var st := Decide(m, hasCollection, marker, line, depth);
      st.action == EndDictionary <==> IsValuesState(m.state) && depth <= m.dictionaryDepth && !m.inEscape
    ensures var st := Decide(m, hasCollection, marker, line, depth);
      st.action == EndDictionary ==> st.next == m.(state := ParsingRaw)
  {
  }

  /** A raw line is always kept; a version or collection marker opens a new
      block before it and a text marker does not; a marker records the
      line's indentation as the dictionary depth. */
  lemma RawLinesAndMarkers(m: Mode, hasCollection: bool, marker: Marker, line: string, depth: nat)
    requires m.state == ParsingRaw
    ensures var st := Decide(m, hasCollection, marker, line, depth);
      && st.action == AddRaw(marker == VersionMarker || marker == CollectionMarker)
      && (marker == NoMarker ==> st.next == m)
      && (marker != NoMarker ==> st.next.dictionaryDepth == depth)
      && (marker == TextMarker ==> st.next.state == ParsingTextKeys)
      && (marker == VersionMarker ==> st.next.state == ParsingVersionKeys)
      && (marker == CollectionMarker ==> st.next.state == ParsingTextCollectionKeys)
  {
  }

  /** A line in a text or collection values state that does not end the
      dictionary starts a new entry, with scalar depth two past its
      indentation, exactly when it starts with `-` outside an escape; every
      other such line is appended to the last entry. */
  lemma EntriesAndContinuations(m: Mode, hasCollection: bool, marker: Marker, line: string, depth: nat)
    requires m.state == ParsingTextValues || m.state == ParsingTextCollectionValues
    requires !(depth <= m.dictionaryDepth && !m.inEscape)
    ensures var st := Decide(m, hasCollection, marker, line, depth);
      && (st.action == AddEntry(depth + 2) <==> StartsWith(TrimStartSpaces(line), "-") && !m.inEscape)
      && (st.action == AppendToEntry <==> !(StartsWith(TrimStartSpaces(line), "-") && !m.inEscape))
      && st.next.state == m.state
  {
  }

  /** A new entry whose data begins with a quote opens an escape, which
      stays open after this line unless the line itself ends with that
      quote. */
  lemma EntryOpensEscape(m: Mode, line: string, depth: nat)
    requires StartsWith(TrimStartSpaces(line), "-") && !m.inEscape
    ensures var st := EntryStep(m, line, depth);
      var c := EscapeAt(line, depth + 2);
      && st.action == AddEntry(depth + 2)
      && (st.next.inEscape <==> IsQuote(c) && !EndsWith(line, [c]))
      && (st.next.inEscape ==> st.next.escapeChar == c)
  {
  }

  /** Inside an escape, every line of an entry is a fragment of the last
      entry, and the escape ends exactly on the first line that ends with
      its quote character. */
  lemma EscapeAppendsUntilQuote(m: Mode, hasCollection: bool, marker: Marker, line: string, depth: nat)
    requires ModeInvariant(m) && m.inEscape
    requires m.state == ParsingTextCollectionKeys ==> hasCollection
    ensures var st := Decide(m, hasCollection, marker, line, depth);
      && st.action == AppendToEntry
      && (st.next.inEscape <==> !EndsWith(line, [m.escapeChar]))
      && (st.next.inEscape ==> st.next == m)
      && (m.state != ParsingVersionValuesComment ==> st.next.state == m.state)
  {
  }

  /** Version entries alternate: a version line that does not end the
      dictionary becomes an entry (scalar depth two past its indentation)
      followed by comment lines; the comment lines are fragments of that
      entry, and the parser is back at a version line once no quoted comment
      is open, the quote being looked for nine columns in. */
  lemma VersionCommentAlternation(m: Mode, hasCollection: bool, marker: Marker, line: string, depth: nat)
    requires ModeInvariant(m)
    ensures m.state == ParsingVersionValuesVersion && !(depth <= m.dictionaryDepth) ==>
      Decide(m, hasCollection, marker, line, depth) == Step(AddEntry(depth + 2),
                                                            m.(state := ParsingVersionValuesComment))
    ensures m.state == ParsingVersionValuesComment ==>
      var st := Decide(m, hasCollection, marker, line, depth);
      && st.action == AppendToEntry
      && (st.next.state == ParsingVersionValuesVersion <==> !st.next.inEscape)
      && (st.next.state != ParsingVersionValuesVersion ==> st.next.state == ParsingVersionValuesComment)
      && (!m.inEscape ==>
            var c := EscapeAt(line, depth + CommentDelta);
            st.next.inEscape <==> IsQuote(c) && !EndsWith(line, [c]))
  {
  }

  /** The keys states read their line unconditionally and move on to the
      matching values state. */
  lemma KeysStatesMoveOn(m: Mode, hasCollection: bool, marker: Marker, line: string, depth: nat)
    ensures m.state == ParsingTextKeys ==>
      Decide(m, hasCollection, marker, line, depth) == Step(ReadTextKeys, m.(state := ParsingTextValues))
    ensures m.state == ParsingVersionKeys ==>
      Decide(m, hasCollection, marker, line, depth) == Step(ReadVersionKeys, m.(state := ParsingVersionValuesVersion))
  {
  }

  /** Each keys action, and the opening of the collection's keys, happens
      in its own state and only there. */
  lemma KeysActionsExactly(m: Mode, hasCollection: bool, marker: Marker, line: string, depth: nat)
    ensures var st := Decide(m, hasCollection, marker, line, depth);
      && (st.action == ReadTextKeys <==> m.state == ParsingTextKeys)
      && (st.action == ReadVersionKeys <==> m.state == ParsingVersionKeys)
      && (st.action == OpenCollectionKeys <==> m.state == ParsingTextCollectionKeys && !hasCollection)
  {
  }

  /** The first line after a collection marker is the collection's keys
      header; afterwards an `m_values:` line outside an escape switches to
      the collection's values. */
  lemma CollectionKeysSteps(m: Mode, hasCollection: bool, marker: Marker, line: string, depth: nat)
    requires m.state == ParsingTextCollectionKeys
    ensures var st := Decide(m, hasCollection, marker, line, depth);
      && (!hasCollection <==> st.action == OpenCollectionKeys)
      && (st.action == OpenCollectionValues <==>
            hasCollection && StartsWith(TrimStartSpaces(line), "m_values:") && !m.inEscape)
      && (st.action == OpenCollectionValues ==> st.next.state == ParsingTextCollectionValues)
      && (st.action != OpenCollectionValues ==> st.next.state == ParsingTextCollectionKeys)
  {
    if hasCollection && !(StartsWith(TrimStartSpaces(line), "m_values:") && !m.inEscape) {
      var e := EntryStep(m, line, depth);
      assert Decide(m, hasCollection, marker, line, depth) == e;
      assert e.action.AddEntry? || e.action == AppendToEntry;
      assert e.next.state == m.state;
    }
  }

  // ---------------------------------------------------------------------
  // The parser's moves on the chain
  /** `IsKeys(a)`: the two actions that read a dictionary's keys line. */
  predicate IsKeys(a: Action) {
    a.ReadTextKeys? || a.ReadVersionKeys?
  }

  /** What every action but the two keys actions does to the chain: the
      line is kept (except by `EndDictionary`, which only closes the block),
      after or before the new blocks the action opens. `None` is a
      continuation met in an empty block, where the source's indexer
      throws. */
  function Act(k: Cursor, action: Action, l: string): Option<Cursor>
    requires !IsKeys(action)
  {
    match action
    case AddRaw(openBlock) =>
      Some(Keep(if openBlock then NewBlock(k) else k, NewLine(l)))
    case OpenCollectionKeys =>
      Some(NewBlock(Keep(k, NewLine(l))))
    case OpenCollectionValues =>
      Some(NewBlock(Keep(NewBlock(k), NewLine(l))))
    case AddEntry(scalarDepth) =>
      Some(Keep(k, WithDepth(NewLine(l), scalarDepth)))
    case AppendToEntry =>
      if k.current == [] then None else Some(AppendToLast(k, l))
    case EndDictionary =>
      Some(NewBlock(k))
  }

  /** `Act` fails exactly on a continuation in an empty block; otherwise it
      never touches a closed block, and the text grows by the line, except
      at `EndDictionary`, which keeps no line. */
  lemma ActKeepsText(k: Cursor, action: Action, l: string)
    requires !IsKeys(action)
    ensures Act(k, action, l).None? <==> action == AppendToEntry && k.current == []
    ensures var r := Act(k, action, l);
      r.Some? ==> k.closed <= r.value.closed
    ensures var r := Act(k, action, l);
      r.Some? ==> Written(r.value) == Written(k) + (if action == EndDictionary then [] else [l])
  {
    match action
    case AddRaw(openBlock) =>
      var k1 := if openBlock then NewBlock(k) else k;
      assert k.closed <= k1.closed && Written(k1) == Written(k);
      assert Act(k, action, l) == Some(Keep(k1, NewLine(l)));
    case OpenCollectionKeys =>
      var k1 := Keep(k, NewLine(l));
      assert Written(NewBlock(k1)) == Written(k1);
      assert Act(k, action, l) == Some(NewBlock(k1));
    case OpenCollectionValues =>
      var k1 := Keep(NewBlock(k), NewLine(l));
      assert Written(NewBlock(k1)) == Written(k1);
      assert Act(k, action, l) == Some(NewBlock(k1));
    case AddEntry(scalarDepth) =>
      assert WithDepth(NewLine(l), scalarDepth).rawStrings == [l];
      assert Act(k, action, l) == Some(Keep(k, WithDepth(NewLine(l), scalarDepth)));
    case AppendToEntry =>
    case EndDictionary =>
      assert Act(k, action, l) == Some(NewBlock(k));
  }

  /** Line `consumed` of `input` joins the text read so far. */
  lemma Consume(input: seq<string>, start: nat, consumed: nat)
    requires start <= consumed < |input|
    ensures input[start..consumed + 1] == input[start..consumed] + [input[consumed]]
  {
  }

  /** The three `ContainsLine` tests of a raw line, in the parser's order. */
  method FindMarker(line: string, textNames: seq<string>, versionNames: seq<string>,
                    collectionNames: seq<string>)
    returns (marker: Marker)
    ensures marker == MarkerOf(line, textNames, versionNames, collectionNames)
  {
    var isText := ContainsLine(line, textNames);
    if isText {
      return TextMarker;
    }
    var isVersion := ContainsLine(line, versionNames);
    if isVersion {
      return VersionMarker;
    }
    var isCollection := ContainsLine(line, collectionNames);
    if isCollection {
      return CollectionMarker;
    }
    return NoMarker;
  }

  /** A keys state closes the current block, with the keys line and its
      header kept in it, and opens an empty one. */
  function KeysShape(s: Shape): Shape {
    Shape(s.blocks + 1, 0)
  }

  /** `Act` on sizes alone. */
  function ActShape(s: Shape, action: Action): Option<Shape>
    requires !IsKeys(action)
  {
    match action
    case AddRaw(openBlock) => Some(if openBlock then Shape(s.blocks + 1, 1) else s.(lines := s.lines + 1))
    case OpenCollectionKeys => Some(Shape(s.blocks + 1, 0))
    case OpenCollectionValues => Some(Shape(s.blocks + 2, 0))
    case AddEntry(_) => Some(s.(lines := s.lines + 1))
    case AppendToEntry => if s.lines == 0 then None else Some(s)
    case EndDictionary => Some(Shape(s.blocks + 1, 0))
  }

  /** `ActShape` is `Act` seen through `ShapeOf`: it fails on the same
      cursors, and otherwise gives the sizes of `Act`'s cursor. */
  lemma ActShapeOf(k: Cursor, action: Action, l: string)
    requires !IsKeys(action)
    ensures Act(k, action, l).None? <==> ActShape(ShapeOf(k), action).None?
    ensures Act(k, action, l).Some? ==> ShapeOf(Act(k, action, l).value) == ActShape(ShapeOf(k), action).value
  {
  }

  // ---------------------------------------------------------------------
  // What the parser records

  /** A key/value dictionary's fields: `m_has…Dictionary`, `m_…Keys`,
      `m_…KeysLine` and `m_…Values`. */
  datatype Keyed = Keyed(found: bool, keys: Option<string>, keysLine: Option<LineRef>, values: Option<BlockRef>)

  /** The text collection dictionary's fields: `m_hasTextCollectionDictionary`,
      `m_textCollectionDictionaryKeys` and `m_textCollectionDictionaryValues`. */
  datatype Collection = Collection(found: bool, keys: Option<BlockRef>, values: Option<BlockRef>)

  /** The document's fields about its three dictionaries. */
  datatype Found = Found(text: Keyed, version: Keyed, collection: Collection)

  const NotFound := Found(Keyed(false, None, None, None), Keyed(false, None, None, None), Collection(false, None, None))

  /** A dictionary read in chain `n`, which is `c`: its keys line and the
      `m_values:` line after it are the last two lines of their block, its
      values block is the next one, and its keys are group 2 of the key
      regex on its keys line. */
  predicate KeysRecorded(d: Keyed, c: Chain, n: nat) {
    && d.found && d.keysLine.Some? && d.values.Some?
    && d.keysLine.value.chain == n && d.values.value.chain == n
    && d.values.value.block == d.keysLine.value.block + 1 < |c|
    && d.keysLine.value.line + 2 == |c[d.keysLine.value.block]|
    && d.keys == Some(KeysOf(c[d.keysLine.value.block][d.keysLine.value.line].value))
  }

  /** A collection block recorded in chain `n`, which is `c`. */
  predicate BlockRecorded(b: Option<BlockRef>, c: Chain, n: nat) {
    b.Some? && b.value.chain == n && b.value.block < |c|
  }

  /** The collection's keys block (with its flag) and its values block are
      each untouched or recorded in chain `n`. */
  predicate CollectionRecorded(before: Collection, d: Collection, c: Chain, n: nat) {
    && ((d.found, d.keys) == (before.found, before.keys) || (d.found && BlockRecorded(d.keys, c, n)))
    && (d.values == before.values || BlockRecorded(d.values, c, n))
  }

  /** The parse ended on a keys line `l` of the text or the version
      dictionary, padded with the null header after it. */
  predicate PaddedFound(found: Found, c: Chain, l: string) {
    || PaddedAfter(found.text.keysLine, found.text.values, c, l)
    || PaddedAfter(found.version.keysLine, found.version.values, c, l)
  }

  /** What a parse of chain `n`, which is `c`, did to the fields `before`:
      each dictionary's fields are untouched, or say that it was found, and
      where. */
  predicate Recorded(before: Found, found: Found, c: Chain, n: nat) {
    && (found.text == before.text || KeysRecorded(found.text, c, n))
    && (found.version == before.version || KeysRecorded(found.version, c, n))
    && CollectionRecorded(before.collection, found.collection, c, n)
  }

  lemma KeysRecordedGrows(d: Keyed, k: Cursor, k': Cursor, n: nat)
    requires KeysRecorded(d, Chained(k), n)
    requires k.closed <= k'.closed
    ensures KeysRecorded(d, Chained(k'), n)
  {
    var b := d.keysLine.value.block;
    if b < |k.closed| {
      assert Chained(k')[b] == k'.closed[b] == k.closed[b] == Chained(k)[b];
    }
  }

  /** A step that only closes more blocks keeps what was recorded. */
  lemma RecordedGrows(before: Found, found: Found, k: Cursor, k': Cursor, n: nat)
    requires Recorded(before, found, Chained(k), n)
    requires k.closed <= k'.closed
    ensures Recorded(before, found, Chained(k'), n)
  {
    if found.text != before.text {
      KeysRecordedGrows(found.text, k, k', n);
    }
    if found.version != before.version {
      KeysRecordedGrows(found.version, k, k', n);
    }
  }

  /** The fields after a keys action on line `l` in chain `n`, `s` being
      the sizes of the cursor before it: the dictionary is found, its keys
      are group 2 of the key regex on `l`, its keys line is `l` and its
      values block the block opened after it. */
  function KeysNoted(found: Found, action: Action, l: string, s: Shape, n: nat): Found {
    var d := Keyed(true, Some(KeysOf(l)), Some(LineRef(n, s.blocks, s.lines)), Some(BlockRef(n, s.blocks + 1)));
    if action.ReadTextKeys? then found.(text := d) else found.(version := d)
  }

  /** What a keys turn on line `input[i] == l` leaves: the sizes and the
      fields as above, and the index of the next line, two on unless the
      input ends after `l` (`padded`). */
  predicate KeysTurned(input: seq<string>, i: nat, k: Cursor, action: Action, found: Found, l: string, n: nat,
                       nk: Cursor, nfound: Found, next: nat, padded: bool)
  {
    && ShapeOf(nk) == KeysShape(ShapeOf(k))
    && nfound == KeysNoted(found, action, l, ShapeOf(k), n)
    && (padded <==> i + 1 == |input|)
    && next == if padded then i + 1 else i + 2
  }

  /** What any other turn on line `l` (index `i`) leaves: `Act`'s cursor,
      or failure with nothing changed; the collection's fields as
      `NoteCollection` sets them; and the index of the next line, the same
      one after `EndDictionary`. */
  predicate ActTurned(k: Cursor, action: Action, found: Found, l: string, n: nat, i: nat,
                      ok: bool, nk: Cursor, nfound: Found, next: nat)
    requires !IsKeys(action)
  {
    && Act(k, action, l) == (if ok then Some(nk) else None)
    && (!ok ==> nk == k && nfound == found)
    && (ok ==> nfound == NoteCollection(found, action, BlockRef(n, |nk.closed|)))
    && next == if ok && action != EndDictionary then i + 1 else i
  }

  /** One keys state: the keys line `l`, then the next line (the
      dictionary's `m_values:` header; at the end of the input it is null
      and written back as an empty line, `padded`) are kept in the current
      block, the line after them is read, and a new block is opened for the
      values. The keys line is `keysLine` and the new block `values`. */
  method ReadKeys(reader: Reader, k: Cursor, l: string, n: nat, ghost start: nat, ghost consumed: nat)
    returns (nk: Cursor, keysLine: LineRef, values: BlockRef, line: Option<string>,
             ghost consumedNow: nat, ghost padded: bool)
    requires start <= consumed < |reader.input| && reader.pos == consumed + 1 && reader.input[consumed] == l
    requires Written(k) == reader.input[start..consumed]
    modifies reader
    ensures keysLine == LineRef(n, |k.closed|, |k.current|) && values == BlockRef(n, |k.closed| + 1)
    ensures |nk.closed| == |k.closed| + 1 && k.closed <= nk.closed && nk.current == []
    ensures var b := nk.closed[|k.closed|];
      |b| == |k.current| + 2 && b[|k.current|] == NewLine(l)
    ensures consumed < consumedNow <= |reader.input| && reader.pos <= |reader.input|
    ensures Written(nk) == reader.input[start..consumedNow] + (if padded then [""] else [])
    ensures line.Some? ==> reader.pos == consumedNow + 1 && line.value == reader.input[consumedNow]
    ensures line.None? ==> reader.pos == consumedNow == |reader.input|
    ensures padded ==> line.None?
    ensures padded ==>
      consumedNow == consumed + 1 == |reader.input| && nk.closed[|k.closed|][|k.current| + 1] == NewLine("")
    ensures padded <==> consumed + 1 == |reader.input|
    ensures consumedNow == if padded then consumed + 1 else consumed + 2
  {
    keysLine := LineRef(n, |k.closed|, |k.current|);
    consumedNow, padded := consumed + 1, false;
    var header := reader.ReadLine();
    var h := if header.Some? then header.value else "";
    nk := NewBlock(Keep(Keep(k, NewLine(l)), NewLine(h)));
    KeysBlock(k, l, h);
    Consume(reader.input, start, consumed);
    if header.Some? {
      Consume(reader.input, start, consumedNow);
      consumedNow := consumedNow + 1;
    } else {
      padded := true;
    }
    line := reader.ReadLine();
    values := BlockRef(n, |k.closed| + 1);
  }

  /** The cursor after a keys state: the keys line and its header close the
      current block, and they are what the text gains. */
  lemma KeysBlock(k: Cursor, l: string, h: string)
    ensures var nk := NewBlock(Keep(Keep(k, NewLine(l)), NewLine(h)));
      && nk.closed == k.closed + [k.current + [NewLine(l), NewLine(h)]] && nk.current == []
      && Written(nk) == Written(k) + [l, h]
  {
    var k1 := Keep(k, NewLine(l));
    var k2 := Keep(k1, NewLine(h));
    assert k2.current == k.current + [NewLine(l), NewLine(h)];
  }

  /** How the parser classifies line `l` in `mode`: the marker test (raw
      state only), the indentation and the transition. */
  method Classify(l: string, mode: Mode, hasCollection: bool, textNames: seq<string>,
                  versionNames: seq<string>, collectionNames: seq<string>)
    returns (step: Step)
    ensures step == StepOn(l, mode, hasCollection, textNames, versionNames, collectionNames)
    ensures step.action == EndDictionary ==> mode.state != ParsingRaw && step.next.state == ParsingRaw
  {
    var depth := CountStartSpaces(l);
    var marker := LineMarker(l, mode, textNames, versionNames, collectionNames);
    step := Decide(mode, hasCollection, marker, l, depth);
    DecideOnEqual(mode, hasCollection, marker,
                  if mode.state == ParsingRaw then MarkerOf(l, textNames, versionNames, collectionNames) else NoMarker,
                  l, depth, |l| - |TrimStartSpaces(l)|);
    EndDictionaryExactly(mode, hasCollection, marker, l, depth);
  }

  /** The marker test, made in the raw state only. */
  method LineMarker(l: string, mode: Mode, textNames: seq<string>, versionNames: seq<string>,
                    collectionNames: seq<string>)
    returns (marker: Marker)
    ensures marker == if mode.state == ParsingRaw then MarkerOf(l, textNames, versionNames, collectionNames) else NoMarker
  {
    marker := NoMarker;
    if mode.state == ParsingRaw {
      marker := FindMarker(l, textNames, versionNames, collectionNames);
    }
  }

  /** `Decide` on equal markers and depths gives equal steps. */
  lemma DecideOnEqual(m: Mode, hasCollection: bool, marker: Marker, marker': Marker, line: string,
                      depth: nat, depth': nat)
    requires marker == marker' && depth == depth'
    ensures Decide(m, hasCollection, marker, line, depth) == Decide(m, hasCollection, marker', line, depth')
  {
  }

  /** A keys action: the keys line and its `m_values:` line are kept (see
      `ReadKeys`) and the dictionary is recorded as found there. */
  method KeysTurn(reader: Reader, k: Cursor, action: Action, found: Found, l: string, n: nat,
                  ghost before: Found, ghost start: nat, ghost consumed: nat)
    returns (nk: Cursor, nfound: Found, line: Option<string>, ghost consumedNow: nat, ghost padded: bool)
    requires IsKeys(action)
    requires start <= consumed < |reader.input| && reader.pos == consumed + 1 && reader.input[consumed] == l
    requires Written(k) == reader.input[start..consumed]
    requires Recorded(before, found, Chained(k), n)
    modifies reader
    ensures consumed < consumedNow <= |reader.input| && reader.pos <= |reader.input|
    ensures line.Some? ==> reader.pos == consumedNow + 1 && line.value == reader.input[consumedNow]
    ensures line.None? ==> reader.pos == consumedNow == |reader.input|
    ensures Written(nk) == reader.input[start..consumedNow] + (if padded then [""] else [])
    ensures padded ==> line.None?
    ensures Recorded(before, nfound, Chained(nk), n)
    ensures padded ==> consumed + 1 == |reader.input| && PaddedFound(nfound, Chained(nk), l)
    ensures KeysTurned(reader.input, consumed, k, action, found, l, n, nk, nfound, consumedNow, padded)
  {
    var keysLine, values;
    nk, keysLine, values, line, consumedNow, padded := ReadKeys(reader, k, l, n, start, consumed);
    RecordedGrows(before, found, k, nk, n);
    var d := Keyed(true, Some(KeysOf(l)), Some(keysLine), Some(values));
    assert KeysRecorded(d, Chained(nk), n);
    if action.ReadTextKeys? {
      nfound := found.(text := d);
    } else {
      nfound := found.(version := d);
    }
  }

  /** Any other action: `Act` on the chain, the collection's blocks recorded
      when they open, and the next line read unless the action was
      `EndDictionary`, which looks at the same line again. `ok == false` is
      a continuation met in an empty block, where the source throws. */
  method ActTurn(reader: Reader, k: Cursor, action: Action, found: Found, l: string, n: nat,
                 ghost before: Found, ghost start: nat, ghost consumed: nat)
    returns (ok: bool, nk: Cursor, nfound: Found, line: Option<string>, ghost consumedNow: nat)
    requires !IsKeys(action)
    requires start <= consumed < |reader.input| && reader.pos == consumed + 1 && reader.input[consumed] == l
    requires Written(k) == reader.input[start..consumed]
    requires Recorded(before, found, Chained(k), n)
    modifies reader
    ensures consumed <= consumedNow <= |reader.input| && reader.pos <= |reader.input|
    ensures line.Some? ==> reader.pos == consumedNow + 1 && line.value == reader.input[consumedNow]
    ensures line.None? ==> reader.pos == consumedNow == |reader.input|
    ensures Written(nk) == reader.input[start..consumedNow]
    ensures !ok ==> line.Some?
    ensures ok ==> consumed < consumedNow || (consumedNow == consumed && line.Some? && action == EndDictionary)
    ensures Recorded(before, nfound, Chained(nk), n)
    ensures ActTurned(k, action, found, l, n, consumed, ok, nk, nfound, consumedNow)
  {
    ok, nk, nfound, line, consumedNow := true, k, found, Some(l), consumed;
    var r := Act(k, action, l);
    ActKeepsText(k, action, l);
    if r.None? {
      ok := false;
      return;
    }
    nk := r.value;
    RecordedGrows(before, found, k, nk, n);
    nfound := NoteCollection(found, action, BlockRef(n, |nk.closed|));
    NoteCollectionRecorded(before, found, action, Chained(nk), n);
    if action != EndDictionary {
      Consume(reader.input, start, consumed);
      consumedNow := consumed + 1;
      line := reader.ReadLine();
    }
  }

  /** The collection's fields after `action`: opening its keys block sets
      the flag and the keys block, opening its values block the values
      block; `b` is the block just opened. */
  function NoteCollection(found: Found, action: Action, b: BlockRef): Found {
    if action.OpenCollectionKeys? then found.(collection := found.collection.(found := true, keys := Some(b)))
    else if action.OpenCollectionValues? then found.(collection := found.collection.(values := Some(b)))
    else found
  }

  /** Noting the collection's blocks leaves the text and the version
      dictionaries alone, and the collection, once found, stays found. */
  lemma NoteCollectionKeepsKeyed(found: Found, action: Action)
    ensures forall b :: NoteCollection(found, action, b).text == found.text
    ensures forall b :: NoteCollection(found, action, b).version == found.version
    ensures forall b :: NoteCollection(found, action, b).collection.found
                        == (found.collection.found || action.OpenCollectionKeys?)
  {
  }

  /** The one block an action may record is the current block of the chain,
      so what was recorded stays recorded. */
  lemma NoteCollectionRecorded(before: Found, found: Found, action: Action, c: Chain, n: nat)
    requires c != [] && Recorded(before, found, c, n)
    ensures Recorded(before, NoteCollection(found, action, BlockRef(n, |c| - 1)), c, n)
  {
  }

  // ---------------------------------------------------------------------
  // The parse as a function of the input

  /** Where a turn leaves the parse: whether it went through, the sizes of
      the cursor, the mode and the fields after it, the index of the next
      line to look at, and whether the input ended right after a keys line
      (`padded`). */
  datatype Outcome = Outcome(ok: bool, shape: Shape, mode: Mode, found: Found, next: nat, padded: bool)

  /** The step the parser takes on line `l` in mode `m`: the marker is
      looked for only in the raw state, and the depth is the count of
      leading spaces. */
  function StepOn(l: string, m: Mode, hasCollection: bool, textNames: seq<string>,
                  versionNames: seq<string>, collectionNames: seq<string>): Step
  {
    Decide(m, hasCollection,
           if m.state == ParsingRaw then MarkerOf(l, textNames, versionNames, collectionNames) else NoMarker,
           l, |l| - |TrimStartSpaces(l)|)
  }

  /** One turn of the loop on line `input[i]`, the cursor having sizes `s`:
      a keys action also takes the header after the line, any other action
      is `Act`, and only `EndDictionary` leaves the line to be looked at
      again. */
  function TurnAt(input: seq<string>, i: nat, s: Shape, m: Mode, found: Found, textNames: seq<string>,
                  versionNames: seq<string>, collectionNames: seq<string>, n: nat): (r: Outcome)
    requires i < |input|
    ensures i <= r.next <= |input|
    ensures r.ok ==> i < r.next || (r.next == i && m.state != ParsingRaw && r.mode.state == ParsingRaw)
  {
    var l := input[i];
    var step := StepOn(l, m, found.collection.found, textNames, versionNames, collectionNames);
    EndDictionaryExactly(m, found.collection.found,
                         if m.state == ParsingRaw then MarkerOf(l, textNames, versionNames, collectionNames) else NoMarker,
                         l, |l| - |TrimStartSpaces(l)|);
    if IsKeys(step.action) then
      var padded := i + 1 == |input|;
      Outcome(true, KeysShape(s), step.next, KeysNoted(found, step.action, l, s, n),
              if padded then i + 1 else i + 2, padded)
    else
      match ActShape(s, step.action)
      case None => Outcome(false, s, step.next, found, i, false)
      case Some(t) =>
        Outcome(true, t, step.next, NoteCollection(found, step.action, BlockRef(n, t.blocks)),
                if step.action == EndDictionary then i else i + 1, false)
  }

  /** `TurnAt` on a keys line is what `KeysTurned` says. */
  lemma TurnAtKeys(input: seq<string>, i: nat, k: Cursor, m: Mode, found: Found, textNames: seq<string>,
                   versionNames: seq<string>, collectionNames: seq<string>, n: nat, step: Step,
                   nk: Cursor, nfound: Found, next: nat, padded: bool)
    requires i < |input|
    requires step == StepOn(input[i], m, found.collection.found, textNames, versionNames, collectionNames)
    requires IsKeys(step.action)
    requires KeysTurned(input, i, k, step.action, found, input[i], n, nk, nfound, next, padded)
    ensures TurnAt(input, i, ShapeOf(k), m, found, textNames, versionNames, collectionNames, n)
      == Outcome(true, ShapeOf(nk), step.next, nfound, next, padded)
  {
  }

  /** `TurnAt` on a line with any other action is what `ActTurned` says. */
  lemma TurnAtAct(input: seq<string>, i: nat, k: Cursor, m: Mode, found: Found, textNames: seq<string>,
                  versionNames: seq<string>, collectionNames: seq<string>, n: nat, step: Step,
                  ok: bool, nk: Cursor, nfound: Found, next: nat)
    requires i < |input|
    requires step == StepOn(input[i], m, found.collection.found, textNames, versionNames, collectionNames)
    requires !IsKeys(step.action)
    requires ActTurned(k, step.action, found, input[i], n, i, ok, nk, nfound, next)
    ensures TurnAt(input, i, ShapeOf(k), m, found, textNames, versionNames, collectionNames, n)
      == Outcome(ok, ShapeOf(nk), step.next, nfound, next, false)
  {
    ActShapeOf(k, step.action, input[i]);
  }

  /** The whole loop from line `i` on: turns until the input runs out, a
      turn fails, or a keys line ends the input. */
  function Run(input: seq<string>, i: nat, s: Shape, m: Mode, found: Found, textNames: seq<string>,
               versionNames: seq<string>, collectionNames: seq<string>, n: nat): Outcome
    requires i <= |input|
    decreases |input| - i, if m.state == ParsingRaw then 0 else 1, 1
  {
    if i == |input| then Outcome(true, s, m, found, i, false)
    else Continue(input, i, m, TurnAt(input, i, s, m, found, textNames, versionNames, collectionNames, n),
                  textNames, versionNames, collectionNames, n)
  }

  /** The loop after the turn on line `i` in mode `m` left `t`: it stops
      there when the turn failed or the input ended after a keys line, and
      runs on from `t` otherwise. */
  function Continue(input: seq<string>, i: nat, m: Mode, t: Outcome, textNames: seq<string>,
                    versionNames: seq<string>, collectionNames: seq<string>, n: nat): Outcome
    requires i < |input| && i <= t.next <= |input|
    requires t.ok ==> i < t.next || (t.next == i && m.state != ParsingRaw && t.mode.state == ParsingRaw)
    decreases |input| - i, if m.state == ParsingRaw then 0 else 1, 0
  {
    if !t.ok || t.padded then t
    else Run(input, t.next, t.shape, t.mode, t.found, textNames, versionNames, collectionNames, n)
  }

  /** `Run` from a line is one turn and then, unless the turn failed or
      ended the input after a keys line, `Run` from where it left off. */
  lemma RunAfterTurn(input: seq<string>, i: nat, s: Shape, m: Mode, found: Found, textNames: seq<string>,
                     versionNames: seq<string>, collectionNames: seq<string>, n: nat)
    requires i < |input|
    ensures var t := TurnAt(input, i, s, m, found, textNames, versionNames, collectionNames, n);
      Run(input, i, s, m, found, textNames, versionNames, collectionNames, n)
      == if !t.ok || t.padded then t
         else Run(input, t.next, t.shape, t.mode, t.found, textNames, versionNames, collectionNames, n)
  {
  }

  /** `Run` at the end of the input stops there. */
  lemma RunAtEnd(input: seq<string>, s: Shape, m: Mode, found: Found, textNames: seq<string>,
                 versionNames: seq<string>, collectionNames: seq<string>, n: nat)
    ensures Run(input, |input|, s, m, found, textNames, versionNames, collectionNames, n)
      == Outcome(true, s, m, found, |input|, false)
  {
  }

  /** `b` is the turn after `a`: `a` went through, did not end the input
      after a keys line, and left a line to look at. */
  predicate Leads(input: seq<string>, textNames: seq<string>, versionNames: seq<string>,
                  collectionNames: seq<string>, n: nat, a: Outcome, b: Outcome)
  {
    && a.ok && !a.padded && a.next < |input|
    && b == TurnAt(input, a.next, a.shape, a.mode, a.found, textNames, versionNames, collectionNames, n)
  }

  /** Outcome `j + 1` of `trace` is the turn after outcome `j`. */
  predicate LeadsAt(input: seq<string>, textNames: seq<string>, versionNames: seq<string>,
                    collectionNames: seq<string>, n: nat, trace: seq<Outcome>, j: nat)
    requires j + 1 < |trace|
  {
    Leads(input, textNames, versionNames, collectionNames, n, trace[j], trace[j + 1])
  }

  /** Each outcome of `trace` is the turn after the one before it. */
  predicate Linked(input: seq<string>, textNames: seq<string>, versionNames: seq<string>,
                   collectionNames: seq<string>, n: nat, trace: seq<Outcome>) {
    forall j :: 0 <= j < |trace| - 1 ==> LeadsAt(input, textNames, versionNames, collectionNames, n, trace, j)
  }

  /** `Run` stops at `o`. */
  predicate Halts(input: seq<string>, o: Outcome) {
    !o.ok || o.padded || o.next == |input|
  }

  /** A linked trace from a live outcome to one where `Run` stops is what
      `Run` computes. */
  lemma {:induction false} LinkedRun(input: seq<string>, textNames: seq<string>, versionNames: seq<string>,
                                     collectionNames: seq<string>, n: nat, trace: seq<Outcome>,
                                     i: nat, s: Shape, m: Mode, found: Found)
    requires i <= |input| && trace != [] && trace[0] == Outcome(true, s, m, found, i, false)
    requires Linked(input, textNames, versionNames, collectionNames, n, trace)
    requires Halts(input, trace[|trace| - 1])
    ensures Run(input, i, s, m, found, textNames, versionNames, collectionNames, n) == trace[|trace| - 1]
    decreases |trace|
  {
    var a := trace[0];
    if |trace| == 1 {
      RunAtEnd(input, a.shape, a.mode, a.found, textNames, versionNames, collectionNames, n);
    } else {
      assert LeadsAt(input, textNames, versionNames, collectionNames, n, trace, 0);
      RunAfterTurn(input, a.next, a.shape, a.mode, a.found, textNames, versionNames, collectionNames, n);
      var t := trace[1];
      if |trace| > 2 {
        assert LeadsAt(input, textNames, versionNames, collectionNames, n, trace, 1);
        var rest := trace[1..];
        LinkedTail(input, textNames, versionNames, collectionNames, n, trace);
        LinkedRun(input, textNames, versionNames, collectionNames, n, rest, t.next, t.shape, t.mode, t.found);
      } else if t.ok && !t.padded {
        RunAtEnd(input, t.shape, t.mode, t.found, textNames, versionNames, collectionNames, n);
      }
    }
  }

  /** A linked trace stays linked without its first outcome. */
  lemma LinkedTail(input: seq<string>, textNames: seq<string>, versionNames: seq<string>,
                   collectionNames: seq<string>, n: nat, trace: seq<Outcome>)
    requires trace != [] && Linked(input, textNames, versionNames, collectionNames, n, trace)
    ensures Linked(input, textNames, versionNames, collectionNames, n, trace[1..])
  {
    var rest := trace[1..];
    forall j | 0 <= j < |rest| - 1
      ensures LeadsAt(input, textNames, versionNames, collectionNames, n, rest, j)
    {
      assert LeadsAt(input, textNames, versionNames, collectionNames, n, trace, j + 1);
      assert rest[j] == trace[j + 1] && rest[j + 1] == trace[j + 2];
    }
  }

  /** A linked trace stays linked when the turn after its last outcome is
      added. */
  lemma LinkedExtends(input: seq<string>, textNames: seq<string>, versionNames: seq<string>,
                      collectionNames: seq<string>, n: nat, trace: seq<Outcome>, o: Outcome)
    requires trace != [] && Linked(input, textNames, versionNames, collectionNames, n, trace)
    requires Leads(input, textNames, versionNames, collectionNames, n, trace[|trace| - 1], o)
    ensures Linked(input, textNames, versionNames, collectionNames, n, trace + [o])
  {
    var t := trace + [o];
    forall j | 0 <= j < |t| - 1
      ensures LeadsAt(input, textNames, versionNames, collectionNames, n, t, j)
    {
      if j < |trace| - 1 {
        assert LeadsAt(input, textNames, versionNames, collectionNames, n, trace, j);
        assert t[j] == trace[j] && t[j + 1] == trace[j + 1];
      }
    }
  }

  /** A turn of the loop: the index of the line it looks at and the mode
      it is in. */
  datatype Visit = Visit(at: nat, mode: Mode)

  /** The turns `Run` takes, in order. */
  function Visits(input: seq<string>, i: nat, s: Shape, m: Mode, found: Found, textNames: seq<string>,
                  versionNames: seq<string>, collectionNames: seq<string>, n: nat): (vs: seq<Visit>)
    requires i <= |input|
    ensures i < |input| ==> vs != [] && vs[0] == Visit(i, m)
    decreases |input| - i, if m.state == ParsingRaw then 0 else 1, 1
  {
    if i == |input| then []
    else [Visit(i, m)] + VisitsAfter(input, i, m,
                                     TurnAt(input, i, s, m, found, textNames, versionNames, collectionNames, n),
                                     textNames, versionNames, collectionNames, n)
  }

  /** The turns after the one on line `i` in mode `m`, which left `t`. */
  function VisitsAfter(input: seq<string>, i: nat, m: Mode, t: Outcome, textNames: seq<string>,
                       versionNames: seq<string>, collectionNames: seq<string>, n: nat): seq<Visit>
    requires i < |input| && i <= t.next <= |input|
    requires t.ok ==> i < t.next || (t.next == i && m.state != ParsingRaw && t.mode.state == ParsingRaw)
    decreases |input| - i, if m.state == ParsingRaw then 0 else 1, 0
  {
    if !t.ok || t.padded then [] else Visits(input, t.next, t.shape, t.mode, t.found, textNames, versionNames,
                                             collectionNames, n)
  }

  /** The state a raw line with `marker` sends the next line into. */
  function MarkedState(marker: Marker): State {
    match marker
    case TextMarker => ParsingTextKeys
    case VersionMarker => ParsingVersionKeys
    case CollectionMarker => ParsingTextCollectionKeys
    case NoMarker => ParsingRaw
  }

  /** The fields a keys state reads into. */
  function KeyedIn(found: Found, st: State): Keyed
    requires st == ParsingTextKeys || st == ParsingVersionKeys
  {
    if st == ParsingTextKeys then found.text else found.version
  }

  /** `Visits` from a line is that line's visit and then, unless its turn
      failed or ended the input after a keys line, `Visits` from where the
      turn left off. */
  lemma VisitsAfterTurn(input: seq<string>, i: nat, s: Shape, m: Mode, found: Found, textNames: seq<string>,
                        versionNames: seq<string>, collectionNames: seq<string>, n: nat)
    requires i < |input|
    ensures var t := TurnAt(input, i, s, m, found, textNames, versionNames, collectionNames, n);
      Visits(input, i, s, m, found, textNames, versionNames, collectionNames, n)
      == [Visit(i, m)] + if !t.ok || t.padded then [] else Visits(input, t.next, t.shape, t.mode, t.found,
                                                                  textNames, versionNames, collectionNames, n)
  {
  }

  /** The last visit in state `st`, if there is one. */
  function LastIn(vs: seq<Visit>, st: State): (r: Option<Visit>)
    ensures r.Some? <==> exists j :: 0 <= j < |vs| && vs[j].mode.state == st
    ensures r.Some? ==> exists j :: 0 <= j < |vs| && vs[j] == r.value && vs[j].mode.state == st
                                    && forall j' :: j < j' < |vs| ==> vs[j'].mode.state != st
  {
    if vs == [] then None
    else
      var later := LastIn(vs[1..], st);
      if later.Some? then later
      else if vs[0].mode.state == st then Some(vs[0])
      else None
  }

  /** A turn in a keys state reads the line as that dictionary's keys, and
      no other turn touches that dictionary's fields. */
  lemma TurnKeyed(input: seq<string>, i: nat, s: Shape, m: Mode, found: Found, textNames: seq<string>,
                  versionNames: seq<string>, collectionNames: seq<string>, n: nat, st: State)
    requires i < |input| && (st == ParsingTextKeys || st == ParsingVersionKeys)
    ensures var t := TurnAt(input, i, s, m, found, textNames, versionNames, collectionNames, n);
      && (m.state == st ==>
            && t.ok
            && KeyedIn(t.found, st)
               == Keyed(true, Some(KeysOf(input[i])), Some(LineRef(n, s.blocks, s.lines)),
                        Some(BlockRef(n, s.blocks + 1))))
      && (m.state != st ==> KeyedIn(t.found, st) == KeyedIn(found, st))
  {
    if m.state == st {
      TurnReadsKeys(input, i, s, m, found, textNames, versionNames, collectionNames, n, st);
    } else {
      TurnKeepsKeyed(input, i, s, m, found, textNames, versionNames, collectionNames, n, st);
    }
  }

  /** The keys half of `TurnKeyed`. */
  lemma TurnReadsKeys(input: seq<string>, i: nat, s: Shape, m: Mode, found: Found, textNames: seq<string>,
                      versionNames: seq<string>, collectionNames: seq<string>, n: nat, st: State)
    requires i < |input| && (st == ParsingTextKeys || st == ParsingVersionKeys) && m.state == st
    ensures var t := TurnAt(input, i, s, m, found, textNames, versionNames, collectionNames, n);
      && t.ok
      && KeyedIn(t.found, st)
         == Keyed(true, Some(KeysOf(input[i])), Some(LineRef(n, s.blocks, s.lines)), Some(BlockRef(n, s.blocks + 1)))
  {
    var l := input[i];
    KeysStatesMoveOn(m, found.collection.found, NoMarker, l, |l| - |TrimStartSpaces(l)|);
  }

  /** The other half of `TurnKeyed`. */
  lemma TurnKeepsKeyed(input: seq<string>, i: nat, s: Shape, m: Mode, found: Found, textNames: seq<string>,
                       versionNames: seq<string>, collectionNames: seq<string>, n: nat, st: State)
    requires i < |input| && (st == ParsingTextKeys || st == ParsingVersionKeys) && m.state != st
    ensures KeyedIn(TurnAt(input, i, s, m, found, textNames, versionNames, collectionNames, n).found, st)
      == KeyedIn(found, st)
  {
    var l := input[i];
    var depth := |l| - |TrimStartSpaces(l)|;
    var step := StepOn(l, m, found.collection.found, textNames, versionNames, collectionNames);
    TurnAtFound(input, i, s, m, found, textNames, versionNames, collectionNames, n);
    if m.state == ParsingRaw {
      RawLinesAndMarkers(m, found.collection.found, MarkerOf(l, textNames, versionNames, collectionNames), l, depth);
    } else {
      KeysActionsExactly(m, found.collection.found, NoMarker, l, depth);
    }
    NoteCollectionKeepsKeyed(found, step.action);
  }

  /** The fields a turn leaves, from its step. */
  lemma TurnAtFound(input: seq<string>, i: nat, s: Shape, m: Mode, found: Found, textNames: seq<string>,
                    versionNames: seq<string>, collectionNames: seq<string>, n: nat)
    requires i < |input|
    ensures var step := StepOn(input[i], m, found.collection.found, textNames, versionNames, collectionNames);
      TurnAt(input, i, s, m, found, textNames, versionNames, collectionNames, n).found
      == if IsKeys(step.action) then KeysNoted(found, step.action, input[i], s, n)
         else match ActShape(s, step.action)
              case None => found
              case Some(t) => NoteCollection(found, step.action, BlockRef(n, t.blocks))
  {
  }

  /** A turn finds the collection exactly in the collection's keys state,
      and never forgets it. */
  lemma TurnCollection(input: seq<string>, i: nat, s: Shape, m: Mode, found: Found, textNames: seq<string>,
                       versionNames: seq<string>, collectionNames: seq<string>, n: nat)
    requires i < |input|
    ensures TurnAt(input, i, s, m, found, textNames, versionNames, collectionNames, n).found.collection.found
      == (found.collection.found || m.state == ParsingTextCollectionKeys)
  {
    var l := input[i];
    KeysActionsExactly(m, found.collection.found,
                       if m.state == ParsingRaw then MarkerOf(l, textNames, versionNames, collectionNames) else NoMarker,
                       l, |l| - |TrimStartSpaces(l)|);
    var step := StepOn(l, m, found.collection.found, textNames, versionNames, collectionNames);
    NoteCollectionKeepsKeyed(found, step.action);
    if !IsKeys(step.action) && ActShape(s, step.action).None? {
      assert !step.action.OpenCollectionKeys?;
    }
  }

  /** A raw line is always kept, and sends the next line into the state its
      marker names. */
  lemma TurnRaw(input: seq<string>, i: nat, s: Shape, m: Mode, found: Found, textNames: seq<string>,
                versionNames: seq<string>, collectionNames: seq<string>, n: nat)
    requires i < |input| && m.state == ParsingRaw
    ensures var t := TurnAt(input, i, s, m, found, textNames, versionNames, collectionNames, n);
      && t.ok && !t.padded && t.next == i + 1
      && t.mode.state == MarkedState(MarkerOf(input[i], textNames, versionNames, collectionNames))
  {
    var l := input[i];
    RawLinesAndMarkers(m, found.collection.found, MarkerOf(l, textNames, versionNames, collectionNames), l,
                       |l| - |TrimStartSpaces(l)|);
  }

  /** The parse's text or version fields are the ones it started from when
      no turn was in that dictionary's keys state; otherwise they say the
      dictionary was found, with the keys of the line of the last such
      turn. */
  lemma {:induction false} RunReadsKeys(input: seq<string>, i: nat, s: Shape, m: Mode, found: Found,
                                        textNames: seq<string>, versionNames: seq<string>,
                                        collectionNames: seq<string>, n: nat, st: State)
    requires i <= |input| && (st == ParsingTextKeys || st == ParsingVersionKeys)
    ensures var r := Run(input, i, s, m, found, textNames, versionNames, collectionNames, n);
      match LastIn(Visits(input, i, s, m, found, textNames, versionNames, collectionNames, n), st)
      case None => KeyedIn(r.found, st) == KeyedIn(found, st)
      case Some(v) =>
        && v.at < |input|
        && KeyedIn(r.found, st).found && KeyedIn(r.found, st).keys == Some(KeysOf(input[v.at]))
        && KeyedIn(r.found, st).keysLine.Some? && KeyedIn(r.found, st).values.Some?
    decreases |input| - i, if m.state == ParsingRaw then 0 else 1
  {
    if i < |input| {
      var t := TurnAt(input, i, s, m, found, textNames, versionNames, collectionNames, n);
      TurnKeyed(input, i, s, m, found, textNames, versionNames, collectionNames, n, st);
      RunAfterTurn(input, i, s, m, found, textNames, versionNames, collectionNames, n);
      var vs := Visits(input, i, s, m, found, textNames, versionNames, collectionNames, n);
      VisitsAfterTurn(input, i, s, m, found, textNames, versionNames, collectionNames, n);
      if !t.ok || t.padded {
        assert vs == [Visit(i, m)];
        assert vs[1..] == [];
      } else {
        RunReadsKeys(input, t.next, t.shape, t.mode, t.found, textNames, versionNames, collectionNames, n, st);
        assert vs[1..] == Visits(input, t.next, t.shape, t.mode, t.found, textNames, versionNames, collectionNames, n);
      }
    }
  }

  /** The parse has found the collection exactly when it had found it
      before or some turn was in the collection's keys state. */
  lemma {:induction false} RunFindsCollection(input: seq<string>, i: nat, s: Shape, m: Mode, found: Found,
                                              textNames: seq<string>, versionNames: seq<string>,
                                              collectionNames: seq<string>, n: nat)
    requires i <= |input|
    ensures Run(input, i, s, m, found, textNames, versionNames, collectionNames, n).found.collection.found
      <==> found.collection.found
           || exists v :: v in Visits(input, i, s, m, found, textNames, versionNames, collectionNames, n)
                          && v.mode.state == ParsingTextCollectionKeys
    decreases |input| - i, if m.state == ParsingRaw then 0 else 1
  {
    if i < |input| {
      var t := TurnAt(input, i, s, m, found, textNames, versionNames, collectionNames, n);
      TurnCollection(input, i, s, m, found, textNames, versionNames, collectionNames, n);
      RunAfterTurn(input, i, s, m, found, textNames, versionNames, collectionNames, n);
      var vs := Visits(input, i, s, m, found, textNames, versionNames, collectionNames, n);
      VisitsAfterTurn(input, i, s, m, found, textNames, versionNames, collectionNames, n);
      if !t.ok || t.padded {
        assert vs == [Visit(i, m)];
      } else {
        RunFindsCollection(input, t.next, t.shape, t.mode, t.found, textNames, versionNames, collectionNames, n);
        var rest := Visits(input, t.next, t.shape, t.mode, t.found, textNames, versionNames, collectionNames, n);
        assert vs == [Visit(i, m)] + rest;
      }
    }
  }

  /** The line after a raw line is visited next, in the state the raw
      line's marker names. */
  lemma VisitAfterRaw(input: seq<string>, i: nat, s: Shape, m: Mode, found: Found, textNames: seq<string>,
                      versionNames: seq<string>, collectionNames: seq<string>, n: nat)
    requires i + 1 < |input| && m.state == ParsingRaw
    ensures var vs := Visits(input, i, s, m, found, textNames, versionNames, collectionNames, n);
      && 1 < |vs| && vs[1].at == i + 1
      && vs[1].mode.state == MarkedState(MarkerOf(input[i], textNames, versionNames, collectionNames))
  {
    var t := TurnAt(input, i, s, m, found, textNames, versionNames, collectionNames, n);
    TurnRaw(input, i, s, m, found, textNames, versionNames, collectionNames, n);
    VisitsAfterTurn(input, i, s, m, found, textNames, versionNames, collectionNames, n);
  }

  /** Past the first visit, the visits from line `i` are those from where
      the turn on line `i` left off. */
  lemma VisitsTail(input: seq<string>, i: nat, s: Shape, m: Mode, found: Found, textNames: seq<string>,
                   versionNames: seq<string>, collectionNames: seq<string>, n: nat)
    requires i <= |input| && 1 < |Visits(input, i, s, m, found, textNames, versionNames, collectionNames, n)|
    ensures i < |input|
    ensures var t := TurnAt(input, i, s, m, found, textNames, versionNames, collectionNames, n);
      && t.ok && !t.padded
      && Visits(input, i, s, m, found, textNames, versionNames, collectionNames, n)[1..]
         == Visits(input, t.next, t.shape, t.mode, t.found, textNames, versionNames, collectionNames, n)
  {
    VisitsAfterTurn(input, i, s, m, found, textNames, versionNames, collectionNames, n);
  }

  /** A visited raw line that is not the last line of the input is
      followed by a visit to the next line, in the state its marker names. */
  lemma {:induction false} VisitFollowsMarker(input: seq<string>, i: nat, s: Shape, m: Mode, found: Found,
                                              textNames: seq<string>, versionNames: seq<string>,
                                              collectionNames: seq<string>, n: nat, j: nat)
    requires i <= |input|
    requires var vs := Visits(input, i, s, m, found, textNames, versionNames, collectionNames, n);
      j < |vs| && vs[j].mode.state == ParsingRaw && vs[j].at + 1 < |input|
    ensures var vs := Visits(input, i, s, m, found, textNames, versionNames, collectionNames, n);
      && j + 1 < |vs| && vs[j + 1].at == vs[j].at + 1
      && vs[j + 1].mode.state == MarkedState(MarkerOf(input[vs[j].at], textNames, versionNames, collectionNames))
    decreases j
  {
    var vs := Visits(input, i, s, m, found, textNames, versionNames, collectionNames, n);
    if j == 0 {
      VisitAfterRaw(input, i, s, m, found, textNames, versionNames, collectionNames, n);
    } else {
      VisitsTail(input, i, s, m, found, textNames, versionNames, collectionNames, n);
      var t := TurnAt(input, i, s, m, found, textNames, versionNames, collectionNames, n);
      var rest := Visits(input, t.next, t.shape, t.mode, t.found, textNames, versionNames, collectionNames, n);
      assert vs[j] == rest[j - 1];
      VisitFollowsMarker(input, t.next, t.shape, t.mode, t.found, textNames, versionNames, collectionNames, n, j - 1);
      assert vs[j + 1] == rest[j];
    }
  }

  /** A visited raw line that mentions one of the dictionaries' names, and
      is not the input's last line, makes the parse find that dictionary. */
  lemma RunFindsMarked(input: seq<string>, i: nat, s: Shape, m: Mode, found: Found, textNames: seq<string>,
                       versionNames: seq<string>, collectionNames: seq<string>, n: nat, j: nat)
    requires i <= |input|
    requires var vs := Visits(input, i, s, m, found, textNames, versionNames, collectionNames, n);
      j < |vs| && vs[j].mode.state == ParsingRaw && vs[j].at + 1 < |input|
    ensures var vs := Visits(input, i, s, m, found, textNames, versionNames, collectionNames, n);
      var marker := MarkerOf(input[vs[j].at], textNames, versionNames, collectionNames);
      var r := Run(input, i, s, m, found, textNames, versionNames, collectionNames, n);
      && (marker == TextMarker ==> r.found.text.found)
      && (marker == VersionMarker ==> r.found.version.found)
      && (marker == CollectionMarker ==> r.found.collection.found)
  {
    var vs := Visits(input, i, s, m, found, textNames, versionNames, collectionNames, n);
    VisitFollowsMarker(input, i, s, m, found, textNames, versionNames, collectionNames, n, j);
    assert vs[j + 1].mode.state == MarkedState(MarkerOf(input[vs[j].at], textNames, versionNames, collectionNames));
    RunReadsKeys(input, i, s, m, found, textNames, versionNames, collectionNames, n, ParsingTextKeys);
    RunReadsKeys(input, i, s, m, found, textNames, versionNames, collectionNames, n, ParsingVersionKeys);
    RunFindsCollection(input, i, s, m, found, textNames, versionNames, collectionNames, n);
    assert vs[j + 1] in vs;
  }

  /** The loop of `Parse`, over the lines the reader still holds, building
      chain `n` of the document from the fields `before`. Every line read
      is kept exactly once and in order, as a line of its own or as a
      fragment of the previous entry, so the text of the chain is the input;
      the one addition is an empty line when the input ends right after a
      keys line, whose `m_values:` line is then null. An entry continuation
      met while the current block is still empty makes the source's indexer
      throw: `ok == false`, and the chain holds the lines kept until then. */
  method Scan(reader: Reader, textNames: seq<string>, versionNames: seq<string>,
              collectionNames: seq<string>, before: Found, n: nat)
    returns (ok: bool, c: Chain, found: Found, ghost padded: bool)
    requires reader.pos <= |reader.input|
    modifies reader
    ensures c != []
    ensures ok ==> reader.pos == |reader.input|
    ensures ok ==> Text(c) == reader.input[old(reader.pos)..] + (if padded then [""] else [])
    ensures !ok ==> Text(c) <= reader.input[old(reader.pos)..]
    ensures Recorded(before, found, c, n)
    ensures padded ==>
      ok && old(reader.pos) < |reader.input| && PaddedFound(found, c, reader.input[|reader.input| - 1])
    ensures var r := Run(reader.input, old(reader.pos), Shape(0, 0), InitialMode, before,
                         textNames, versionNames, collectionNames, n);
      ok == r.ok && found == r.found && padded == r.padded && |c| == r.shape.blocks + 1
  {
    ghost var start := reader.pos;
    var k;
    ghost var trace;
    ok, k, found, padded, trace := ScanLines(reader, textNames, versionNames, collectionNames, before, n);
    LinkedRun(reader.input, textNames, versionNames, collectionNames, n, trace, start, Shape(0, 0),
              InitialMode, before);
    c := Chained(k);
    WrittenIsText(k);
  }

  /** The loop of `Scan`: turns until the input runs out, a turn fails, or
      the input ends after a keys line, leaving the cursor `k` and the
      fields found, as `Run` computes them. */
  method ScanLines(reader: Reader, textNames: seq<string>, versionNames: seq<string>,
                   collectionNames: seq<string>, before: Found, n: nat)
    returns (ok: bool, k: Cursor, found: Found, ghost padded: bool, ghost trace: seq<Outcome>)
    requires reader.pos <= |reader.input|
    modifies reader
    ensures ok ==> reader.pos == |reader.input|
    ensures ok ==> Written(k) == reader.input[old(reader.pos)..] + (if padded then [""] else [])
    ensures !ok ==> Written(k) <= reader.input[old(reader.pos)..]
    ensures Recorded(before, found, Chained(k), n)
    ensures padded ==>
      ok && old(reader.pos) < |reader.input| && PaddedFound(found, Chained(k), reader.input[|reader.input| - 1])
    ensures trace != [] && trace[0] == Outcome(true, Shape(0, 0), InitialMode, before, old(reader.pos), false)
    ensures Linked(reader.input, textNames, versionNames, collectionNames, n, trace)
    ensures Halts(reader.input, trace[|trace| - 1])
    ensures var o := trace[|trace| - 1];
      ok == o.ok && ShapeOf(k) == o.shape && found == o.found && padded == o.padded
  {
    ghost var start := reader.pos;
    k := Cursor([], []);
    var mode := InitialMode;
    ghost var consumed := reader.pos;
    padded := false;
    found := before;
    ok := true;
    trace := [Outcome(true, Shape(0, 0), InitialMode, before, start, false)];
    var line := reader.ReadLine();
    while line.Some? && ok
      invariant reader.pos <= |reader.input|
      invariant start <= consumed <= |reader.input|
      invariant line.Some? ==> reader.pos == consumed + 1 && line.value == reader.input[consumed]
      invariant line.None? ==> reader.pos == consumed == |reader.input|
      invariant !padded ==> Written(k) == reader.input[start..consumed]
      invariant padded ==> Written(k) == reader.input[start..consumed] + [""]
      invariant padded ==> line.None? && ok && start < |reader.input|
      invariant padded ==> PaddedFound(found, Chained(k), reader.input[|reader.input| - 1])
      invariant !ok ==> line.Some?
      invariant Recorded(before, found, Chained(k), n)
      invariant trace != [] && trace[0] == Outcome(true, Shape(0, 0), InitialMode, before, start, false)
      invariant trace[|trace| - 1] == Outcome(ok, ShapeOf(k), mode, found, consumed, padded)
      invariant Linked(reader.input, textNames, versionNames, collectionNames, n, trace)
      decreases |reader.input| - reader.pos, if line.Some? && ok then 1 else 0, if mode.state == ParsingRaw then 0 else 1
    {
      ok, k, mode, found, line, consumed, padded, trace :=
        Turn(reader, k, mode, found, line.value, textNames, versionNames, collectionNames, n, before, start,
             consumed, trace);
    }
    if ok {
      assert reader.input[start..consumed] == reader.input[start..];
    } else {
      SlicePrefix(reader.input, start, consumed);
    }
  }

  /** One turn of the scan: line `l` is classified in `mode`, acted on, and
      the next line read; what is written and recorded stays accounted for,
      and the turn moves the reader on or, closing a dictionary, returns to
      the raw state. */
  method Turn(reader: Reader, k: Cursor, mode: Mode, found: Found, l: string,
              textNames: seq<string>, versionNames: seq<string>, collectionNames: seq<string>, n: nat,
              ghost before: Found, ghost start: nat, ghost consumed: nat, ghost trace: seq<Outcome>)
    returns (ok: bool, nk: Cursor, nmode: Mode, nfound: Found, line: Option<string>,
             ghost consumedNow: nat, ghost padded: bool, ghost trace': seq<Outcome>)
    requires start <= consumed < |reader.input| && reader.pos == consumed + 1 && reader.input[consumed] == l
    requires Written(k) == reader.input[start..consumed]
    requires Recorded(before, found, Chained(k), n)
    requires trace != [] && trace[|trace| - 1] == Outcome(true, ShapeOf(k), mode, found, consumed, false)
    requires Linked(reader.input, textNames, versionNames, collectionNames, n, trace)
    modifies reader
    ensures start <= consumedNow <= |reader.input| && reader.pos <= |reader.input|
    ensures line.Some? ==> reader.pos == consumedNow + 1 && line.value == reader.input[consumedNow]
    ensures line.None? ==> reader.pos == consumedNow == |reader.input|
    ensures Written(nk) == reader.input[start..consumedNow] + (if padded then [""] else [])
    ensures padded ==> line.None? && ok && consumed + 1 == |reader.input| && PaddedFound(nfound, Chained(nk), l)
    ensures !ok ==> line.Some?
    ensures Recorded(before, nfound, Chained(nk), n)
    ensures old(reader.pos) <= reader.pos
    ensures ok && line.Some? ==>
      old(reader.pos) < reader.pos || (mode.state != ParsingRaw && nmode.state == ParsingRaw)
    ensures trace' == trace + [Outcome(ok, ShapeOf(nk), nmode, nfound, consumedNow, padded)]
    ensures Linked(reader.input, textNames, versionNames, collectionNames, n, trace')
  {
    var step := Classify(l, mode, found.collection.found, textNames, versionNames, collectionNames);
    padded := false;
    ghost var input := reader.input;
    if IsKeys(step.action) {
      ok := true;
      nk, nfound, line, consumedNow, padded := KeysTurn(reader, k, step.action, found, l, n, before, start, consumed);
      TurnAtKeys(input, consumed, k, mode, found, textNames, versionNames, collectionNames, n, step,
                 nk, nfound, consumedNow, padded);
    } else {
      ok, nk, nfound, line, consumedNow := ActTurn(reader, k, step.action, found, l, n, before, start, consumed);
      TurnAtAct(input, consumed, k, mode, found, textNames, versionNames, collectionNames, n, step,
                ok, nk, nfound, consumedNow);
    }
    nmode := step.next;
    trace' := trace + [Outcome(ok, ShapeOf(nk), nmode, nfound, consumedNow, padded)];
    LinkedExtends(input, textNames, versionNames, collectionNames, n, trace, trace'[|trace|]);
  }

  /** `Serialize` over a list of lines: each line's fragments, line after
      line. */
  method WriteLines(ls: seq<LineState>, writer: Writer)
    modifies writer
    ensures writer.lines == old(writer.lines) + RawLines(ls)
  {
    var i := 0;
    while i < |ls|
      invariant 0 <= i <= |ls|
      invariant writer.lines == old(writer.lines) + RawLines(ls[..i])
    {
      var j := 0;
      while j < |ls[i].rawStrings|
        invariant 0 <= j <= |ls[i].rawStrings|
        invariant writer.lines == old(writer.lines) + RawLines(ls[..i]) + ls[i].rawStrings[..j]
      {
        writer.WriteLine(ls[i].rawStrings[j]);
        assert ls[i].rawStrings[..j + 1] == ls[i].rawStrings[..j] + [ls[i].rawStrings[j]];
        j := j + 1;
      }
      assert ls[i].rawStrings[..j] == ls[i].rawStrings;
      assert ls[..i + 1][..i] == ls[..i];
      i := i + 1;
    }
    assert ls[..i] == ls;
  }

  /** `m_blockChain.Serialize`: block after block. */
  method WriteChain(c: Chain, writer: Writer)
    modifies writer
    ensures writer.lines == old(writer.lines) + Text(c)
  {
    var i := 0;
    while i < |c|
      invariant 0 <= i <= |c|
      invariant writer.lines == old(writer.lines) + Text(c[..i])
    {
      WriteLines(c[i], writer);
      assert c[..i + 1][..i] == c[..i];
      i := i + 1;
    }
    assert c[..i] == c;
  }

  // ---------------------------------------------------------------------
  // The setters, on the chains

  /** What the keys setter does to the chains: the line at `r`, while it is
      still in its block, gets the rewritten keys line as its one fragment;
      its chain's text changes in that line's place only, and no chain
      gains or loses a block. */
  function RewriteKeysAt(chains: seq<Chain>, r: LineRef, value: string): (res: seq<Chain>)
    ensures |res| == |chains| && (forall k :: 0 <= k < |chains| ==> |res[k]| == |chains[k]|)
    ensures forall k :: 0 <= k < |chains| && k != r.chain ==> res[k] == chains[k]
    ensures !LineIn(chains, Some(r)) ==> res == chains
    ensures LineIn(chains, Some(r)) ==>
      var c: Chain, b, j := chains[r.chain], r.block, r.line;
      var l: LineState := c[b][j];
      && |res[r.chain][b]| == |c[b]|
      && res[r.chain][b][j] == WithValue(l, RewriteKeys(l.value, value))
      && Text(c) == Text(c[..b]) + RawLines(c[b][..j]) + l.rawStrings + RawLines(c[b][j + 1..]) + Text(c[b + 1..])
      && Text(res[r.chain]) == Text(c[..b]) + RawLines(c[b][..j]) + [RewriteKeys(l.value, value)]
                               + RawLines(c[b][j + 1..]) + Text(c[b + 1..])
  {
    if LineIn(chains, Some(r)) then
      var l := chains[r.chain][r.block][r.line];
      var nl := WithValue(l, RewriteKeys(l.value, value));
      ReplaceLine(chains[r.chain], r.block, r.line, nl);
      WithLine(chains, r, nl)
    else chains
  }

  /** The keys written are the keys the document now holds: after the
      setter, a recorded dictionary whose keys line ends in its hex run is
      still recorded there, with `value` (hex, possibly empty) as its keys. */
  lemma SetKeysStaysRecorded(chains: seq<Chain>, d: Keyed, value: string)
    requires d.keysLine.Some? && d.keysLine.value.chain < |chains|
    requires KeysRecorded(d, chains[d.keysLine.value.chain], d.keysLine.value.chain)
    requires var r := d.keysLine.value;
      var s := chains[r.chain][r.block][r.line].value;
      FirstMatch(s, 0).Some? && FirstMatch(s, 0).value.end == |s|
    requires AllHex(value)
    ensures var r := d.keysLine.value;
      KeysRecorded(d.(keys := Some(value)), RewriteKeysAt(chains, r, value)[r.chain], r.chain)
  {
    var r := d.keysLine.value;
    KeysOfRewrite(chains[r.chain][r.block][r.line].value, value);
  }

  /** The lines of the block at `r`: `None` for a null block (the source's
      getter throws) or one that is not in the chains. */
  function LinesAt(chains: seq<Chain>, r: Option<BlockRef>): (res: Option<seq<LineState>>)
    ensures res.Some? <==> r.Some? && BlockIn(chains, r)
    ensures res.Some? ==> res.value == chains[r.value.chain][r.value.block]
  {
    if r.Some? && BlockIn(chains, r) then Some(chains[r.value.chain][r.value.block]) else None
  }

  /** What a values setter does to the chains: the block at `r` holds
      `value`; its chain's text changes in that block's place only, and no
      chain gains or loses a block. */
  function ReplaceValuesAt(chains: seq<Chain>, r: BlockRef, value: seq<LineState>): (res: seq<Chain>)
    ensures |res| == |chains| && (forall k :: 0 <= k < |chains| ==> |res[k]| == |chains[k]|)
    ensures forall k :: 0 <= k < |chains| && k != r.chain ==> res[k] == chains[k]
    ensures !BlockIn(chains, Some(r)) ==> res == chains
    ensures BlockIn(chains, Some(r)) ==>
      var c: Chain, b := chains[r.chain], r.block;
      && Text(c) == Text(c[..b]) + RawLines(c[b]) + Text(c[b + 1..])
      && Text(res[r.chain]) == Text(c[..b]) + RawLines(value) + Text(c[b + 1..])
  {
    if BlockIn(chains, Some(r)) then
      ReplaceBlock(chains[r.chain], r.block, value);
      WithBlock(chains, r, value)
    else chains
  }

  /** Reading a block back after a values setter gives the lines set, and
      every other block reads as before. */
  lemma ValuesReadBack(chains: seq<Chain>, r: BlockRef, value: seq<LineState>, other: BlockRef)
    requires BlockIn(chains, Some(r))
    ensures LinesAt(ReplaceValuesAt(chains, r, value), Some(r)) == Some(value)
    ensures other != r ==> LinesAt(ReplaceValuesAt(chains, r, value), Some(other)) == LinesAt(chains, Some(other))
  {
  }

  // ---------------------------------------------------------------------
  // The document

  /** Every block the fields name is a block of one of `chains`. */
  predicate FoundIn(chains: seq<Chain>, f: Found) {
    && BlockIn(chains, f.text.values)
    && BlockIn(chains, f.version.values)
    && BlockIn(chains, f.collection.keys)
    && BlockIn(chains, f.collection.values)
  }

  /** What a parse of a new chain `c` records names blocks of the chains
      once `c` is added. */
  lemma RecordedStaysIn(chains: seq<Chain>, before: Found, found: Found, c: Chain)
    requires FoundIn(chains, before) && Recorded(before, found, c, |chains|)
    ensures FoundIn(chains + [c], found)
  {
  }

  class Document {
    const textKeyDictionaryName: seq<string>
    const versionDictionaryName: seq<string>
    const textCollectionDictionaryName: seq<string>

    /** The chain of every `Parse` so far, oldest first. The last one is
        `m_blockChain`'s; an earlier one is what a field a later parse did
        not set still points into. */
    var chains: seq<Chain>

    /** `m_hasTextDictionary`, `m_textDictionaryKeys`,
        `m_textDictionaryKeysLine` and `m_textDictionaryValues`. */
    var textDictionary: Keyed
    /** The same four fields of the version dictionary. */
    var versionDictionary: Keyed
    /** `m_hasTextCollectionDictionary` and the collection's two blocks. */
    var textCollectionDictionary: Collection

    /** Every block field names a block of a chain. */
    predicate Valid()
      reads this
    {
      FoundIn(chains, Fields())
    }

    /** The dictionary fields, together. */
    function Fields(): Found
      reads this
    {
      Found(textDictionary, versionDictionary, textCollectionDictionary)
    }

    /** What `Save` writes: the text of the last chain. */
    function Output(): seq<string>
      reads this
      requires chains != []
    {
      Text(chains[|chains| - 1])
    }

    constructor (textKeyDictionaryName: seq<string>, versionDictionaryName: seq<string>,
                 textCollectionNames: seq<string>)
      ensures Valid()
      ensures this.textKeyDictionaryName == textKeyDictionaryName
      ensures this.versionDictionaryName == versionDictionaryName
      ensures this.textCollectionDictionaryName == textCollectionNames
      ensures chains == []
      ensures Fields() == NotFound
    {
      this.textKeyDictionaryName := textKeyDictionaryName;
      this.versionDictionaryName := versionDictionaryName;
      this.textCollectionDictionaryName := textCollectionNames;
      chains := [];
      textDictionary, versionDictionary, textCollectionDictionary := NotFound.text, NotFound.version, NotFound.collection;
    }

    /** `Parse`: every line the reader still holds, cut into a new chain
        (see `Scan`); the fields become the ones `Run` computes, and
        `RunReadsKeys`, `RunFindsCollection` and `RunFindsMarked` say which
        lines they come from. */
    method Parse(reader: Reader) returns (ok: bool, ghost padded: bool)
      requires Valid() && reader.pos <= |reader.input|
      modifies this, reader
      ensures Valid()
      ensures |chains| == |old(chains)| + 1 && chains[..|old(chains)|] == old(chains)
      ensures ok ==> reader.pos == |reader.input|
      ensures ok ==> Output() == reader.input[old(reader.pos)..] + (if padded then [""] else [])
      ensures !ok ==> Output() <= reader.input[old(reader.pos)..]
      ensures Recorded(old(Fields()), Fields(), chains[|chains| - 1], |chains| - 1)
      ensures padded ==>
        ok && old(reader.pos) < |reader.input| && PaddedFound(Fields(), chains[|chains| - 1],
                                                              reader.input[|reader.input| - 1])
      ensures var r := Run(reader.input, old(reader.pos), Shape(0, 0), InitialMode, old(Fields()),
                           textKeyDictionaryName,
                           versionDictionaryName, textCollectionDictionaryName, |old(chains)|);
        ok == r.ok && Fields() == r.found && padded == r.padded && |chains[|chains| - 1]| == r.shape.blocks + 1
    {
      var c, found;
      ok, c, found, padded := Scan(reader, textKeyDictionaryName, versionDictionaryName, textCollectionDictionaryName,
                           Fields(), |chains|);
      chains := chains + [c];
      textDictionary, versionDictionary, textCollectionDictionary := found.text, found.version, found.collection;
      RecordedStaysIn(old(chains), old(Fields()), found, c);
      assert Fields() == found && chains[|chains| - 1] == c;
    }

    /** `TextDictionaryValues`'s getter. */
    function TextDictionaryValues(): Option<seq<LineState>>
      reads this
    {
      LinesAt(chains, textDictionary.values)
    }

    function VersionDictionaryValues(): Option<seq<LineState>>
      reads this
    {
      LinesAt(chains, versionDictionary.values)
    }

    function TextCollectionDictionaryKeys(): Option<seq<LineState>>
      reads this
    {
      LinesAt(chains, textCollectionDictionary.keys)
    }

    function TextCollectionDictionaryValues(): Option<seq<LineState>>
      reads this
    {
      LinesAt(chains, textCollectionDictionary.values)
    }

    /** `TextDictionaryKeys`'s setter: the keys field takes `value`, then the
        keys line is rewritten; a null keys line throws after the field is
        set (`ok == false`). */
    method SetTextDictionaryKeys(value: string) returns (ok: bool)
      modifies this
      ensures textDictionary == old(textDictionary).(keys := Some(value))
      ensures versionDictionary == old(versionDictionary) && textCollectionDictionary == old(textCollectionDictionary)
      ensures ok <==> textDictionary.keysLine.Some?
      ensures ok ==> chains == RewriteKeysAt(old(chains), textDictionary.keysLine.value, value)
      ensures !ok ==> chains == old(chains)
      ensures old(Valid()) ==> Valid()
    {
      textDictionary := textDictionary.(keys := Some(value));
      if textDictionary.keysLine.None? {
        return false;
      }
      chains := RewriteKeysAt(chains, textDictionary.keysLine.value, value);
      ok := true;
    }

    /** `VersionDictionaryKeys`'s setter, the same on the version fields. */
    method SetVersionDictionaryKeys(value: string) returns (ok: bool)
      modifies this
      ensures versionDictionary == old(versionDictionary).(keys := Some(value))
      ensures textDictionary == old(textDictionary) && textCollectionDictionary == old(textCollectionDictionary)
      ensures ok <==> versionDictionary.keysLine.Some?
      ensures ok ==> chains == RewriteKeysAt(old(chains), versionDictionary.keysLine.value, value)
      ensures !ok ==> chains == old(chains)
      ensures old(Valid()) ==> Valid()
    {
      versionDictionary := versionDictionary.(keys := Some(value));
      if versionDictionary.keysLine.None? {
        return false;
      }
      chains := RewriteKeysAt(chains, versionDictionary.keysLine.value, value);
      ok := true;
    }

    /** `TextDictionaryValues`'s setter: the values block takes `value`; a
        null block makes it do nothing. */
    method SetTextDictionaryValues(value: seq<LineState>)
      modifies this
      ensures Fields() == old(Fields())
      ensures textDictionary.values.Some? ==> chains == ReplaceValuesAt(old(chains), textDictionary.values.value, value)
      ensures textDictionary.values.None? ==> chains == old(chains)
      ensures old(Valid()) ==> Valid()
    {
      if textDictionary.values.None? {
        return;
      }
      chains := ReplaceValuesAt(chains, textDictionary.values.value, value);
    }

    method SetVersionDictionaryValues(value: seq<LineState>)
      modifies this
      ensures Fields() == old(Fields())
      ensures versionDictionary.values.Some? ==> chains == ReplaceValuesAt(old(chains),
                                                                           versionDictionary.values.value,
                                                                           value)
      ensures versionDictionary.values.None? ==> chains == old(chains)
      ensures old(Valid()) ==> Valid()
    {
      if versionDictionary.values.None? {
        return;
      }
      chains := ReplaceValuesAt(chains, versionDictionary.values.value, value);
    }

    method SetTextCollectionDictionaryKeys(value: seq<LineState>)
      modifies this
      ensures Fields() == old(Fields())
      ensures textCollectionDictionary.keys.Some? ==>
        chains == ReplaceValuesAt(old(chains), textCollectionDictionary.keys.value, value)
      ensures textCollectionDictionary.keys.None? ==> chains == old(chains)
      ensures old(Valid()) ==> Valid()
    {
      if textCollectionDictionary.keys.None? {
        return;
      }
      chains := ReplaceValuesAt(chains, textCollectionDictionary.keys.value, value);
    }

    method SetTextCollectionDictionaryValues(value: seq<LineState>)
      modifies this
      ensures Fields() == old(Fields())
      ensures textCollectionDictionary.values.Some? ==>
        chains == ReplaceValuesAt(old(chains), textCollectionDictionary.values.value, value)
      ensures textCollectionDictionary.values.None? ==> chains == old(chains)
      ensures old(Valid()) ==> Valid()
    {
      if textCollectionDictionary.values.None? {
        return;
      }
      chains := ReplaceValuesAt(chains, textCollectionDictionary.values.value, value);
    }

    /** `Save`: the last chain, line after line; a document that was never
        parsed has no chain (`ok == false`). */
    method Save(writer: Writer) returns (ok: bool)
      modifies writer
      ensures ok <==> chains != []
      ensures ok ==> writer.lines == old(writer.lines) + Output()
      ensures !ok ==> writer.lines == old(writer.lines)
    {
      if chains == [] {
        return false;
      }
      WriteChain(chains[|chains| - 1], writer);
      ok := true;
    }
  }
}
