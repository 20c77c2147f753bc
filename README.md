# TextDataConflitResolver, modelled in Dafny

TextDataConflitResolver merges editor-generated asset files three ways. These are YAML documents
holding a text dictionary and a text-version dictionary. Their keys are packed as little-endian
32-bit integers in a hex string, and their values are lines of the document. The program takes a
base document and two variants. It reads the dictionaries of each, diffs each variant against the
base, and merges the two diffs: a key touched by only one side is accepted, a key touched by both is
a conflict. It then applies the accepted operations to the base, writes them back into the base
document, and renders the conflicts between git-style conflict markers.

The repository holds the engine twice, and this project models both generations:

- `TextDataConflictResolver/` is the current generation. Its dictionaries map keys to `Line`
  objects: a scalar made of raw fragments, read at a scalar depth. Its `Document` parser is a
  line-by-line state machine with quote tracking. It handles the text, version and text-collection
  dictionaries.
- `ConsoleApplication1/` is the older generation. Its dictionaries map keys to strings and to ints.
  Its version table packs both keys and values as hex. Its `Document` parser is simpler and has no
  quote tracking.
- Both use `SortedListDictionary`, an insertion-ordered map. It keeps a list of optional pairs plus a
  key-to-index table, and `Remove` leaves a tombstone in the list.

## Layout

One module per concept, following the source files:

- `wrappers.dfy`: Option.
- `strings.dfy`: the string helpers the source calls: concatenation, joining, `TrimStart(' ')`,
  `StartsWith`, `EndsWith` and `Contains`, all ordinal.
- `hex_keys.dfy` (HexKeys): the packed key codec (`ReverseHexString`, `ParseSerializedIntArray`,
  `ToString("x8")`, `int.Parse(…, HexNumber)`). It is shared by both generations, whose code is
  identical there.
- `sorted_list_dictionary.dfy` (SortedListDictionaries): `SortedListDictionary` as a class over an
  optional-pair list and an index map. The pair-list functions specify it.
- `lines.dfy` (Lines): the current `Line` class, and `LineState`, the value it holds. It also has
  the writer and reader the parser and serialiser use. The reader's input is a sequence of lines.
- `blocks.dfy` (Blocks): the `Block` class of ConsoleApplication1 and its recursive `Serialize`
  over the block chain. `Blocks.ChainTextIsText` ties it to `Chains`: what `Serialize` writes for a
  chain of objects is `Chains.Text` of the chain's value. Nothing else imports `Blocks`, since the
  parsers build the chain as that value.
- `chains.dfy` (Chains): the block chain as a value, a sequence of blocks of line values. These are
  the parsers' cursor and in-place edits of one block or line.
- `scanning.dfy` (Scanning): `CountStartSpaces`, `ContainsLine`, and the keys regex
  `([ _0-9a-zA-Z]+: )([0-9a-fA-F]+)` written out as its leftmost match and its replacement.
- `documents.dfy` (Documents): the current `Document`. `Decide` is the parser's decision for one
  line. `Act` is what it does to the chain. `Scan` is the loop, and `Document` the class with its
  setters and `Save`.
  The lemmas from `EndDictionaryExactly` to `CollectionKeysSteps` state `Decide` one case at a
  time, in the source's terms. Dafny proves them from `Decide`'s definition alone.
- `legacy_documents.dfy` (LegacyDocuments): the older `Document`, in the same shape, with the
  same kind of case-by-case lemmas about its `Decide`.
- `operations.dfy` (Operations): `OperationType` and `Operation<T,U>`, plus the specification
  functions of the diff, merge and apply, generic in the value type. `Diff` is the diff, with the
  expected operation per key. `Accepted` and `Conflicts` are the merge. `ApplyOps` is the apply, and
  `Merged` the value a three-way merge should produce.
- `engine.dfy` (Engine): the `foreach` loops of `GenerateDiffs`, `ComputeResults`, `Apply` and the
  `Parse*`/`Write*Dictionary` methods, as methods over dictionaries, proved against those functions.
- `rendering.dfy` (Rendering): `Operation.ToString`, decimal rendering, and the conflict-marker
  layout.
- `resolver.dfy` (Resolver): the current `YAMLParser` and `ModificationResult` over `Line` values.
- `legacy_resolver.dfy` (LegacyResolver): the older `YAMLParser` and `ModificationResult` over
  string and int values.

The central results:

- `Resolver.ThreeWayMerge` and `LegacyResolver.ThreeWayMerge`: diffing two variants against their
  base, merging the diffs and applying the accepted operations always succeeds. It leaves every key
  with `Operations.Merged`: the base's value where both variants changed the key, the changing
  variant's value where one did. A key both sides changed is a conflict even when the two changes
  are identical, as the code does.
- The diff:
  - `Resolver.DiffsPerKey` and `LegacyResolver.DiffsPerKey` give the operation filed per key.
  - `*.DiffsOfSelf` shows a document diffed against itself files nothing. In the current generation
    this needs every line to have a readable scalar value; otherwise `ScalarValue` throws.
- The merge: `*.ResultsPerKey` gives the per-key partition into accepted operations and conflicts,
  and `*.ResultsSwap` shows it is symmetric.
- The codec: `HexKeys.DecodeEncodeKeys` and `HexKeys.PairsReversedInvolution` are its inverse laws.
  `Resolver.WriteThenParse`, `LegacyResolver.TextWriteThenParse` and
  `LegacyResolver.VersionWriteThenParse` show that writing dictionaries then parsing them gives them
  back.
- The parsers: `Documents.Document.Parse` and `LegacyDocuments.Document.Parse` show that the chain
  the parser builds serialises to the input lines, in order, and that the fields they leave are the
  ones `Run`, the loop written as a function of the input, computes.
  - `Documents.RunReadsKeys`, `Documents.RunFindsCollection`, `LegacyDocuments.RunReadsText`,
    `LegacyDocuments.RunReadsVersionKeys` and `LegacyDocuments.RunReadsVersionValues` say which line
    each field comes from: the line of the last turn in that dictionary's keys (or values) state, or
    the old value when there was no such turn.
  - `Documents.RunFindsMarked` and `LegacyDocuments.RunFindsMarked` show that a raw line naming a
    dictionary, followed by at least one more line, makes the parse find that dictionary.
- `SortedListDictionaries.SortedListDictionary`: every operation keeps the list and the index table
  consistent, and is tied to a function on the live pairs.

## Model

| member | source | states |
|---|---|---|
| Strings.TrimStartSpaces | TextDataConflictResolver/SimpleParser/Document.cs:229 | the result is what is left of the string once its leading run of spaces is removed: a suffix, not starting with a space, and everything before it is a space |
| Lines.Reader.ReadLine | TextDataConflictResolver/SimpleParser/Document.cs:161 | reading returns the next input line and moves on by one, or returns null at the end without moving |
| Lines.Writer.WriteLine | TextDataConflictResolver/SimpleParser/Line.cs:57 | writing a line appends exactly that line to the output |
| Lines.Scalar | TextDataConflictResolver/SimpleParser/Line.cs:37-51 | the scalar value exists exactly when the depth is non-negative and no fragment is shorter than it (otherwise `Substring` throws) |
| Lines.ScalarOf | TextDataConflictResolver/SimpleParser/Line.cs:37-51 | defines `ScalarValue` of a line: `Scalar` of its fragments at its depth |
| Lines.ScalarDropsIndentation | TextDataConflictResolver/SimpleParser/Line.cs:42-48 | fragments made of a depth-wide indentation followed by a piece read as the pieces joined by single spaces |
| Lines.ScalarStep | TextDataConflictResolver/SimpleParser/Line.cs:44-47 | one loop step appends a space (except before the first fragment) and the fragment without its first `depth` characters |
| Lines.ShortOrNegativeFails | TextDataConflictResolver/SimpleParser/Line.cs:47 | one fragment shorter than the depth, or a negative depth, makes the whole scalar value fail |
| Lines.NewLine | TextDataConflictResolver/SimpleParser/Line.cs:12-16 | a new line's value is its input, its only fragment is that input, and it reads back as that input |
| Lines.WithValue | TextDataConflictResolver/SimpleParser/Line.cs:18-23 | setting a value replaces all fragments by that one string, keeps the depth, and reads back as the value minus its first `depth` characters |
| Lines.Appended | TextDataConflictResolver/SimpleParser/Line.cs:25-29 | appending adds one fragment at the end, concatenates it to the value with no separator, keeps the depth, and adds the trimmed fragment to the scalar after one space |
| Lines.Line.constructor | TextDataConflictResolver/SimpleParser/Line.cs:12-16 | the object holds `NewLine(value)` |
| Lines.Line.SetValue | TextDataConflictResolver/SimpleParser/Line.cs:18-23 | the object's new state is `WithValue` of its old state |
| Lines.Line.AppendValue | TextDataConflictResolver/SimpleParser/Line.cs:25-29 | the object's new state is `Appended` of its old state |
| Lines.Line.SetScalarDepth | TextDataConflictResolver/SimpleParser/Line.cs:32-35 | only the depth changes; value and fragments stay |
| Lines.Line.ScalarValue | TextDataConflictResolver/SimpleParser/Line.cs:37-51 | the loop over the fragments computes exactly `Scalar(fragments, depth)`, failing where `Substring` would throw |
| Lines.Line.Serialize | TextDataConflictResolver/SimpleParser/Line.cs:53-59 | the writer receives every fragment as its own line, in order, and nothing else |
| Blocks.Block.constructor | ConsoleApplication1/SimpleParser/Block.cs:8-11 | a new block has no links and no lines |
| Blocks.Block.Serialize | ConsoleApplication1/SimpleParser/Block.cs:13-21 | the writer receives the text of the whole chain from this block: its lines in list order, then everything from `Next` on, and nothing after a null `Next`; `Previous` is never read |
| Blocks.SerializeLines | ConsoleApplication1/SimpleParser/Block.cs:15-18 | the writer receives every line's fragments, line after line |
| Blocks.ChainTail | ConsoleApplication1/SimpleParser/Block.cs:20 | a null `Next` ends the chain; otherwise the rest of the chain starts at `Next` |
| Blocks.ChainTextCons | ConsoleApplication1/SimpleParser/Block.cs:13-20 | a chain's text is its first block's lines followed by the text of the rest of the chain |
| Blocks.ChainTextSplit | ConsoleApplication1/SimpleParser/Block.cs:11-20 | a chain's text splits into the blocks before block i, block i's lines, and the blocks after it |
| Blocks.LineStates | ConsoleApplication1/SimpleParser/Block.cs:11 | the value of a block holds one line value per `Line` object, each the object's fields, in list order |
| Blocks.ChainValue | ConsoleApplication1/SimpleParser/Block.cs:8-11 | the value of a chain of objects holds one block value per block, each the values of its lines |
| Blocks.LinesTextIsRawLines | ConsoleApplication1/SimpleParser/Block.cs:15-18 | what the `foreach` over a block's `Line` objects writes is what `Chains.RawLines` says of their values |
| Blocks.ChainTextIsText | ConsoleApplication1/SimpleParser/Block.cs:13-21 | serialising a chain of objects writes `Chains.Text` of the chain's value, so the value form the parsers use saves as the object form does |
| Blocks.NewBlock | ConsoleApplication1/SimpleParser/Document.cs:102-108 | the new block is fresh and empty, linked after the current one with `Previous` pointing back; the chain grows by it and its text is unchanged |
| Blocks.SetLines | ConsoleApplication1/SimpleParser/Block.cs:11 | replacing one block's lines changes only that block's segment of the serialised chain |
| Chains.ReplaceBlock | ConsoleApplication1/SimpleParser/Block.cs:11-20 | for chain values: replacing block i changes only block i's segment of the text |
| Chains.ReplaceLine | TextDataConflictResolver/SimpleParser/Line.cs:18-23 | for chain values: replacing one line of one block changes only that line's fragments in the text |
| Chains.Keep | TextDataConflictResolver/SimpleParser/Document.cs:189 | adding a line to the current block extends the text written so far by that line's fragments |
| Chains.NewBlock | TextDataConflictResolver/SimpleParser/Document.cs:136-142 | opening a new block closes the current one and leaves the text unchanged |
| Chains.AppendToLast | TextDataConflictResolver/SimpleParser/Document.cs:284-286 | appending a fragment to the last entry extends the text by exactly that line |
| HexKeys.HexValueOfDigits | TextDataConflictResolver/YAMLParser.cs:375 | reading back the n-digit hex rendering of a number below 16^n gives the number |
| HexKeys.UnsignedRoundTrip | TextDataConflictResolver/YAMLParser.cs:335 | the two's-complement conversion of an int32 to 32 unsigned bits and back is the identity |
| HexKeys.FormatX8 | TextDataConflictResolver/YAMLParser.cs:335 | `ToString("x8")` gives exactly eight hex digits |
| HexKeys.ParseFormatX8 | TextDataConflictResolver/YAMLParser.cs:375 | `int.Parse(…, HexNumber)` of `ToString("x8")` gives the int32 back, negative values included |
| HexKeys.ParseHexInt32 | TextDataConflictResolver/YAMLParser.cs:375 | defines `int.Parse(…, HexNumber)`: white space around (and NULs at the end) skipped, a non-empty run of hex digits whose value fits in 32 bits, read as a two's complement `int`; `None` otherwise |
| HexKeys.PairsReversed | TextDataConflictResolver/YAMLParser.cs:383-392 | reversing pairs keeps the even part of the length (an odd leading character is dropped) |
| HexKeys.ReverseHexString | TextDataConflictResolver/YAMLParser.cs:383-392 | the loop from the last pair down computes `PairsReversed` |
| HexKeys.PairsReversedAppend | TextDataConflictResolver/YAMLParser.cs:386-389 | reversing a concatenation whose second part has even length is the reversed second part followed by the reversed first part |
| HexKeys.PairsReversedInvolution | TextDataConflictResolver/YAMLParser.cs:383-392 | on even-length strings, reversing pairs twice is the identity |
| HexKeys.PairsReversedOdd | TextDataConflictResolver/YAMLParser.cs:386 | on odd-length strings, the first character is ignored |
| HexKeys.Windows | TextDataConflictResolver/YAMLParser.cs:370-374 | the first 8n characters give n eight-character windows |
| HexKeys.DecodeAll | TextDataConflictResolver/YAMLParser.cs:372-376 | a successful decoding gives one key per window |
| HexKeys.DecodeWindow | TextDataConflictResolver/YAMLParser.cs:374-375 | defines one eight-character window's key: its byte pairs reversed, then parsed as hex |
| HexKeys.DecodeKeys | TextDataConflictResolver/YAMLParser.cs:368-379 | a successful decoding gives `len / 8` keys |
| HexKeys.ParseSerializedIntArray | TextDataConflictResolver/YAMLParser.cs:368-379 | the loop computes `DecodeKeys`, failing where `int.Parse` throws |
| HexKeys.DecodeFailureSticks | TextDataConflictResolver/YAMLParser.cs:372-376 | once one window fails to parse, the whole array fails |
| HexKeys.EncodeKey | TextDataConflictResolver/YAMLParser.cs:360 | one key packs into eight characters |
| HexKeys.EncodeKeys | TextDataConflictResolver/YAMLParser.cs:358-360 | n keys pack into 8n characters |
| HexKeys.DecodeEncodeKey | TextDataConflictResolver/YAMLParser.cs:374-375 | decoding the window a key packs into gives the key back |
| HexKeys.WindowsOfEncoding | TextDataConflictResolver/YAMLParser.cs:358-360 | the windows of a packed key list are the packed keys, in order |
| HexKeys.DecodeAllEncoded | TextDataConflictResolver/YAMLParser.cs:372-376 | decoding the windows of packed keys gives the keys back, in order |
| HexKeys.DecodeEncodeKeys | TextDataConflictResolver/YAMLParser.cs:353-379 | for every int32 list, decoding its packed form gives the same list in order |
| HexKeys.DecodeIgnoresTrailing | TextDataConflictResolver/YAMLParser.cs:370 | after whole windows, fewer than eight trailing characters are ignored |
| Scanning.CountStartSpaces | TextDataConflictResolver/SimpleParser/Document.cs:122-134 | the result is the length of the leading run of spaces: at most the line length, spaces before it, no space at it, and the rest is the `TrimStart(' ')` of the line |
| Scanning.IndentationIsTrimmed | TextDataConflictResolver/SimpleParser/Document.cs:122-134 | a line without its leading run of spaces is its `TrimStart(' ')` |
| Scanning.ContainsLine | TextDataConflictResolver/SimpleParser/Document.cs:146-155 | true exactly when `name + ":"` occurs in the line for some configured name |
| Scanning.KeyNameRunEnd | TextDataConflictResolver/SimpleParser/Document.cs:144 | the greedy `[ _0-9a-zA-Z]+` run from a position ends at the first other character |
| Scanning.HexRunEnd | TextDataConflictResolver/SimpleParser/Document.cs:144 | the greedy `[0-9a-fA-F]+` run from a position ends at the first non-hex character |
| Scanning.KeyNameRunUnique | TextDataConflictResolver/SimpleParser/Document.cs:144 | a name run has one end |
| Scanning.HexRunUnique | TextDataConflictResolver/SimpleParser/Document.cs:144 | a hex run has one end |
| Scanning.MatchAt | TextDataConflictResolver/SimpleParser/Document.cs:144 | a match starts at its position with at least one character before `": "`, followed by a non-empty hex run inside the line |
| Scanning.FirstMatch | TextDataConflictResolver/SimpleParser/Document.cs:195 | the match found is the leftmost one; no match anywhere when none is found |
| Scanning.KeysOf | TextDataConflictResolver/SimpleParser/Document.cs:195-197 | group 2 of the keys regex is hex, and empty exactly when the line does not match |
| Scanning.ReplaceLastMatch | TextDataConflictResolver/SimpleParser/Document.cs:60 | on a line ending in its first match, `Replace(s, "$1")` keeps the line up to the hex run |
| Scanning.MatchAtAgrees | TextDataConflictResolver/SimpleParser/Document.cs:144 | whether a match starts at a position depends only on the line up to the end of that position's name run plus two |
| Scanning.KeyNameRunShared | TextDataConflictResolver/SimpleParser/Document.cs:144 | positions inside a name run share its end |
| Scanning.RunThroughMatch | TextDataConflictResolver/SimpleParser/Document.cs:144 | a name run reaching past the start of a match yields a match of its own |
| Scanning.KeysOfRewrite | TextDataConflictResolver/SimpleParser/Document.cs:58-61 | after the setter rewrites a keys line ending in its hex run, the line is its part up to the end of `": "` followed by the new value, and the keys read back from it are the new hex value, including the empty value an emptied dictionary writes (then nothing matches and the read gives the empty string) |
| Scanning.ReplaceFrom | TextDataConflictResolver/SimpleParser/Document.cs:60 | defines `Regex.Replace(s, "$1")` from a position on: each leftmost match keeps group 1 and drops group 2, and the scan resumes after it |
| Scanning.ReplaceKeys | TextDataConflictResolver/SimpleParser/Document.cs:60 | defines the replacement over the whole line |
| Scanning.RewriteKeys | TextDataConflictResolver/SimpleParser/Document.cs:60 | defines the setters' new line: the replacement followed by the new keys |
| Scanning.RewriteEmptyMatchesNowhere | TextDataConflictResolver/SimpleParser/Document.cs:58-61 | a keys line cut after its `": "` (the setter writing empty keys) has no match left anywhere |
| Scanning.RewriteKeepsEarlierFailures | TextDataConflictResolver/SimpleParser/Document.cs:60 | the rewrite creates no match before the original one |
| Scanning.RewriteMatchesAtStart | TextDataConflictResolver/SimpleParser/Document.cs:60-61 | the rewritten line matches at the original start, with the new value as its hex run |
| Scanning.MatchAtRuns | TextDataConflictResolver/SimpleParser/Document.cs:144 | a name run followed by `": "` and a hex digit is a match ending at the hex run's end |
| Scanning.FirstMatchIsLeftmost | TextDataConflictResolver/SimpleParser/Document.cs:195 | a match with none before it is the one found |
| Scanning.FirstMatchFrom | TextDataConflictResolver/SimpleParser/Document.cs:195 | the same, from any starting position |
| Documents.DecidePreservesInvariant | TextDataConflictResolver/SimpleParser/Document.cs:162-341 | the parser is in escape only with a quote as escape character, in a state whose entries may be quoted |
| Documents.EntryStepKeepsInvariant | TextDataConflictResolver/SimpleParser/Document.cs:273-293 | an entry line keeps the state and the escape invariant |
| Documents.CommentStepKeepsInvariant | TextDataConflictResolver/SimpleParser/Document.cs:316-338 | a comment line keeps the escape invariant |
| Documents.EndDictionaryExactly | TextDataConflictResolver/SimpleParser/Document.cs:264-270 | a line ends the dictionary exactly when the parser is in a values state, the line's indentation is at most the dictionary's, and no quote is open; it then goes back to raw, without consuming the line |
| Documents.RawLinesAndMarkers | TextDataConflictResolver/SimpleParser/Document.cs:169-190 | a raw line is kept as it is; a version or collection marker opens a new block first, a text marker does not; a marker records the line's depth and moves to that dictionary's keys state |
| Documents.EntriesAndContinuations | TextDataConflictResolver/SimpleParser/Document.cs:273-287 | in the values states, a `-` line outside a quote starts an entry with scalar depth indentation + 2; any other line is a fragment of the previous entry |
| Documents.EntryOpensEscape | TextDataConflictResolver/SimpleParser/Document.cs:275-293 | an entry with `'` or `"` at its value offset opens a quote, unless the same line already ends with that character |
| Documents.EscapeAppendsUntilQuote | TextDataConflictResolver/SimpleParser/Document.cs:289-293 | inside a quote every line is a fragment of the entry, and the quote closes exactly on the first line ending with its character |
| Documents.VersionCommentAlternation | TextDataConflictResolver/SimpleParser/Document.cs:298-341 | a version line starts an entry and moves to the comment state; comment lines are fragments of it, with the quote looked for nine columns in; the parser returns to the version state exactly when no quote is open |
| Documents.KeysStatesMoveOn | TextDataConflictResolver/SimpleParser/Document.cs:192-219 | the keys states read their line unconditionally and move to the matching values state |
| Documents.KeysActionsExactly | TextDataConflictResolver/SimpleParser/Document.cs:169-297 | a keys action is taken exactly in the text or version keys state, never from a raw line or a values state |
| Documents.CollectionKeysSteps | TextDataConflictResolver/SimpleParser/Document.cs:220-263 | the first collection line opens its keys block; later `m_values:` lines outside a quote open the values; other lines are entries |
| Documents.ActKeepsText | TextDataConflictResolver/SimpleParser/Document.cs:189-297 | each action adds exactly the current line to the text written so far; ending the dictionary adds nothing; appending fails only with no entry to append to |
| Documents.FindMarker | TextDataConflictResolver/SimpleParser/Document.cs:171-187 | the loop computes `MarkerOf`, which tries the text names, then the version names, then the collection names |
| Documents.LineMarker | TextDataConflictResolver/SimpleParser/Document.cs:169-187 | the marker is looked for only in the raw state, and is then `MarkerOf` the line; in any other state there is none |
| Documents.MarkerOf | TextDataConflictResolver/SimpleParser/Document.cs:171-187 | defines the marker test: the first of the text, version and collection name lists (in that order) of which some name followed by a colon occurs in the line |
| Documents.Decide | TextDataConflictResolver/SimpleParser/Document.cs:165-341 | defines one turn of the `while` loop's state machine: the action on the chain and the next mode, for every state, marker, line and depth |
| Documents.EntryStep | TextDataConflictResolver/SimpleParser/Document.cs:273-293 | defines the values states' line: a `-` line outside a quote starts an entry at scalar depth indentation + 2 and may open a quote, any other line is a fragment of the previous entry |
| Documents.CommentStep | TextDataConflictResolver/SimpleParser/Document.cs:316-340 | defines the comment state's line: a fragment of the version entry, with the quote looked for nine columns in when none is open |
| Documents.CloseEscape | TextDataConflictResolver/SimpleParser/Document.cs:289-293 | defines the quote test at the end of a line: an open quote closes when the line ends with its character |
| Documents.Act | TextDataConflictResolver/SimpleParser/Document.cs:189-297 | defines what an action does to the chain: keep the line, open a block first, append a fragment (throws with no entry) or close the block |
| Documents.ReadKeys | TextDataConflictResolver/SimpleParser/Document.cs:192-219 | the keys line and the line after it stay in the current block, the keys line is recorded, and a fresh block is opened for the values; the text grows by the lines consumed, or (`padded`) by the keys line and an empty line when the keys line was the last one |
| Documents.Classify | TextDataConflictResolver/SimpleParser/Document.cs:165-190 | one line's indentation and markers give `Decide`'s step |
| Documents.KeysTurn | TextDataConflictResolver/SimpleParser/Document.cs:192-219 | a keys turn keeps the keys line and its `m_values:` header in the current block and opens an empty values block (`KeysTurned`); the fields become `KeysNoted`: that dictionary found, its keys group 2 of the key regex on the keys line, its keys line that line's position, its values block the new one; the reader moves two lines on, or one when the keys line was the last input line (`padded`), where the null header is written as an empty line before the end of the chain |
| Documents.Turn | TextDataConflictResolver/SimpleParser/Document.cs:166-341 | one turn classifies the line, acts on it and reads the next; its outcome is `TurnAt` of that line, so the trace of outcomes stays `Linked`; the text equals the lines consumed (plus the empty line of a padded keys turn, which ends the input), what was recorded stays recorded, and the reader moves on unless a dictionary is closed |
| Documents.ActTurn | TextDataConflictResolver/SimpleParser/Document.cs:220-341 | any other turn is `Act` on the cursor (`ActTurned`): it fails, changing nothing, exactly when `Act` fails (a continuation in an empty block); otherwise it notes the collection's keys or values block when that opens (`NoteCollection`), moves the reader one line on except after `EndDictionary`, and keeps the text equal to the lines consumed |
| Documents.KeysRecordedGrows | TextDataConflictResolver/SimpleParser/Document.cs:199-204 | a recorded dictionary stays recorded while later blocks are added |
| Documents.RecordedGrows | TextDataConflictResolver/SimpleParser/Document.cs:199-235 | the same for every recorded field |
| Documents.NoteCollectionRecorded | TextDataConflictResolver/SimpleParser/Document.cs:224-235 | the collection's keys and values blocks are recorded where they were opened |
| Documents.NoteCollectionKeepsKeyed | TextDataConflictResolver/SimpleParser/Document.cs:224-235 | noting the collection's blocks leaves the text and version fields alone, and the collection is found whenever it was or the action opens its keys |
| Documents.ActShapeOf | TextDataConflictResolver/SimpleParser/Document.cs:189-297 | `ActShape` is `Act` on sizes: it fails on the same cursors, and otherwise gives the sizes of `Act`'s cursor |
| Documents.TurnAt | TextDataConflictResolver/SimpleParser/Document.cs:166-341 | one turn of the loop on line `i` never moves back nor past the input, and when it succeeds it moves on, unless it closes a dictionary and returns to the raw state to look at the same line again |
| Documents.TurnAtKeys | TextDataConflictResolver/SimpleParser/Document.cs:192-219 | the turn function on a keys line is what the keys turn leaves (`KeysTurned`) |
| Documents.TurnAtAct | TextDataConflictResolver/SimpleParser/Document.cs:220-341 | the turn function on any other line is what `Act` leaves (`ActTurned`) |
| Documents.RunAfterTurn | TextDataConflictResolver/SimpleParser/Document.cs:157-343 | the loop from a line is one turn and then, unless the turn failed or a keys line ended the input, the loop from where it left off |
| Documents.RunAtEnd | TextDataConflictResolver/SimpleParser/Document.cs:165 | the loop stops at the end of the input with nothing changed |
| Documents.LinkedRun | TextDataConflictResolver/SimpleParser/Document.cs:157-343 | a trace of turns, each the turn after the one before, from the initial outcome to one where the loop stops, ends at what `Run` computes |
| Documents.Visits | TextDataConflictResolver/SimpleParser/Document.cs:157-343 | the turns of the loop in order, the first on line `i` in mode `m` when the input is not exhausted |
| Documents.VisitsAfterTurn | TextDataConflictResolver/SimpleParser/Document.cs:157-343 | the turns from a line are that line's turn and then, unless it failed or ended the input, the turns from where it left off |
| Documents.LastIn | TextDataConflictResolver/SimpleParser/Document.cs:192-219 | finds a visit in state `st` exactly when there is one, and it is the last such visit |
| Documents.TurnKeyed | TextDataConflictResolver/SimpleParser/Document.cs:192-219 | a turn in a keys state reads the line as that dictionary's keys, line and values block; no other turn touches that dictionary's fields |
| Documents.TurnCollection | TextDataConflictResolver/SimpleParser/Document.cs:220-235 | a turn finds the collection exactly in the collection's keys state, and never forgets it |
| Documents.TurnRaw | TextDataConflictResolver/SimpleParser/Document.cs:169-191 | a raw line is always kept, the reader moves one line on, and the next state is the one the line's marker names |
| Documents.RunReadsKeys | TextDataConflictResolver/SimpleParser/Document.cs:157-343 | after the whole parse the text (or version) fields are the ones it started from when no turn was in that keys state; otherwise the dictionary is found, with the keys of the line of the last such turn, a keys line and a values block |
| Documents.RunFindsCollection | TextDataConflictResolver/SimpleParser/Document.cs:157-343 | after the whole parse the collection is found exactly when it was before or some turn was in the collection's keys state |
| Documents.VisitFollowsMarker | TextDataConflictResolver/SimpleParser/Document.cs:169-191 | a visited raw line that is not the input's last line is followed by a visit to the next line, in the state its marker names |
| Documents.RunFindsMarked | TextDataConflictResolver/SimpleParser/Document.cs:157-343 | a visited raw line that mentions a dictionary's name and is not the input's last line makes the parse find that dictionary |
| Documents.ScanLines | TextDataConflictResolver/SimpleParser/Document.cs:159-342 | the loop of the parse: on success it consumes the input and its cursor writes the input lines (plus one empty line when `padded`); it returns a trace of outcomes that starts at the initial mode and the reader's position, whose every outcome is `TurnAt` after the one before, and which ends where `Run` stops, with the result as its last outcome |
| Documents.Scan | TextDataConflictResolver/SimpleParser/Document.cs:157-343 | the loop's result is `Run` of the input from the reader's position: `ok`, the fields and `padded` are `Run`'s, and the chain has `Run`'s block count plus one; on success the whole input is consumed and the chain reads as the input lines in order, plus one empty line exactly when `padded`; `padded` holds only when the input's last line was a keys line, recorded as the last-but-one line of the last-but-one block and followed by the empty null header, with the empty last block as values; on failure the text is a prefix of the input; every field recorded points into the chain |
| Documents.WriteLines | ConsoleApplication1/SimpleParser/Block.cs:15-18 | writing a block writes its lines' fragments in order |
| Documents.WriteChain | ConsoleApplication1/SimpleParser/Block.cs:13-21 | writing a chain writes its text |
| Documents.RewriteKeysAt | TextDataConflictResolver/SimpleParser/Document.cs:56-62 | the keys setter replaces the recorded line by the regex prefix plus the new keys, and changes the output at that line only |
| Documents.SetKeysStaysRecorded | TextDataConflictResolver/SimpleParser/Document.cs:56-62 | after the setter, the keys read from the rewritten line are the keys stored, for every hex value including the empty one |
| Documents.LinesAt | TextDataConflictResolver/SimpleParser/Document.cs:65-67 | a values getter gives that block's lines, and fails for a null block |
| Documents.ReplaceValuesAt | TextDataConflictResolver/SimpleParser/Document.cs:68-72 | a values setter replaces that block's lines and changes the output at that block only |
| Documents.ValuesReadBack | TextDataConflictResolver/SimpleParser/Document.cs:65-73 | a values getter after the setter gives the lines set; other blocks are unchanged |
| Documents.Document.constructor | TextDataConflictResolver/SimpleParser/Document.cs:46-51 | the three marker lists are stored and no dictionary is found yet |
| Documents.Document.Parse | TextDataConflictResolver/SimpleParser/Document.cs:157-343 | a parse adds one chain and keeps the earlier ones; the new fields, `ok`, `padded` and the new chain's block count are `Run`'s from the old fields; on success it consumes the input and the output is the input lines in order, plus one empty line exactly when `padded`; `padded` holds only when the last input line is a keys line recorded in the new chain with the null header after it and the empty values block last; on failure the output is a prefix of the input; the dictionaries found are recorded in the new chain |
| Documents.RecordedStaysIn | TextDataConflictResolver/SimpleParser/Document.cs:157-343 | when the fields before the parse name blocks of the earlier chains and the parse records the rest in the new chain, all the fields name blocks of the chains after it |
| Documents.Document.SetTextDictionaryKeys | TextDataConflictResolver/SimpleParser/Document.cs:53-63 | stores the keys, rewrites the keys line (fails on a null line), and changes nothing else |
| Documents.Document.SetVersionDictionaryKeys | TextDataConflictResolver/SimpleParser/Document.cs:75-85 | the same for the version dictionary |
| Documents.Document.SetTextDictionaryValues | TextDataConflictResolver/SimpleParser/Document.cs:65-73 | replaces the values block's lines, a no-op for a null block |
| Documents.Document.TextDictionaryValues | TextDataConflictResolver/SimpleParser/Document.cs:65-67 | defines the getter: the lines of the recorded values block, failing for a null block |
| Documents.Document.SetVersionDictionaryValues | TextDataConflictResolver/SimpleParser/Document.cs:87-95 | the same for the version dictionary |
| Documents.Document.VersionDictionaryValues | TextDataConflictResolver/SimpleParser/Document.cs:87-89 | defines the getter: the lines of the recorded version values block, failing for a null block |
| Documents.Document.SetTextCollectionDictionaryKeys | TextDataConflictResolver/SimpleParser/Document.cs:97-105 | the same for the collection's keys block |
| Documents.Document.TextCollectionDictionaryKeys | TextDataConflictResolver/SimpleParser/Document.cs:97-99 | defines the getter: the lines of the collection's keys block, failing for a null block |
| Documents.Document.SetTextCollectionDictionaryValues | TextDataConflictResolver/SimpleParser/Document.cs:107-115 | the same for the collection's values block |
| Documents.Document.TextCollectionDictionaryValues | TextDataConflictResolver/SimpleParser/Document.cs:107-109 | defines the getter: the lines of the collection's values block, failing for a null block |
| Documents.Document.Save | TextDataConflictResolver/SimpleParser/Document.cs:117-120 | the writer receives the output of the chain; fails before any parse |
| LegacyDocuments.RawLinesAndMarkers | ConsoleApplication1/SimpleParser/Document.cs:132-148 | a raw line is kept; a version marker opens a new block before its line is added, a text marker does not; each records the depth and moves to its keys state |
| LegacyDocuments.EndDictionaryExactly | ConsoleApplication1/SimpleParser/Document.cs:162-168 | in a values state a line indented at most the dictionary depth ends the dictionary, back to raw and without being consumed |
| LegacyDocuments.EntriesAndContinuations | ConsoleApplication1/SimpleParser/Document.cs:171-182 | a `-` line starts an entry with scalar depth indentation + 2, any other line is appended to the last entry; there is no quote tracking |
| LegacyDocuments.VersionValuesLine | ConsoleApplication1/SimpleParser/Document.cs:203-213 | the single version values line is read and the parser returns to raw |
| LegacyDocuments.KeysStatesMoveOn | ConsoleApplication1/SimpleParser/Document.cs:149-195 | the keys states read their line unconditionally and move to the matching values state |
| LegacyDocuments.DecideConsistent | ConsoleApplication1/SimpleParser/Document.cs:128-217 | the version values state is entered only by the version keys line and always left back to raw |
| LegacyDocuments.ActKeepsText | ConsoleApplication1/SimpleParser/Document.cs:146-212 | each action adds exactly the current line to the text, none when ending a dictionary, and fails only when appending with no entry; the version keys line joins the current block, the version values line closes it, and ending a dictionary closes the block |
| LegacyDocuments.LineRecordedGrows | ConsoleApplication1/SimpleParser/Document.cs:186-213 | a recorded line stays recorded while the chain grows |
| LegacyDocuments.TextRecordedGrows | ConsoleApplication1/SimpleParser/Document.cs:149-161 | the recorded text dictionary stays recorded while the chain grows |
| LegacyDocuments.RecordedIsFinal | ConsoleApplication1/SimpleParser/Document.cs:186-213 | what the loop records is recorded in the final chain |
| LegacyDocuments.Classify | ConsoleApplication1/SimpleParser/Document.cs:130-148 | one line's indentation and markers give `Decide`'s step |
| LegacyDocuments.MarkerOf | ConsoleApplication1/SimpleParser/Document.cs:132-145 | defines the marker test: the text names first, then the version names |
| LegacyDocuments.Decide | ConsoleApplication1/SimpleParser/Document.cs:128-217 | defines one turn of the loop's state machine: the action on the chain and the next mode, for every state, marker, line and depth |
| LegacyDocuments.Act | ConsoleApplication1/SimpleParser/Document.cs:146-212 | defines what an action does to the chain: keep the line, open a block first, append a fragment (throws with no entry), close the block after the line, or close the block |
| LegacyDocuments.TextKeysTurn | ConsoleApplication1/SimpleParser/Document.cs:149-161 | the text keys turn keeps its two lines in the current block and opens an empty values block (`TextKeysTurned`); the text fields become `TextNoted`: keys group 2 of the key regex on the keys line, that line's position and the block after it; the reader moves two lines on, or one when the keys line was the last input line (`padded`), where the null header is written as an empty line before the end of the chain |
| LegacyDocuments.NoteVersionRecorded | ConsoleApplication1/SimpleParser/Document.cs:186-213 | the version keys and values lines are recorded where they were added |
| LegacyDocuments.NoteVersionKeysRecorded | ConsoleApplication1/SimpleParser/Document.cs:186-195 | while the next state is the version values state the version keys line is pending in the current block; otherwise the keys fields are the ones the parse started from or recorded in the closed blocks |
| LegacyDocuments.NoteVersionValuesRecorded | ConsoleApplication1/SimpleParser/Document.cs:196-214 | the version values line is recorded where it is kept, or the fields are the ones the parse started from |
| LegacyDocuments.ActTurn | ConsoleApplication1/SimpleParser/Document.cs:128-217 | any other turn is `Act` on the cursor (`ActTurned`): it fails, changing nothing, exactly when `Act` fails; otherwise the version keys or values line is noted where it is kept (`NoteVersion`), the reader moves one line on except after `EndDictionary`, the text stays equal to the lines consumed, and what was recorded stays recorded for the state the step moves to |
| LegacyDocuments.ActShapeOf | ConsoleApplication1/SimpleParser/Document.cs:146-212 | `ActShape` is `Act` on sizes: it fails on the same cursors, and otherwise gives the sizes of `Act`'s cursor |
| LegacyDocuments.TurnAt | ConsoleApplication1/SimpleParser/Document.cs:128-217 | one turn of the loop on line `i` never moves back nor past the input, and when it succeeds it moves on, unless it closes a dictionary and returns to the raw state to look at the same line again |
| LegacyDocuments.TurnAtTextKeys | ConsoleApplication1/SimpleParser/Document.cs:149-161 | the turn function on the text keys line is what the keys turn leaves (`TextKeysTurned`) |
| LegacyDocuments.TurnAtAct | ConsoleApplication1/SimpleParser/Document.cs:162-214 | the turn function on any other line is what `Act` leaves (`ActTurned`) |
| LegacyDocuments.RunAfterTurn | ConsoleApplication1/SimpleParser/Document.cs:122-218 | the loop from a line is one turn and then, unless the turn failed or the text keys line ended the input, the loop from where it left off |
| LegacyDocuments.RunAtEnd | ConsoleApplication1/SimpleParser/Document.cs:128 | the loop stops at the end of the input with nothing changed |
| LegacyDocuments.LinkedRun | ConsoleApplication1/SimpleParser/Document.cs:122-218 | a trace of turns, each the turn after the one before, from the initial outcome to one where the loop stops, ends at what `Run` computes |
| LegacyDocuments.Visits | ConsoleApplication1/SimpleParser/Document.cs:122-218 | the turns of the loop in order, the first on line `i` in mode `m` when the input is not exhausted |
| LegacyDocuments.VisitsAfterTurn | ConsoleApplication1/SimpleParser/Document.cs:122-218 | the turns from a line are that line's turn and then, unless it failed or ended the input, the turns from where it left off |
| LegacyDocuments.LastIn | ConsoleApplication1/SimpleParser/Document.cs:149-214 | finds a visit in state `st` exactly when there is one, and it is the last such visit |
| LegacyDocuments.TurnText | ConsoleApplication1/SimpleParser/Document.cs:149-161 | a turn in the text keys state reads the line as the text keys, line and values block; no other turn touches the text fields |
| LegacyDocuments.TurnVersion | ConsoleApplication1/SimpleParser/Document.cs:186-214 | a turn in the version keys state reads the version keys, one in the version values state on a line deeper than the dictionary reads the packed values; no other turn touches those fields |
| LegacyDocuments.TurnRaw | ConsoleApplication1/SimpleParser/Document.cs:132-148 | a raw line is always kept, the reader moves one line on, and the next state is the one the line's marker names |
| LegacyDocuments.RunReadsText | ConsoleApplication1/SimpleParser/Document.cs:122-218 | after the whole parse the text fields are the ones it started from when no turn was in the text keys state; otherwise they hold the keys of the line of the last such turn, a keys line and a values block |
| LegacyDocuments.RunReadsVersionKeys | ConsoleApplication1/SimpleParser/Document.cs:122-218 | after the whole parse the version keys are the ones it started from when no turn was in the version keys state; otherwise they are the keys of the line of the last such turn, with a keys line |
| LegacyDocuments.RunReadsVersionValues | ConsoleApplication1/SimpleParser/Document.cs:122-218 | after the whole parse the packed version values are the ones it started from when no turn was in the version values state; when the last such turn was on a deeper line, they are that line's |
| LegacyDocuments.VisitFollowsMarker | ConsoleApplication1/SimpleParser/Document.cs:132-148 | a visited raw line that is not the input's last line is followed by a visit to the next line, in the state its marker names |
| LegacyDocuments.RunFindsMarked | ConsoleApplication1/SimpleParser/Document.cs:122-218 | a visited raw line that mentions the text or the version names and is not the input's last line makes the parse read that dictionary's keys |
| LegacyDocuments.Turn | ConsoleApplication1/SimpleParser/Document.cs:128-217 | one turn classifies the line, acts on it and reads the next; its outcome is `TurnAt` of that line, so the trace of outcomes stays `Linked`; the text equals the lines consumed (plus the empty line of a padded keys turn, which ends the input), what was recorded stays recorded, and the reader moves on unless a dictionary is closed |
| LegacyDocuments.Scan | ConsoleApplication1/SimpleParser/Document.cs:122-218 | the loop's result is `Run` of the input from the reader's position: `ok`, the fields and `padded` are `Run`'s, and the chain has `Run`'s block count plus one; on success the whole input is consumed and the chain reads as the input lines in order, plus one empty line exactly when `padded`; `padded` holds only when the last input line was the text keys line, recorded as the last-but-one line of the last-but-one block and followed by the empty null header, with the text values block the empty last block; on failure the text is a prefix of the input; every field recorded points into the chain |
| LegacyDocuments.ScanLines | ConsoleApplication1/SimpleParser/Document.cs:124-217 | the loop of the parse: on success it consumes the input and its cursor writes the input lines (plus one empty line when `padded`); it returns a trace of outcomes that starts at the initial mode and the reader's position, whose every outcome is `TurnAt` after the one before, and which ends where `Run` stops, with the result as its last outcome |
| LegacyDocuments.SetTextKeysStaysRecorded | ConsoleApplication1/SimpleParser/Document.cs:43-49 | after the setter the keys read from the rewritten line are the keys stored, for every hex value including the empty one |
| LegacyDocuments.SetLineStaysRecorded | ConsoleApplication1/SimpleParser/Document.cs:62-82 | the same for the version keys and values lines, including the empty value |
| LegacyDocuments.Document.constructor | ConsoleApplication1/SimpleParser/Document.cs:34-38 | the two marker lists are stored and nothing is found yet |
| LegacyDocuments.Document.Parse | ConsoleApplication1/SimpleParser/Document.cs:122-218 | a parse adds one chain and keeps the earlier ones; the new fields, `ok`, `padded` and the new chain's block count are `Run`'s from the old fields; on success it consumes the input and the output is the input lines in order, plus one empty line exactly when `padded`; `padded` holds only when the last input line is the text keys line recorded in the new chain with the null header after it; on failure the output is a prefix; the keys and values found are recorded in the new chain |
| LegacyDocuments.Document.SetTextDictionaryKeys | ConsoleApplication1/SimpleParser/Document.cs:40-50 | stores the new string and rewrites its line as regex group 1 plus the string; fails on a null line |
| LegacyDocuments.Document.SetTextDictionaryValues | ConsoleApplication1/SimpleParser/Document.cs:52-60 | replaces the values block's lines, a no-op for a null block |
| LegacyDocuments.Document.TextDictionaryValues | ConsoleApplication1/SimpleParser/Document.cs:52-54 | defines the getter: the lines of the recorded values block, failing for a null block |
| LegacyDocuments.Document.SetVersionDictionaryKeys | ConsoleApplication1/SimpleParser/Document.cs:62-71 | stores and rewrites the version keys line |
| LegacyDocuments.Document.SetVersionDictionaryValues | ConsoleApplication1/SimpleParser/Document.cs:73-82 | stores and rewrites the version values line |
| LegacyDocuments.Document.Save | ConsoleApplication1/SimpleParser/Document.cs:84-87 | the writer receives the chain's output; fails before any parse |
| SortedListDictionaries.Lookup | ConsoleApplication1/Utils/SortedListDictionary.cs:45-59 | a lookup finds a value exactly for the keys present, and the pair is in the list |
| SortedListDictionaries.Without | ConsoleApplication1/Utils/SortedListDictionary.cs:18-25 | dropping a key removes exactly that key and keeps keys distinct |
| SortedListDictionaries.WithValue | ConsoleApplication1/Utils/SortedListDictionary.cs:27-36 | overwriting a key changes that key's pairs in place and nothing else |
| SortedListDictionaries.LivePairsIndex | ConsoleApplication1/Utils/SortedListDictionary.cs:61-69 | every live pair comes from a slot |
| SortedListDictionaries.LivePairsOfSlot | ConsoleApplication1/Utils/SortedListDictionary.cs:61-69 | a live slot appears among the live pairs at the position its live predecessors give |
| SortedListDictionaries.LiveKeysAreIndexed | ConsoleApplication1/Utils/SortedListDictionary.cs:9-10 | with a consistent index, the keys of the live pairs are the indexed keys, each once |
| SortedListDictionaries.LiveDistinct | ConsoleApplication1/Utils/SortedListDictionary.cs:9-10 | with a consistent index, the live pairs have distinct keys |
| SortedListDictionaries.CountIsLiveCount | ConsoleApplication1/Utils/SortedListDictionary.cs:43 | `Count` is the number of live pairs |
| SortedListDictionaries.DistinctKeysCard | ConsoleApplication1/Utils/SortedListDictionary.cs:43 | distinct keys are as many as the pairs |
| SortedListDictionaries.TombstoneIsWithout | ConsoleApplication1/Utils/SortedListDictionary.cs:18-25 | a tombstone in a key's slot removes exactly that key from the live pairs, without shifting others |
| SortedListDictionaries.WithoutAbsent | ConsoleApplication1/Utils/SortedListDictionary.cs:20 | removing an absent key changes nothing |
| SortedListDictionaries.OverwriteIsWithValue | ConsoleApplication1/Utils/SortedListDictionary.cs:27-36 | overwriting a key's slot overwrites its live pair in place |
| SortedListDictionaries.WithValueAbsent | ConsoleApplication1/Utils/SortedListDictionary.cs:31 | overwriting an absent key changes nothing |
| SortedListDictionaries.TombstoneKeepsValid | ConsoleApplication1/Utils/SortedListDictionary.cs:18-25 | the tombstone and the dropped index keep list and index consistent |
| SortedListDictionaries.LookupDistinct | ConsoleApplication1/Utils/SortedListDictionary.cs:45-59 | a lookup finds the stored value of a live slot |
| SortedListDictionaries.SortedListDictionary.constructor | ConsoleApplication1/Utils/SortedListDictionary.cs:9-10 | a new dictionary is empty and consistent |
| SortedListDictionaries.SortedListDictionary.Add | ConsoleApplication1/Utils/SortedListDictionary.cs:12-16 | the pair is appended and its index recorded; a key already present throws after the list has grown, leaving the dictionary inconsistent |
| SortedListDictionaries.SortedListDictionary.Remove | ConsoleApplication1/Utils/SortedListDictionary.cs:18-25 | a present key's slot becomes a tombstone and its index is dropped, others unshifted; an absent key changes nothing; the live pairs lose that key |
| SortedListDictionaries.SortedListDictionary.Set | ConsoleApplication1/Utils/SortedListDictionary.cs:27-36 | the indexer overwrites a present key in place and ignores an absent one |
| SortedListDictionaries.SortedListDictionary.Contains | ConsoleApplication1/Utils/SortedListDictionary.cs:38-41 | true exactly when the key is indexed, which is when it is live |
| SortedListDictionaries.SortedListDictionary.Count | ConsoleApplication1/Utils/SortedListDictionary.cs:43 | the number of indexed keys, which is the number of live pairs |
| SortedListDictionaries.SortedListDictionary.TryGetValue | ConsoleApplication1/Utils/SortedListDictionary.cs:45-59 | true with the stored value exactly when the key is live, otherwise false with the default value |
| SortedListDictionaries.SortedListDictionary.GetEnumerator | ConsoleApplication1/Utils/SortedListDictionary.cs:61-69 | the enumeration yields exactly the live pairs, in insertion order, skipping tombstones |
| Operations.FindOp | TextDataConflictResolver/YAMLParser.cs:215 | an operation is found exactly for the keys the list holds, and it is that key's |
| Operations.ChangeOf | TextDataConflictResolver/YAMLParser.cs:256-269 | defines what the first loop files for one base pair: a removal when the variant lacks the key, a modification when the values differ, nothing when they agree, failure when the comparison throws |
| Operations.Changes | TextDataConflictResolver/YAMLParser.cs:256-269 | defines the first loop: `ChangeOf` of each base pair in order, failing once a comparison throws |
| Operations.AdditionOf | TextDataConflictResolver/YAMLParser.cs:270-276 | defines what the second loop files for one variant pair: an addition when the base lacks its key |
| Operations.Additions | TextDataConflictResolver/YAMLParser.cs:270-276 | defines the second loop: `AdditionOf` of each variant pair in order |
| Operations.Diff | TextDataConflictResolver/YAMLParser.cs:253-300 | defines `GenerateDiffs` on one dictionary: the first loop's operations, then the second's |
| Operations.AdditionOfSpec | TextDataConflictResolver/YAMLParser.cs:270-276 | a variant pair files an addition exactly when the base lacks its key |
| Operations.ChangeOfIsExpected | TextDataConflictResolver/YAMLParser.cs:256-269 | what one base pair files is the expected operation for its key |
| Operations.ChangesPerKey | TextDataConflictResolver/YAMLParser.cs:256-269 | the first loop files, for every base key, the expected operation and nothing else: a modification carrying the variant's value when the values differ, nothing when equal, a removal with the null value when the variant lacks the key |
| Operations.AdditionsPerKey | TextDataConflictResolver/YAMLParser.cs:270-276 | the second loop files an addition carrying the variant's value exactly for the keys the variant has and the base lacks |
| Operations.DiffPerKey | TextDataConflictResolver/YAMLParser.cs:253-300 | a diff holds one operation per key, the expected one |
| Operations.DiffFails | TextDataConflictResolver/YAMLParser.cs:258-260 | a diff fails exactly when comparing some shared key's two values throws |
| Operations.DiffOfSelf | TextDataConflictResolver/YAMLParser.cs:253-300 | a dictionary diffed against itself files nothing, when each value compares equal to itself |
| Operations.NoChangesOnSelf | TextDataConflictResolver/YAMLParser.cs:256-269 | every prefix of a dictionary files no change against it |
| Operations.NoAdditionsOnSelf | TextDataConflictResolver/YAMLParser.cs:270-276 | a variant with no new key files no addition |
| Operations.OwnSpec | TextDataConflictResolver/YAMLParser.cs:219-222 | an operation is kept exactly when the other side has no operation on its key |
| Operations.OnlyIn | TextDataConflictResolver/YAMLParser.cs:219-248 | defines what one side's loop accepts: its operations whose key the other side does not touch, in order |
| Operations.Conflicts | TextDataConflictResolver/YAMLParser.cs:213-218 | defines the conflicts the loop over side A records: each of its operations whose key side B touched, paired with B's operation |
| Operations.Accepted | TextDataConflictResolver/YAMLParser.cs:210-251 | defines the accepted operations: side A's own, then side B's own |
| Operations.OnlyInKeys | TextDataConflictResolver/YAMLParser.cs:235-248 | the kept operations have distinct keys, all from their own side and none from the other |
| Operations.OnlyInPerKey | TextDataConflictResolver/YAMLParser.cs:235-248 | per key, the kept operation is the side's own unless the other side touched the key |
| Operations.OnlyInStep | TextDataConflictResolver/YAMLParser.cs:235-241 | one step of the keeping loop keeps the per-key statement |
| Operations.ConflictsPerKey | TextDataConflictResolver/YAMLParser.cs:213-218 | a key in both operation sets gives exactly one conflict pair (A's operation, B's operation); no other key gives one |
| Operations.MergePartition | TextDataConflictResolver/YAMLParser.cs:210-251 | the merge partitions the keys: a key both sides touched is a conflict and never accepted; a key one side touched has that side's operation accepted exactly once |
| Operations.NoConflictIff | TextDataConflictResolver/YAMLParser.cs:213-223 | no conflict is recorded exactly when the two sides touched no key in common |
| Operations.MergeSwapAccepted | TextDataConflictResolver/YAMLParser.cs:219-248 | swapping the sides accepts the same operations (as a multiset) and keys |
| Operations.MergeSwapConflicts | TextDataConflictResolver/YAMLParser.cs:213-234 | swapping the sides gives the same conflicts per key, each pair swapped |
| Operations.LookupWithValue | TextDataConflictResolver/YAMLParser.cs:40-42 | a modification changes the value of that key if present and nothing else |
| Operations.LookupWithout | TextDataConflictResolver/YAMLParser.cs:43-45 | a removal drops the key and nothing else |
| Operations.ApplyOp | TextDataConflictResolver/YAMLParser.cs:35-46 | defines one operation of `Apply`: an addition appends (throwing on a key already there), a modification overwrites, a removal drops the key |
| Operations.ApplyOps | TextDataConflictResolver/YAMLParser.cs:33-47 | defines the `foreach` of `Apply`: the operations in order, stopping at the first that throws |
| Operations.ApplyOpPerKey | TextDataConflictResolver/YAMLParser.cs:35-46 | one operation changes only its key, as its kind says |
| Operations.ApplyPerKey | TextDataConflictResolver/YAMLParser.cs:33-47 | operations with distinct keys act key by key: each key's value is the one after its own operation |
| Operations.ApplySucceeds | TextDataConflictResolver/YAMLParser.cs:37-39 | applying succeeds exactly when no addition meets a key already there |
| Operations.ApplyDiff | TextDataConflictResolver/YAMLParser.cs:31-64 | replaying a variant's diff on its base succeeds and gives every key the variant's value, except values the comparison calls equal, which keep the base's |
| Operations.ApplyAccepted | TextDataConflictResolver/YAMLParser.cs:31-64 | replaying the accepted operations succeeds; a key both sides touched keeps the base's value, any other key changes as the side that touched it says |
| Operations.ResolvedIsAfter | TextDataConflictResolver/YAMLParser.cs:35-46 | applying the expected operation of a key gives the variant's resolved value |
| Operations.ApplyMerge | TextDataConflictResolver/YAMLParser.cs:31-64 | for one dictionary: diffing both variants, merging and applying the accepted operations succeeds and gives every key its `Merged` value |
| Engine.ChangesFailSticks | TextDataConflictResolver/YAMLParser.cs:256-269 | once one comparison throws, the whole loop fails |
| Engine.GenerateDiff | TextDataConflictResolver/YAMLParser.cs:253-276 | the two loops over one dictionary compute `Diff` of its live pairs, with distinct keys |
| Engine.CollectChanges | TextDataConflictResolver/YAMLParser.cs:256-269 | the first loop computes `Changes` |
| Engine.CollectAdditions | TextDataConflictResolver/YAMLParser.cs:270-276 | the second loop computes `Additions` |
| Engine.SplitSide | TextDataConflictResolver/YAMLParser.cs:213-223 | the loop over A's operations keeps `OnlyIn(a, b)` and records `Conflicts(a, b)` |
| Engine.KeepOwn | TextDataConflictResolver/YAMLParser.cs:235-241 | the loop over B's operations keeps `OnlyIn(b, a)` |
| Engine.ApplyFailSticks | TextDataConflictResolver/YAMLParser.cs:33-47 | once one operation throws, the rest is not applied and the whole fails |
| Engine.ApplyOperations | TextDataConflictResolver/YAMLParser.cs:33-47 | the loop applies the operations in list order to the dictionary, giving `ApplyOps` of its live pairs; it fails exactly when an addition meets a present key |
| Engine.ApplyOne | TextDataConflictResolver/YAMLParser.cs:35-46 | one operation, by its kind: `Add`, the indexer or `Remove`; the dictionary then holds `ApplyOp` of its old pairs, and the call fails exactly when an addition meets a present key |
| Engine.Zip | TextDataConflictResolver/YAMLParser.cs:347-350 | pairs the i-th key with the i-th value, as far as the shorter list goes |
| Operations.Firsts | TextDataConflictResolver/YAMLParser.cs:358-360 | the first component of each pair, in order: the keys of a dictionary's pairs, and (at lines 82-83) the A-side operation of each conflict |
| Operations.Seconds | TextDataConflictResolver/YAMLParser.cs:358-361 | the second component of each pair, in order: the values of a dictionary's pairs, and the B-side operation of each conflict |
| Engine.FillByValues | TextDataConflictResolver/YAMLParser.cs:343-351 | looping over the values and indexing the keys appends the zipped pairs; it fails when there are more values than keys or a key repeats |
| Engine.FillByKeys | ConsoleApplication1/YAMLParser.cs:352-355 | looping over the keys and indexing the values appends the zipped pairs; it fails when there are more keys than values or a key repeats |
| Engine.PackKeys | TextDataConflictResolver/YAMLParser.cs:353-366 | the loop packs the keys and collects the values, in enumeration order |
| Engine.PackThenFill | TextDataConflictResolver/YAMLParser.cs:343-366 | filling from packed keys and the values gives the pairs back |
| Rendering.NatText | TextDataConflictResolver/YAMLParser.cs:120 | a decimal rendering is non-empty and all digits |
| Rendering.NatTextValue | TextDataConflictResolver/YAMLParser.cs:120 | the digits read back as the number, with no leading zero |
| Rendering.IntTextValue | TextDataConflictResolver/YAMLParser.cs:120 | an int's rendering is an optional minus and digits that read back as the int |
| Rendering.OperationTextOneLine | TextDataConflictResolver/YAMLParser.cs:118-121 | `ToString` of an operation has no line break when its value has none |
| Rendering.KindName | TextDataConflictResolver/YAMLParser.cs:96-101 | defines an `OperationType`'s `ToString`: its member name |
| Rendering.IntText | TextDataConflictResolver/YAMLParser.cs:120 | defines `int.ToString()`: a minus sign for a negative number, then the decimal digits of the magnitude |
| Rendering.OperationText | TextDataConflictResolver/YAMLParser.cs:118-121 | defines `Operation.ToString`: the kind, `: `, the key, ` => ` and the value |
| Rendering.Unlines | TextDataConflictResolver/YAMLParser.cs:86-92 | defines successive `AppendLine` calls: each line followed by the line end |
| Rendering.Framed | TextDataConflictResolver/YAMLParser.cs:86-92 | defines the five `AppendLine` calls of `Errors`: the head marker, side A, the separator, side B and the tail marker |
| Rendering.RenderAll | TextDataConflictResolver/YAMLParser.cs:74-84 | rendering a list gives one text per item |
| Rendering.RenderFailSticks | TextDataConflictResolver/YAMLParser.cs:81-83 | once one item's rendering throws, the whole fails |
| Rendering.RenderAllTotal | TextDataConflictResolver/YAMLParser.cs:81-83 | when every item renders, the list renders item by item |
| Rendering.FramedJoined | TextDataConflictResolver/YAMLParser.cs:86-92 | the two sides joined by `\n` inside the markers give one line per operation between them |
| Rendering.FramedLined | ConsoleApplication1/YAMLParser.cs:86-92 | two sides already ending in line breaks leave an empty line before `=======` and before `>>>>>>> ` |
| Resolver.LinesDifferSpec | TextDataConflictResolver/YAMLParser.cs:260 | comparing two lines succeeds exactly when both have a readable scalar value, and reports a difference exactly when those values differ; a line equals itself |
| Resolver.LinesDiffer | TextDataConflictResolver/YAMLParser.cs:260 | defines the comparison of two lines by their scalar values: `None` where a line is null or its scalar throws |
| Resolver.Data.constructor | TextDataConflictResolver/YAMLParser.cs:12-16 | both dictionaries are new and empty |
| Resolver.ContentsDistinct | TextDataConflictResolver/YAMLParser.cs:12-16 | each dictionary's live pairs have distinct keys |
| Resolver.GenerateDiffs | TextDataConflictResolver/YAMLParser.cs:253-300 | the diff of both dictionaries is `DiffsOf` their contents, with distinct keys per list |
| Resolver.DiffsOf | TextDataConflictResolver/YAMLParser.cs:253-300 | defines what `GenerateDiffs` files for a variant: each dictionary's diff, `None` when a comparison throws |
| Resolver.DiffsPerKey | TextDataConflictResolver/YAMLParser.cs:253-300 | the diff fails exactly when some key in both base and variant has a line whose scalar value throws; otherwise each key gets the expected operation: a modification carrying the variant's line when the scalar values differ, nothing when equal, a removal with null when the variant lacks it, an addition carrying the variant's line when the base lacks it |
| Resolver.DiffsOfSelf | TextDataConflictResolver/YAMLParser.cs:253-300 | a document diffed against itself files nothing in either dictionary, when every line is readable |
| Resolver.ComputeResults | TextDataConflictResolver/YAMLParser.cs:210-251 | the four loops compute the accepted operations of each dictionary and the conflicts, text before version |
| Resolver.ResultsOf | TextDataConflictResolver/YAMLParser.cs:210-251 | defines what `ComputeResults` builds: each dictionary's accepted operations, and the text conflicts then the version conflicts |
| Resolver.ResultsPerKey | TextDataConflictResolver/YAMLParser.cs:210-251 | per dictionary: a key both sides touched is one conflict pair and never accepted; a key one side touched is accepted once |
| Resolver.ResultsSwap | TextDataConflictResolver/YAMLParser.cs:210-251 | swapping the variants accepts the same operations and records the same conflicts, each pair swapped |
| Resolver.NoConflictsIff | TextDataConflictResolver/YAMLParser.cs:213-234 | no conflict exactly when the sides touched disjoint keys in both dictionaries |
| Resolver.Apply | TextDataConflictResolver/YAMLParser.cs:31-64 | the text operations then the version operations are applied to their own dictionaries; it fails exactly when an addition meets a present key |
| Resolver.ThreeWayMerge | TextDataConflictResolver/YAMLParser.cs:31-64 | diffing two variants, merging and applying to the base never throws and leaves every key of both dictionaries with its merged line |
| Resolver.CleanMergeIff | TextDataConflictResolver/YAMLParser.cs:213-234 | a merge has no conflict exactly when no key was changed by both variants in either dictionary |
| Resolver.CleanTableIff | TextDataConflictResolver/YAMLParser.cs:213-223 | the same for one dictionary |
| Resolver.Errors | TextDataConflictResolver/YAMLParser.cs:66-93 | the loop builds `ErrorsText` |
| Resolver.ErrorsText | TextDataConflictResolver/YAMLParser.cs:66-93 | defines what `Errors` returns: empty without conflicts, otherwise each side's operations joined by `"\n"` inside the conflict markers; `None` when rendering a line throws |
| Resolver.ErrorsLayout | TextDataConflictResolver/YAMLParser.cs:66-93 | the text is empty exactly when there is no conflict; otherwise it is `<<<<<<< HEAD`, the A-side operations one per line, `=======`, the B-side operations, `>>>>>>> `, each line ended |
| Resolver.ErrorsRender | TextDataConflictResolver/SimpleParser/Line.cs:62-65 | rendering never throws when each operation's line is readable or null |
| Resolver.Present | TextDataConflictResolver/YAMLParser.cs:361 | the values collected can be stored as document lines exactly when none is null, and they are then those lines in order |
| Resolver.ParseTable | TextDataConflictResolver/YAMLParser.cs:343-351 | parsing a dictionary fills it with the decoded keys paired with the document's lines, failing when the keys are not hex, when there are more lines than keys, or when a key repeats |
| Resolver.ParsedTable | TextDataConflictResolver/YAMLParser.cs:343-351 | defines what a dictionary parse reads: the decoded keys paired in order with the block's lines; `None` for a null string or block, a key that does not decode, more lines than keys, or a repeated key |
| Resolver.ParseDocument | TextDataConflictResolver/YAMLParser.cs:309-316 | the new data holds the text dictionary then the version dictionary parsed from the document |
| Resolver.WriteTextKeyDictionary | TextDataConflictResolver/YAMLParser.cs:353-366 | the document's text keys become the packed keys of the data, its values block becomes the data's lines, the other dictionaries are untouched, and the lines read back are the data's |
| Resolver.WriteVersionDictionary | TextDataConflictResolver/YAMLParser.cs:328-341 | the same for the version dictionary |
| Resolver.WrittenChains | TextDataConflictResolver/YAMLParser.cs:328-366 | defines what writing one dictionary does to the chains: the keys line rewritten, then the values block replaced when there is one |
| Resolver.WriteDocument | TextDataConflictResolver/YAMLParser.cs:303-307 | both dictionaries' keys are written; it fails exactly when a keys line is null or a value is null |
| Resolver.WriteThenParse | TextDataConflictResolver/YAMLParser.cs:343-366 | writing a dictionary then parsing it gives the same ordered map |
| Resolver.ParsedLinesPresent | TextDataConflictResolver/YAMLParser.cs:343-351 | a parsed dictionary has distinct keys and its values are the document's lines, in order |
| LegacyResolver.DiffsSucceed | ConsoleApplication1/YAMLParser.cs:234-281 | the older diff never throws |
| LegacyResolver.TextDiffer | ConsoleApplication1/YAMLParser.cs:241 | defines the text comparison: `string.Equals` negated, which never throws and holds two nulls equal |
| LegacyResolver.VersionDiffer | ConsoleApplication1/YAMLParser.cs:262 | defines the version comparison: `!=` on ints |
| LegacyResolver.Data.constructor | ConsoleApplication1/YAMLParser.cs:18-22 | both dictionaries are new and empty |
| LegacyResolver.ContentsDistinct | ConsoleApplication1/YAMLParser.cs:18-22 | each dictionary's live pairs have distinct keys |
| LegacyResolver.GenerateDiffs | ConsoleApplication1/YAMLParser.cs:234-281 | the diff of both dictionaries is `DiffsOf` their contents |
| LegacyResolver.DiffsOf | ConsoleApplication1/YAMLParser.cs:234-281 | defines what `GenerateDiffs` files: each dictionary's diff |
| LegacyResolver.DiffsPerKey | ConsoleApplication1/YAMLParser.cs:234-281 | text: a modification exactly when `string.Equals` fails, a removal carrying null; version: a modification exactly when the ints differ, a removal carrying 0; both: an addition exactly for keys in the variant only |
| LegacyResolver.DiffsOfSelf | ConsoleApplication1/YAMLParser.cs:234-281 | a document diffed against itself files nothing |
| LegacyResolver.LiftText | ConsoleApplication1/YAMLParser.cs:198 | text conflicts become pairs of untyped operations |
| LegacyResolver.LiftVersion | ConsoleApplication1/YAMLParser.cs:209 | version conflicts become pairs of untyped operations |
| LegacyResolver.ComputeResults | ConsoleApplication1/YAMLParser.cs:191-232 | the four loops compute the accepted operations and the conflicts, text before version |
| LegacyResolver.ResultsOf | ConsoleApplication1/YAMLParser.cs:191-232 | defines what `ComputeResults` builds: each dictionary's accepted operations, and the text conflicts then the version conflicts |
| LegacyResolver.ResultsPerKey | ConsoleApplication1/YAMLParser.cs:191-232 | a key both sides touched is one conflict pair and never accepted; a key one side touched is accepted once; the text conflicts come first, then the version conflicts |
| LegacyResolver.ResultsSwap | ConsoleApplication1/YAMLParser.cs:191-232 | swapping the variants accepts the same operations and records the same conflicts, swapped |
| LegacyResolver.NoConflictsIff | ConsoleApplication1/YAMLParser.cs:194-215 | no conflict exactly when the sides touched disjoint keys in both dictionaries |
| LegacyResolver.Apply | ConsoleApplication1/YAMLParser.cs:37-70 | adds, overwrites or removes per operation kind, text then version, in list order |
| LegacyResolver.ThreeWayMerge | ConsoleApplication1/YAMLParser.cs:37-70 | diffing two variants, merging and applying to the base never throws and leaves every key with its merged value |
| LegacyResolver.MergedText | ConsoleApplication1/YAMLParser.cs:237-257 | a text key ends with the base's value (or absence) when both variants differ from the base there, with the differing variant's value (absence included) when one does, and with B's, which is the base's, when neither does |
| LegacyResolver.MergedVersion | ConsoleApplication1/YAMLParser.cs:258-278 | the same for version numbers |
| LegacyResolver.Rendered | ConsoleApplication1/YAMLParser.cs:82-83 | one `ToString` per operation |
| LegacyResolver.AnyOpText | ConsoleApplication1/YAMLParser.cs:118-121 | defines `Operation.ToString` for either dictionary: a null text renders as nothing, a version in decimal |
| LegacyResolver.Errors | ConsoleApplication1/YAMLParser.cs:72-93 | the loop builds `ErrorsText` |
| LegacyResolver.ErrorsText | ConsoleApplication1/YAMLParser.cs:72-93 | defines what `Errors` returns: empty without conflicts, otherwise each side's operations, each ended by a line end, inside the conflict markers |
| LegacyResolver.ErrorsStep | ConsoleApplication1/YAMLParser.cs:80-84 | each conflict adds one line to each side |
| LegacyResolver.ErrorsLayout | ConsoleApplication1/YAMLParser.cs:72-93 | empty exactly when there is no conflict; otherwise the markers with one operation per line on each side, and an empty line before `=======` and before `>>>>>>> ` |
| LegacyResolver.ParseTextKeyDictionary | ConsoleApplication1/YAMLParser.cs:374-386 | fills the dictionary with the decoded keys paired with the values, in order |
| LegacyResolver.ParsedText | ConsoleApplication1/YAMLParser.cs:374-386 | defines what the text parse reads: the decoded keys paired in order with the values; `None` for null keys, a key that does not decode, more values than keys, or a repeated key |
| LegacyResolver.ParseVersionDictionary | ConsoleApplication1/YAMLParser.cs:342-356 | fills the dictionary with the decoded keys paired with the decoded values, in order |
| LegacyResolver.ParsedVersion | ConsoleApplication1/YAMLParser.cs:342-356 | defines what the version parse reads: both scalars decoded and paired up to the number of keys; `None` for a null or undecodable scalar, more keys than values, or a repeated key |
| LegacyResolver.WriteTextKeyDictionary | ConsoleApplication1/YAMLParser.cs:388-402 | the packed keys and the values, in enumeration order |
| LegacyResolver.WriteVersionDictionary | ConsoleApplication1/YAMLParser.cs:358-372 | the packed keys and the packed values, in enumeration order |
| LegacyResolver.TextWriteThenParse | ConsoleApplication1/YAMLParser.cs:374-402 | writing the text dictionary then parsing it gives the same ordered map |
| LegacyResolver.VersionWriteThenParse | ConsoleApplication1/YAMLParser.cs:342-372 | writing the version dictionary then parsing it gives the same ordered `int→int` map |
| LegacyResolver.ParseDocument | ConsoleApplication1/YAMLParser.cs:328-340 | the new data holds both dictionaries parsed from their node values |
| LegacyResolver.WriteDocument | ConsoleApplication1/YAMLParser.cs:318-326 | the four node values written parse back to the data |

## Left out

- Command-line entry points (both `Program.cs`): argument parsing, file backups, console output and exit codes are I/O.
- `YAMLParser.Parse(path…)` file handling (TextDataConflictResolver/YAMLParser.cs:127-207, ConsoleApplication1/YAMLParser.cs:129-188): opening, deleting and backing up files, streams and encodings are I/O. The reader is modelled as a sequence of lines and the writer as the sequence of lines written.
- The YamlDotNet tree access of ConsoleApplication1/YAMLParser.cs:283-340 wraps a library that is not shown. `LegacyResolver.ParseDocument` and `LegacyResolver.WriteDocument` take and return the scalar values of the `m_keys`/`m_values` nodes instead of walking the tree.
- `ConsoleApplication1/YamlElement/*` is an unfinished experiment that does not compile.
- The Line.cs of ConsoleApplication1 is not part of this model; the legacy documents use the current `Line`. The Block.cs of TextDataConflictResolver is not part of this model; the current document uses the older `Block`'s serialisation.
- The Utils/SortedListDictionary.cs of TextDataConflictResolver is not part of this model; the current `Data` uses the older one.
- `YAMLParser` calls `Document` with two marker lists (TextDataConflictResolver/YAMLParser.cs:167) while the constructor takes three; the three-list constructor is modelled.
- A key changed identically by both variants is still a conflict; no coalescing is modelled, as in the code.
- The .NET `Dictionary` of operations in `Modifications` is modelled as an insertion-ordered sequence with distinct keys.
- `StringBuilder.AppendLine` uses `Environment.NewLine`, which is a parameter of `Errors`.
- Decimal rendering of keys and versions is culture-invariant.
- Exceptions (null references, index out of range, duplicate `Add`, `FormatException`, `Substring` out of range) are modelled as failed results (`Option` or `bool`).
- Resolver.WriteTextKeyDictionary: a null line fails at the write, while the source stores it and throws later in `Save`.
- Resolver.WriteVersionDictionary: the same.
- After a failed apply, fill or write, the state is only partly described: the contracts state what happens when the operation succeeds.
- The control flow of the `foreach` loops is factored into `Engine`, shared by both generations and both dictionaries.
- Lines in dictionaries and documents are values, so `Data` and the document do not alias the same `Line` objects. `Block.Previous` is kept by `Blocks` but not by the chain values of the parsers.
- String comparisons, `StartsWith`, `EndsWith` and `Contains` are ordinal.
- The regex engine is not modelled; `m_keysRegex` is written out as its leftmost match.
- The shared static `StringBuilder` of `ReverseHexString` is a local buffer.
- `Line.ToString` is `ScalarValue` (TextDataConflictResolver/SimpleParser/Line.cs:62-65); the rendering calls `ScalarOf` directly.
- Documents.Scan: `Run` follows the cursor by its sizes (`Shape`), not by its contents; the chain's contents are given by its text and by the recorded fields. The same holds for `LegacyDocuments.Scan` and both `Parse` methods.
- Documents.RunReadsKeys: it names the line the keys come from and says a keys line and a values block are recorded; where they sit is stated per turn by `Documents.TurnKeyed` and for the whole chain by `Documents.Scan`'s `Recorded` clause. The same holds for `LegacyDocuments.RunReadsText` and `LegacyDocuments.RunReadsVersionKeys`.
- LegacyDocuments.RunReadsVersionValues: when the last turn in the version values state ended the dictionary instead of reading a value, it says only that such a turn happened.
- Documents.RunFindsMarked: a marked raw line that is the input's last line is left out, because no line after it is read. The same holds for `LegacyDocuments.RunFindsMarked`.
- There is no lemma that every input line gets a turn; `Scan` shows that every line is consumed and kept.
