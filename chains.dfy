/** The chain of blocks a parser builds, as a value: block `0` is the head
    `m_blockChain`, block `i + 1` is block `i`'s `Next`, and each block is
    the list of its lines. Saving the chain writes every fragment of every
    line, block after block. */
module Chains {
  import opened Wrappers
  import opened Lines

  type Chain = seq<seq<LineState>>

  /** What `Serialize` writes for a list of lines: each line's fragments,
      line after line. */
  function RawLines(ls: seq<LineState>): seq<string> {
    if ls == [] then [] else RawLines(ls[..|ls| - 1]) + ls[|ls| - 1].rawStrings
  }

  /** What saving the chain writes: block after block. */
  function Text(c: Chain): seq<string> {
    if c == [] then [] else Text(c[..|c| - 1]) + RawLines(c[|c| - 1])
  }

  lemma {:induction false} RawLinesAppend(a: seq<LineState>, b: seq<LineState>)
    ensures RawLines(a + b) == RawLines(a) + RawLines(b)
    decreases |b|
  {
    if b == [] {
      assert a + b == a;
    } else {
      var n := |b|;
      var front := b[..n - 1];
      RawLinesAppend(a, front);
      assert (a + b)[..|a + b| - 1] == a + front;
      assert (a + b)[|a + b| - 1] == b[n - 1];
      assert RawLines(a + b) == RawLines(a + front) + b[n - 1].rawStrings;
      assert RawLines(b) == RawLines(front) + b[n - 1].rawStrings;
      SnocAppend(RawLines(a), RawLines(front), b[n - 1].rawStrings);
    }
  }

  lemma SnocAppend<T>(a: seq<T>, b: seq<T>, c: seq<T>)
    ensures a + b + c == a + (b + c)
  {
  }

  lemma SlicePrefix<T>(s: seq<T>, i: nat, j: nat)
    requires i <= j <= |s|
    ensures s[i..j] <= s[i..]
  {
  }

  lemma {:induction false} TextAppend(a: Chain, b: Chain)
    ensures Text(a + b) == Text(a) + Text(b)
    decreases |b|
  {
    if b == [] {
      assert a + b == a;
    } else {
      var n := |b|;
      var front := b[..n - 1];
      TextAppend(a, front);
      assert (a + b)[..|a + b| - 1] == a + front;
      assert (a + b)[|a + b| - 1] == b[n - 1];
      assert Text(a + b) == Text(a + front) + RawLines(b[n - 1]);
      assert Text(b) == Text(front) + RawLines(b[n - 1]);
      SnocAppend(Text(a), Text(front), RawLines(b[n - 1]));
    }
  }

  /** The text splits at any block into what comes before it, its own
      lines and what comes after it. */
  lemma {:induction false} TextSplit(c: Chain, i: nat)
    requires i < |c|
    ensures Text(c) == Text(c[..i]) + RawLines(c[i]) + Text(c[i + 1..])
  {
    var pre, mid, post := c[..i], [c[i]], c[i + 1..];
    assert pre + mid == c[..i + 1];
    assert c[..i + 1] + post == c;
    TextAppend(pre + mid, post);
    TextAppend(pre, mid);
    assert Text(mid) == RawLines(c[i]) by {
      assert mid[..0] == [];
    }
  }

  /** The lines of a block split at any line into what comes before it, its
      own fragments and what comes after it. */
  lemma {:induction false} RawLinesSplit(ls: seq<LineState>, j: nat)
    requires j < |ls|
    ensures RawLines(ls) == RawLines(ls[..j]) + ls[j].rawStrings + RawLines(ls[j + 1..])
  {
    var pre, mid, post := ls[..j], [ls[j]], ls[j + 1..];
    assert pre + mid == ls[..j + 1];
    assert ls[..j + 1] + post == ls;
    RawLinesAppend(pre + mid, post);
    RawLinesAppend(pre, mid);
    assert RawLines(mid) == ls[j].rawStrings by {
      assert mid[..0] == [];
    }
  }

  /** `block.Lines = value` on block `i`: only that block's segment of the
      text changes, and it becomes the text of `value`. */
  lemma {:induction false} ReplaceBlock(c: Chain, i: nat, value: seq<LineState>)
    requires i < |c|
    ensures Text(c) == Text(c[..i]) + RawLines(c[i]) + Text(c[i + 1..])
    ensures Text(c[i := value]) == Text(c[..i]) + RawLines(value) + Text(c[i + 1..])
  {
    TextSplit(c, i);
    TextSplit(c[i := value], i);
    assert c[i := value][..i] == c[..i];
    assert c[i := value][i + 1..] == c[i + 1..];
  }

  /** Changing line `j` of block `i` to `l`: only that line's fragments in
      the text change, and they become `l`'s. */
  lemma {:induction false} ReplaceLine(c: Chain, i: nat, j: nat, l: LineState)
    requires i < |c| && j < |c[i]|
    ensures Text(c) == Text(c[..i]) + RawLines(c[i][..j]) + c[i][j].rawStrings + RawLines(c[i][j + 1..])
                       + Text(c[i + 1..])
    ensures Text(c[i := c[i][j := l]]) == Text(c[..i]) + RawLines(c[i][..j]) + l.rawStrings
                                          + RawLines(c[i][j + 1..]) + Text(c[i + 1..])
  {
    var b := c[i][j := l];
    var pre, post := Text(c[..i]), Text(c[i + 1..]);
    var front, back := RawLines(c[i][..j]), RawLines(c[i][j + 1..]);
    ReplaceBlock(c, i, b);
    RawLinesSplit(c[i], j);
    RawLinesSplit(b, j);
    assert b[..j] == c[i][..j];
    assert b[j + 1..] == c[i][j + 1..];
    assert RawLines(b) == front + l.rawStrings + back;
    AppendAssoc4(pre, front, c[i][j].rawStrings, back, post);
    AppendAssoc4(pre, front, l.rawStrings, back, post);
  }

  lemma AppendAssoc4<T>(a: seq<T>, b: seq<T>, c: seq<T>, d: seq<T>, e: seq<T>)
    ensures a + (b + c + d) + e == a + b + c + d + e
  {
  }

  // ---------------------------------------------------------------------
  // The parser's place in the chain

  /** The chain a parser is building: the blocks it has closed, and the
      current block, the only one it adds lines to. */
  datatype Cursor = Cursor(closed: Chain, current: seq<LineState>)

  /** The sizes of a cursor: its closed blocks and the lines of its current
      block. They are all the fields a parser records depend on. */
  datatype Shape = Shape(blocks: nat, lines: nat)

  function ShapeOf(k: Cursor): Shape {
    Shape(|k.closed|, |k.current|)
  }

  /** The chain built so far: the closed blocks, then the current one. */
  function Chained(k: Cursor): Chain {
    k.closed + [k.current]
  }

  /** The text of the chain built so far. */
  function Written(k: Cursor): seq<string> {
    Text(k.closed) + RawLines(k.current)
  }

  lemma WrittenIsText(k: Cursor)
    ensures Written(k) == Text(Chained(k))
  {
    TextAppend(k.closed, [k.current]);
    assert [k.current][..0] == [];
  }

  /** `currentBlock.Lines.Add(l)`: the text grows by `l`'s fragments. */
  function Keep(k: Cursor, l: LineState): (r: Cursor)
    ensures r.closed == k.closed && r.current == k.current + [l]
    ensures Written(r) == Written(k) + l.rawStrings
  {
    RawLinesAppend(k.current, [l]);
    assert [l][..0] == [];
    Cursor(k.closed, k.current + [l])
  }

  /** `currentBlock = NewBlock(currentBlock)`: the current block is closed
      and an empty one follows it; the text is unchanged. */
  function NewBlock(k: Cursor): (r: Cursor)
    ensures r.closed == k.closed + [k.current] && r.current == []
    ensures Written(r) == Written(k)
  {
    TextAppend(k.closed, [k.current]);
    assert [k.current][..0] == [];
    Cursor(k.closed + [k.current], [])
  }

  /** `lines[lines.Count - 1].AppendValue(s)`: the last line of the current
      block gets one fragment more, and the text grows by `s`. */
  function AppendToLast(k: Cursor, s: string): (r: Cursor)
    requires k.current != []
    ensures r.closed == k.closed && |r.current| == |k.current|
    ensures Written(r) == Written(k) + [s]
  {
    var b := k.current;
    var front := b[..|b| - 1];
    var last := Appended(b[|b| - 1], s);
    var pre, mid, tail := Text(k.closed), RawLines(front), b[|b| - 1].rawStrings;
    assert RawLines(b) == mid + tail;
    RawLinesAppend(front, [last]);
    assert RawLines([last]) == tail + [s] by {
      assert [last][..0] == [];
    }
    var r := Cursor(k.closed, front + [last]);
    assert Written(r) == pre + (mid + (tail + [s]));
    SnocAssoc(pre, mid, tail, s);
    r
  }

  lemma SnocAssoc<T>(a: seq<T>, b: seq<T>, c: seq<T>, x: T)
    ensures a + (b + (c + [x])) == a + (b + c) + [x]
  {
  }

  // ---------------------------------------------------------------------
  // Where a document's fields point

  /** Line `line` of block `block` of the `chain`-th chain a document has
      built (one chain per `Parse`). */
  datatype LineRef = LineRef(chain: nat, block: nat, line: nat)

  /** Block `block` of the `chain`-th chain a document has built. */
  datatype BlockRef = BlockRef(chain: nat, block: nat)

  predicate LineIn(chains: seq<Chain>, r: Option<LineRef>) {
    r.Some? ==> r.value.chain < |chains| && r.value.block < |chains[r.value.chain]|
                && r.value.line < |chains[r.value.chain][r.value.block]|
  }

  predicate BlockIn(chains: seq<Chain>, r: Option<BlockRef>) {
    r.Some? ==> r.value.chain < |chains| && r.value.block < |chains[r.value.chain]|
  }

  /** A keys line `l` read last: the header after it was past the end of the
      input, so the line kept after `l` in its block is `new Line(null)`,
      written back as an empty line, and the values block opened after them
      is the empty last block of `c`. */
  predicate PaddedAfter(keysLine: Option<LineRef>, values: Option<BlockRef>, c: Chain, l: string) {
    && keysLine.Some? && values.Some?
    && var r := keysLine.value;
    && values.value.block == r.block + 1 == |c| - 1 && c[|c| - 1] == []
    && r.line + 2 == |c[r.block]| && c[r.block][r.line] == NewLine(l) && c[r.block][r.line + 1] == NewLine("")
  }

  /** The chains with the line at `r` replaced by `l`. */
  function WithLine(chains: seq<Chain>, r: LineRef, l: LineState): (res: seq<Chain>)
    requires LineIn(chains, Some(r))
    ensures |res| == |chains| && forall k :: 0 <= k < |chains| && k != r.chain ==> res[k] == chains[k]
  {
    var c := chains[r.chain];
    chains[r.chain := c[r.block := c[r.block][r.line := l]]]
  }

  /** The chains with the block at `r` replaced by `ls`. */
  function WithBlock(chains: seq<Chain>, r: BlockRef, ls: seq<LineState>): (res: seq<Chain>)
    requires BlockIn(chains, Some(r))
    ensures |res| == |chains| && forall k :: 0 <= k < |chains| && k != r.chain ==> res[k] == chains[k]
  {
    chains[r.chain := chains[r.chain][r.block := ls]]
  }
}
