/** The chain of blocks a document is split into. Serialising the chain
    writes every line of every block, block after block. */
module Blocks {
  import opened Lines
  import Chains

  class Block {
    var previous: Block?
    var next: Block?
    var lines: seq<Line>

    constructor ()
      ensures previous == null && next == null && lines == []
    {
      previous := null;
      next := null;
      lines := [];
    }

    /** Every line of this block, then (through `next`) the rest of the
        chain. `chain` is the chain from this block on; it only serves the
        proof of termination and of the output. */
    method Serialize(writer: Writer, ghost chain: seq<Block>)
      requires IsChain(chain) && chain[0] == this
      modifies writer
      ensures writer.lines == old(writer.lines) + old(ChainText(chain))
      decreases |chain|
    {
      ChainTextCons(chain);
      ChainTail(chain);
      var ls := lines;
      SerializeLines(ls, writer);
      if next != null {
        next.Serialize(writer, chain[1..]);
      }
      AppendAssoc(old(writer.lines), LinesText(ls), old(ChainText(chain[1..])));
    }
  }

  /** The `foreach` of `Serialize`: each line's fragments, line after line. */
  method SerializeLines(ls: seq<Line>, writer: Writer)
    modifies writer
    ensures writer.lines == old(writer.lines) + LinesText(ls)
  {
    var i := 0;
    while i < |ls|
      invariant 0 <= i <= |ls|
      invariant writer.lines == old(writer.lines) + LinesText(ls[..i])
    {
      ls[i].Serialize(writer);
      LinesTextSnoc(ls[..i], ls[i]);
      AppendAssoc(old(writer.lines), LinesText(ls[..i]), ls[i].rawStrings);
      assert ls[..i + 1] == ls[..i] + [ls[i]];
      i := i + 1;
    }
    assert ls[..i] == ls;
  }

  /** The lines `Serialize` writes for a list of lines: each line's raw
      fragments, in order. */
  ghost function LinesText(ls: seq<Line>): seq<string>
    reads set l | l in ls
  {
    if ls == [] then [] else LinesText(ls[..|ls| - 1]) + ls[|ls| - 1].rawStrings
  }

  /** The output of serialising a chain: block after block. */
  ghost function ChainText(bs: seq<Block>): seq<string>
    reads set b | b in bs
    reads set b, l | b in bs && l in b.lines :: l
  {
    if bs == [] then [] else ChainText(bs[..|bs| - 1]) + LinesText(bs[|bs| - 1].lines)
  }

  /** `bs` is the chain reached through `next` from `bs[0]`: distinct blocks,
      each linked to its successor, the last one to nothing. */
  ghost predicate IsChain(bs: seq<Block>)
    reads set b | b in bs
  {
    && |bs| >= 1
    && (forall i, j :: 0 <= i < j < |bs| ==> bs[i] != bs[j])
    && (forall i :: 0 <= i < |bs| - 1 ==> bs[i].next == bs[i + 1])
    && bs[|bs| - 1].next == null
  }

  lemma AppendAssoc<T>(a: seq<T>, b: seq<T>, c: seq<T>)
    ensures a + b + c == a + (b + c)
  {
  }

  /** What follows the first block of a chain is the chain from `next` on,
      or nothing when `next` is null. */
  lemma ChainTail(bs: seq<Block>)
    requires IsChain(bs)
    ensures bs[0].next == null ==> bs[1..] == []
    ensures bs[0].next != null ==> IsChain(bs[1..]) && bs[1..][0] == bs[0].next
  {
    if |bs| > 1 {
      assert bs[0].next == bs[1];
    }
  }

  lemma LinesTextSnoc(ls: seq<Line>, l: Line)
    ensures LinesText(ls + [l]) == LinesText(ls) + l.rawStrings
  {
    assert (ls + [l])[..|ls|] == ls;
  }

  lemma ChainTextSnoc(bs: seq<Block>, b: Block)
    ensures ChainText(bs + [b]) == ChainText(bs) + LinesText(b.lines)
  {
    assert (bs + [b])[..|bs|] == bs;
  }

  /** Serialising a chain writes the first block's lines before anything
      of the later blocks. */
  lemma {:induction false} ChainTextCons(bs: seq<Block>)
    requires |bs| >= 1
    ensures ChainText(bs) == LinesText(bs[0].lines) + ChainText(bs[1..])
    decreases |bs|
  {
    if |bs| > 1 {
      var front := bs[..|bs| - 1];
      ChainTextCons(front);
      assert front[1..] == bs[1..][..|bs[1..]| - 1];
      assert front[0] == bs[0];
    } else {
      assert bs[..0] == [];
      assert bs[1..] == [];
    }
  }

  /** The output splits at any block into what comes before it, its own
      lines and what comes after it. */
  lemma {:induction false} ChainTextSplit(bs: seq<Block>, i: nat)
    requires i < |bs|
    ensures ChainText(bs) == ChainText(bs[..i]) + LinesText(bs[i].lines) + ChainText(bs[i + 1..])
    decreases |bs|
  {
    if i == |bs| - 1 {
      assert bs[i + 1..] == [];
    } else {
      var front := bs[..|bs| - 1];
      ChainTextSplit(front, i);
      assert front[..i] == bs[..i];
      assert front[i + 1..] == bs[i + 1..][..|bs[i + 1..]| - 1];
      assert bs[i + 1..][|bs[i + 1..]| - 1] == bs[|bs| - 1];
    }
  }

  twostate lemma {:induction false} LinesTextFrame(ls: seq<Line>)
    requires forall i :: 0 <= i < |ls| ==> old(ls[i].rawStrings) == ls[i].rawStrings
    ensures old(LinesText(ls)) == LinesText(ls)
    decreases |ls|
  {
    if ls != [] {
      LinesTextFrame(ls[..|ls| - 1]);
    }
  }

  /** The text of a chain depends on the blocks' lines and the lines'
      fragments only: relinking blocks does not change it. */
  twostate lemma {:induction false} ChainTextFrame(bs: seq<Block>)
    requires forall i :: 0 <= i < |bs| ==> old(bs[i].lines) == bs[i].lines
    requires forall i, j :: 0 <= i < |bs| && 0 <= j < |bs[i].lines| ==>
      old(bs[i].lines[j].rawStrings) == bs[i].lines[j].rawStrings
    ensures old(ChainText(bs)) == ChainText(bs)
    decreases |bs|
  {
    if bs != [] {
      var last := bs[|bs| - 1];
      ChainTextFrame(bs[..|bs| - 1]);
      LinesTextFrame(last.lines);
    }
  }

  /** The lines of a block as values. */
  ghost function LineStates(ls: seq<Line>): (r: seq<LineState>)
    reads set l | l in ls
    ensures |r| == |ls| && forall i :: 0 <= i < |ls| ==> r[i] == ls[i].State()
  {
    if ls == [] then [] else LineStates(ls[..|ls| - 1]) + [ls[|ls| - 1].State()]
  }

  /** The chain of objects as the value the parsers build: block by block,
      each the values of its lines. */
  ghost function ChainValue(bs: seq<Block>): (c: Chains.Chain)
    reads set b | b in bs
    reads set b, l | b in bs && l in b.lines :: l
    ensures |c| == |bs| && forall i :: 0 <= i < |bs| ==> c[i] == LineStates(bs[i].lines)
  {
    if bs == [] then [] else ChainValue(bs[..|bs| - 1]) + [LineStates(bs[|bs| - 1].lines)]
  }

  lemma {:induction false} LinesTextIsRawLines(ls: seq<Line>)
    ensures LinesText(ls) == Chains.RawLines(LineStates(ls))
    decreases |ls|
  {
    if ls != [] {
      var front := ls[..|ls| - 1];
      LinesTextIsRawLines(front);
      var r := LineStates(ls);
      assert r[..|r| - 1] == LineStates(front);
    }
  }

  /** Serialising the chain of objects writes what `Chains.Text` says of
      its value: the two forms of the chain agree. */
  lemma {:induction false} ChainTextIsText(bs: seq<Block>)
    ensures ChainText(bs) == Chains.Text(ChainValue(bs))
    decreases |bs|
  {
    if bs != [] {
      var front := bs[..|bs| - 1];
      ChainTextIsText(front);
      LinesTextIsRawLines(bs[|bs| - 1].lines);
      var c := ChainValue(bs);
      assert c[..|c| - 1] == ChainValue(front);
    }
  }

  /** `NewBlock`: a fresh empty block linked after the current one; the
      text of the chain is unchanged. */
  method NewBlock(current: Block, ghost bs: seq<Block>) returns (nb: Block)
    requires IsChain(bs) && current == bs[|bs| - 1]
    modifies current
    ensures fresh(nb) && nb.lines == [] && nb.next == null && nb.previous == current
    ensures current.next == nb && current.lines == old(current.lines)
    ensures IsChain(bs + [nb])
    ensures ChainText(bs + [nb]) == old(ChainText(bs))
  {
    nb := new Block();
    current.next := nb;
    nb.previous := current;
    ChainTextFrame(bs);
    ChainTextSnoc(bs, nb);
    assert (bs + [nb])[..|bs|] == bs;
  }

  /** `block.Lines = value`: when `b` is block `i` of the chain, its segment
      of the output becomes the text of `value`, and the segments before and
      after it stay. */
  method SetLines(b: Block, value: seq<Line>, ghost bs: seq<Block>, ghost i: int)
    requires IsChain(bs)
    modifies b
    ensures b.lines == value
    ensures 0 <= i < |bs| && bs[i] == b ==>
      ChainText(bs) == old(ChainText(bs[..i])) + LinesText(value) + old(ChainText(bs[i + 1..]))
  {
    ghost var before: seq<string> := [];
    ghost var after: seq<string> := [];
    if 0 <= i < |bs| && bs[i] == b {
      before := ChainText(bs[..i]);
      after := ChainText(bs[i + 1..]);
      assert b !in bs[..i] && b !in bs[i + 1..];
    }
    b.lines := value;
    if 0 <= i < |bs| && bs[i] == b {
      ChainTextSplit(bs, i);
      assert ChainText(bs[..i]) == before;
      assert ChainText(bs[i + 1..]) == after;
    }
  }
}
