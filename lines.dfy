/** A `Line` of a parsed document: one logical YAML scalar made of the raw
    text lines it was read from. */
module Lines {
  import opened Wrappers
  import opened Strings

  /** The `TextWriter` a document is saved to: the lines written so far. */
  class Writer {
    var lines: seq<string>

    constructor ()
      ensures lines == []
    {
      lines := [];
    }

    /** `WriteLine(s)`: one more line of output. */
    method WriteLine(s: string)
      modifies this
      ensures lines == old(lines) + [s]
    {
      lines := lines + [s];
    }
  }

  /** The `TextReader` a document is parsed from: its lines and how many of
      them have been read. */
  class Reader {
    const input: seq<string>
    var pos: nat

    constructor (input: seq<string>)
      ensures this.input == input && pos == 0
    {
      this.input := input;
      pos := 0;
    }

    /** `ReadLine()`: the next line, or `None` (a C# null) once the input is
        exhausted, after which every call returns `None` again. */
    method ReadLine() returns (line: Option<string>)
      requires pos <= |input|
      modifies this
      ensures pos <= |input|
      ensures old(pos) < |input| ==> line == Some(input[old(pos)]) && pos == old(pos) + 1
      ensures old(pos) == |input| ==> line == None && pos == old(pos)
    {
      if pos < |input| {
        line := Some(input[pos]);
        pos := pos + 1;
      } else {
        line := None;
      }
    }
  }

  /** The logical value of a folded scalar: the first `depth` characters of
      every fragment dropped, the rest joined by single spaces. A fragment
      shorter than `depth` (or a negative depth) makes `Substring` throw. */
  function Scalar(fragments: seq<string>, depth: int): (r: Option<string>)
    ensures r.Some? <==> forall i :: 0 <= i < |fragments| ==> 0 <= depth <= |fragments[i]|
  {
    if fragments == [] then Some("")
    else
      var n := |fragments|;
      var f := fragments[n - 1];
      var front := fragments[..n - 1];
      assert forall i :: 0 <= i < n - 1 ==> front[i] == fragments[i];
      match Scalar(front, depth)
      case None => None
      case Some(prefix) =>
        if depth < 0 || |f| < depth then None
        else Some(if n == 1 then f[depth..] else prefix + " " + f[depth..])
  }

  /** Fragments of the form indentation + piece, with the indentation exactly
      `depth` long, have the pieces joined by single spaces as their scalar. */
  lemma {:induction false} ScalarDropsIndentation(indents: seq<string>, pieces: seq<string>, depth: nat)
    requires |indents| == |pieces|
    requires forall i :: 0 <= i < |indents| ==> |indents[i]| == depth
    ensures Scalar(seq(|pieces|, i requires 0 <= i < |pieces| => indents[i] + pieces[i]), depth)
         == Some(Join(pieces, " "))
    decreases |pieces|
  {
    var fragments := seq(|pieces|, i requires 0 <= i < |pieces| => indents[i] + pieces[i]);
    if pieces != [] {
      var n := |pieces|;
      var front := seq(n - 1, i requires 0 <= i < n - 1 => indents[..n - 1][i] + pieces[..n - 1][i]);
      assert fragments[..n - 1] == front;
      ScalarDropsIndentation(indents[..n - 1], pieces[..n - 1], depth);
      assert fragments[n - 1][depth..] == pieces[n - 1];
    }
  }

  /** A `Line`'s three fields as a value. The chain of a parsed document
      and the dictionaries built from it hold their lines this way. */
  datatype LineState = LineState(value: string, rawStrings: seq<string>, depth: int)

  /** `Value` is all the fragments glued together, and there is at least
      one fragment. */
  predicate WellFormed(l: LineState) {
    |l.rawStrings| >= 1 && l.value == Concat(l.rawStrings)
  }

  /** `ScalarValue` (and `ToString`, which returns it) of a line. */
  function ScalarOf(l: LineState): Option<string> {
    Scalar(l.rawStrings, l.depth)
  }

  /** `new Line(s)`: one fragment, no indentation to strip, so its scalar is
      `s` itself. */
  function NewLine(s: string): (r: LineState)
    ensures WellFormed(r) && r.value == s && r.rawStrings == [s]
    ensures ScalarOf(r) == Some(s)
  {
    assert [s][..0] == [];
    LineState(s, [s], 0)
  }

  /** `SetValue(v)`: the fragments are replaced by `v` alone; the scalar
      depth stays. */
  function WithValue(l: LineState, v: string): (r: LineState)
    ensures WellFormed(r) && r.value == v && r.rawStrings == [v] && r.depth == l.depth
    ensures ScalarOf(r) == if 0 <= l.depth <= |v| then Some(v[l.depth..]) else None
  {
    assert [v][..0] == [];
    l.(value := v, rawStrings := [v])
  }

  /** `AppendValue(v)`: one fragment more, glued on with no separator, and
      one more piece of the scalar, after a single space. */
  function Appended(l: LineState, v: string): (r: LineState)
    ensures WellFormed(l) ==> WellFormed(r)
    ensures r.value == l.value + v && r.rawStrings == l.rawStrings + [v] && r.depth == l.depth
    ensures l.rawStrings != [] ==>
      ScalarOf(r) == match ScalarOf(l)
                     case None => None
                     case Some(p) => if 0 <= l.depth <= |v| then Some(p + " " + v[l.depth..]) else None
  {
    var r := l.(value := l.value + v, rawStrings := l.rawStrings + [v]);
    assert r.rawStrings[..|r.rawStrings| - 1] == l.rawStrings;
    r
  }

  /** `SetScalarDepth(d)`. */
  function WithDepth(l: LineState, d: int): LineState {
    l.(depth := d)
  }

  class Line {
    /** `Value`: every fragment glued together. */
    var value: string
    /** `m_rawStrings`: the raw lines, as they are written back. */
    var rawStrings: seq<string>
    /** `m_depth`: the indentation stripped from each fragment. */
    var depth: int

    /** The line's fields as a value. */
    ghost function State(): LineState
      reads this
    {
      LineState(value, rawStrings, depth)
    }

    ghost predicate Valid()
      reads this
    {
      WellFormed(State())
    }

    constructor (value: string)
      ensures State() == NewLine(value)
    {
      this.value := value;
      rawStrings := [value];
      depth := 0;
    }

    method SetValue(value: string)
      modifies this
      ensures State() == WithValue(old(State()), value)
    {
      this.value := value;
      rawStrings := [value];
    }

    /** A continuation line: one fragment more, glued on with no separator. */
    method AppendValue(value: string)
      modifies this
      ensures State() == Appended(old(State()), value)
    {
      this.value := this.value + value;
      rawStrings := rawStrings + [value];
    }

    method SetScalarDepth(depth: int)
      modifies this
      ensures State() == WithDepth(old(State()), depth)
    {
      this.depth := depth;
    }

    /** `ScalarValue` (and `ToString`, which returns it); `None` where
        `Substring` throws. */
    method ScalarValue() returns (r: Option<string>)
      ensures r == ScalarOf(State())
    {
      var sb := "";
      var index := 0;
      while index < |rawStrings|
        invariant 0 <= index <= |rawStrings|
        invariant Scalar(rawStrings[..index], depth) == Some(sb)
      {
        var s := rawStrings[index];
        if depth < 0 || |s| < depth {
          ShortOrNegativeFails(rawStrings, depth, index);
          return None;
        }
        ScalarStep(rawStrings, index, sb, depth);
        if index != 0 {
          sb := sb + " ";
        }
        sb := sb + s[depth..];
        index := index + 1;
      }
      assert rawStrings[..index] == rawStrings;
      r := Some(sb);
    }

    /** Every fragment is written as a line of its own, in order. */
    method Serialize(writer: Writer)
      modifies writer
      ensures writer.lines == old(writer.lines) + rawStrings
    {
      var i := 0;
      while i < |rawStrings|
        invariant 0 <= i <= |rawStrings|
        invariant writer.lines == old(writer.lines) + rawStrings[..i]
      {
        writer.WriteLine(rawStrings[i]);
        assert rawStrings[..i + 1] == rawStrings[..i] + [rawStrings[i]];
        i := i + 1;
      }
      assert rawStrings[..i] == rawStrings;
    }
  }

  lemma ScalarStep(fragments: seq<string>, index: nat, sb: string, depth: int)
    requires index < |fragments|
    requires Scalar(fragments[..index], depth) == Some(sb)
    requires 0 <= depth <= |fragments[index]|
    ensures Scalar(fragments[..index + 1], depth)
         == Some((if index != 0 then sb + " " else sb) + fragments[index][depth..])
  {
    var front := fragments[..index + 1];
    assert front[..index] == fragments[..index];
    assert front[index] == fragments[index];
    assert fragments[..0] == [];
    if index == 0 {
      assert Scalar([], depth) == Some("");
      assert sb == "";
      assert sb + fragments[index][depth..] == fragments[index][depth..];
      assert Scalar(front, depth) == Some(fragments[index][depth..]);
    } else {
      assert Scalar(front, depth) == Some(sb + " " + fragments[index][depth..]);
    }
  }

  lemma ShortOrNegativeFails(fragments: seq<string>, depth: int, i: nat)
    requires i < |fragments| && (depth < 0 || |fragments[i]| < depth)
    ensures Scalar(fragments, depth) == None
  {
  }
}
