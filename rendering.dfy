/** The text `ModificationResult.Errors` builds: conflict markers around
    the two sides' operations, each operation rendered by
    `Operation.ToString` as `{OperationType}: {Key} => {Value}`. */
module Rendering {
  import opened Strings
  import opened Wrappers
  import opened Operations

  /** An enum member's `ToString`: its name. */
  function KindName(k: OperationType): string {
    match k
    case Addition => "ADDITION"
    case Modification => "MODIFICATION"
    case Removal => "REMOVAL"
  }

  function DecimalDigitChar(d: nat): (c: char)
    requires d < 10
    ensures '0' <= c <= '9'
  {
    ('0' as int + d) as char
  }

  /** The decimal digits of `n`, most significant first, no leading zero. */
  function NatText(n: nat): (s: string)
    ensures |s| >= 1 && forall i :: 0 <= i < |s| ==> '0' <= s[i] <= '9'
    decreases n
  {
    if n < 10 then [DecimalDigitChar(n)] else NatText(n / 10) + [DecimalDigitChar(n % 10)]
  }

  /** `int.ToString()`: a minus sign, then the digits of the magnitude. */
  function IntText(i: int): string {
    if i < 0 then "-" + NatText(-i) else NatText(i)
  }

  /** Reading decimal digits back, most significant first. */
  function DigitsValue(s: string): int
    requires forall i :: 0 <= i < |s| ==> '0' <= s[i] <= '9'
  {
    if s == [] then 0 else DigitsValue(s[..|s| - 1]) * 10 + (s[|s| - 1] as int - '0' as int)
  }

  /** Reading an optionally signed decimal back. */
  function DecimalValue(s: string): int
    requires |s| >= 1
    requires forall i :: (if s[0] == '-' then 1 else 0) <= i < |s| ==> '0' <= s[i] <= '9'
  {
    if s[0] == '-' then -DigitsValue(s[1..]) else DigitsValue(s)
  }

  lemma {:induction false} NatTextValue(n: nat)
    ensures DigitsValue(NatText(n)) == n
    ensures NatText(n)[0] != '0' || n == 0
    decreases n
  {
    if n >= 10 {
      NatTextValue(n / 10);
      var s := NatText(n);
      assert s[..|s| - 1] == NatText(n / 10);
    }
  }

  /** The decimal rendering of a key reads back as the key. */
  lemma IntTextValue(i: int)
    ensures |IntText(i)| >= 1
    ensures forall j :: (if IntText(i)[0] == '-' then 1 else 0) <= j < |IntText(i)| ==> '0' <= IntText(i)[j] <= '9'
    ensures DecimalValue(IntText(i)) == i
  {
    if i < 0 {
      NatTextValue(-i);
      assert IntText(i)[1..] == NatText(-i);
    } else {
      NatTextValue(i);
    }
  }

  /** `Operation.ToString`, given the rendering of the value. */
  function OperationText(kind: OperationType, key: int, valueText: string): string {
    KindName(kind) + ": " + IntText(key) + " => " + valueText
  }

  predicate NoNewline(s: string) {
    forall i :: 0 <= i < |s| ==> s[i] != '\n'
  }

  /** An operation renders on one line when its value does. */
  lemma OperationTextOneLine(kind: OperationType, key: int, valueText: string)
    requires NoNewline(valueText)
    ensures NoNewline(OperationText(kind, key, valueText))
  {
    var t := OperationText(kind, key, valueText);
    var pre := KindName(kind) + ": " + IntText(key) + " => ";
    assert t == pre + valueText;
    forall i | 0 <= i < |t| ensures t[i] != '\n' {
      if i >= |pre| {
        assert t[i] == valueText[i - |pre|];
      } else if i >= |KindName(kind) + ": " + IntText(key)| {
        assert t[i] == " => "[i - |KindName(kind) + ": " + IntText(key)|];
      } else if i >= |KindName(kind) + ": "| {
        assert t[i] == IntText(key)[i - |KindName(kind) + ": "|];
      } else if i >= |KindName(kind)| {
        assert t[i] == ": "[i - |KindName(kind)|];
      } else {
        assert t[i] == KindName(kind)[i];
      }
    }
  }

  /** Every item rendered in order; `None` once a rendering throws. */
  function RenderAll<T>(xs: seq<T>, render: T -> Option<string>): (r: Option<seq<string>>)
    ensures r.Some? ==> |r.value| == |xs|
  {
    if xs == [] then Some([])
    else
      match (RenderAll(xs[..|xs| - 1], render), render(xs[|xs| - 1]))
      case (Some(front), Some(t)) => Some(front + [t])
      case _ => None
  }

  lemma {:induction false} RenderFailSticks<T>(xs: seq<T>, n: nat, render: T -> Option<string>)
    requires n <= |xs| && RenderAll(xs[..n], render).None?
    ensures RenderAll(xs, render).None?
    decreases |xs|
  {
    if n < |xs| {
      var front := xs[..|xs| - 1];
      assert front[..n] == xs[..n];
      RenderFailSticks(front, n, render);
    } else {
      assert xs[..n] == xs;
    }
  }

  /** Items that always render: the rendering is the item-wise one. */
  lemma {:induction false} RenderAllTotal<T>(xs: seq<T>, render: T -> Option<string>)
    requires forall i :: 0 <= i < |xs| ==> render(xs[i]).Some?
    ensures RenderAll(xs, render).Some?
    ensures forall i :: 0 <= i < |xs| ==> RenderAll(xs, render).value[i] == render(xs[i]).value
    decreases |xs|
  {
    if xs != [] {
      var front := xs[..|xs| - 1];
      RenderAllTotal(front, render);
    }
  }

  lemma PairsStep<A, B>(ps: seq<(A, B)>, i: nat)
    requires i < |ps|
    ensures Firsts(ps[..i + 1]) == Firsts(ps[..i]) + [ps[i].0]
    ensures Seconds(ps[..i + 1]) == Seconds(ps[..i]) + [ps[i].1]
    ensures Firsts(ps[..i + 1])[..i] == Firsts(ps[..i]) && Seconds(ps[..i + 1])[..i] == Seconds(ps[..i])
  {
    assert Firsts(ps[..i + 1]) == Firsts(ps[..i]) + [ps[i].0];
    assert Seconds(ps[..i + 1]) == Seconds(ps[..i]) + [ps[i].1];
  }

  lemma JoinSnoc(ps: seq<string>, p: string)
    ensures Join(ps + [p], "\n") == (if ps == [] then "" else Join(ps, "\n") + "\n") + p
  {
    assert (ps + [p])[..|ps|] == ps;
    if ps == [] {
      assert ps + [p] == [p];
      assert "" + p == p;
    }
  }

  lemma UnlinesSnoc(ls: seq<string>, l: string, newLine: string)
    ensures Unlines(ls + [l], newLine) == Unlines(ls, newLine) + l + newLine
  {
    assert (ls + [l])[..|ls|] == ls;
  }

  // ---------------------------------------------------------------------
  // StringBuilder.AppendLine and the conflict markers

  /** Lines each followed by `newLine`, as successive `AppendLine` calls
      write them. */
  function Unlines(ls: seq<string>, newLine: string): string {
    if ls == [] then "" else Unlines(ls[..|ls| - 1], newLine) + ls[|ls| - 1] + newLine
  }

  /** The five `AppendLine` calls that frame the two sides. */
  function Framed(a: string, b: string, newLine: string): string {
    Unlines(["<<<<<<< HEAD", a, "=======", b, ">>>>>>> "], newLine)
  }

  lemma {:induction false} UnlinesAppend(x: seq<string>, y: seq<string>, newLine: string)
    ensures Unlines(x + y, newLine) == Unlines(x, newLine) + Unlines(y, newLine)
    decreases |y|
  {
    if y == [] {
      assert x + y == x;
    } else {
      var front, last := y[..|y| - 1], y[|y| - 1];
      assert (x + y)[..|x + y| - 1] == x + front;
      assert (x + y)[|x + y| - 1] == last;
      calc {
        Unlines(x + y, newLine);
        Unlines(x + front, newLine) + last + newLine;
        { UnlinesAppend(x, front, newLine); }
        Unlines(x, newLine) + Unlines(front, newLine) + last + newLine;
      }
    }
  }

  /** Pieces joined by `"\n"`, then a line end of `"\n"`: each piece is a
      line of its own. */
  lemma {:induction false} JoinThenNewline(ps: seq<string>)
    requires ps != []
    ensures Join(ps, "\n") + "\n" == Unlines(ps, "\n")
    decreases |ps|
  {
    if |ps| > 1 {
      var front := ps[..|ps| - 1];
      JoinThenNewline(front);
      assert Join(ps, "\n") == Join(front, "\n") + "\n" + ps[|ps| - 1];
    } else {
      assert ps[..0] == [];
    }
  }

  /** When the line end is `"\n"`, the framing of two sides joined by
      `"\n"` is the marker line, side A's pieces one per line, the
      separator line, side B's pieces one per line and the closing marker
      line. */
  lemma FramedJoined(left: seq<string>, right: seq<string>)
    requires left != [] && right != []
    ensures Framed(Join(left, "\n"), Join(right, "\n"), "\n")
         == Unlines(["<<<<<<< HEAD"] + left + ["======="] + right + [">>>>>>> "], "\n")
  {
    var nl := "\n";
    var a, b := Join(left, nl), Join(right, nl);
    JoinThenNewline(left);
    JoinThenNewline(right);
    OneLine(a, nl);
    OneLine(b, nl);
    assert ["<<<<<<< HEAD", a, "=======", b, ">>>>>>> "]
        == ["<<<<<<< HEAD"] + [a] + ["======="] + [b] + [">>>>>>> "];
    Unlines5(["<<<<<<< HEAD"], [a], ["======="], [b], [">>>>>>> "], nl);
    Unlines5(["<<<<<<< HEAD"], left, ["======="], right, [">>>>>>> "], nl);
  }

  /** The older `Errors` ends every piece with a line end of its own, and
      `AppendLine` adds one more: each side is followed by an empty line. */
  lemma FramedLined(left: seq<string>, right: seq<string>, newLine: string)
    ensures Framed(Unlines(left, newLine), Unlines(right, newLine), newLine)
         == Unlines(["<<<<<<< HEAD"] + left + ["", "======="] + right + ["", ">>>>>>> "], newLine)
  {
    var nl := newLine;
    var a, b := Unlines(left, nl), Unlines(right, nl);
    var h, m, t := ["<<<<<<< HEAD"], ["======="], [">>>>>>> "];
    var l, r := left + [""], right + [""];
    assert ["<<<<<<< HEAD", a, "=======", b, ">>>>>>> "] == h + [a] + m + [b] + t;
    assert ["<<<<<<< HEAD"] + left + ["", "======="] + right + ["", ">>>>>>> "] == h + l + m + r + t;
    calc {
      Framed(a, b, nl);
      Unlines(h + [a] + m + [b] + t, nl);
      { Unlines5(h, [a], m, [b], t, nl); }
      Unlines(h, nl) + Unlines([a], nl) + Unlines(m, nl) + Unlines([b], nl) + Unlines(t, nl);
      { OneLine(a, nl); OneLine(b, nl); EndedLine(left, nl); EndedLine(right, nl); }
      Unlines(h, nl) + Unlines(l, nl) + Unlines(m, nl) + Unlines(r, nl) + Unlines(t, nl);
      { Unlines5(h, l, m, r, t, nl); }
      Unlines(h + l + m + r + t, nl);
    }
  }

  lemma OneLine(x: string, nl: string)
    ensures Unlines([x], nl) == x + nl
  {
    assert [x][..0] == [];
    assert "" + x == x;
  }

  /** A line end after the last line leaves an empty line. */
  lemma EndedLine(ls: seq<string>, nl: string)
    ensures Unlines(ls + [""], nl) == Unlines(ls, nl) + nl
  {
    assert (ls + [""])[..|ls|] == ls;
    assert Unlines(ls, nl) + "" == Unlines(ls, nl);
  }

  lemma Unlines5(p1: seq<string>, p2: seq<string>, p3: seq<string>, p4: seq<string>, p5: seq<string>, nl: string)
    ensures Unlines(p1 + p2 + p3 + p4 + p5, nl)
         == Unlines(p1, nl) + Unlines(p2, nl) + Unlines(p3, nl) + Unlines(p4, nl) + Unlines(p5, nl)
  {
    UnlinesAppend(p1 + p2 + p3 + p4, p5, nl);
    UnlinesAppend(p1 + p2 + p3, p4, nl);
    UnlinesAppend(p1 + p2, p3, nl);
    UnlinesAppend(p1, p2, nl);
  }
}
