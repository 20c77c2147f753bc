/** The per-line scanning both document parsers share: indentation, marker
    detection and the key regex `([ _0-9a-zA-Z]+: )([0-9a-fA-F]+)`. */
module Scanning {
  import opened Wrappers
  import opened Strings
  import opened HexKeys

  // ---------------------------------------------------------------------
  // Indentation and markers

  /** `CountStartSpaces`: the length of the leading run of spaces. */
  method CountStartSpaces(line: string) returns (depth: nat)
    ensures depth <= |line|
    ensures forall i :: 0 <= i < depth ==> line[i] == ' '
    ensures depth < |line| ==> line[depth] != ' '
    ensures line[depth..] == TrimStartSpaces(line) && depth == |line| - |TrimStartSpaces(line)|
  {
    depth := 0;
    var i := 0;
    while i < |line|
      invariant 0 <= i <= |line| && depth == i
      invariant forall j :: 0 <= j < i ==> line[j] == ' '
    {
      if line[i] == ' ' {
        depth := depth + 1;
      } else {
        break;
      }
      i := i + 1;
    }
    IndentationIsTrimmed(line, depth);
  }

  /** The leading run of spaces is exactly what `TrimStart(' ')` removes. */
  lemma IndentationIsTrimmed(line: string, depth: nat)
    requires depth <= |line|
    requires forall i :: 0 <= i < depth ==> line[i] == ' '
    requires depth < |line| ==> line[depth] != ' '
    ensures line[depth..] == TrimStartSpaces(line)
  {
    var r := TrimStartSpaces(line);
    var k := |line| - |r|;
    assert k < |line| ==> line[k] == r[0];
  }

  /** `names` has an entry `s` such that `s + ":"` occurs in `line`. */
  predicate Mentions(line: string, names: seq<string>) {
    exists i :: 0 <= i < |names| && NamedIn(line, names, i)
  }

  /** Entry `i` of `names`, followed by a colon, occurs in `line`. */
  predicate NamedIn(line: string, names: seq<string>, i: nat)
    requires i < |names|
  {
    IsSubstring(names[i] + ":", line)
  }

  /** `ContainsLine`: some configured name, followed by a colon, occurs in
      the line. */
  method ContainsLine(line: string, names: seq<string>) returns (b: bool)
    ensures b <==> Mentions(line, names)
  {
    var k := 0;
    while k < |names|
      invariant 0 <= k <= |names|
      invariant forall i :: 0 <= i < k ==> !NamedIn(line, names, i)
    {
      if NamedIn(line, names, k) {
        return true;
      }
      k := k + 1;
    }
    return false;
  }

  // ---------------------------------------------------------------------
  // The key regex

  /** The character class of group 1. */
  predicate IsKeyNameChar(c: char) {
    c == ' ' || c == '_' || ('0' <= c <= '9') || ('a' <= c <= 'z') || ('A' <= c <= 'Z')
  }

  /** `q` ends the run of group-1 class characters that starts at `p`. */
  ghost predicate EndsKeyNameRun(s: string, p: nat, q: nat) {
    p <= q <= |s|
    && (forall i :: p <= i < q ==> IsKeyNameChar(s[i]))
    && (q < |s| ==> !IsKeyNameChar(s[q]))
  }

  ghost predicate EndsHexRun(s: string, p: nat, q: nat) {
    p <= q <= |s|
    && (forall i :: p <= i < q ==> IsHexDigit(s[i]))
    && (q < |s| ==> !IsHexDigit(s[q]))
  }

  /** The greedy run of group 1's class from `p`. */
  function KeyNameRunEnd(s: string, p: nat): (q: nat)
    requires p <= |s|
    ensures EndsKeyNameRun(s, p, q)
    decreases |s| - p
  {
    if p < |s| && IsKeyNameChar(s[p]) then KeyNameRunEnd(s, p + 1) else p
  }

  /** The greedy run of hex digits from `p`. */
  function HexRunEnd(s: string, p: nat): (q: nat)
    requires p <= |s|
    ensures EndsHexRun(s, p, q)
    decreases |s| - p
  {
    if p < |s| && IsHexDigit(s[p]) then HexRunEnd(s, p + 1) else p
  }

  lemma KeyNameRunUnique(s: string, p: nat, q: nat, q': nat)
    requires EndsKeyNameRun(s, p, q) && EndsKeyNameRun(s, p, q')
    ensures q == q'
  {
  }

  lemma HexRunUnique(s: string, p: nat, q: nat, q': nat)
    requires EndsHexRun(s, p, q) && EndsHexRun(s, p, q')
    ensures q == q'
  {
  }

  /** A successful match: group 1 is `s[start..mid]`, group 2 `s[mid..end]`. */
  datatype KeyMatch = KeyMatch(start: nat, mid: nat, end: nat)

  /** The match starting at `p`, if any. Group 1's greedy run can only end
      where the class run ends, since `:` is outside the class; group 2 is
      the greedy hex run after `": "`. */
  function MatchAt(s: string, p: nat): (r: Option<KeyMatch>)
    requires p <= |s|
    ensures r.Some? ==> r.value.start == p && p + 3 <= r.value.mid < r.value.end <= |s|
    ensures r.Some? ==> s[r.value.mid - 2..r.value.mid] == ": "
    ensures r.Some? ==> AllHex(s[r.value.mid..r.value.end])
  {
    var q := KeyNameRunEnd(s, p);
    if q > p && q + 2 < |s| && s[q] == ':' && s[q + 1] == ' ' && IsHexDigit(s[q + 2]) then
      var e := HexRunEnd(s, q + 2);
      AllHexSlice(s, q + 2, e);
      Some(KeyMatch(p, q + 2, e))
    else None
  }

  /** The leftmost match at or after `from`. */
  function FirstMatch(s: string, from: nat): (r: Option<KeyMatch>)
    requires from <= |s|
    ensures r.Some? ==> from <= r.value.start <= |s| && MatchAt(s, r.value.start) == r
    ensures r.Some? ==> forall p :: from <= p < r.value.start ==> MatchAt(s, p).None?
    ensures r.None? ==> forall p :: from <= p <= |s| ==> MatchAt(s, p).None?
    decreases |s| - from
  {
    if from == |s| then MatchAt(s, from)
    else
      match MatchAt(s, from)
      case Some(m) => Some(m)
      case None => FirstMatch(s, from + 1)
  }

  /** `m_keysRegex.Match(line).Groups[2].Value`: the packed keys, or the
      empty string when nothing matches. */
  function KeysOf(line: string): (keys: string)
    ensures AllHex(keys)
    ensures keys == "" <==> FirstMatch(line, 0).None?
  {
    match FirstMatch(line, 0)
    case Some(m) => line[m.mid..m.end]
    case None => ""
  }

  /** `m_keysRegex.Replace(s, "$1")` from position `from` on: every match
      keeps its group 1 and loses its group 2. */
  function ReplaceFrom(s: string, from: nat): string
    requires from <= |s|
    decreases |s| - from
  {
    match FirstMatch(s, from)
    case None => s[from..]
    case Some(m) => s[from..m.mid] + ReplaceFrom(s, m.end)
  }

  function ReplaceKeys(s: string): string {
    ReplaceFrom(s, 0)
  }

  /** The setters' rewrite: the line's packed run swapped for `v`. */
  function RewriteKeys(s: string, v: string): string {
    ReplaceKeys(s) + v
  }

  /** On a keys line whose hex run ends the line, the replacement keeps
      everything up to the end of group 1 and drops the run. */
  lemma ReplaceLastMatch(s: string)
    requires FirstMatch(s, 0).Some? && FirstMatch(s, 0).value.end == |s|
    ensures ReplaceKeys(s) == s[..FirstMatch(s, 0).value.mid]
  {
    var m := FirstMatch(s, 0).value;
    assert ReplaceFrom(s, |s|) == s[|s|..];
  }

  /** Two strings that agree up to index `k` give the same match verdict at
      every `p` whose group-1 run, with its `": "` and first digit, lies
      before `k`. */
  lemma {:induction false} MatchAtAgrees(s: string, t: string, p: nat, k: nat)
    requires p <= |s| && p <= |t| && k <= |s| && k <= |t|
    requires s[..k] == t[..k]
    requires KeyNameRunEnd(s, p) + 2 < k
    ensures MatchAt(s, p).None? <==> MatchAt(t, p).None?
  {
    var q := KeyNameRunEnd(s, p);
    assert forall i :: 0 <= i < k ==> s[i] == t[i] by {
      forall i | 0 <= i < k ensures s[i] == t[i] {
        assert s[..k][i] == t[..k][i];
      }
    }
    assert EndsKeyNameRun(t, p, q);
    KeyNameRunUnique(t, p, q, KeyNameRunEnd(t, p));
  }

  /** Inside a run of class characters every start position sees the same
      run end, so a match there would be a match at every later position of
      the run. */
  lemma KeyNameRunShared(s: string, p: nat, p': nat)
    requires p <= |s| && p <= p' < KeyNameRunEnd(s, p)
    ensures KeyNameRunEnd(s, p') == KeyNameRunEnd(s, p)
  {
    var q := KeyNameRunEnd(s, p);
    assert EndsKeyNameRun(s, p', q);
    KeyNameRunUnique(s, p', q, KeyNameRunEnd(s, p'));
  }

  /** A class run from `p` that reaches past a match's start ends where the
      match's run ends, so it matches too. */
  lemma RunThroughMatch(s: string, p: nat, start: nat)
    requires p < start <= |s| && MatchAt(s, start).Some?
    ensures KeyNameRunEnd(s, p) > start ==> MatchAt(s, p).Some?
  {
    if KeyNameRunEnd(s, p) > start {
      KeyNameRunShared(s, p, start);
    }
  }

  lemma AllHexSlice(s: string, a: nat, b: nat)
    requires a <= b <= |s|
    requires forall i :: a <= i < b ==> IsHexDigit(s[i])
    ensures AllHex(s[a..b])
  {
    forall j | 0 <= j < b - a ensures IsHexDigit(s[a..b][j]) {
      assert s[a..b][j] == s[a + j];
    }
  }

  /** The keys written by a setter are the keys read back: on a line whose
      hex run ends the line, rewriting with a hex string `v` makes `v` the
      new group 2, and group 1 and everything before it stay. With `v`
      empty nothing matches any more, so the keys read back are the empty
      string, which is `v` again. */
  lemma {:induction false} KeysOfRewrite(s: string, v: string)
    requires FirstMatch(s, 0).Some? && FirstMatch(s, 0).value.end == |s|
    requires AllHex(v)
    ensures KeysOf(RewriteKeys(s, v)) == v
    ensures RewriteKeys(s, v) == s[..FirstMatch(s, 0).value.mid] + v
  {
    var m := FirstMatch(s, 0).value;
    ReplaceLastMatch(s);
    var t := s[..m.mid] + v;
    assert RewriteKeys(s, v) == t;
    if v == [] {
      assert t == s[..m.mid];
      RewriteEmptyMatchesNowhere(s);
    } else {
      RewriteKeepsEarlierFailures(s, v);
      assert t[..m.mid] == s[..m.mid] && t[m.mid..] == v;
      RewriteMatchesAtStart(s, m, v, t);
      FirstMatchIsLeftmost(t, m.start);
      assert t[m.mid..] == v;
    }
  }

  /** Cutting a keys line after its `": "` leaves no match: positions before
      the old start fail as before, and from the old start on the class run
      reaches at least the colon, leaving no room for `": "` and a digit. */
  lemma RewriteEmptyMatchesNowhere(s: string)
    requires FirstMatch(s, 0).Some? && FirstMatch(s, 0).value.end == |s|
    ensures FirstMatch(s[..FirstMatch(s, 0).value.mid], 0).None?
  {
    var m := FirstMatch(s, 0).value;
    var t := s[..m.mid];
    assert t == s[..m.mid] + [];
    RewriteKeepsEarlierFailures(s, []);
    var q := m.mid - 2;
    assert EndsKeyNameRun(s, m.start, q);
    forall p | m.start <= p <= |t| ensures MatchAt(t, p).None? {
      if p < q {
        assert EndsKeyNameRun(t, p, q) by {
          forall i | p <= i < q ensures IsKeyNameChar(t[i]) {
            assert t[i] == s[i];
          }
          assert t[q] == s[m.mid - 2..m.mid][0] == ':';
        }
        KeyNameRunUnique(t, p, q, KeyNameRunEnd(t, p));
      }
    }
  }

  /** No position before the old match's start matches in the rewritten
      line: each sees the same characters up to its `": "` and digit. */
  lemma RewriteKeepsEarlierFailures(s: string, v: string)
    requires FirstMatch(s, 0).Some? && FirstMatch(s, 0).value.end == |s|
    ensures var m := FirstMatch(s, 0).value;
      forall p :: 0 <= p < m.start ==> MatchAt(s[..m.mid] + v, p).None?
  {
    var m := FirstMatch(s, 0).value;
    var t := s[..m.mid] + v;
    assert s[..m.mid] == t[..m.mid];
    var q := m.mid - 2;
    assert KeyNameRunEnd(s, m.start) == q;
    forall p | 0 <= p < m.start ensures MatchAt(t, p).None? {
      RunThroughMatch(s, p, m.start);
      assert KeyNameRunEnd(s, p) != m.start by {
        assert IsKeyNameChar(s[m.start]) by {
          assert m.start < q;
        }
      }
      MatchAtAgrees(s, t, p, m.mid);
    }
  }

  /** A match's start still matches in the rewritten line `t` (group 1 and
      what precedes it kept, then `v`), with `v` as group 2. */
  lemma RewriteMatchesAtStart(s: string, m: KeyMatch, v: string, t: string)
    requires m.start <= |s| && MatchAt(s, m.start) == Some(m)
    requires v != [] && AllHex(v)
    requires |t| == m.mid + |v| && t[..m.mid] == s[..m.mid] && t[m.mid..] == v
    ensures MatchAt(t, m.start) == Some(KeyMatch(m.start, m.mid, |t|))
  {
    var q := m.mid - 2;
    assert KeyNameRunEnd(s, m.start) == q > m.start;
    assert s[m.mid - 2..m.mid] == ": ";
    assert t[q] == ':' && t[q + 1] == ' ' by {
      assert t[q] == t[..m.mid][q] == s[..m.mid][q] == s[m.mid - 2..m.mid][0];
      assert t[q + 1] == t[..m.mid][q + 1] == s[..m.mid][q + 1] == s[m.mid - 2..m.mid][1];
    }
    assert EndsKeyNameRun(t, m.start, q) by {
      forall i | m.start <= i < q ensures IsKeyNameChar(t[i]) {
        assert t[i] == t[..m.mid][i] == s[..m.mid][i] == s[i];
      }
    }
    assert EndsHexRun(t, m.mid, |t|) by {
      forall i | m.mid <= i < |t| ensures IsHexDigit(t[i]) {
        assert t[i] == t[m.mid..][i - m.mid];
      }
    }
    assert IsHexDigit(t[q + 2]) by {
      assert t[q + 2] == t[m.mid..][0];
    }
    MatchAtRuns(t, m.start, q, |t|);
  }

  /** A class run from `p` ending at `q`, then `": "`, then a hex run ending
      at `e`, is a match. */
  lemma MatchAtRuns(t: string, p: nat, q: nat, e: nat)
    requires EndsKeyNameRun(t, p, q) && p < q && q + 2 < |t| && t[q] == ':' && t[q + 1] == ' '
    requires IsHexDigit(t[q + 2]) && EndsHexRun(t, q + 2, e)
    ensures MatchAt(t, p) == Some(KeyMatch(p, q + 2, e))
  {
    KeyNameRunUnique(t, p, q, KeyNameRunEnd(t, p));
    HexRunUnique(t, q + 2, e, HexRunEnd(t, q + 2));
  }

  /** A match at `p` with none before it is the first match. */
  lemma {:induction false} FirstMatchIsLeftmost(s: string, p: nat)
    requires p <= |s| && MatchAt(s, p).Some?
    requires forall p' :: 0 <= p' < p ==> MatchAt(s, p').None?
    ensures FirstMatch(s, 0) == MatchAt(s, p)
  {
    FirstMatchFrom(s, 0, p);
  }

  lemma {:induction false} FirstMatchFrom(s: string, from: nat, p: nat)
    requires from <= p <= |s| && MatchAt(s, p).Some?
    requires forall p' :: from <= p' < p ==> MatchAt(s, p').None?
    ensures FirstMatch(s, from) == MatchAt(s, p)
    decreases p - from
  {
    if from < p {
      FirstMatchFrom(s, from + 1, p);
    }
  }
}
