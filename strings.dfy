/** The ordinal string operations the parser and the line model rely on. */
module Strings {

  /** The fragments glued together with no separator (`Value += value`). */
  function Concat(ss: seq<string>): (r: string)
    ensures |r| == if ss == [] then 0 else |Concat(ss[..|ss| - 1])| + |ss[|ss| - 1]|
  {
    if ss == [] then "" else Concat(ss[..|ss| - 1]) + ss[|ss| - 1]
  }

  /** `string.Join(sep, ss)`: the pieces with `sep` between neighbours. */
  function Join(ss: seq<string>, sep: string): string {
    if ss == [] then ""
    else if |ss| == 1 then ss[0]
    else Join(ss[..|ss| - 1], sep) + sep + ss[|ss| - 1]
  }

  predicate StartsWith(s: string, prefix: string) {
    |prefix| <= |s| && s[..|prefix|] == prefix
  }

  predicate EndsWith(s: string, suffix: string) {
    |suffix| <= |s| && s[|s| - |suffix|..] == suffix
  }

  /** `s.Contains(p)`, ordinal. */
  predicate IsSubstring(p: string, s: string) {
    exists i :: 0 <= i <= |s| && OccursAt(p, s, i)
  }

  predicate OccursAt(p: string, s: string, i: nat) {
    i + |p| <= |s| && s[i..i + |p|] == p
  }

  /** `s.TrimStart(' ')`: only the space character is trimmed. */
  function TrimStartSpaces(s: string): (r: string)
    ensures |r| <= |s| && r == s[|s| - |r|..]
    ensures r == [] || r[0] != ' '
    ensures forall i :: 0 <= i < |s| - |r| ==> s[i] == ' '
  {
    if s != [] && s[0] == ' ' then TrimStartSpaces(s[1..]) else s
  }

  /** Joining then reading back: the separator appears exactly between
      neighbours, so a join of one more piece is the old join, the
      separator and that piece. */
  lemma {:induction false} JoinLength(ss: seq<string>, sep: string)
    requires |ss| >= 1
    ensures |Join(ss, sep)| == |Concat(ss)| + (|ss| - 1) * |sep|
    decreases |ss|
  {
    if |ss| > 1 {
      JoinLength(ss[..|ss| - 1], sep);
    } else {
      assert ss[..0] == [];
    }
  }
}
