/** The packed key array of a serialized dictionary: a run of 8-hex-digit
    windows, one per 32-bit key, each window holding the key's bytes in
    little-endian order (byte pairs of the `x8` rendering reversed).
    Both generations of YAMLParser.cs carry the same code for this. */
module HexKeys {
  import opened Wrappers

  /** The range of a C# `int`. */
  newtype int32 = x: int | -0x8000_0000 <= x < 0x8000_0000

  const TWO32: nat := 0x1_0000_0000

  // ---------------------------------------------------------------------
  // Hexadecimal digits

  predicate IsHexDigit(c: char) {
    ('0' <= c <= '9') || ('a' <= c <= 'f') || ('A' <= c <= 'F')
  }

  predicate AllHex(s: string) {
    forall i :: 0 <= i < |s| ==> IsHexDigit(s[i])
  }

  /** The value of one hex digit (either case). */
  function DigitValue(c: char): (v: nat)
    requires IsHexDigit(c)
    ensures v < 16
  {
    if '0' <= c <= '9' then (c - '0') as nat
    else if 'a' <= c <= 'f' then (c - 'a') as nat + 10
    else (c - 'A') as nat + 10
  }

  /** The lower-case digit that `ToString("x8")` writes for `v`. */
  function DigitChar(v: nat): (c: char)
    requires v < 16
    ensures IsHexDigit(c) && DigitValue(c) == v
    ensures !('A' <= c <= 'F')
  {
    if v < 10 then ('0' as int + v) as char else ('a' as int + v - 10) as char
  }

  /** The unsigned value of a run of hex digits, most significant first. */
  function HexValue(s: string): nat
    requires AllHex(s)
  {
    if s == [] then 0 else HexValue(s[..|s| - 1]) * 16 + DigitValue(s[|s| - 1])
  }

  function Pow16(n: nat): (p: nat)
    ensures p >= 1
  {
    if n == 0 then 1 else 16 * Pow16(n - 1)
  }

  /** The `n` low-order hex digits of `u`, most significant first. */
  function HexDigits(u: nat, n: nat): (s: string)
    ensures |s| == n && AllHex(s)
  {
    if n == 0 then "" else HexDigits(u / 16, n - 1) + [DigitChar(u % 16)]
  }

  /** A value below 16^n reads back from its n digits. */
  lemma {:induction false} HexValueOfDigits(u: nat, n: nat)
    requires u < Pow16(n)
    ensures HexValue(HexDigits(u, n)) == u
  {
    if n > 0 {
      var s := HexDigits(u, n);
      assert s[..|s| - 1] == HexDigits(u / 16, n - 1);
      assert u / 16 < Pow16(n - 1);
      HexValueOfDigits(u / 16, n - 1);
    }
  }

  // ---------------------------------------------------------------------
  // int32 <-> text, as .NET does it

  /** Two's-complement reading of a 32-bit pattern, as `int.Parse(..., HexNumber)` does. */
  function FromUnsigned(u: nat): (k: int32)
    requires u < TWO32
  {
    if u < 0x8000_0000 then u as int32 else (u - TWO32) as int32
  }

  /** The 32-bit pattern of `k`. */
  function ToUnsigned(k: int32): (u: nat)
    ensures u < TWO32
  {
    (k as int) % TWO32
  }

  lemma UnsignedRoundTrip(k: int32)
    ensures FromUnsigned(ToUnsigned(k)) == k
  {
  }

  /** `k.ToString("x8")`: eight lower-case digits of the two's-complement pattern. */
  function FormatX8(k: int32): (s: string)
    ensures |s| == 8 && AllHex(s)
  {
    HexDigits(ToUnsigned(k), 8)
  }

  /** Characters `NumberStyles.AllowLeadingWhite`/`AllowTrailingWhite` skip. */
  predicate IsNumberWhite(c: char) {
    c == ' ' || ('\t' <= c <= '\r')
  }

  function TrimLeadingWhite(s: string): (t: string)
  {
    if s != [] && IsNumberWhite(s[0]) then TrimLeadingWhite(s[1..]) else s
  }

  function TrimTrailingWhite(s: string): (t: string)
  {
    if s != [] && IsNumberWhite(s[|s| - 1]) then TrimTrailingWhite(s[..|s| - 1]) else s
  }

  /** The NUL characters .NET's number parser accepts after a number and
      its trailing white space. */
  function TrimTrailingNul(s: string): (t: string)
  {
    if s != [] && s[|s| - 1] == '\0' then TrimTrailingNul(s[..|s| - 1]) else s
  }

  /** `int.Parse(s, NumberStyles.HexNumber)`: surrounding white space (and
      NUL characters at the very end) is skipped, what is left must be a
      non-empty run of hex digits whose value fits in 32 bits; `None` is the
      FormatException/OverflowException. */
  function ParseHexInt32(s: string): (r: Option<int32>)
  {
    var digits := TrimTrailingWhite(TrimLeadingWhite(TrimTrailingNul(s)));
    if digits == [] || !AllHex(digits) then None
    else if HexValue(digits) >= TWO32 then None
    else Some(FromUnsigned(HexValue(digits)))
  }

  lemma ParseFormatX8(k: int32)
    ensures ParseHexInt32(FormatX8(k)) == Some(k)
  {
    var s := FormatX8(k);
    assert TrimTrailingNul(s) == s by { assert s[7] != '\0'; }
    assert TrimLeadingWhite(s) == s by { assert !IsNumberWhite(s[0]); }
    assert TrimTrailingWhite(s) == s by { assert !IsNumberWhite(s[7]); }
    assert Pow16(8) == TWO32;
    HexValueOfDigits(ToUnsigned(k), 8);
    UnsignedRoundTrip(k);
  }

  // ---------------------------------------------------------------------
  // ReverseHexString

  /** What `ReverseHexString` builds: the character pairs of `s` taken from
      the end, `s[i]` then `s[i+1]` for i = |s|-2, |s|-4, ... down to 0 or 1;
      of an odd-length string the first character is dropped. */
  function PairsReversed(s: string): (r: string)
    ensures |r| == |s| - |s| % 2
  {
    if |s| < 2 then [] else s[|s| - 2..] + PairsReversed(s[..|s| - 2])
  }

  /** The C# loop over the shared StringBuilder, here a local buffer. */
  method ReverseHexString(s: string) returns (r: string)
    ensures r == PairsReversed(s)
  {
    var builder := "";
    var i := |s| - 2;
    assert s[..i + 2] == s;
    while i >= 0
      invariant -2 <= i <= |s| - 2
      invariant builder + PairsReversed(s[..i + 2]) == PairsReversed(s)
      decreases i + 2
    {
      assert s[..i + 2][..i] == s[..i];
      assert PairsReversed(s[..i + 2]) == [s[i], s[i + 1]] + PairsReversed(s[..i]);
      builder := builder + [s[i]] + [s[i + 1]];
      i := i - 2;
    }
    assert |s[..i + 2]| < 2;
    r := builder;
  }

  lemma {:induction false} PairsReversedAppend(x: string, y: string)
    requires |y| % 2 == 0
    ensures PairsReversed(x + y) == PairsReversed(y) + PairsReversed(x)
    decreases |y|
  {
    if y == [] {
      assert x + y == x;
    } else {
      var front, pair := y[..|y| - 2], y[|y| - 2..];
      var xy := x + y;
      assert xy == (x + front) + pair;
      assert xy[|xy| - 2..] == pair && xy[..|xy| - 2] == x + front;
      calc {
        PairsReversed(x + y);
        pair + PairsReversed(x + front);
        { PairsReversedAppend(x, front); }
        pair + (PairsReversed(front) + PairsReversed(x));
        PairsReversed(y) + PairsReversed(x);
      }
    }
  }

  /** On even-length strings `ReverseHexString` is an involution. */
  lemma {:induction false} PairsReversedInvolution(s: string)
    requires |s| % 2 == 0
    ensures PairsReversed(PairsReversed(s)) == s
    decreases |s|
  {
    if |s| >= 2 {
      var n := |s|;
      PairsReversedAppend(s[n - 2..], PairsReversed(s[..n - 2]));
      PairsReversedInvolution(s[..n - 2]);
      assert PairsReversed(s[n - 2..]) == s[n - 2..] by {
        assert s[n - 2..][..0] == [];
      }
      assert s[..n - 2] + s[n - 2..] == s;
    }
  }

  /** Of an odd-length string, the leading character is lost. */
  lemma {:induction false} PairsReversedOdd(s: string)
    requires |s| % 2 == 1
    ensures PairsReversed(s) == PairsReversed(s[1..])
    decreases |s|
  {
    if |s| >= 3 {
      var n := |s|;
      assert s[1..][|s| - 3..] == s[n - 2..];
      assert s[1..][..|s| - 3] == s[..n - 2][1..];
      PairsReversedOdd(s[..n - 2]);
    }
  }

  // ---------------------------------------------------------------------
  // ParseSerializedIntArray and its inverse

  /** One key window of the packed array, decoded. */
  function DecodeWindow(w: string): Option<int32> {
    ParseHexInt32(PairsReversed(w))
  }

  /** The first `n` eight-character windows of `s`. */
  function Windows(s: string, n: nat): (ws: seq<string>)
    requires 8 * n <= |s|
    ensures |ws| == n
  {
    if n == 0 then [] else Windows(s, n - 1) + [s[8 * (n - 1)..8 * n]]
  }

  /** Decodes every window, failing as soon as one fails. */
  function DecodeAll(ws: seq<string>): (r: Option<seq<int32>>)
    ensures r.Some? ==> |r.value| == |ws|
  {
    if ws == [] then Some([])
    else
      var front := DecodeAll(ws[..|ws| - 1]);
      var last := DecodeWindow(ws[|ws| - 1]);
      if front.None? || last.None? then None else Some(front.value + [last.value])
  }

  /** What `ParseSerializedIntArray` computes: `|s| / 8` keys; characters
      after the last whole window are never looked at. */
  function DecodeKeys(s: string): (r: Option<seq<int32>>)
    ensures r.Some? ==> |r.value| == |s| / 8
  {
    DecodeAll(Windows(s, |s| / 8))
  }

  method ParseSerializedIntArray(serialized: string) returns (r: Option<seq<int32>>)
    ensures r == DecodeKeys(serialized)
  {
    var count := |serialized| / 8;
    var values: seq<int32> := [];
    var i := 0;
    while i < count
      invariant 0 <= i <= count
      invariant DecodeAll(Windows(serialized, i)) == Some(values)
    {
      var window := ReverseHexString(serialized[i * 8..i * 8 + 8]);
      var parsed := ParseHexInt32(window);
      DecodeStep(serialized, i);
      if parsed.None? {
        WindowsPrefix(serialized, i + 1, count);
        DecodeFailureSticks(Windows(serialized, count), i + 1);
        return None;
      }
      values := values + [parsed.value];
      i := i + 1;
    }
    r := Some(values);
  }

  /** Decoding one more window of `s`. */
  lemma DecodeStep(s: string, i: nat)
    requires 8 * (i + 1) <= |s|
    ensures DecodeAll(Windows(s, i + 1)) ==
      var front := DecodeAll(Windows(s, i));
      var last := DecodeWindow(s[i * 8..i * 8 + 8]);
      if front.None? || last.None? then None else Some(front.value + [last.value])
  {
    var ws, w := Windows(s, i + 1), s[i * 8..i * 8 + 8];
    assert 8 * (i + 1 - 1) == i * 8 && 8 * (i + 1) == i * 8 + 8;
    assert ws == Windows(s, i) + [w];
    assert ws[..|ws| - 1] == Windows(s, i) && ws[|ws| - 1] == w;
  }

  lemma {:induction false} WindowsPrefix(s: string, n: nat, m: nat)
    requires n <= m && 8 * m <= |s|
    ensures Windows(s, m)[..n] == Windows(s, n)
    decreases m - n
  {
    if n < m {
      WindowsPrefix(s, n, m - 1);
      assert Windows(s, m)[..m - 1] == Windows(s, m - 1);
    }
  }

  /** Once a window fails, every longer run of windows fails. */
  lemma {:induction false} DecodeFailureSticks(ws: seq<string>, n: nat)
    requires n <= |ws|
    requires DecodeAll(ws[..n]).None?
    ensures DecodeAll(ws).None?
    decreases |ws| - n
  {
    if n < |ws| {
      assert ws[..n + 1][..n] == ws[..n];
      DecodeFailureSticks(ws, n + 1);
    } else {
      assert ws[..n] == ws;
    }
  }

  /** One key as `Write*Dictionary` appends it to the packed array. */
  function EncodeKey(k: int32): (w: string)
    ensures |w| == 8
  {
    PairsReversed(FormatX8(k))
  }

  /** The packed array that `Write*Dictionary` builds, key by key in order. */
  function EncodeKeys(ks: seq<int32>): (s: string)
    ensures |s| == 8 * |ks|
  {
    if ks == [] then "" else EncodeKeys(ks[..|ks| - 1]) + EncodeKey(ks[|ks| - 1])
  }

  lemma DecodeEncodeKey(k: int32)
    ensures DecodeWindow(EncodeKey(k)) == Some(k)
  {
    PairsReversedInvolution(FormatX8(k));
    ParseFormatX8(k);
  }

  /** Windows before the end of `s` do not see what follows `s`. */
  lemma {:induction false} WindowsAppend(s: string, t: string, n: nat)
    requires 8 * n <= |s|
    ensures Windows(s + t, n) == Windows(s, n)
  {
    if n > 0 {
      WindowsAppend(s, t, n - 1);
      assert (s + t)[8 * (n - 1)..8 * n] == s[8 * (n - 1)..8 * n];
    }
  }

  /** The windows of the packed array are the encoded keys, one each. */
  lemma {:induction false} WindowsOfEncoding(ks: seq<int32>)
    ensures Windows(EncodeKeys(ks), |ks|) == seq(|ks|, i requires 0 <= i < |ks| => EncodeKey(ks[i]))
    decreases |ks|
  {
    if ks != [] {
      var n := |ks|;
      var front := EncodeKeys(ks[..n - 1]);
      var last := EncodeKey(ks[n - 1]);
      WindowsOfEncoding(ks[..n - 1]);
      WindowsAppend(front, last, n - 1);
      assert (front + last)[8 * (n - 1)..8 * n] == last;
    }
  }

  lemma {:induction false} DecodeAllEncoded(ks: seq<int32>)
    ensures DecodeAll(seq(|ks|, i requires 0 <= i < |ks| => EncodeKey(ks[i]))) == Some(ks)
    decreases |ks|
  {
    if ks != [] {
      var n := |ks|;
      var ws := seq(n, i requires 0 <= i < n => EncodeKey(ks[i]));
      assert ws[..n - 1] == seq(n - 1, i requires 0 <= i < n - 1 => EncodeKey(ks[..n - 1][i]));
      DecodeAllEncoded(ks[..n - 1]);
      DecodeEncodeKey(ks[n - 1]);
      assert ks[..n - 1] + [ks[n - 1]] == ks;
    }
  }

  /** Codec inverse law: decoding the written keys gives back the same keys in order. */
  lemma DecodeEncodeKeys(ks: seq<int32>)
    ensures DecodeKeys(EncodeKeys(ks)) == Some(ks)
  {
    assert |EncodeKeys(ks)| / 8 == |ks|;
    WindowsOfEncoding(ks);
    DecodeAllEncoded(ks);
  }

  /** Trailing characters short of a whole window are ignored. */
  lemma DecodeIgnoresTrailing(s: string, t: string)
    requires |s| % 8 == 0 && |t| < 8
    ensures DecodeKeys(s + t) == DecodeKeys(s)
  {
    assert |s + t| / 8 == |s| / 8;
    WindowsAppend(s, t, |s| / 8);
  }
}
