/**
 * The string operations the pages use: `trim`, `split`, `toLowerCase`,
 * `includes`, `length`, number-to-decimal conversion and `padStart`. Lengths
 * count UTF-16 code units as JavaScript does; whitespace is the ASCII set
 * matched by `\s`, and lower-casing folds `A`-`Z` alone.
 */
module Text {
  import Seqs

  /** The ASCII characters matched by `\s` and removed by `trim`. */
  predicate IsSpace(c: char)
  {
    c == ' ' || c == '\t' || c == '\n' || c == '\r' || c == '\U{000B}' || c == '\U{000C}'
  }

  /** A string that `trim` turns into the empty string. */
  predicate IsBlank(s: string)
  {
    forall i :: 0 <= i < |s| ==> IsSpace(s[i])
  }

  /** Removes leading whitespace: the result is the suffix of `s` that starts at its first non-space. */
  function TrimStart(s: string): (r: string)
    ensures |r| <= |s| && r == s[|s| - |r|..]
    ensures forall i :: 0 <= i < |s| - |r| ==> IsSpace(s[i])
    ensures r == [] || !IsSpace(r[0])
  {
    if s != [] && IsSpace(s[0]) then TrimStart(s[1..]) else s
  }

  /** Removes trailing whitespace: the result is the prefix of `s` that ends at its last non-space. */
  function TrimEnd(s: string): (r: string)
    ensures |r| <= |s| && r == s[..|r|]
    ensures forall i :: |r| <= i < |s| ==> IsSpace(s[i])
    ensures r == [] || !IsSpace(r[|r| - 1])
  {
    if s != [] && IsSpace(s[|s| - 1]) then TrimEnd(s[..|s| - 1]) else s
  }

  /** `s.trim()`: empty exactly for blank strings, never starts or ends with a space, and keeps only characters of `s`. */
  function Trim(s: string): (r: string)
    ensures r == [] <==> IsBlank(s)
    ensures r != [] ==> !IsSpace(r[0]) && !IsSpace(r[|r| - 1])
    ensures forall c :: c in r ==> c in s
    ensures exists i, j :: 0 <= i <= j <= |s| && r == s[i..j] && IsBlank(s[..i]) && IsBlank(s[j..])
  {
    var left := TrimStart(s);
    var r := TrimEnd(left);
    MiddleSlice(s, left, r);
    r
  }

  /** Cutting blanks off the front and then off the back leaves a slice of `s` between two blank runs. */
  lemma MiddleSlice(s: string, left: string, r: string)
    requires |left| <= |s| && left == s[|s| - |left|..]
    requires forall i :: 0 <= i < |s| - |left| ==> IsSpace(s[i])
    requires |r| <= |left| && r == left[..|r|]
    requires forall i :: |r| <= i < |left| ==> IsSpace(left[i])
    ensures exists i, j :: 0 <= i <= j <= |s| && r == s[i..j] && IsBlank(s[..i]) && IsBlank(s[j..])
    ensures forall c :: c in r ==> c in s
  {
    assert forall c :: c in r ==> c in left;
    var i := |s| - |left|;
    var j := i + |r|;
    assert r == s[i..j];
    assert IsBlank(s[..i]);
    assert IsBlank(s[j..]) by {
      forall k | 0 <= k < |s| - j ensures IsSpace(s[j..][k]) {
        assert s[j..][k] == left[|r| + k];
      }
    }
  }

  /** A character above U+FFFF, which UTF-16 stores as a surrogate pair. */
  predicate IsAstral(c: char)
  {
    (c as int) >= 0x1_0000
  }

  /** `s.length`: UTF-16 code units, one per character plus one more for each character above U+FFFF. */
  function Utf16Length(s: string): (n: nat)
    ensures n == |s| + Seqs.CountOf(s, IsAstral)
    ensures |s| <= n <= 2 * |s|
    ensures n == |s| <==> forall i :: 0 <= i < |s| ==> !IsAstral(s[i])
  {
    if s == [] then 0
    else
      assert s == s[..|s| - 1] + [s[|s| - 1]];
      Seqs.CountOfAppend(s[..|s| - 1], s[|s| - 1], IsAstral);
      Utf16Length(s[..|s| - 1]) + (if IsAstral(s[|s| - 1]) then 2 else 1)
  }

  /** ASCII lower-casing of one character. */
  function LowerChar(c: char): char
  {
    if 'A' <= c <= 'Z' then (c as int + 32) as char else c
  }

  /** `s.toLowerCase()`, ASCII only. */
  function ToLower(s: string): (r: string)
    ensures |r| == |s|
  {
    seq(|s|, i requires 0 <= i < |s| => LowerChar(s[i]))
  }

  /** `s.startsWith(p)`. */
  predicate StartsWith(s: string, p: string)
  {
    |p| <= |s| && s[..|p|] == p
  }

  /** `s.includes(sub)`: `sub` occurs somewhere in `s` as a contiguous block. */
  predicate Includes(s: string, sub: string)
    decreases |s|
  {
    StartsWith(s, sub) || (s != [] && Includes(s[1..], sub))
  }

  /** Every string includes the empty string, so an empty search term filters nothing out. */
  lemma IncludesEmpty(s: string)
    ensures Includes(s, "")
  {
    assert StartsWith(s, "");
  }

  /** The inverse of `split`: the pieces glued back with the separator. */
  function Join(parts: seq<string>, sep: char): string
  {
    if parts == [] then ""
    else if |parts| == 1 then parts[0]
    else parts[0] + [sep] + Join(parts[1..], sep)
  }

  /** `s.split(sep)` for a one-character separator: never empty, no piece holds `sep`, and joining gives `s` back. */
  function Split(s: string, sep: char): (parts: seq<string>)
    ensures |parts| >= 1
    ensures forall k :: 0 <= k < |parts| ==> sep !in parts[k]
    ensures Join(parts, sep) == s
    decreases |s|
  {
    var i := Seqs.IndexOf(s, sep);
    if i == |s| then [s]
    else
      assert s == s[..i] + [sep] + s[i + 1..];
      [s[..i]] + Split(s[i + 1..], sep)
  }

  /** Splitting what was joined gives back the same pieces, when none of them holds the separator. */
  lemma {:induction false} SplitJoin(parts: seq<string>, sep: char)
    requires |parts| >= 1
    requires forall k :: 0 <= k < |parts| ==> sep !in parts[k]
    ensures Split(Join(parts, sep), sep) == parts
  {
    if |parts| > 1 {
      assert Join(parts, sep) == parts[0] + [sep] + Join(parts[1..], sep);
      FirstSeparator(parts[0], sep, Join(parts[1..], sep));
      SplitJoin(parts[1..], sep);
    } else {
      assert Seqs.IndexOf(parts[0], sep) == |parts[0]|;
    }
  }

  /** In `a`, a separator and `b`, with no separator in `a`, the first separator sits right after `a`. */
  lemma FirstSeparator(a: string, sep: char, b: string)
    requires sep !in a
    ensures var s := a + [sep] + b; Seqs.IndexOf(s, sep) == |a| && s[..|a|] == a && s[|a| + 1..] == b
  {
    var s := a + [sep] + b;
    assert s[|a|] == sep;
    assert forall j :: 0 <= j < |a| ==> s[j] == a[j];
    assert s[..|a|] == a;
    assert s[|a| + 1..] == b;
  }

  /** The decimal digit `d`. */
  function DigitChar(d: nat): (c: char)
    requires d < 10
    ensures '0' <= c <= '9'
  {
    ('0' as int + d) as char
  }

  predicate IsDigits(s: string)
  {
    forall i :: 0 <= i < |s| ==> '0' <= s[i] <= '9'
  }

  /** The number a string of decimal digits denotes. */
  function DigitsValue(s: string): nat
    requires IsDigits(s)
  {
    if s == [] then 0 else DigitsValue(s[..|s| - 1]) * 10 + (s[|s| - 1] as int - '0' as int)
  }

  /** `String(n)` for a natural number: decimal digits with no leading zero. */
  function NatToString(n: nat): (r: string)
    ensures |r| >= 1 && IsDigits(r)
    ensures r[0] == '0' <==> n == 0
    ensures n == 0 ==> r == "0"
  {
    if n < 10 then [DigitChar(n)] else NatToString(n / 10) + [DigitChar(n % 10)]
  }

  /** Reading the digits back gives the number. */
  lemma {:induction false} NatToStringValue(n: nat)
    ensures DigitsValue(NatToString(n)) == n
  {
    if n >= 10 {
      var r := NatToString(n);
      assert r[..|r| - 1] == NatToString(n / 10);
      NatToStringValue(n / 10);
    }
  }

  /**
   * `s.padStart(width, c)`: `s` preceded by copies of `c` up to `width` characters.
   * JavaScript measures `width` in UTF-16 units; this counts characters, which
   * agrees with it on the digit strings every caller pads.
   */
  function PadStart(s: string, width: nat, c: char): (r: string)
    ensures |r| == if |s| < width then width else |s|
    ensures r[|r| - |s|..] == s
    ensures forall i :: 0 <= i < |r| - |s| ==> r[i] == c
  {
    if |s| >= width then s else seq(width - |s|, _ => c) + s
  }
}
