/**
 * The JavaScript string operations the site relies on: `trim()`, `toLowerCase()`,
 * `substring()` and the whitespace class shared by `trim()` and the regex escape `\s`.
 */
module JsString {

  /** The whitespace characters recognised by `trim()` and by `\s`: a fixed subset of
      ECMAScript's WhiteSpace and LineTerminator productions. */
  predicate IsWhitespace(c: char) {
    c == ' ' || c == '\t' || c == '\n' || c == '\r' || c == '\U{000B}' || c == '\U{000C}'
    || c == '\U{00A0}' || c == '\U{2028}' || c == '\U{2029}' || c == '\U{FEFF}'
  }

  predicate AllWhitespace(s: string) {
    forall i | 0 <= i < |s| :: IsWhitespace(s[i])
  }

  predicate NoWhitespace(s: string) {
    forall i | 0 <= i < |s| :: !IsWhitespace(s[i])
  }

  /** A string `trim()` leaves alone: empty, or neither end is whitespace. */
  predicate IsTrimmed(s: string) {
    |s| == 0 || (!IsWhitespace(s[0]) && !IsWhitespace(s[|s| - 1]))
  }

  /** `trimStart()`: drops leading whitespace. */
  function TrimStart(s: string): (r: string)
    ensures |r| <= |s|
    ensures |r| == 0 || !IsWhitespace(r[0])
  {
    if |s| > 0 && IsWhitespace(s[0]) then TrimStart(s[1..]) else s
  }

  /** `trimEnd()`: drops trailing whitespace. */
  function TrimEnd(s: string): (r: string)
    ensures |r| <= |s|
    ensures |r| == 0 || (!IsWhitespace(r[|r| - 1]) && r[0] == s[0])
  {
    if |s| > 0 && IsWhitespace(s[|s| - 1]) then TrimEnd(s[..|s| - 1]) else s
  }

  /** `s.trim()`: never starts or ends with whitespace, and never lengthens its input. */
  function Trim(s: string): (r: string)
    ensures IsTrimmed(r) && |r| <= |s|
  {
    TrimEnd(TrimStart(s))
  }

  /** `trimStart()` leaves a suffix of `s` that does not start with whitespace, and
      what it dropped is all whitespace. */
  lemma {:induction false} TrimStartSpec(s: string)
    ensures var r := TrimStart(s);
      && |r| <= |s| && r == s[|s| - |r|..]
      && AllWhitespace(s[..|s| - |r|])
      && (|r| == 0 || !IsWhitespace(r[0]))
  {
    if |s| > 0 && IsWhitespace(s[0]) {
      TrimStartSpec(s[1..]);
      var r := TrimStart(s[1..]);
      assert s[..|s| - |r|] == [s[0]] + s[1..][..|s| - 1 - |r|];
    }
  }

  /** `trimEnd()` leaves a prefix of `s` that does not end with whitespace, and what
      it dropped is all whitespace. */
  lemma {:induction false} TrimEndSpec(s: string)
    ensures var r := TrimEnd(s);
      && |r| <= |s| && r == s[..|r|]
      && AllWhitespace(s[|r|..])
      && (|r| == 0 || !IsWhitespace(r[|r| - 1]))
  {
    if |s| > 0 && IsWhitespace(s[|s| - 1]) {
      TrimEndSpec(s[..|s| - 1]);
      var r := TrimEnd(s[..|s| - 1]);
      assert s[|r|..] == s[..|s| - 1][|r|..] + [s[|s| - 1]];
    }
  }

  /** `trim()` removes exactly a whitespace prefix and a whitespace suffix. */
  lemma TrimBounds(s: string) returns (i: nat, j: nat)
    ensures i <= j <= |s|
    ensures Trim(s) == s[i..j]
    ensures AllWhitespace(s[..i]) && AllWhitespace(s[j..])
  {
    TrimStartSpec(s);
    var t := TrimStart(s);
    TrimEndSpec(t);
    i := |s| - |t|;
    j := i + |TrimEnd(t)|;
    assert t[|TrimEnd(t)|..] == s[j..];
  }

  /** A string with no whitespace at its ends is its own trim. */
  lemma TrimOfTrimmed(s: string)
    requires IsTrimmed(s)
    ensures Trim(s) == s
  {
  }

  /** `trim()` yields the empty string exactly when the input is all whitespace. */
  lemma TrimEmptyIff(s: string)
    ensures Trim(s) == "" <==> AllWhitespace(s)
  {
    var i, j := TrimBounds(s);
    if Trim(s) == "" {
      forall k | 0 <= k < |s| ensures IsWhitespace(s[k]) {
        if k < i { assert s[..i][k] == s[k]; } else { assert s[j..][k - j] == s[k]; }
      }
    } else {
      assert !IsWhitespace(s[i]) by { assert Trim(s)[0] == s[i]; }
    }
  }

  /** A string that `trim()` changes has whitespace somewhere. */
  lemma TrimChangedHasWhitespace(s: string)
    requires Trim(s) != s
    ensures !NoWhitespace(s)
  {
    var i, j := TrimBounds(s);
    if i > 0 {
      assert IsWhitespace(s[..i][0]);
    } else {
      assert j < |s|;
      assert IsWhitespace(s[j..][0]);
    }
  }

  lemma NoWhitespaceIsTrimmed(s: string)
    requires NoWhitespace(s)
    ensures Trim(s) == s
  {
    TrimOfTrimmed(s);
  }

  /** How many UTF-16 code units a character takes: two outside the Basic Multilingual Plane. */
  function CodeUnits(c: char): nat {
    if c as int >= 0x1_0000 then 2 else 1
  }

  /** `s.length`, which counts UTF-16 code units, not characters. */
  function Utf16Length(s: string): (n: nat)
    ensures |s| <= n <= 2 * |s|
  {
    if |s| == 0 then 0 else CodeUnits(s[0]) + Utf16Length(s[1..])
  }

  /** On characters of the Basic Multilingual Plane, `length` is the character count. */
  lemma {:induction false} Utf16LengthOfBmp(s: string)
    requires forall i | 0 <= i < |s| :: s[i] as int < 0x1_0000
    ensures Utf16Length(s) == |s|
  {
    if |s| > 0 {
      Utf16LengthOfBmp(s[1..]);
    }
  }

  predicate IsAsciiUpper(c: char) {
    'A' <= c <= 'Z'
  }

  /** `toLowerCase()` on one character (ASCII letters only). */
  function LowerChar(c: char): char {
    if IsAsciiUpper(c) then (c as int + 32) as char else c
  }

  /** `s.toLowerCase()`: each letter A-Z becomes its lower-case form, every other
      character stays, so no upper-case ASCII letter survives. */
  function ToLower(s: string): (r: string)
    ensures |r| == |s|
    ensures forall i | 0 <= i < |s| ::
      if IsAsciiUpper(s[i]) then r[i] as int == s[i] as int + 32 else r[i] == s[i]
    ensures forall i | 0 <= i < |r| :: !IsAsciiUpper(r[i])
  {
    seq(|s|, i requires 0 <= i < |s| => LowerChar(s[i]))
  }

  /** Lower-casing only moves letters A-Z, so it keeps whitespace, `@` and `.` where they were. */
  lemma ToLowerKeepsSeparators(s: string, i: int)
    requires 0 <= i < |s|
    ensures IsWhitespace(ToLower(s)[i]) <==> IsWhitespace(s[i])
    ensures ToLower(s)[i] == '@' <==> s[i] == '@'
    ensures ToLower(s)[i] == '.' <==> s[i] == '.'
  {
  }

  lemma ToLowerOfTrimmed(s: string)
    requires IsTrimmed(s)
    ensures IsTrimmed(ToLower(s))
  {
    if |s| > 0 {
      ToLowerKeepsSeparators(s, 0);
      ToLowerKeepsSeparators(s, |s| - 1);
    }
  }

  /** Clamps a `substring()` argument into `[0, n]`. */
  function Clamp(x: int, n: nat): (r: nat)
    ensures r <= n
    ensures 0 <= x <= n ==> r == x
  {
    if x < 0 then 0 else if x > n then n else x
  }

  /** `s.substring(start, end)`: both arguments are clamped to the string, and swapped
      when `start > end`. */
  function Substring(s: string, start: int, end: int): (r: string)
    ensures 0 <= start <= end <= |s| ==> r == s[start..end]
    ensures |r| <= |s|
  {
    var a, b := Clamp(start, |s|), Clamp(end, |s|);
    if a <= b then s[a..b] else s[b..a]
  }
}
