/** Failure types, character classes and string helpers shared by the rest of the model. */
module Basics {

  datatype Option<+T> = None | Some(value: T)

  datatype Result<+T, +E> = Ok(value: T) | Err(error: E)

  /** The outcome of an operation that only changes state or fails. */
  datatype Outcome<+E> = Pass | Fail(error: E)

  /** `[a-zA-Z0-9]` */
  predicate IsAlnum(c: char) {
    'a' <= c <= 'z' || 'A' <= c <= 'Z' || '0' <= c <= '9'
  }

  /** `[a-zA-Z0-9_]`, the class the hashtag pattern repeats. */
  predicate IsWordChar(c: char) {
    IsAlnum(c) || c == '_'
  }

  /** The characters JavaScript's `\s` class matches and `String.prototype.trim`
      removes: the ECMAScript WhiteSpace and LineTerminator code points. */
  predicate IsJsWhitespace(c: char) {
    var k := c as int;
    k == 0x09 || k == 0x0A || k == 0x0B || k == 0x0C || k == 0x0D || k == 0x20
    || k == 0xA0 || k == 0x1680 || (0x2000 <= k <= 0x200A) || k == 0x2028
    || k == 0x2029 || k == 0x202F || k == 0x205F || k == 0x3000 || k == 0xFEFF
  }

  /** `toLowerCase` restricted to one ASCII character. */
  function AsciiLowerChar(c: char): char {
    if 'A' <= c <= 'Z' then (c as int - 'A' as int + 'a' as int) as char else c
  }

  /** `toLowerCase` on text that holds only ASCII characters. */
  function AsciiLower(s: string): (r: string)
    ensures |r| == |s|
    ensures forall k :: 0 <= k < |s| ==> r[k] == AsciiLowerChar(s[k])
  {
    seq(|s|, k requires 0 <= k < |s| => AsciiLowerChar(s[k]))
  }

  /** `pat` occurs in `s` starting at index `p`. */
  predicate OccursAt(s: string, p: nat, pat: string) {
    p + |pat| <= |s| && s[p..p + |pat|] == pat
  }

  /** `s.startsWith(pat)` */
  predicate StartsWith(s: string, pat: string) {
    OccursAt(s, 0, pat)
  }

  /** `"0".repeat(n)` */
  function Zeros(n: nat): (r: string)
    ensures |r| == n && forall k :: 0 <= k < n ==> r[k] == '0'
  {
    seq(n, _ => '0')
  }

  /** `s.slice(1)`: everything after the first character (empty stays empty). */
  function SliceFrom1(s: string): string {
    if |s| == 0 then s else s[1..]
  }

  /** `s.replace(pat, "")` with a string pattern: the first occurrence of `pat`
      is removed; an empty pattern matches at the start and changes nothing. */
  function ReplaceFirst(s: string, pat: string): string
    decreases |s|
  {
    if |pat| == 0 || |s| < |pat| then s
    else if s[..|pat|] == pat then s[|pat|..]
    else [s[0]] + ReplaceFirst(s[1..], pat)
  }

  /** A pattern with a character that never appears in `s` is not replaced. */
  lemma {:induction false} ReplaceFirstAbsent(s: string, pat: string, c: char)
    requires c in pat && c !in s
    ensures ReplaceFirst(s, pat) == s
    decreases |s|
  {
    if |pat| == 0 || |s| < |pat| {
    } else {
      var i :| 0 <= i < |pat| && pat[i] == c;
      assert s[..|pat|][i] != pat[i];
      assert c !in s[1..];
      ReplaceFirstAbsent(s[1..], pat, c);
      assert [s[0]] + s[1..] == s;
    }
  }

  /** A pattern at the very start is what gets removed. */
  lemma ReplaceFirstAtStart(s: string, pat: string)
    requires |pat| > 0 && StartsWith(s, pat)
    ensures ReplaceFirst(s, pat) == s[|pat|..]
  {
  }

  /** Apply `f` to every element, keeping order. */
  function MapSeq<A, B>(f: A -> B, s: seq<A>): (r: seq<B>)
    decreases |s|
  {
    if |s| == 0 then [] else [f(s[0])] + MapSeq(f, s[1..])
  }

  /** The decimal digit for `d < 10`. */
  function DigitChar(d: nat): char
    requires d < 10
  {
    (d + '0' as int) as char
  }

  /** `String(n)` for a non-negative integer: its decimal digits, no leading zero. */
  function DecimalString(n: nat): (r: string)
    decreases n
  {
    if n < 10 then [DigitChar(n)] else DecimalString(n / 10) + [DigitChar(n % 10)]
  }

  lemma {:induction false} DecimalStringLength(n: nat)
    ensures |DecimalString(n)| >= 1
    ensures |DecimalString(n)| == 1 <==> n < 10
    decreases n
  {
    if n >= 10 {
      DecimalStringLength(n / 10);
    }
  }

  /** Distinct numbers print differently: the nonce tag names its counter unambiguously. */
  lemma {:induction false} DecimalStringInjective(n: nat, m: nat)
    requires DecimalString(n) == DecimalString(m)
    ensures n == m
    decreases n
  {
    DecimalStringLength(n);
    DecimalStringLength(m);
    if n >= 10 && m >= 10 {
      var s := DecimalString(n);
      assert DecimalString(n / 10) == s[..|s| - 1] == DecimalString(m / 10);
      assert DigitChar(n % 10) == s[|s| - 1] == DigitChar(m % 10);
      DecimalStringInjective(n / 10, m / 10);
    }
  }

  /** `s.trimStart()` */
  function TrimStart(s: string): string
    decreases |s|
  {
    if |s| > 0 && IsJsWhitespace(s[0]) then TrimStart(s[1..]) else s
  }

  /** `s.trimEnd()` */
  function TrimEnd(s: string): string
    decreases |s|
  {
    if |s| > 0 && IsJsWhitespace(s[|s| - 1]) then TrimEnd(s[..|s| - 1]) else s
  }

  /** `s.trim()` */
  function Trim(s: string): string {
    TrimEnd(TrimStart(s))
  }

  lemma {:induction false} TrimStartSplit(s: string) returns (i: nat)
    ensures i <= |s| && TrimStart(s) == s[i..]
    ensures forall k :: 0 <= k < i ==> IsJsWhitespace(s[k])
    ensures i < |s| ==> !IsJsWhitespace(s[i])
    decreases |s|
  {
    if |s| > 0 && IsJsWhitespace(s[0]) {
      var i' := TrimStartSplit(s[1..]);
      i := i' + 1;
      assert s[1..][i'..] == s[i..];
      forall k | 0 < k < i
        ensures IsJsWhitespace(s[k])
      {
        assert s[1..][k - 1] == s[k];
      }
    } else {
      i := 0;
    }
  }

  lemma {:induction false} TrimEndSplit(s: string) returns (j: nat)
    ensures j <= |s| && TrimEnd(s) == s[..j]
    ensures forall k :: j <= k < |s| ==> IsJsWhitespace(s[k])
    ensures 0 < j ==> !IsJsWhitespace(s[j - 1])
    decreases |s|
  {
    if |s| > 0 && IsJsWhitespace(s[|s| - 1]) {
      j := TrimEndSplit(s[..|s| - 1]);
      assert s[..|s| - 1][..j] == s[..j];
      forall k | j <= k < |s| - 1
        ensures IsJsWhitespace(s[k])
      {
        assert s[..|s| - 1][k] == s[k];
      }
    } else {
      j := |s|;
    }
  }

  /** `trim` removes exactly the leading and trailing whitespace: the result is
      a slice of the input, everything cut off is whitespace, and a non-empty
      result starts and ends with a non-whitespace character. */
  lemma TrimCharacterized(s: string)
    ensures exists i, j ::
              && 0 <= i <= j <= |s|
              && Trim(s) == s[i..j]
              && (forall k :: 0 <= k < i ==> IsJsWhitespace(s[k]))
              && (forall k :: j <= k < |s| ==> IsJsWhitespace(s[k]))
              && (i < j ==> !IsJsWhitespace(s[i]) && !IsJsWhitespace(s[j - 1]))
  {
    var i := TrimStartSplit(s);
    var t := s[i..];
    var j := TrimEndSplit(t);
    assert Trim(s) == s[i..i + j];
    forall k | i + j <= k < |s|
      ensures IsJsWhitespace(s[k])
    {
      assert t[k - i] == s[k];
    }
    if 0 < j {
      assert t[0] == s[i] && t[j - 1] == s[i + j - 1];
    }
  }
}
