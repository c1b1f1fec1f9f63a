/**
 * String helpers shared by the form handlers: the JavaScript whitespace set
 * (used both by the regular-expression class `\s` and by `String.prototype.trim`),
 * ASCII digits, the two `replace` rewrites the payment forms use, trimming,
 * lower-casing and UTF-16 length.
 */
module Text {

  /** A JavaScript WhiteSpace or LineTerminator code point: exactly the code points
      matched by `\s` and removed by `trim()`. */
  predicate IsSpace(c: char) {
    var n := c as int;
    || (0x09 <= n <= 0x0D)   // tab, line feed, vertical tab, form feed, carriage return
    || n == 0x20
    || n == 0xA0
    || n == 0x1680
    || (0x2000 <= n <= 0x200A)
    || n == 0x2028 || n == 0x2029
    || n == 0x202F || n == 0x205F
    || n == 0x3000 || n == 0xFEFF
  }

  /** The regular-expression class `\d`: the ASCII digits only. */
  predicate IsDigit(c: char) {
    '0' <= c <= '9'
  }

  predicate AllDigits(s: string) {
    forall i :: 0 <= i < |s| ==> IsDigit(s[i])
  }

  predicate NoSpaces(s: string) {
    forall i :: 0 <= i < |s| ==> !IsSpace(s[i])
  }

  predicate AllSpaces(s: string) {
    forall i :: 0 <= i < |s| ==> IsSpace(s[i])
  }

  /** `s.replace(/\s/g, '')`: every whitespace character dropped, the rest kept in order. */
  function RemoveSpaces(s: string): (r: string)
    ensures NoSpaces(r)
    ensures |r| <= |s|
    ensures NoSpaces(s) ==> r == s
  {
    if s == [] then []
    else if IsSpace(s[0]) then RemoveSpaces(s[1..])
    else [s[0]] + RemoveSpaces(s[1..])
  }

  /** `s.replace(/\D/g, '')`: every non-digit dropped, the digits kept in order. */
  function KeepDigits(s: string): (r: string)
    ensures AllDigits(r)
    ensures |r| <= |s|
    ensures AllDigits(s) ==> r == s
  {
    if s == [] then []
    else if IsDigit(s[0]) then [s[0]] + KeepDigits(s[1..])
    else KeepDigits(s[1..])
  }

  lemma {:induction false} RemoveSpacesAppend(a: string, b: string)
    ensures RemoveSpaces(a + b) == RemoveSpaces(a) + RemoveSpaces(b)
  {
    if a == [] {
      assert a + b == b;
    } else {
      assert (a + b)[0] == a[0];
      assert (a + b)[1..] == a[1..] + b;
      RemoveSpacesAppend(a[1..], b);
    }
  }

  lemma {:induction false} KeepDigitsAppend(a: string, b: string)
    ensures KeepDigits(a + b) == KeepDigits(a) + KeepDigits(b)
  {
    if a == [] {
      assert a + b == b;
    } else {
      assert (a + b)[0] == a[0];
      assert (a + b)[1..] == a[1..] + b;
      KeepDigitsAppend(a[1..], b);
    }
  }

  /** What `replace(/\s/g, '')` keeps: a character occurs in the result exactly when it
      occurs in the input and is not whitespace. */
  lemma {:induction false} RemoveSpacesChars(s: string)
    ensures forall c :: c in RemoveSpaces(s) <==> c in s && !IsSpace(c)
  {
    if s != [] {
      RemoveSpacesChars(s[1..]);
      assert s == [s[0]] + s[1..];
    }
  }

  /** What `replace(/\D/g, '')` keeps: a character occurs in the result exactly when it
      occurs in the input and is a digit. */
  lemma {:induction false} KeepDigitsChars(s: string)
    ensures forall c :: c in KeepDigits(s) <==> c in s && IsDigit(c)
  {
    if s != [] {
      KeepDigitsChars(s[1..]);
      assert s == [s[0]] + s[1..];
    }
  }

  /** Number of whitespace characters at the front of `s`. */
  function LeadingSpaces(s: string): (n: nat)
    ensures n <= |s|
    ensures forall i :: 0 <= i < n ==> IsSpace(s[i])
    ensures n < |s| ==> !IsSpace(s[n])
  {
    if s == [] || !IsSpace(s[0]) then 0
    else 1 + LeadingSpaces(s[1..])
  }

  /** Number of whitespace characters at the back of `s`. */
  function TrailingSpaces(s: string): (n: nat)
    ensures n <= |s|
    ensures forall i :: |s| - n <= i < |s| ==> IsSpace(s[i])
    ensures n < |s| ==> !IsSpace(s[|s| - n - 1])
  {
    if s == [] || !IsSpace(s[|s| - 1]) then 0
    else 1 + TrailingSpaces(s[..|s| - 1])
  }

  /** `s.trim()`: the longest middle part of `s` that neither starts nor ends with whitespace. */
  function Trim(s: string): (r: string)
    ensures |r| <= |s|
    ensures r == [] || (!IsSpace(r[0]) && !IsSpace(r[|r| - 1]))
  {
    var rest := s[LeadingSpaces(s)..];
    rest[..|rest| - TrailingSpaces(rest)]
  }

  /** What `trim()` cuts off on either side is whitespace, and what it keeps is the
      middle of `s` in place. */
  lemma TrimShape(s: string)
    ensures LeadingSpaces(s) + |Trim(s)| <= |s|
    ensures forall i :: 0 <= i < |Trim(s)| ==> Trim(s)[i] == s[LeadingSpaces(s) + i]
    ensures forall i :: 0 <= i < LeadingSpaces(s) ==> IsSpace(s[i])
    ensures forall i :: LeadingSpaces(s) + |Trim(s)| <= i < |s| ==> IsSpace(s[i])
  {
    var k := LeadingSpaces(s);
    var rest := s[k..];
    var t := TrailingSpaces(rest);
    assert Trim(s) == rest[..|rest| - t];
    forall i | k + |Trim(s)| <= i < |s|
      ensures IsSpace(s[i])
    {
      assert s[i] == rest[i - k];
    }
  }

  /** Trimming a string padded only with whitespace around a core that neither starts
      nor ends with whitespace gives back the core. */
  lemma TrimPadded(pre: string, core: string, post: string)
    requires AllSpaces(pre) && AllSpaces(post)
    requires core == [] || (!IsSpace(core[0]) && !IsSpace(core[|core| - 1]))
    ensures Trim(pre + core + post) == core
  {
    var s := pre + core + post;
    var k := LeadingSpaces(s);
    TrimShape(s);
    if core == [] {
      assert AllSpaces(s);
    } else {
      assert s[|pre|] == core[0];
      assert s[|pre| + |core| - 1] == core[|core| - 1];
    }
  }

  /** Trimming is idempotent. */
  lemma TrimIdempotent(s: string)
    ensures Trim(Trim(s)) == Trim(s)
  {
  }

  const KelvinSign: char := '\U{212A}'

  /** `toLowerCase()` on one character, for every character whose lower case is ASCII:
      'A'..'Z' and the Kelvin sign, which lower-cases to 'k'. Other characters are
      left as they are (see README). */
  function LowerChar(c: char): (d: char)
    ensures 'A' <= c <= 'Z' ==> d as int == c as int + 32
    ensures c == KelvinSign ==> d == 'k'
    ensures !('A' <= c <= 'Z') && c != KelvinSign ==> d == c
  {
    if 'A' <= c <= 'Z' then (c as int + 32) as char
    else if c == KelvinSign then 'k'
    else c
  }

  function ToLower(s: string): (r: string)
    ensures |r| == |s|
    ensures forall i :: 0 <= i < |s| ==> r[i] == LowerChar(s[i])
  {
    if s == [] then [] else [LowerChar(s[0])] + ToLower(s[1..])
  }

  predicate NoUpper(s: string) {
    forall i :: 0 <= i < |s| ==> !('A' <= s[i] <= 'Z') && s[i] != KelvinSign
  }

  /** Lower-casing leaves a string with no upper-case letters unchanged. */
  lemma ToLowerNoUpper(s: string)
    requires NoUpper(s)
    ensures ToLower(s) == s
  {
  }

  /** `s.length` in JavaScript: UTF-16 code units, two for a character outside the
      Basic Multilingual Plane. */
  function Utf16Length(s: string): (n: nat)
    ensures |s| <= n <= 2 * |s|
  {
    if s == [] then 0
    else (if s[0] as int > 0xFFFF then 2 else 1) + Utf16Length(s[1..])
  }

  predicate InBmp(s: string) {
    forall i :: 0 <= i < |s| ==> s[i] as int <= 0xFFFF
  }

  lemma {:induction false} Utf16LengthBmp(s: string)
    requires InBmp(s)
    ensures Utf16Length(s) == |s|
  {
    if s != [] {
      Utf16LengthBmp(s[1..]);
    }
  }
}
