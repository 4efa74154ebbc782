/** Python string primitives the core relies on: `str.strip`, `str.lower`,
    the character classes behind `isupper`, `islower`, `isdigit`, `isalnum`,
    and the decimal rendering of an integer in an f-string. */
module Text {

  /** The characters Python's `str.isspace` accepts, which are exactly the
      ones `str.strip()` with no argument removes: the ASCII controls
      U+0009..U+000D and U+001C..U+001F, the space, U+0085, U+00A0,
      U+1680, U+2000..U+200A, U+2028, U+2029, U+202F, U+205F and U+3000. */
  predicate IsSpace(c: char) {
    var n := c as int;
    (0x09 <= n <= 0x0D) || (0x1C <= n <= 0x20) || n == 0x85 || n == 0xA0 || n == 0x1680
    || (0x2000 <= n <= 0x200A) || n == 0x2028 || n == 0x2029 || n == 0x202F
    || n == 0x205F || n == 0x3000
  }

  /** The string has no whitespace at either end. */
  predicate Trimmed(s: string) {
    s == [] || (!IsSpace(s[0]) && !IsSpace(s[|s| - 1]))
  }

  /** `s.strip()`: `s` with the whitespace removed from both ends. */
  function Strip(s: string): (r: string)
    ensures Trimmed(r)
    ensures |r| <= |s|
    decreases |s|
  {
    if s != [] && IsSpace(s[0]) then Strip(s[1..])
    else if s != [] && IsSpace(s[|s| - 1]) then Strip(s[..|s| - 1])
    else s
  }

  /** `strip` removes whitespace only, and only at the two ends: the
      result is the slice `s[lo..hi]` and everything outside it is
      whitespace. */
  lemma {:induction false} StripShape(s: string) returns (lo: nat, hi: nat)
    ensures lo <= hi <= |s| && Strip(s) == s[lo..hi]
    ensures forall j :: 0 <= j < lo ==> IsSpace(s[j])
    ensures forall j :: hi <= j < |s| ==> IsSpace(s[j])
    decreases |s|
  {
    if s != [] && IsSpace(s[0]) {
      var l, h := StripShape(s[1..]);
      lo, hi := l + 1, h + 1;
      assert s[1..][l..h] == s[lo..hi];
      forall j | hi <= j < |s| ensures IsSpace(s[j]) {
        assert s[j] == s[1..][j - 1];
      }
    } else if s != [] && IsSpace(s[|s| - 1]) {
      lo, hi := StripShape(s[..|s| - 1]);
      assert s[..|s| - 1][lo..hi] == s[lo..hi];
    } else {
      lo, hi := 0, |s|;
    }
  }

  /** A string without outer whitespace is left alone by `strip`. */
  lemma StripTrimmed(s: string)
    requires Trimmed(s)
    ensures Strip(s) == s
  {
  }

  /** `strip` is idempotent. */
  lemma StripIdempotent(s: string)
    ensures Strip(Strip(s)) == Strip(s)
  {
    StripTrimmed(Strip(s));
  }

  predicate IsAsciiUpper(c: char) { 'A' <= c <= 'Z' }
  predicate IsAsciiLower(c: char) { 'a' <= c <= 'z' }
  predicate IsAsciiLetter(c: char) { IsAsciiUpper(c) || IsAsciiLower(c) }
  predicate IsDigit(c: char) { '0' <= c <= '9' }

  /** Upper-case letters: ASCII and the Cyrillic capitals the application's
      Ukrainian content uses (U+0400..U+042F and Ґ). */
  predicate IsUpper(c: char) {
    IsAsciiUpper(c) || ('Ѐ' <= c <= 'Я') || c == 'Ґ'
  }

  /** Lower-case letters: ASCII and the Cyrillic small letters
      (U+0430..U+045F and ґ). */
  predicate IsLower(c: char) {
    IsAsciiLower(c) || ('а' <= c <= 'џ') || c == 'ґ'
  }

  /** `str.isalnum` for one character, within the letters above. */
  predicate IsAlnum(c: char) { IsUpper(c) || IsLower(c) || IsDigit(c) }

  /** `str.lower` for one character. */
  function LowerChar(c: char): (r: char)
    ensures IsUpper(c) ==> IsLower(r)
    ensures !IsUpper(c) ==> r == c
  {
    if IsAsciiUpper(c) then (c as int + 32) as char
    else if 'А' <= c <= 'Я' then (c as int + 0x20) as char
    else if 'Ѐ' <= c <= 'Џ' then (c as int + 0x50) as char
    else if c == 'Ґ' then 'ґ'
    else c
  }

  /** `str.lower`, character by character. */
  function Lower(s: string): (r: string)
    ensures |r| == |s|
  {
    if s == [] then [] else [LowerChar(s[0])] + Lower(s[1..])
  }

  /** `lower` works position by position. */
  lemma {:induction false} LowerAt(s: string, i: nat)
    requires i < |s|
    ensures Lower(s)[i] == LowerChar(s[i])
    decreases i
  {
    if i > 0 {
      LowerAt(s[1..], i - 1);
    }
  }

  /** A string with no upper-case letter is its own lower case. */
  lemma {:induction false} LowerNoUpper(s: string)
    requires forall i :: 0 <= i < |s| ==> !IsUpper(s[i])
    ensures Lower(s) == s
  {
    if s != [] {
      LowerNoUpper(s[1..]);
    }
  }

  /** Lower-casing a second time changes nothing. */
  lemma {:induction false} LowerIdempotent(s: string)
    ensures Lower(Lower(s)) == Lower(s)
  {
    if s != [] {
      LowerIdempotent(s[1..]);
      assert Lower(s)[1..] == Lower(s[1..]);
    }
  }

  /** `lower` keeps a prefix: lowering the first `k` characters is the first
      `k` characters of the lowered string. */
  lemma LowerPrefix(s: string, k: nat)
    requires k <= |s|
    ensures Lower(s[..k]) == Lower(s)[..k]
  {
    forall i | 0 <= i < k ensures Lower(s[..k])[i] == Lower(s)[..k][i] {
      LowerAt(s[..k], i);
      LowerAt(s, i);
    }
  }

  /** `lower` neither creates nor removes whitespace, so it commutes with
      `strip`. */
  lemma {:induction false} StripLower(s: string)
    ensures Strip(Lower(s)) == Lower(Strip(s))
    decreases |s|
  {
    if s != [] {
      var l := Lower(s);
      LowerAt(s, 0);
      LowerAt(s, |s| - 1);
      if IsSpace(s[0]) {
        assert l[1..] == Lower(s[1..]);
        StripLower(s[1..]);
      } else if IsSpace(s[|s| - 1]) {
        LowerPrefix(s, |s| - 1);
        StripLower(s[..|s| - 1]);
      }
    }
  }

  /** Lower-casing before normalising changes nothing: the grading
      normalisation ignores case. */
  lemma NormalizeLower(s: string)
    ensures Normalize(Lower(s)) == Normalize(s)
  {
    NormalizeIsLowerStrip(s);
    NormalizeIsLowerStrip(Lower(s));
    StripLower(s);
    LowerIdempotent(Strip(s));
  }

  /** `s.strip().lower()`, the normalisation used when grading, written
      as one recursion over the outer whitespace. */
  function Normalize(s: string): string
    decreases |s|
  {
    if s != [] && IsSpace(s[0]) then Normalize(s[1..])
    else if s != [] && IsSpace(s[|s| - 1]) then Normalize(s[..|s| - 1])
    else Lower(s)
  }

  /** The normalisation is `strip` followed by `lower`. */
  lemma {:induction false} NormalizeIsLowerStrip(s: string)
    ensures Normalize(s) == Lower(Strip(s))
    decreases |s|
  {
    if s != [] && IsSpace(s[0]) {
      NormalizeIsLowerStrip(s[1..]);
    } else if s != [] && IsSpace(s[|s| - 1]) {
      NormalizeIsLowerStrip(s[..|s| - 1]);
    }
  }

  function DigitChar(d: nat): (c: char)
    requires d < 10
    ensures IsDigit(c) && c as int - '0' as int == d
  {
    ('0' as int + d) as char
  }

  /** The decimal digits of `n`, as `str(n)` prints a non-negative integer. */
  function NatToString(n: nat): (s: string)
    ensures |s| >= 1
    ensures forall i :: 0 <= i < |s| ==> IsDigit(s[i])
    ensures |s| > 1 ==> s[0] != '0'
    decreases n
  {
    if n < 10 then [DigitChar(n)] else NatToString(n / 10) + [DigitChar(n % 10)]
  }

  /** The value of a string of decimal digits. */
  function DigitsValue(s: string): nat
    requires forall i :: 0 <= i < |s| ==> IsDigit(s[i])
  {
    if s == [] then 0
    else
      assert IsDigit(s[|s| - 1]);
      DigitsValue(s[..|s| - 1]) * 10 + (s[|s| - 1] as int - '0' as int)
  }

  /** Reading back what `NatToString` wrote gives the number again. */
  lemma {:induction false} NatToStringRoundTrip(n: nat)
    ensures DigitsValue(NatToString(n)) == n
    decreases n
  {
    if n >= 10 {
      NatToStringRoundTrip(n / 10);
      var s := NatToString(n);
      assert s[..|s| - 1] == NatToString(n / 10);
    }
  }

  /** `str(n)` for any integer: a minus sign before the digits of `-n`. */
  function IntToString(n: int): (s: string)
    ensures n >= 0 ==> s == NatToString(n)
    ensures n < 0 ==> s == "-" + NatToString(-n)
  {
    if n < 0 then "-" + NatToString(-n) else NatToString(n)
  }
}
