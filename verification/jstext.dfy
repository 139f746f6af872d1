/** The few JavaScript string primitives the filter engine relies on:
    `toUpperCase`, `indexOf`, `String(number)`, and the shape of the strings that a
    `RegExp` built from a filter value treats literally. */
module JsText {

  /** `toUpperCase` on one character, for the ASCII range. */
  function UpperChar(c: char): char {
    if 'a' <= c <= 'z' then (c as int - 32) as char else c
  }

  /** `s.toUpperCase()` (ASCII case mapping, length preserving). */
  function Upper(s: string): (u: string)
    ensures |u| == |s|
    ensures forall i :: 0 <= i < |s| ==> u[i] == UpperChar(s[i])
  {
    seq(|s|, i requires 0 <= i < |s| => UpperChar(s[i]))
  }

  /** `needle` occurs in `hay` starting at position `i`. */
  predicate OccursAt(hay: string, needle: string, i: int) {
    0 <= i && i + |needle| <= |hay| && hay[i..i + |needle|] == needle
  }

  /** `needle` is a (possibly empty) substring of `hay`. */
  predicate Contains(hay: string, needle: string) {
    exists i | 0 <= i <= |hay| :: OccursAt(hay, needle, i)
  }

  /** `hay.indexOf(needle, from)`: the first occurrence at or after `from`, or -1. */
  function IndexFrom(hay: string, needle: string, from: nat): (r: int)
    ensures r == -1 || (from <= r && OccursAt(hay, needle, r))
    ensures r == -1 ==> forall j :: from <= j ==> !OccursAt(hay, needle, j)
    ensures r != -1 ==> forall j :: from <= j < r ==> !OccursAt(hay, needle, j)
    decreases |hay| - from
  {
    if from + |needle| > |hay| then -1
    else if hay[from..from + |needle|] == needle then from
    else IndexFrom(hay, needle, from + 1)
  }

  /** `hay.indexOf(needle)`: the position of the leftmost occurrence, or -1 when
      there is none. */
  function IndexOf(hay: string, needle: string): (r: int)
    ensures r >= 0 ==> OccursAt(hay, needle, r) && forall j :: 0 <= j < r ==> !OccursAt(hay, needle, j)
    ensures r == -1 <==> !Contains(hay, needle)
    ensures r >= -1
  {
    IndexFrom(hay, needle, 0)
  }

  /** A character of `needle` that never appears in `hay` rules out an occurrence. */
  lemma MissingCharRulesOut(hay: string, needle: string, k: nat)
    requires k < |needle| && needle[k] !in hay
    ensures !Contains(hay, needle)
  {
    forall i | 0 <= i <= |hay| ensures !OccursAt(hay, needle, i) {
      if i + |needle| <= |hay| {
        assert hay[i..i + |needle|][k] == hay[i + k];
      }
    }
  }

  /** The characters JavaScript's `.` in a regular expression refuses to match. */
  predicate IsLineTerminator(c: char) {
    c == '\n' || c == '\r' || c as int == 0x2028 || c as int == 0x2029
  }

  /** Characters with a special meaning in a JavaScript regular expression. */
  predicate IsRegexMeta(c: char) {
    || c == '\\' || c == '^' || c == '$' || c == '.' || c == '|' || c == '?' || c == '*'
    || c == '+' || c == '(' || c == ')' || c == '[' || c == ']' || c == '{' || c == '}'
  }

  /** A pattern text without metacharacters: as a `RegExp` it matches exactly the
      strings that contain it. */
  predicate IsLiteral(s: string) {
    forall i | 0 <= i < |s| :: !IsRegexMeta(s[i])
  }

  function DigitChar(d: nat): char
    requires d < 10
  {
    "0123456789"[d]
  }

  /** The decimal digits of `n`, most significant first, without leading zeros. */
  function Digits(n: nat): (s: string)
    ensures |s| > 0
    ensures forall i | 0 <= i < |s| :: '0' <= s[i] <= '9'
  {
    if n < 10 then [DigitChar(n)] else Digits(n / 10) + [DigitChar(n % 10)]
  }

  /** `String(n)` for an integer `n`. */
  function NumberText(n: int): (s: string)
    ensures |s| > 0 && IsLiteral(s)
  {
    if n < 0 then "-" + Digits(-n) else Digits(n)
  }

  /** The value of a string of decimal digits. */
  function DigitsValue(s: string): nat
    requires forall i | 0 <= i < |s| :: '0' <= s[i] <= '9'
  {
    if s == [] then 0 else 10 * DigitsValue(s[..|s| - 1]) + (s[|s| - 1] as int - '0' as int)
  }

  /** Reading back the digits of `n` gives `n`. */
  lemma {:induction false} DigitsRoundTrip(n: nat)
    ensures DigitsValue(Digits(n)) == n
  {
    if n >= 10 {
      var s := Digits(n);
      assert s[..|s| - 1] == Digits(n / 10);
      DigitsRoundTrip(n / 10);
    }
  }
}
