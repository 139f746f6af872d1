/** JavaScript's conversion of a string to a number (`Number(s)`, also applied
    implicitly by `==` and `&`), for the strings the filter engine can be handed.
    A blank string converts to 0 and a string that is no numeral at all converts to
    NaN; every numeral (decimal, with or without point, exponent or sign,
    `Infinity`, hexadecimal, octal and binary forms) is set apart as `Unmodelled`. */
module JsNumber {
  import opened JsText

  datatype Num = NaN | Zero | Unmodelled

  /** JavaScript's white space and line terminators, which `Number()` trims. */
  predicate IsJsSpace(c: char) {
    || c == ' ' || c == '\t' || c == '\n' || c == '\r'
    || c as int == 0x0B || c as int == 0x0C || c as int == 0xA0 || c as int == 0x1680
    || (0x2000 <= c as int <= 0x200A)
    || c as int == 0x2028 || c as int == 0x2029 || c as int == 0x202F
    || c as int == 0x205F || c as int == 0x3000 || c as int == 0xFEFF
  }

  /** `s` without its leading white space. */
  function TrimStart(s: string): (t: string)
    ensures |t| <= |s| && t == s[|s| - |t|..]
    ensures |t| > 0 ==> !IsJsSpace(t[0])
  {
    if |s| > 0 && IsJsSpace(s[0]) then TrimStart(s[1..]) else s
  }

  /** `s` without its trailing white space. */
  function TrimEnd(s: string): (t: string)
    ensures |t| <= |s| && t == s[..|t|]
    ensures |t| > 0 ==> !IsJsSpace(t[|t| - 1])
  {
    if |s| > 0 && IsJsSpace(s[|s| - 1]) then TrimEnd(s[..|s| - 1]) else s
  }

  function Trim(s: string): string {
    TrimEnd(TrimStart(s))
  }

  predicate AllDigits(s: string) {
    forall i | 0 <= i < |s| :: '0' <= s[i] <= '9'
  }

  /** Characters that occur in decimal numerals: digits, signs, point, exponent. */
  predicate IsDecimalNumeralChar(c: char) {
    ('0' <= c <= '9') || c == '+' || c == '-' || c == '.' || c == 'e' || c == 'E'
  }

  /** `t`, already trimmed, may be a numeral other than a decimal integer: a
      prefixed radix numeral, a decimal numeral with point or exponent, or a signed
      `Infinity`. Every JavaScript numeral has one of these shapes. */
  predicate MayBeOtherNumeral(t: string) {
    || (|t| >= 2 && t[0] == '0' && IsRadixLetter(t[1]))
    || (forall i | 0 <= i < |t| :: IsDecimalNumeralChar(t[i]))
    || t == "Infinity" || t == "+Infinity" || t == "-Infinity"
  }

  predicate IsRadixLetter(c: char) {
    c == 'x' || c == 'X' || c == 'o' || c == 'O' || c == 'b' || c == 'B'
  }

  predicate IsSign(c: char) {
    c == '+' || c == '-'
  }

  /** A sign followed by at least one digit. */
  predicate IsSignedDigits(t: string) {
    |t| > 1 && IsSign(t[0]) && AllDigits(t[1..])
  }

  /** `t`, already trimmed, has the shape of a JavaScript numeral: an optionally
      signed decimal integer, a prefixed radix numeral, a decimal numeral with point
      or exponent, or a signed `Infinity`. */
  predicate IsNumeralShape(t: string) {
    AllDigits(t) || IsSignedDigits(t) || MayBeOtherNumeral(t)
  }

  /** `Number(s)`: 0 for a blank string, NaN for a string that is no numeral. */
  function ToNumber(s: string): (n: Num)
    ensures n == Zero <==> Trim(s) == []
    ensures n == NaN <==> Trim(s) != [] && !IsNumeralShape(Trim(s))
  {
    var t := Trim(s);
    if t == "" then Zero
    else if IsNumeralShape(t) then Unmodelled
    else NaN
  }

  /** A string starting and ending with characters that are neither white space nor
      numeral characters converts to NaN. */
  lemma NonNumeralIsNaN(s: string)
    requires |s| > 0 && !IsJsSpace(s[0]) && !IsJsSpace(s[|s| - 1])
    requires !IsDecimalNumeralChar(s[0]) && s[0] != 'I'
    ensures ToNumber(s) == NaN
  {
    assert TrimStart(s) == s;
    assert Trim(s) == s;
    assert !AllDigits(s) by { assert !('0' <= s[0] <= '9'); }
    assert !IsSignedDigits(s);
    assert !MayBeOtherNumeral(s) by {
      assert !IsDecimalNumeralChar(s[0]);
      assert s != "Infinity" && s != "+Infinity" && s != "-Infinity" by {
        assert "Infinity"[0] == 'I' && "+Infinity"[0] == '+' && "-Infinity"[0] == '-';
      }
    }
  }
}
