/** Text conventions of the Python runtime that several programs rely on. */
module PythonText {
  import opened Options
  import opened Trimming

  predicate IsSpace(c: char) {
    || '\t' <= c <= '\r' || '\U{1c}' <= c <= ' ' || c == '\U{85}' || c == '\U{a0}' || c == '\U{1680}'
    || '\U{2000}' <= c <= '\U{200a}' || c == '\U{2028}' || c == '\U{2029}' || c == '\U{202f}'
    || c == '\U{205f}' || c == '\U{3000}'
  }

  predicate IsBlank(s: string) {
    forall i :: 0 <= i < |s| ==> IsSpace(s[i])
  }

  function Strip(s: string): string {
    TrimBy(IsSpace, s)
  }

  predicate IsDigit(c: char) {
    '0' <= c <= '9'
  }

  /** Digits with single underscores between them. */
  predicate IsDigitText(s: string) {
    && |s| > 0 && IsDigit(s[0]) && IsDigit(s[|s| - 1])
    && (forall i :: 0 <= i < |s| ==> IsDigit(s[i]) || s[i] == '_')
    && (forall i :: 0 < i < |s| ==> s[i - 1] != '_' || s[i] != '_')
  }

  function DigitValue(s: string): nat {
    if s == [] then 0
    else if IsDigit(s[|s| - 1]) then DigitValue(s[..|s| - 1]) * 10 + (s[|s| - 1] as int - '0' as int)
    else DigitValue(s[..|s| - 1])
  }

  /** `int(text)` for decimal text. */
  function IntOf(text: string): Option<int> {
    var s := Strip(text);
    var signed := |s| > 0 && (s[0] == '-' || s[0] == '+');
    var digits := if signed then s[1..] else s;
    var value: int := DigitValue(digits);
    if !IsDigitText(digits) then None else Some(if signed && s[0] == '-' then -value else value)
  }

  function DecimalText(n: nat): (s: string)
    ensures |s| > 0 && forall i :: 0 <= i < |s| ==> IsDigit(s[i])
  {
    var last := ['0' + (n % 10) as char];
    if n < 10 then last else DecimalText(n / 10) + last
  }

  lemma {:induction false} DecimalTextValue(n: nat)
    ensures DigitValue(DecimalText(n)) == n
  {
    var s := DecimalText(n);
    if n >= 10 {
      DecimalTextValue(n / 10);
      assert s[..|s| - 1] == DecimalText(n / 10);
    } else {
      assert s[..|s| - 1] == [];
    }
  }

  /** Printing a natural number in decimal is undone by `int`. */
  lemma IntRoundTrip(n: nat)
    ensures IntOf(DecimalText(n)) == Some(n)
  {
    DecimalTextValue(n);
    var s := DecimalText(n);
    assert !IsSpace(s[0]) && !IsSpace(s[|s| - 1]);
    StripNothing(s);
    hide IsSpace, Strip, DigitValue;
  }

  // ---------- what is stripped and what is read ----------

  /** The ASCII characters that count as blank. */
  lemma AsciiSpaces(c: char)
    requires c as int < 128
    ensures IsSpace(c) <==> c in {'\t', '\n', '\U{0b}', '\U{0c}', '\r', ' ', '\U{1c}', '\U{1d}', '\U{1e}', '\U{1f}'}
  {
  }

  lemma StripNothing(s: string)
    requires s != [] && !IsSpace(s[0]) && !IsSpace(s[|s| - 1])
    ensures Strip(s) == s
  {
    TrimByNothing(IsSpace, s);
  }

  lemma SignedText(sign: char, digits: string)
    requires (sign == '-' || sign == '+') && IsDigitText(digits)
    ensures IntOf([sign] + digits).Some? && IntOf([sign] + digits).value == if sign == '-' then 0 - DigitValue(digits) else DigitValue(digits)
  {
    var s := [sign] + digits;
    assert s[|s| - 1] == digits[|digits| - 1] && s[1..] == digits;
    assert !IsSpace(sign) && !IsSpace(digits[|digits| - 1]);
    StripNothing(s);
    hide IsSpace, Strip, DigitValue, IsDigitText;
  }

  /** Signs are read, and a minus negates. */
  lemma SignedIntRoundTrip(n: nat)
    ensures IntOf("-" + DecimalText(n)).Some? && IntOf("-" + DecimalText(n)).value == 0 - n
    ensures IntOf("+" + DecimalText(n)).Some? && IntOf("+" + DecimalText(n)).value == n
  {
    DecimalTextValue(n);
    hide IntOf, DigitValue;
    assert IsDigitText(DecimalText(n));
    SignedText('-', DecimalText(n));
    SignedText('+', DecimalText(n));
  }

  /** Text with a character that is no digit, underscore, sign or blank is no integer. */
  lemma NoInteger(text: string, i: nat)
    requires i < |text| && !IsDigit(text[i]) && text[i] != '_' && text[i] != '-' && text[i] != '+' && !IsSpace(text[i])
    ensures IntOf(text).None?
  {
    var a, b := TrimByMeans(IsSpace, text);
    var s := Strip(text);
    assert s == text[a..b] && a <= i < b;
    hide IsSpace, Strip;
    assert s[i - a] == text[i];
    assert i > a ==> s[1..][i - a - 1] == s[i - a];
  }

  lemma {:induction false} DigitValueConcat(a: string, b: string)
    ensures DigitValue(a + "_" + b) == DigitValue(a + b)
  {
    var s, t := a + "_" + b, a + b;
    if b == [] {
      assert s[..|s| - 1] == a && t == a;
    } else {
      var m := |b| - 1;
      DigitValueConcat(a, b[..m]);
      assert s[..|s| - 1] == a + "_" + b[..m] && t[..|t| - 1] == a + b[..m];
    }
  }

  predicate AllDigits(s: string) {
    s != "" && forall i :: 0 <= i < |s| ==> IsDigit(s[i])
  }

  lemma DigitTexts(a: string, b: string)
    requires AllDigits(a) && AllDigits(b)
    ensures IsDigitText(a + "_" + b) && IsDigitText(a + b)
  {
  }

  /** One underscore between digits is skipped. */
  lemma UnderscoreBetweenDigits(a: string, b: string)
    requires AllDigits(a) && AllDigits(b)
    ensures IntOf(a + "_" + b) == IntOf(a + b) && IntOf(a + b).Some?
  {
    DigitTexts(a, b);
    DigitValueConcat(a, b);
    UnstrippedDigits(a + "_" + b);
    UnstrippedDigits(a + b);
    hide IntOf, DigitValue, IsDigitText;
  }

  /** Two underscores together, or one at an end, make the text no integer. */
  lemma MisplacedUnderscores(s: string, i: nat)
    requires i < |s| && s[i] == '_' && (i == 0 || i == |s| - 1 || s[i - 1] == '_')
    requires forall k :: 0 <= k < |s| ==> IsDigit(s[k]) || s[k] == '_'
    ensures IntOf(s).None?
  {
    assert !IsDigitText(s);
    UnstrippedDigits(s);
    hide IntOf, DigitValue;
  }

  lemma UnstrippedDigits(s: string)
    requires s != "" && forall i :: 0 <= i < |s| ==> IsDigit(s[i]) || s[i] == '_'
    ensures IntOf(s) == if IsDigitText(s) then Some(DigitValue(s)) else None
  {
    assert !IsSpace(s[0]) && !IsSpace(s[|s| - 1]);
    StripNothing(s);
    hide IsSpace, Strip, DigitValue, IsDigitText;
  }
}
