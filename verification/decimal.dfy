/** Go's `%d` rendering of an integer, and a strict parser that reads back
    exactly the strings `%d` produces. */
module Decimal {
  import opened Errors

  predicate IsDigit(c: char)
  {
    '0' <= c <= '9'
  }

  predicate AllDigits(s: string)
  {
    forall i :: 0 <= i < |s| ==> IsDigit(s[i])
  }

  function DigitChar(d: nat): (c: char)
    requires d < 10
    ensures IsDigit(c)
    ensures c as int - '0' as int == d
  {
    (d + '0' as int) as char
  }

  function DigitValue(c: char): (d: nat)
    requires IsDigit(c)
    ensures d < 10
    ensures DigitChar(d) == c
  {
    c as int - '0' as int
  }

  /** The decimal digits of `n`, most significant first, without leading
      zeros. */
  function Digits(n: nat): (s: string)
    ensures 1 <= |s|
    ensures AllDigits(s)
    ensures s[0] == '0' <==> n == 0
    decreases n
  {
    if n < 10 then [DigitChar(n)] else Digits(n / 10) + [DigitChar(n % 10)]
  }

  /** The number a string of digits denotes. */
  function ValueOf(s: string): nat
    requires AllDigits(s)
  {
    if |s| == 0 then 0
    else
      ValueOf(s[..|s| - 1]) * 10 + DigitValue(s[|s| - 1])
  }

  /** The shape `Digits` produces: at least one digit, no leading zero. */
  predicate IsCanonical(s: string)
  {
    1 <= |s| && AllDigits(s) && (|s| == 1 || s[0] != '0')
  }

  /** `fmt.Sprintf("%d", n)`: a minus sign for negative numbers, then the
      digits of the magnitude. */
  function FormatInt(n: int): (s: string)
    ensures 1 <= |s|
    ensures s[0] == '-' <==> n < 0
    ensures forall i :: 0 <= i < |s| ==> IsDigit(s[i]) || (i == 0 && s[i] == '-')
  {
    if n < 0 then "-" + Digits(-n) else Digits(n)
  }

  /** Reads an optionally negative decimal numeral, accepting exactly the
      strings `FormatInt` can produce (so no "+", no "-0", no leading
      zeros). */
  function ParseInt(s: string): Option<int>
  {
    if 1 <= |s| && s[0] == '-' then
      var m := s[1..];
      if IsCanonical(m) && m != "0" then Some(-(ValueOf(m) as int)) else None
    else if IsCanonical(s) then Some(ValueOf(s) as int)
    else None
  }

  lemma {:induction false} ValueOfDigits(n: nat)
    ensures ValueOf(Digits(n)) == n
    decreases n
  {
    if n >= 10 {
      var p := Digits(n / 10);
      var s := p + [DigitChar(n % 10)];
      assert s[..|s| - 1] == p;
      ValueOfDigits(n / 10);
    }
  }

  /** A string with a non-zero leading digit denotes a positive number. */
  lemma {:induction false} LeadingDigitPositive(s: string)
    requires 1 <= |s| && AllDigits(s) && s[0] != '0'
    ensures ValueOf(s) >= 1
    decreases |s|
  {
    if |s| > 1 {
      var p := s[..|s| - 1];
      assert p[0] == s[0];
      LeadingDigitPositive(p);
    } else {
      assert DigitChar(0) == '0';
    }
  }

  lemma {:induction false} DigitsOfValue(s: string)
    requires IsCanonical(s)
    ensures Digits(ValueOf(s)) == s
    decreases |s|
  {
    if |s| == 1 {
      assert DigitValue(s[0]) == ValueOf(s);
    } else {
      var p := s[..|s| - 1];
      assert p[0] == s[0];
      assert IsCanonical(p);
      LeadingDigitPositive(p);
      DigitsOfValue(p);
      var v := ValueOf(s);
      assert v / 10 == ValueOf(p) && v % 10 == DigitValue(s[|s| - 1]);
      assert s == p + [s[|s| - 1]];
    }
  }

  /** Round trip: every `%d` rendering reads back as the number it came
      from. */
  lemma FormatThenParse(n: int)
    ensures ParseInt(FormatInt(n)) == Some(n)
  {
    if n < 0 {
      var s := FormatInt(n);
      assert s[1..] == Digits(-n);
      ValueOfDigits(-n);
    } else {
      ValueOfDigits(n);
    }
  }

  /** The converse: whatever `ParseInt` accepts is the `%d` rendering of the
      number it returns, so the rendering is one-to-one. */
  lemma ParseThenFormat(s: string, n: int)
    requires ParseInt(s) == Some(n)
    ensures FormatInt(n) == s
  {
    if 1 <= |s| && s[0] == '-' {
      var m := s[1..];
      DigitsOfValue(m);
      LeadingDigitPositive(m);
      assert s == "-" + m;
    } else {
      DigitsOfValue(s);
    }
  }
}
