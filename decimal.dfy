/**
 * Decimal rendering of integers, as Python's f-string `{event_id}` writes them
 * (an optional '-' followed by digits without leading zeros), together with the
 * parser that inverts it.
 */
module Decimal {
  import opened Wrappers

  predicate IsDigit(c: char)
  {
    '0' <= c <= '9'
  }

  predicate AllDigits(s: string)
  {
    forall i :: 0 <= i < |s| ==> IsDigit(s[i])
  }

  function DigitChar(d: nat): (c: char)
    requires d < 10
    ensures IsDigit(c) && c as int - '0' as int == d
  {
    ('0' as int + d) as char
  }

  /** The digits of `n`, most significant first. */
  function Digits(n: nat): (s: string)
    ensures |s| >= 1 && AllDigits(s)
    ensures |s| == 1 <==> n < 10
    ensures |s| > 1 ==> s[0] != '0'
    decreases n
  {
    if n < 10 then [DigitChar(n)] else Digits(n / 10) + [DigitChar(n % 10)]
  }

  /** The number a string of digits denotes. */
  function DigitsValue(s: string): nat
    requires AllDigits(s)
  {
    if s == [] then 0 else DigitsValue(s[..|s| - 1]) * 10 + (s[|s| - 1] as int - '0' as int)
  }

  /** How Python renders an `int` in a format string. */
  function DecimalText(n: int): (s: string)
    ensures |s| >= 1 && '\n' !in s
  {
    if n < 0 then "-" + Digits(-n) else Digits(n)
  }

  /** A digit string in canonical form: no leading zero unless it is "0" itself. */
  predicate Canonical(s: string)
  {
    |s| >= 1 && AllDigits(s) && (s[0] == '0' ==> |s| == 1)
  }

  /** Reads back exactly the strings `DecimalText` produces. */
  function ParseDecimal(s: string): Option<int>
  {
    if |s| >= 2 && s[0] == '-' && Canonical(s[1..]) && s[1] != '0' then Some(0 - DigitsValue(s[1..]) as int)
    else if Canonical(s) then Some(DigitsValue(s))
    else None
  }

  lemma {:induction false} DigitsValueOfDigits(n: nat)
    ensures DigitsValue(Digits(n)) == n
    decreases n
  {
    var s := Digits(n);
    if n >= 10 {
      DigitsValueOfDigits(n / 10);
      assert s[..|s| - 1] == Digits(n / 10);
    }
  }

  lemma {:induction false} LeadingNonZeroIsPositive(s: string)
    requires |s| >= 1 && AllDigits(s) && s[0] != '0'
    ensures DigitsValue(s) >= 1
    decreases |s|
  {
    if |s| > 1 {
      LeadingNonZeroIsPositive(s[..|s| - 1]);
    }
  }

  lemma {:induction false} DigitsOfDigitsValue(s: string)
    requires Canonical(s)
    ensures Digits(DigitsValue(s)) == s
    decreases |s|
  {
    if |s| > 1 {
      var init := s[..|s| - 1];
      assert Canonical(init);
      LeadingNonZeroIsPositive(init);
      DigitsOfDigitsValue(init);
      var v := DigitsValue(s);
      assert v / 10 == DigitsValue(init) && v % 10 == s[|s| - 1] as int - '0' as int;
      assert s == init + [s[|s| - 1]];
    }
  }

  lemma ParseNegativeText(n: int)
    requires n < 0
    ensures ParseDecimal(DecimalText(n)) == Some(n)
  {
    var s := DecimalText(n);
    var ds := Digits(-n);
    assert s[1..] == ds;
    DigitsValueOfDigits(-n);
    assert ds[0] != '0' by {
      if |ds| == 1 {
        assert ds == [DigitChar(-n)];
      }
    }
  }

  /** Rendering then parsing gives the number back. */
  lemma ParseDecimalText(n: int)
    ensures ParseDecimal(DecimalText(n)) == Some(n)
  {
    if n < 0 {
      ParseNegativeText(n);
    } else {
      DigitsValueOfDigits(n);
    }
  }

  /** Whatever parses was produced by rendering the parsed number: the text form is canonical. */
  lemma DecimalTextOfParse(s: string)
    requires ParseDecimal(s).Some?
    ensures DecimalText(ParseDecimal(s).value) == s
  {
    if |s| >= 2 && s[0] == '-' && Canonical(s[1..]) && s[1] != '0' {
      LeadingNonZeroIsPositive(s[1..]);
      DigitsOfDigitsValue(s[1..]);
      assert s == "-" + s[1..];
    } else {
      DigitsOfDigitsValue(s);
    }
  }
}
