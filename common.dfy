/** Shared vocabulary of the model: optional values, results, decimal numerals
    and the string formats that the validators treat as opaque checks. */
module Common {

  datatype Option<+T> = None | Some(value: T)

  datatype Result<+T, +E> = Ok(value: T) | Err(error: E)

  /** The format checks the validators delegate to a library (UUID, URL,
      e-mail address). They are parameters of the model, not definitions. */
  datatype Formats = Formats(isUuid: string -> bool, isUrl: string -> bool, isEmail: string -> bool)

  /** One schema issue: the path of the offending value joined with ".",
      and its message. */
  datatype FieldError = FieldError(field: string, message: string)

  predicate IsDigit(c: char) {
    '0' <= c <= '9'
  }

  predicate AllDigits(s: string) {
    forall i :: 0 <= i < |s| ==> IsDigit(s[i])
  }

  /** The number a string of decimal digits denotes. */
  function DigitsValue(s: string): nat
    requires AllDigits(s)
  {
    if s == [] then 0 else 10 * DigitsValue(s[..|s| - 1]) + (s[|s| - 1] as int - '0' as int)
  }

  function DigitChar(d: nat): (c: char)
    requires d < 10
    ensures IsDigit(c) && c as int - '0' as int == d
  {
    (d + '0' as int) as char
  }

  /** Decimal rendering of a natural number, as a template literal prints it.
      What the text denotes is stated by `NatToStringDenotes`. */
  function NatToString(n: nat): string
  {
    if n < 10 then [DigitChar(n)] else NatToString(n / 10) + [DigitChar(n % 10)]
  }

  /** Decimal rendering of an integer: a leading '-' for negative values. */
  function IntToString(i: int): string
  {
    if i < 0 then "-" + NatToString(-i) else NatToString(i)
  }

  /** The rendering of `n` is a non-empty string of digits that denotes `n`,
      with no leading zero unless `n` is 0. */
  lemma {:induction false} NatToStringDenotes(n: nat)
    ensures var s := NatToString(n);
      |s| >= 1 && AllDigits(s) && DigitsValue(s) == n && (s[0] == '0' ==> n == 0)
  {
    if n >= 10 {
      NatToStringDenotes(n / 10);
      var prefix := NatToString(n / 10);
      var s := prefix + [DigitChar(n % 10)];
      assert s[..|s| - 1] == prefix;
    }
  }

  /** The rendering of an integer starts with '-' exactly when it is negative,
      and its digits denote the absolute value. */
  lemma IntToStringDenotes(i: int)
    ensures var s := IntToString(i);
      && |s| >= 1
      && (s[0] == '-' <==> i < 0)
      && (i >= 0 ==> AllDigits(s) && DigitsValue(s) == i)
      && (i < 0 ==> AllDigits(s[1..]) && DigitsValue(s[1..]) == -i)
  {
    if i < 0 {
      NatToStringDenotes(-i);
      var s := "-" + NatToString(-i);
      assert s[1..] == NatToString(-i);
    } else {
      NatToStringDenotes(i);
    }
  }

  /** Distinct naturals print differently. */
  lemma NatToStringInjective(a: nat, b: nat)
    requires NatToString(a) == NatToString(b)
    ensures a == b
  {
    NatToStringDenotes(a);
    NatToStringDenotes(b);
  }

  /** Distinct integers print differently. */
  lemma IntToStringInjective(a: int, b: int)
    requires IntToString(a) == IntToString(b)
    ensures a == b
  {
    IntToStringDenotes(a);
    IntToStringDenotes(b);
    var s := IntToString(a);
    if a < 0 {
      assert DigitsValue(s[1..]) == -a && DigitsValue(s[1..]) == -b;
    }
  }
}
