/** Dollar formatting of whole-dollar amounts, as the ledger bot shows
    balances: "-$" and the magnitude for a debt, "$" and the amount
    otherwise.  A parser for that format is its inverse: every
    formatted amount reads back as itself. */
module Money {

  datatype Option<T> = None | Some(value: T)

  predicate IsDigit(c: char) {
    '0' <= c <= '9'
  }

  predicate AllDigits(s: string) {
    forall i :: 0 <= i < |s| ==> IsDigit(s[i])
  }

  function DigitChar(d: nat): (c: char)
    requires d < 10
    ensures IsDigit(c) && c as int - '0' as int == d
  {
    (d + '0' as int) as char
  }

  /** Decimal notation of a natural number without leading zeros, as
      Python's `str` writes an int. */
  function Decimal(n: nat): (s: string)
    ensures |s| >= 1 && AllDigits(s)
    ensures s[0] == '0' ==> n == 0
  {
    if n < 10 then [DigitChar(n)] else Decimal(n / 10) + [DigitChar(n % 10)]
  }

  /** The value of a string of decimal digits. */
  function DigitsValue(s: string): nat
    requires AllDigits(s)
  {
    if s == [] then 0
    else DigitsValue(s[..|s| - 1]) * 10 + (s[|s| - 1] as int - '0' as int)
  }

  lemma {:induction false} DecimalValue(n: nat)
    ensures DigitsValue(Decimal(n)) == n
  {
    if n >= 10 {
      DecimalValue(n / 10);
      var s := Decimal(n);
      assert s[..|s| - 1] == Decimal(n / 10);
    }
  }

  /** Formats an amount of money (money_fmt). */
  function MoneyFmt(amount: int): (r: string)
    ensures |r| >= 2
    ensures r[0] == '-' <==> amount < 0
    ensures amount < 0 ==> r[1] == '$' && AllDigits(r[2..])
    ensures amount >= 0 ==> r[0] == '$' && AllDigits(r[1..])
  {
    if amount < 0 then "-$" + Decimal(-amount) else "$" + Decimal(amount)
  }

  /** Reads back "-$<digits>" or "$<digits>"; anything else is rejected. */
  function ParseMoney(s: string): Option<int> {
    if |s| >= 3 && s[0] == '-' && s[1] == '$' && AllDigits(s[2..]) then
      Some(-(DigitsValue(s[2..]) as int))
    else if |s| >= 2 && s[0] == '$' && AllDigits(s[1..]) then
      Some(DigitsValue(s[1..]))
    else
      None
  }

  /** The formatter loses nothing: its text reads back as the amount, so
      different amounts never print alike. */
  lemma MoneyRoundTrip(amount: int)
    ensures ParseMoney(MoneyFmt(amount)) == Some(amount)
  {
    var r := MoneyFmt(amount);
    if amount < 0 {
      assert r[2..] == Decimal(-amount);
      DecimalValue(-amount);
    } else {
      assert r[1..] == Decimal(amount);
      DecimalValue(amount);
    }
  }

  /** A '$' in the formatted text is always followed by a digit: no "$-". */
  lemma NoMinusAfterDollar(amount: int, i: int)
    requires 0 <= i < |MoneyFmt(amount)| && MoneyFmt(amount)[i] == '$'
    ensures i + 1 < |MoneyFmt(amount)| && IsDigit(MoneyFmt(amount)[i + 1])
  {
    var r := MoneyFmt(amount);
    if amount < 0 {
      assert r[2..][0] == r[2];
    } else {
      assert r[1..][0] == r[1];
    }
  }
}
