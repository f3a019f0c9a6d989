/** The invoice-number format shared by every counter variant:
    `SIS-${String(n).padStart(4, '0')}`, and the `SIS-ERROR` sentinel. */
module InvoiceNumber {

  import opened Text

  /** What a counter returns when it cannot reserve a number. */
  const ErrorNumber: string := "SIS-ERROR"

  /** `String(n).padStart(4, '0')`. */
  function Padded(n: int): string
  {
    PadStart(IntToString(n), 4, '0')
  }

  /** `SIS-` followed by the decimal digits of `n`, left-padded with `0` to at
      least four characters. */
  function Format(n: int): string
  {
    "SIS-" + Padded(n)
  }

  /** An invoice number is `SIS-` and at least four more characters, never the
      sentinel; for a non-negative counter the rest is all digits and reads
      back as the counter. Up to 9999 it is exactly eight characters long, and
      from 1000 on the digits are not padded at all. */
  lemma FormatShape(n: int)
    ensures var r := Format(n);
      |r| >= 8 && r[..4] == "SIS-" && r != ErrorNumber
    ensures var r := Format(n);
      n >= 0 ==> AllDigits(r[4..]) && ParseDigits(r[4..]) == n
    ensures 0 <= n < 10000 ==> |Format(n)| == 8
    ensures n >= 1000 ==> Format(n)[4..] == NatToString(n)
  {
    var r := Format(n);
    assert r[4..] == Padded(n);
    PaddedStartsWell(n);
    assert r[4] == Padded(n)[0];
    if n >= 0 {
      PaddedDigits(n);
    }
  }

  /** The padded text starts with a pad zero, a digit or a minus sign, never
      the `E` of the sentinel. */
  lemma PaddedStartsWell(n: int)
    ensures Padded(n)[0] != 'E'
  {
    var s := IntToString(n);
    if |s| >= 4 && n >= 0 {
      assert IsDigit(s[0]);
    }
  }

  /** Padding a non-negative number keeps its value; up to 9999 it gives
      exactly four characters, and from 1000 on it adds nothing. */
  lemma PaddedDigits(n: nat)
    ensures AllDigits(Padded(n)) && ParseDigits(Padded(n)) == n
    ensures n < 10000 ==> |Padded(n)| == 4
    ensures n >= 1000 ==> Padded(n) == NatToString(n)
  {
    PadDigitsRoundTrip(n, 4);
    Pow10Values();
    DigitCount(n, 4);
    DigitCount(n, 3);
  }

  lemma Pow10Values()
    ensures Pow10(3) == 1000 && Pow10(4) == 10000
  {
    assert Pow10(1) == 10;
    assert Pow10(2) == 100;
  }

  /** Different non-negative counter values give different invoice numbers. */
  lemma FormatInjective(a: nat, b: nat)
    requires Format(a) == Format(b)
    ensures a == b
  {
    FormatShape(a);
    FormatShape(b);
  }

  /** The first number, as it appears on an invoice. */
  lemma FormatOne()
    ensures Format(1) == "SIS-0001"
  {
    assert IntToString(1) == "1";
    assert Repeat('0', 3) == "000" by {
      assert Repeat('0', 1) == "0";
      assert Repeat('0', 2) == "00";
    }
    assert Padded(1) == "0001";
  }

  /** A five-digit number keeps all its digits. */
  lemma FormatFiveDigits()
    ensures Format(12345) == "SIS-12345"
  {
    assert NatToString(1) == "1";
    assert NatToString(12) == NatToString(1) + "2";
    assert NatToString(123) == NatToString(12) + "3";
    assert NatToString(1234) == NatToString(123) + "4";
    assert NatToString(12345) == NatToString(1234) + "5";
    assert Padded(12345) == "12345";
  }
}
