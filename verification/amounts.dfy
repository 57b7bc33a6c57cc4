/**
 * The transaction amount (`Importo`): a decimal-comma numeral with exactly
 * two fractional digits and no sign or thousands separator, held here as a
 * whole number of cents.
 */
module Amounts {
  import opened Wrappers
  import opened Digits

  /** The shape `\d+,\d\d`: at least one integer digit, a comma, two digits. */
  predicate IsAmountText(s: string) {
    |s| >= 4 && AllDigits(s[..|s| - 3]) && s[|s| - 3] == ',' && AllDigits(s[|s| - 2..])
  }

  /**
   * Reads the numeral with the comma as decimal point. The integer part is
   * worth 100 cents a unit and the two fractional digits are the cents, so
   * nothing is lost. Any other shape is rejected.
   */
  function ParseAmount(s: string): (r: Option<nat>)
    ensures r.Some? <==> IsAmountText(s)
    ensures r.Some? ==> r.value / 100 == Value(s[..|s| - 3]) && r.value % 100 == Value(s[|s| - 2..])
  {
    if IsAmountText(s) then Some(100 * Value(s[..|s| - 3]) + Value(s[|s| - 2..])) else None
  }

  /** Cents written as a decimal-comma numeral: "12,50" for 1250. */
  function FormatAmount(cents: nat): (s: string)
    ensures IsAmountText(s)
  {
    var s := Decimal(cents / 100) + "," + Padded(cents % 100, 2);
    assert s[..|s| - 3] == Decimal(cents / 100);
    assert s[|s| - 2..] == Padded(cents % 100, 2);
    s
  }

  /** Every amount in cents is read back from its numeral unchanged. */
  lemma ParseFormatAmount(cents: nat)
    ensures ParseAmount(FormatAmount(cents)) == Some(cents)
  {
    var s := FormatAmount(cents);
    assert s[..|s| - 3] == Decimal(cents / 100);
    assert s[|s| - 2..] == Padded(cents % 100, 2);
    ValueOfPadded(cents % 100, 2);
  }

  /** Amounts with the two decimal digits and no thousands separator are read exactly. */
  lemma AmountExamples()
    ensures ParseAmount("12,50") == Some(1250)
    ensures ParseAmount("1234,00") == Some(123400)
  {
    assert "12,50"[..2] == "12" && "12,50"[3..] == "50";
    assert Value("12") == 12 by { assert "12"[..1] == "1"; }
    assert Value("50") == 50 by { assert "50"[..1] == "5"; }
    assert "1234,00"[..4] == "1234" && "1234,00"[5..] == "00";
    assert Value("1234") == 1234 by {
      assert "1234"[..3] == "123" && "123"[..2] == "12" && "12"[..1] == "1";
    }
    assert Value("00") == 0 by { assert "00"[..1] == "0"; }
  }

  /** A thousands separator, a missing comma or a single decimal digit never match. */
  lemma MalformedAmountsRejected()
    ensures ParseAmount("1.234,56") == None
    ensures ParseAmount("12,5") == None
    ensures ParseAmount("1250") == None
  {
    assert !IsDigit("1.234,56"[1]);
    assert "12,5"[1] != ',';
  }
}
