/**
 * The checkout step: the price of the booking and the pay button. Amounts are
 * held exactly in cents, where the component computes in floating point.
 */
module CheckoutScreen {
  import opened JsText

  /** `PRICE_PER_PERSON`, 89 dollars, in cents. */
  const PricePerPersonCents := 8900
  /** The tax rate, 8%, in percent. */
  const TaxPercent := 8

  datatype Quote = Quote(subtotal: int, tax: int, total: int)

  /**
   * Subtotal, tax and total for a group, in cents: 89 dollars a person, tax
   * exactly 8% of the subtotal with nothing lost to rounding, and the total
   * their sum, 96.12 dollars a person.
   */
  function QuoteFor(groupSize: int): (q: Quote)
    ensures q.subtotal == 8900 * groupSize
    ensures q.tax * 100 == q.subtotal * TaxPercent
    ensures q.tax == 712 * groupSize
    ensures q.total == q.subtotal + q.tax
    ensures q.total == 9612 * groupSize
  {
    var subtotal := PricePerPersonCents * groupSize;
    var tax := subtotal * TaxPercent / 100;
    Quote(subtotal, tax, subtotal + tax)
  }

  /** For the sizes the form accepts the total is positive, and a larger group always pays more. */
  lemma TotalIncreasing(a: int, b: int)
    requires 1 <= a < b <= 12
    ensures 0 < QuoteFor(a).total < QuoteFor(b).total
  {
  }

  /** The total as the summary shows it, `$${total.toFixed(2)}`. */
  function TotalLine(groupSize: int): string {
    "$" + FormatCents(QuoteFor(groupSize).total)
  }

  /** The pay button's caption, `PAY $${total.toFixed(2)}`. */
  function PayButtonLabel(groupSize: int): string {
    "PAY $" + FormatCents(QuoteFor(groupSize).total)
  }

  /** The button charges what the summary shows: its caption is "PAY " and the displayed total, whose amount reads back as the total. */
  lemma PayButtonShowsTotal(groupSize: int)
    ensures PayButtonLabel(groupSize) == "PAY " + TotalLine(groupSize)
    ensures PayButtonLabel(groupSize)[5..] == FormatCents(QuoteFor(groupSize).total)
    ensures ParseCents(PayButtonLabel(groupSize)[5..]) == QuoteFor(groupSize).total
  {
    var amount := FormatCents(QuoteFor(groupSize).total);
    LabelParts(amount);
    FormatCentsRoundTrip(QuoteFor(groupSize).total);
  }

  lemma LabelParts(amount: string)
    ensures "PAY $" + amount == "PAY " + ("$" + amount)
    ensures ("PAY $" + amount)[5..] == amount
  {
  }

  /** Three people: 267.00 subtotal, 21.36 tax, 288.36 total. */
  lemma ThreePeople()
    ensures FormatCents(QuoteFor(3).subtotal) == "267.00"
    ensures FormatCents(QuoteFor(3).tax) == "21.36"
    ensures FormatCents(QuoteFor(3).total) == "288.36"
  {
    assert QuoteFor(3) == Quote(26700, 2136, 28836);
    TwoDigits();
    assert FormatCents(26700) == "267.00" by {
      assert NatToDecimal(26) == "26";
      assert NatToDecimal(267) == "267";
      assert UnsignedCents(26700) == "267" + "." + "00";
    }
    assert FormatCents(2136) == "21.36" by {
      assert NatToDecimal(21) == "21";
      assert UnsignedCents(2136) == "21" + "." + "36";
    }
    assert FormatCents(28836) == "288.36" by {
      assert NatToDecimal(28) == "28";
      assert NatToDecimal(288) == "288";
      assert UnsignedCents(28836) == "288" + "." + "36";
    }
  }

  lemma TwoDigits()
    ensures NatToDecimal(2) == "2"
    ensures ZeroPad(0, 2) == "00" && ZeroPad(36, 2) == "36"
  {
    assert NatToDecimal(0) == "0";
    assert LeadingZeros(1, "0") == "00";
    assert NatToDecimal(3) == "3";
    assert NatToDecimal(36) == "36";
  }
}
