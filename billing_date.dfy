/** The invoice-date rule of src/lib/billingDate.ts: a card purchase made on
    or after the card's closing day belongs to the next month's invoice, whose
    date is the purchase date advanced by one month with date-fns `addMonths`;
    otherwise the purchase date itself is returned. */
module BillingDate {
  import opened Calendar

  /** getEffectiveInvoiceDate. An invalid date parses to NaN, every comparison
      with which is false, so it is returned as given. */
  function EffectiveInvoiceDate(purchase: Date, closingDay: int): (r: Date)
    ensures !ValidDate(purchase) || purchase.day < closingDay ==> r == purchase
    ensures ValidDate(purchase) && purchase.day >= closingDay ==>
      && ValidDate(r)
      && MonthIndex(r) == MonthIndex(purchase) + 1
      && r.day == Min(purchase.day, DaysInMonth(r.year, r.month))
  {
    if ValidDate(purchase) && purchase.day >= closingDay then AddMonths(purchase, 1)
    else purchase
  }

  /** A purchase on the closing day itself already moves to the next invoice. */
  lemma ClosingDayShifts(purchase: Date)
    requires ValidDate(purchase)
    ensures var r := EffectiveInvoiceDate(purchase, purchase.day);
      r != purchase && MonthIndex(r) == MonthIndex(purchase) + 1
  {
  }

  /** The shifted date is in the very next month: clamping never spills into
      the month after it, and it keeps the day whenever the next month has it. */
  lemma ShiftStaysInNextMonth(purchase: Date, closingDay: int)
    requires ValidDate(purchase) && purchase.day >= closingDay
    ensures var r := EffectiveInvoiceDate(purchase, closingDay);
      var next := MonthStart(purchase, 1);
      && r.year == next.year && r.month == next.month
      && (purchase.day <= DaysInMonth(next.year, next.month) ==> r.day == purchase.day)
      && (purchase.day > DaysInMonth(next.year, next.month) ==> r.day == DaysInMonth(r.year, r.month))
  {
    var r := EffectiveInvoiceDate(purchase, closingDay);
    var next := MonthStart(purchase, 1);
    assert MonthIndex(r) == MonthIndex(next);
    assert r.year == next.year by {
      assert 12 * r.year + r.month == 12 * next.year + next.month;
    }
  }

  /** A December purchase on or after the closing day lands in January of the
      following year, on the same day (January has 31 days). */
  lemma DecemberRollsOver(purchase: Date, closingDay: int)
    requires ValidDate(purchase) && purchase.month == 12 && purchase.day >= closingDay
    ensures EffectiveInvoiceDate(purchase, closingDay) == Date(purchase.year + 1, 1, purchase.day)
  {
    var r := EffectiveInvoiceDate(purchase, closingDay);
    assert 12 * r.year + r.month == 12 * (purchase.year + 1) + 1;
    assert r.year == purchase.year + 1 && r.month == 1;
  }

  /** With closing day 1 (or any day before it) every valid purchase shifts. */
  lemma ClosingDayOneShiftsAll(purchase: Date)
    requires ValidDate(purchase)
    ensures var r := EffectiveInvoiceDate(purchase, 1);
      r != purchase && MonthIndex(r) == MonthIndex(purchase) + 1
  {
  }

  /** The invoice date is never earlier than the purchase date. */
  lemma NeverEarlier(purchase: Date, closingDay: int)
    ensures NotAfter(purchase, EffectiveInvoiceDate(purchase, closingDay))
  {
    var r := EffectiveInvoiceDate(purchase, closingDay);
    if r != purchase {
      MonthIndexOrder(purchase, r);
    }
  }

  /** Month-end clamping: 2026 is not a leap year, so January 31 moves to
      February 28. */
  lemma ClampsAtMonthEnd()
    ensures EffectiveInvoiceDate(Date(2026, 1, 31), 15) == Date(2026, 2, 28)
    ensures EffectiveInvoiceDate(Date(2024, 1, 31), 15) == Date(2024, 2, 29)
    ensures EffectiveInvoiceDate(Date(2026, 2, 2), 2) == Date(2026, 3, 2)
    ensures EffectiveInvoiceDate(Date(2026, 2, 5), 10) == Date(2026, 2, 5)
    ensures EffectiveInvoiceDate(Date(2025, 12, 15), 10) == Date(2026, 1, 15)
  {
  }
}
