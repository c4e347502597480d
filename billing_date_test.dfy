/** The second copy of the invoice-date rule, local to
    src/test/billingDate.test.ts: it shifts only when the purchase day is
    strictly after the closing day, and it advances the month with
    `Date.setMonth`, which overflows instead of clamping. The test file's five
    cases are proved about this copy, and the exact set of inputs on which it
    disagrees with the library rule is characterised. */
module BillingDateTest {
  import opened Calendar
  import BillingDate

  /** The test file's local getEffectiveInvoiceDate. */
  function TestInvoiceDate(purchase: Date, closingDay: int): (r: Date)
    ensures !ValidDate(purchase) || purchase.day <= closingDay ==> r == purchase
    ensures ValidDate(purchase) && purchase.day > closingDay ==>
      ValidDate(r) && r == SetMonthOffset(purchase, 1)
  {
    if ValidDate(purchase) && purchase.day > closingDay then SetMonthOffset(purchase, 1)
    else purchase
  }

  /** The five cases the test file asserts. */
  lemma TestFileCases()
    ensures TestInvoiceDate(Date(2026, 2, 5), 10) == Date(2026, 2, 5)
    ensures TestInvoiceDate(Date(2026, 2, 2), 2) == Date(2026, 2, 2)
    ensures TestInvoiceDate(Date(2026, 2, 6), 2) == Date(2026, 3, 6)
    ensures TestInvoiceDate(Date(2025, 12, 15), 10) == Date(2026, 1, 15)
    ensures TestInvoiceDate(Date(2026, 1, 25), 20) == Date(2026, 2, 25)
  {
  }

  /** The overflow of `setMonth`: January 31 shifted by one month is March 3
      in a common year, and the library rule says February 28. */
  lemma OverflowSkipsFebruary()
    ensures TestInvoiceDate(Date(2026, 1, 31), 15) == Date(2026, 3, 3)
    ensures BillingDate.EffectiveInvoiceDate(Date(2026, 1, 31), 15) == Date(2026, 2, 28)
  {
  }

  /** The two copies disagree exactly when the purchase is on the closing day,
      or after it on a day the next month does not have. */
  lemma DisagreementExactly(purchase: Date, closingDay: int)
    ensures BillingDate.EffectiveInvoiceDate(purchase, closingDay) != TestInvoiceDate(purchase, closingDay)
      <==>
      ValidDate(purchase)
      && (purchase.day == closingDay
          || (purchase.day > closingDay
              && purchase.day > DaysInMonth(MonthStart(purchase, 1).year, MonthStart(purchase, 1).month)))
  {
    var lib := BillingDate.EffectiveInvoiceDate(purchase, closingDay);
    var test := TestInvoiceDate(purchase, closingDay);
    if ValidDate(purchase) {
      var next := MonthStart(purchase, 1);
      var n := DaysInMonth(next.year, next.month);
      if purchase.day == closingDay {
        assert MonthIndex(lib) == MonthIndex(purchase) + 1;
      } else if purchase.day > closingDay {
        if purchase.day <= n {
          MonthIndexDetermines(lib, test);
        } else {
          assert MonthIndex(lib) != MonthIndex(test);
        }
      }
    }
  }

  /** Away from the closing day and on days every month has, the two copies
      agree. */
  lemma AgreeAwayFromBoundary(purchase: Date, closingDay: int)
    requires purchase.day != closingDay && purchase.day <= 28
    ensures BillingDate.EffectiveInvoiceDate(purchase, closingDay) == TestInvoiceDate(purchase, closingDay)
  {
    DisagreementExactly(purchase, closingDay);
  }

  /** On the closing day itself the library rule shifts and the test copy
      does not: the test file's second case fails for the library rule. */
  lemma DisagreeOnClosingDay(purchase: Date)
    requires ValidDate(purchase)
    ensures TestInvoiceDate(purchase, purchase.day) == purchase
    ensures BillingDate.EffectiveInvoiceDate(purchase, purchase.day) != purchase
    ensures BillingDate.EffectiveInvoiceDate(Date(2026, 2, 2), 2) == Date(2026, 3, 2)
  {
  }
}
