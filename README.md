# A verified model of a personal-finance app's core rules

The application is a React/Supabase personal-finance app for Brazilian users.
It records income and expenses (`lancamentos`), paid either in cash
("avista") or by credit card ("cartao"). Card purchases can be split into
installments, and a card's closing day decides which monthly invoice a
purchase belongs to. Around that it has:

- a monthly dashboard and a chart of expenses per category;
- savings goals;
- logos and initials for banks and stores;
- receipts uploaded to a storage bucket;
- a parser for pasted bank notifications;
- an app lock with fingerprint (WebAuthn) and password unlock;
- a service worker that receives files shared from the phone's share sheet.

This project models those rules in Dafny and proves what they promise.

How the model represents the app:

- **Backend tables** are sequences of records. Writes are methods on a class
  holding the rows. Whether the backend accepts a request is a parameter.
- **Things the model does not compute:**
  - the current time, fresh ids and browser capabilities;
  - WebAuthn results, the merchant regular expressions' matches;
  - the password check and the recovery e-mail.

  Each becomes a parameter of the operation that uses it.
- **Browser storage.** `localStorage`, `sessionStorage`, the share cache and
  the receipts bucket are map-valued fields.
- **Money** is an exact decimal (`real`). `Math.round` and `toFixed(2)` are
  written out as rounding functions (`Common.MathRound`, `Common.ToFixed2`).
- **Dates** are `(year, month, day)` triples in UTC. Two ways of moving a date
  by months are modelled:
  - date-fns `addMonths` (`Calendar.AddMonths`), which clamps to the end of
    the month;
  - `Date.setMonth` (`Calendar.SetMonthOffset`), which overflows into the
    month after.

Modules follow the source files:

| module | source file |
|---|---|
| `Calendar` | shared date arithmetic |
| `IsoText` | shared: JS number text, ISO date text, string order |
| `Common` | shared helpers: options, string functions (`trim`, `includes`, words and `join(' ')`), rounding and powers of ten |
| `Records` | the backend record shapes |
| `BillingDate` | `src/lib/billingDate.ts` |
| `BillingDateTest` | the local copy in `src/test/billingDate.test.ts` |
| `NovoLancamento` | `src/components/NovoLancamentoModal.tsx` |
| `MonthSelector` | `src/components/MonthSelector.tsx` |
| `Dashboard` | `src/pages/Dashboard.tsx` |
| `Graficos` | `src/pages/Graficos.tsx` |
| `Objetivos` | `src/pages/Objetivos.tsx` |
| `Categories` | `src/lib/categories.ts` |
| `NotificationParser` | `src/lib/notificationParser.ts` |
| `Logos` | `src/lib/logos.tsx` |
| `Receipts` | `src/hooks/useReceipts.ts` |
| `ReceiptUploadButton` | `src/components/ReceiptUploadButton.tsx` |
| `ReceiptUploadButtonV2` | `src/components/ReceiptUploadButton_Version2.tsx` |
| `Auth` | `src/hooks/useAuth.tsx` |
| `AppLockScreen` | `src/components/AppLockScreen.tsx` |
| `ServiceWorker` | `public/sw.js` |

Places where the code itself disagrees, and what the model does about each:

1. **The two invoice-date rules disagree.** The library rule shifts a
   purchase made *on* the closing day, using `>=`. The copy in the test file
   uses `>` and expects such a purchase to stay. The copy also advances the
   month with `setMonth`, which overflows. Both rules are modelled.
   `BillingDateTest.DisagreementExactly` characterises exactly the inputs on
   which they differ.
2. **Installment dates skip short months.** Installment dates are computed
   with `setMonth` on the raw purchase date, so they can skip a month. See
   "Findings". `LancamentoTable.Submit` stores the dates the code computes;
   the one-per-month dating is defined and proved beside it.
3. **A US-format amount is misread.** The amount parser reads
   `R$ 1,234.56` as 1.23456 (`NotificationParser.UsThousandsMisread`). Its
   Brazilian-format rule removes every '.' as soon as the text contains a
   ','. The model keeps this behaviour.

## Model

| member | source | states |
|---|---|---|
| `Calendar.DaysInMonth` | src/lib/billingDate.ts:17 | Gregorian month lengths: 28 to 31 days, 31 exactly for months 1, 3, 5, 7, 8, 10, 12, and February has 29 exactly in leap years |
| `Calendar.AddMonths` | src/lib/billingDate.ts:17 | date-fns `addMonths`: the result is a valid date k months later, with the day clamped to the last day of the target month |
| `Calendar.SetMonthOffset` | src/test/billingDate.test.ts:12-13 | `setMonth(getMonth()+k)`: the day is kept when the target month has it; otherwise the date runs on into the following month by the excess days |
| `BillingDate.EffectiveInvoiceDate` | src/lib/billingDate.ts:14-20 | a day before the closing day (or an invalid date) returns the purchase date; otherwise a valid date in the next month, with the day clamped |
| `BillingDate.ClosingDayShifts` | src/lib/billingDate.ts:16-17 | a purchase on the closing day itself moves to the next month |
| `BillingDate.ShiftStaysInNextMonth` | src/lib/billingDate.ts:17 | the shifted date is in the very next calendar month, keeping the day when that month has it and taking its last day otherwise |
| `BillingDate.DecemberRollsOver` | src/lib/billingDate.ts:16-17 | a December purchase on or after the closing day becomes the same day of January of the next year |
| `BillingDate.ClosingDayOneShiftsAll` | src/lib/billingDate.ts:16 | with closing day 1, every valid purchase moves one month |
| `BillingDate.NeverEarlier` | src/lib/billingDate.ts:16-19 | the invoice date is never before the purchase date |
| `BillingDate.ClampsAtMonthEnd` | src/lib/billingDate.ts:17 | concrete cases: Jan 31 becomes Feb 28 in 2026 and Feb 29 in 2024, and Dec 15 becomes Jan 15 |
| `BillingDateTest.TestInvoiceDate` | src/test/billingDate.test.ts:9-17 | the test copy: a day at or before the closing day returns the input; a later day is advanced with `setMonth` overflow |
| `BillingDateTest.TestFileCases` | src/test/billingDate.test.ts:19-48 | the five expectations of the test file hold for the test copy |
| `BillingDateTest.OverflowSkipsFebruary` | src/test/billingDate.test.ts:12-13 | Jan 31 2026 goes to Mar 3 under the test copy and to Feb 28 under the library rule |
| `BillingDateTest.DisagreementExactly` | src/test/billingDate.test.ts:11 | the two rules differ exactly when the date is valid and either the day equals the closing day, or the day is after it and the next month does not have that day |
| `BillingDateTest.AgreeAwayFromBoundary` | src/test/billingDate.test.ts:9-17 | the two rules agree whenever the day differs from the closing day and is at most 28 |
| `BillingDateTest.DisagreeOnClosingDay` | src/test/billingDate.test.ts:26-30 | on the closing day the test copy keeps the date and the library rule shifts it: the second test case fails for the library (2026-02-02 with day 2 gives 2026-03-02) |
| `MonthSelector.Prev` | src/components/MonthSelector.tsx:11-14 | January steps back to December of the year before, any other month to the month before; the result is the previous month in order |
| `MonthSelector.Next` | src/components/MonthSelector.tsx:16-19 | December steps on to January of the next year, any other month to the month after; the result is the next month in order |
| `MonthSelector.StepsAreInverse` | src/components/MonthSelector.tsx:11-19 | for months 0..11, next(prev(m)) = m and prev(next(m)) = m |
| `MonthSelector.TwelveStepsIsAYear` | src/components/MonthSelector.tsx:16-19 | twelve `next` steps give the same month of the next year |
| `Dashboard.MonthRangeIsIso` | src/pages/Dashboard.tsx:22-25 | `startDate` is the ISO text of the month's first day and `endDate` that of the next month's first day; December ends at January 1 of the next year (the same strings as src/pages/Graficos.tsx:17-18) |
| `Dashboard.MonthRangeSelectsMonth` | src/pages/Dashboard.tsx:22-35 | `data >= startDate && data < endDate` holds exactly for the ISO dates of the chosen month, and startDate < endDate as strings |
| `Dashboard.ComputeStats` | src/pages/Dashboard.tsx:66-77 | income and expense totals are the sums of valor over tipo "receita" and "despesa"; each list holds exactly the rows of its condition |
| `Dashboard.ExpensesPartition` | src/pages/Dashboard.tsx:72-74 | fixed, card and variable expenses are pairwise disjoint, and they add up to the expense total when every expense is "avista" or "cartao" |
| `Dashboard.Saldo` | src/pages/Dashboard.tsx:79 | the balance is non-negative exactly when expenses do not exceed income |
| `Dashboard.PctGasto` | src/pages/Dashboard.tsx:80-82 | 0 without income; otherwise expenses as a percentage of income rounded to the nearest whole number when that is below 100, and 100 exactly when it is at least 99.5; 100 once expenses reach income |
| `Dashboard.OverspendingShowsFull` | src/pages/Dashboard.tsx:79-82 | a negative balance with some income shows a full bar |
| `Dashboard.CardById` | src/pages/Dashboard.tsx:98 | finds a card of that id in the list, and None exactly when no card has the id |
| `Dashboard.PaidFlag` | src/pages/Dashboard.tsx:100-101 | true only when some invoice of the card is paid, and false when the card has no invoice |
| `Dashboard.PaidIsFirstInvoice` | src/pages/Dashboard.tsx:100-101 | `find(...)?.pago`: the flag is the `pago` of the card's first invoice in list order, whatever later invoices say |
| `Dashboard.GroupIds` | src/pages/Dashboard.tsx:91-105 | the group keys have no repeats, and they hold exactly the known, non-empty card ids named by some card expense |
| `Dashboard.CardTotalIsSum` | src/pages/Dashboard.tsx:96 | a group's running total is the sum of valor over the rows of that card |
| `Dashboard.GroupIdsPrefix` | src/pages/Dashboard.tsx:105 | the groups of a prefix of the rows come first, in the same order: groups appear in order of first occurrence |
| `Dashboard.CartaoGroups` | src/pages/Dashboard.tsx:90-106 | the loop over a Map yields one group per group key, in order, each with its card, the sum of its rows and the paid flag of its first invoice |
| `Dashboard.OneGroupPerKnownCard` | src/pages/Dashboard.tsx:92-103 | a card has a group exactly when its id is non-empty, the card exists and some card expense names it; rows without a card or with an unknown card make no group |
| `Graficos.CategoryIds` | src/pages/Graficos.tsx:33-37 | the Map's keys: distinct, and exactly the categories of the rows |
| `Graficos.CategoryTotals` | src/pages/Graficos.tsx:33-36 | the `forEach` builds a map whose keys are those categories in insertion order, each holding the sum of valor of its rows |
| `Graficos.Slices` | src/pages/Graficos.tsx:37-42 | one slice per key, in key order, labelled and coloured by the category lookup |
| `Graficos.Insert` | src/pages/Graficos.tsx:43 | inserting into a list sorted largest first keeps it sorted and adds exactly that slice |
| `Graficos.SortDesc` | src/pages/Graficos.tsx:43 | the sort by `b.value - a.value` returns a permutation sorted by value, non-increasing |
| `Graficos.TotalSort` | src/pages/Graficos.tsx:46 | sorting does not change the total |
| `Graficos.ChartData` | src/pages/Graficos.tsx:32-44 | `chartData` is the sorted slices of the per-category sums: sorted, a permutation of the slices, and totalling the sum of all rows |
| `Graficos.ChartSlices` | src/pages/Graficos.tsx:32-44 | the chart has one slice per distinct category: every category's slice with its sum is there, and every slice is some category's |
| `Graficos.ChartTotal` | src/pages/Graficos.tsx:46 | `total` equals the sum of valor over all the month's expense rows |
| `Graficos.UnknownSliceIsOutros` | src/pages/Graficos.tsx:38-41 | a category id not in the table is labelled "Outros" with the colour of "outros" |
| `Graficos.KnownSliceLabel` | src/pages/Graficos.tsx:38-41 | a known category id gets its own label and colour |
| `Categories.Lookup` | src/lib/categories.ts:23-24 | the result is in the table; it has the id when some entry has it, and is the last entry when none does |
| `Categories.GetCategoriaInfo` | src/lib/categories.ts:23-24 | on CATEGORIAS: the entry with this id, or "outros" for an unknown id, always an entry of the table |
| `Categories.IdsDistinct` | src/lib/categories.ts:7-21 | no two entries of CATEGORIAS share an id |
| `Categories.LookupIsUnique` | src/lib/categories.ts:23-24 | a known id returns exactly its own entry |
| `Categories.LookupDistinct` | src/lib/categories.ts:23-24 | in any table without repeated ids, looking up an entry's id returns that entry |
| `Categories.OutrosIsLast` | src/lib/categories.ts:20-24 | the fallback is the "outros" entry labelled "Outros" |
| `NotificationParser.NumRun` | src/lib/notificationParser.ts:18 | the greedy `[\d.,]+`: the longest prefix made of digits, points and commas |
| `NotificationParser.LeftmostAmount` | src/lib/notificationParser.ts:18 | the search stops at the leftmost position where `R$` (either case) is followed by optional whitespace and at least one character of `[\d.,]`, and reaches the end of the text only when there is none |
| `NotificationParser.AmountCapture` | src/lib/notificationParser.ts:18-20 | None exactly when `R$\s*[\d.,]+` matches nowhere; otherwise the non-empty run after the leftmost match |
| `NotificationParser.RemoveDots` | src/lib/notificationParser.ts:23 | `replace(/\./g, "")`: the same characters without any '.' |
| `NotificationParser.ReplaceFirstComma` | src/lib/notificationParser.ts:23 | `replace(",", ".")`: only the first comma becomes '.', all else unchanged |
| `NotificationParser.Normalise` | src/lib/notificationParser.ts:21-24 | a capture without ',' is unchanged; with ',' the points are removed, then the first comma becomes the only '.' |
| `NotificationParser.ParseFloat` | src/lib/notificationParser.ts:25 | a number exactly when the text starts with a digit or with '.' and a digit, and then it is non-negative |
| `NotificationParser.ParseDecimal` | src/lib/notificationParser.ts:25 | parseFloat of digits, '.', digits is the decimal they write |
| `NotificationParser.Amount` | src/lib/notificationParser.ts:18-29 | the reported amount is always above zero, and there is none without an `R$` match |
| `NotificationParser.CaptureAtStart` | src/lib/notificationParser.ts:18-20 | `R$`, whitespace and a run of `[\d.,]` at the start capture that run |
| `NotificationParser.DocumentedFormats` | src/lib/notificationParser.ts:17-29 | the four documented formats `R$ 1.234,56`, `R$1234,56`, `R$ 1234.56` and `R$50.00` give 1234.56, 1234.56, 1234.56 and 50 |
| `NotificationParser.NoDollarNoAmount` | src/lib/notificationParser.ts:18-19 | a text without '$' reports no amount |
| `NotificationParser.NoAmount` | src/lib/notificationParser.ts:25-28 | `R$ 0,00` and a text without `R$` report no amount |
| `NotificationParser.UsThousandsMisread` | src/lib/notificationParser.ts:21-25 | `R$ 1,234.56` is read as 1.23456 |
| `NotificationParser.CollapseSpaces` | src/lib/notificationParser.ts:49 | `replace(/\s+/g, " ")`: no two whitespace characters in a row, every one a space, the ends keep whether they are whitespace, and text without whitespace at its ends keeps that property |
| `NotificationParser.CollapseKeepsWords` | src/lib/notificationParser.ts:49 | collapsing whitespace runs does not change the words of the text |
| `NotificationParser.CollapseKeepsPlain` | src/lib/notificationParser.ts:49 | text with only plain spaces, never two in a row, is left as it is |
| `NotificationParser.CleanedIsJoined` | src/lib/notificationParser.ts:49 | `trim` then `replace(/\s+/g, " ")` gives the words of the capture joined by single spaces |
| `NotificationParser.Candidate` | src/lib/notificationParser.ts:48-50 | an accepted merchant comes from a capture and has 3 to 50 characters; no capture, or an empty one, is not accepted |
| `NotificationParser.CandidateIsJoined` | src/lib/notificationParser.ts:48-50 | the candidate is exactly the capture's words joined by single spaces when that text has 3 to 50 characters, and None otherwise |
| `NotificationParser.CandidateShape` | src/lib/notificationParser.ts:48-50 | an accepted candidate has 3 to 50 characters, no whitespace at its ends, only plain spaces and never two in a row |
| `NotificationParser.ExampleWords` | src/lib/notificationParser.ts:49 | the words of `" \tPadaria  Sao\n Jorge "` are "Padaria", "Sao" and "Jorge" |
| `NotificationParser.CandidateExample` | src/lib/notificationParser.ts:48-50 | a capture with a tab, a newline and a double space, `" \tPadaria  Sao\n Jorge "`, is accepted as "Padaria Sao Jorge" |
| `NotificationParser.FirstAccepted` | src/lib/notificationParser.ts:46-56 | the index of the first pattern whose candidate is accepted; every earlier one is rejected |
| `NotificationParser.Merchant` | src/lib/notificationParser.ts:46-56 | None exactly when every pattern's candidate is rejected; a found merchant has 3 to 50 characters |
| `NotificationParser.MerchantIsJoined` | src/lib/notificationParser.ts:46-56 | the merchant is the words of the first accepted pattern's capture joined by single spaces, None when no pattern is accepted, and a found merchant is canonical text |
| `NotificationParser.ParseBankNotification` | src/lib/notificationParser.ts:12-63 | a blank text gives an empty result; otherwise the amount and merchant above are reported, and the description is "Compra em " plus the merchant, else "Compra" when there is an amount, else absent |
| `NovoLancamento.Validate` | src/components/NovoLancamentoModal.tsx:108-117 | accepted exactly when a card entry has a card and the amount is a number above 0; missing card is the reason when it applies |
| `NovoLancamento.CardIdFor` | src/components/NovoLancamentoModal.tsx:124 | a card id is stored exactly for a card entry with a non-empty card id |
| `NovoLancamento.InstallmentDatesAsWritten` | src/components/NovoLancamentoModal.tsx:148-152 | installment i is the raw purchase date moved by `setMonth(getMonth() + i)`, each from a fresh copy |
| `NovoLancamento.InstallmentDates` | src/components/NovoLancamentoModal.tsx:148-152 | the corrected dating: installment i is a valid date exactly i months after the purchase, with the day clamped to the month's end |
| `NovoLancamento.DatesAgreeOnEarlyDays` | src/components/NovoLancamentoModal.tsx:150-152 | for purchase days up to 28 both datings coincide |
| `NovoLancamento.AsWrittenSkipsFebruary` | src/components/NovoLancamentoModal.tsx:151-152 | Jan 31 2026 in 3 installments is dated Jan 31, Mar 3 and Mar 31 as written, and Jan 31, Feb 28 and Mar 31 when corrected |
| `NovoLancamento.OneInstallmentPerMonth` | src/components/NovoLancamentoModal.tsx:150-152 | with the corrected dating no two installments fall in the same calendar month |
| `NovoLancamento.InstallmentEntries` | src/components/NovoLancamentoModal.tsx:144-160 | n rows sharing the group id, with these fields: index i+1 of n, suffix " (i+1/n)", the amount rounded to cents, the i-th date, fixo false, metodo "cartao", and the card id or null |
| `NovoLancamento.InstallmentIndicesExact` | src/components/NovoLancamentoModal.tsx:150-157 | every index 1..n occurs on exactly one installment |
| `NovoLancamento.InstallmentTotalBound` | src/components/NovoLancamentoModal.tsx:147 | each installment is within half a cent of total/n, and their sum within n half-cents of the total |
| `NovoLancamento.EditedEntry` | src/components/NovoLancamentoModal.tsx:120-128 | the edited row gets the card-id rule, installments only for a card entry, and the receipt path or null; its owner, index and group are kept |
| `NovoLancamento.UpdateById` | src/components/NovoLancamentoModal.tsx:119-128 | only the row with the edited id changes, to the edited entry; ids and every other row are kept |
| `NovoLancamento.PropagateToLater` | src/components/NovoLancamentoModal.tsx:132-142 | exactly the same-group rows with a later index get the new categoria, loja, cartao_id, metodo and fixo; their other columns and all other rows are unchanged |
| `NovoLancamento.DeleteFrom` | src/components/NovoLancamentoModal.tsx:188-195 | keeps exactly the rows that are not installment k or later of the group |
| `NovoLancamento.DeleteById` | src/components/NovoLancamentoModal.tsx:196-198 | keeps exactly the rows with another id |
| `NovoLancamento.DeleteKeepsEarlier` | src/components/NovoLancamentoModal.tsx:188-197 | a group deletion keeps other groups' rows and earlier installments, and removes installment k itself |
| `NovoLancamento.GroupOf` | src/components/NovoLancamentoModal.tsx:132 | a row counts as grouped exactly when its group id is non-empty and its index is non-zero |
| `NovoLancamento.SingleEntry` | src/components/NovoLancamentoModal.tsx:164-169 | a single insert stores the card-id rule and the amount, and no installment fields |
| `NovoLancamento.ImportNotification` | src/components/NovoLancamentoModal.tsx:94-100 | each field the parser found (non-zero amount, non-empty merchant or description) replaces the form's; nothing else changes, and an empty result changes nothing |
| `NovoLancamento.LancamentoTable.Insert` | src/components/NovoLancamentoModal.tsx:162 | the batch is appended with fresh ids, keeping the ids distinct |
| `NovoLancamento.LancamentoTable.Submit` | src/components/NovoLancamentoModal.tsx:104-182 | no user, a failed check or a refused write leaves the table unchanged. Otherwise an edit updates the row by id and then propagates to later installments; a card purchase in n > 1 installments appends the n installment rows, dated as the code dates them (`InstallmentDatesAsWritten`, the `setMonth` dating); anything else appends one row. The next fresh id advances by the number of rows inserted, and stays the same on every other path |
| `NovoLancamento.LancamentoTable.Delete` | src/components/NovoLancamentoModal.tsx:184-207 | nothing without a row; a refused write changes nothing; a grouped installment deletes it and the later ones of its group, any other row is deleted by id; the next fresh id never changes |
| `Objetivos.GoalOf` | src/pages/Objetivos.tsx:38-39 | None exactly when no goal has the tipo; otherwise the first goal of that tipo |
| `Objetivos.ItemsOf` | src/pages/Objetivos.tsx:40-41 | exactly the list items of the tipo |
| `Objetivos.ItemsOfAppend` | src/pages/Objetivos.tsx:40-41 | the filter preserves order: filtering a concatenation concatenates the filtered parts |
| `Objetivos.ItemsOfAllMatching` | src/pages/Objetivos.tsx:40-41 | items all of the tipo are all kept, in order |
| `Objetivos.Select` | src/pages/Objetivos.tsx:38-41 | the four selections; no item is both an "obra" and a "lazer" |
| `Objetivos.UpsertUpdatesFirst` | src/pages/Objetivos.tsx:45-47 | with a goal of the tipo, exactly the first one changes, to the new values; all other rows stay |
| `Objetivos.UpsertInsertsNew` | src/pages/Objetivos.tsx:49-50 | without one, a single row with the user's id and the values is appended |
| `Objetivos.UpsertThenSelect` | src/pages/Objetivos.tsx:44-52 | after the upsert the card of that tipo shows the new current and target values (and the new date when one was given) |
| `Objetivos.UpsertIdempotent` | src/pages/Objetivos.tsx:44-52 | upserting the same values twice leaves what upserting once does |
| `Objetivos.GoalTable.UpsertGlobal` | src/pages/Objetivos.tsx:43-53 | on success the rows become the upsert of the old rows, otherwise they are unchanged; ids stay distinct |
| `Objetivos.Pct` | src/pages/Objetivos.tsx:136 | `min(100, Math.round(atual / meta * 100))`: 0 without a goal or with a target of 0 or less; otherwise the percentage rounded to the nearest whole number when that is below 100, and 100 exactly when the percentage is at least 99.5; 100 once the goal is reached |
| `Objetivos.MonthDiff` | src/pages/Objetivos.tsx:142 | the number of calendar months between the two dates' months |
| `Objetivos.MesesRestantes` | src/pages/Objetivos.tsx:138-146 | null without a deadline or with a target of 0, and null exactly when the deadline's month is not after the current one. Otherwise 0 once the goal is reached, and the missing amount per month as a whole number of cents within half a cent |
| `Objetivos.MonthlyAmountCoversGoal` | src/pages/Objetivos.tsx:144-145 | saving that amount every month covers what is missing, up to half a cent a month |
| `Objetivos.NonEmpty` | src/pages/Objetivos.tsx:204 | `s \|\| undefined`: absent exactly for the empty string |
| `Objetivos.NumberOrZero` | src/pages/Objetivos.tsx:204 | `+v \|\| 0`: NaN becomes 0, a number stays |
| `Objetivos.ListForm.HandleAdd` | src/pages/Objetivos.tsx:202-206 | with an empty name nothing happens; otherwise the item (name, optional date, amount or 0) is added and the form is reset and closed |
| `Logos.FirstDomain` | src/lib/logos.tsx:64-68 | None exactly when the key contains no pattern; otherwise the domain of the first entry, in list order, whose pattern it contains |
| `Logos.FirstMatchUnique` | src/lib/logos.tsx:64-68 | the first matching entry is unique |
| `Logos.FindDomain` | src/lib/logos.tsx:64-68 | the loop with early return finds that first domain |
| `Logos.Slug` | src/lib/logos.tsx:70 | keeps exactly the characters of `[a-z0-9]` (either case), without whitespace |
| `Logos.SlugAppend` | src/lib/logos.tsx:70 | the slug of a concatenation is the concatenation of the slugs |
| `Logos.SlugOfSlugChars` | src/lib/logos.tsx:70 | a key made only of such characters is its own slug |
| `Logos.GetLogoUrl` | src/lib/logos.tsx:61-72 | `getLogoUrl` computes the logo URL of the name over KNOWN_DOMAINS |
| `Logos.BlankHasNoLogo` | src/lib/logos.tsx:62 | an empty or whitespace name gives "" |
| `Logos.FirstKnownPatternWins` | src/lib/logos.tsx:63-67 | the first pattern in list order contained in the lowercased trimmed name gives the clearbit URL of its domain |
| `Logos.SlugFallback` | src/lib/logos.tsx:70-71 | with no pattern, a slug of 3 or more characters gives the clearbit URL of slug + ".com.br", and a shorter one gives "" |
| `Logos.LogoUrlShape` | src/lib/logos.tsx:61-72 | every result is "" or starts with "https://logo.clearbit.com/" |
| `Logos.BlankInitials` | src/lib/logos.tsx:75 | an empty or whitespace name gives "?" |
| `Logos.OneWordInitials` | src/lib/logos.tsx:77 | a single word, with any whitespace around it, gives its first two characters uppercased |
| `Logos.TwoWordInitials` | src/lib/logos.tsx:78 | two or more words give the first characters of the first two words, uppercased |
| `Logos.InitialsShape` | src/lib/logos.tsx:74-79 | the initials are always one or two characters without whitespace |
| `Receipts.Split` | src/hooks/useReceipts.ts:12 | `split('.')`: at least one part, none containing '.' |
| `Receipts.JoinSplit` | src/hooks/useReceipts.ts:12 | joining the parts with '.' gives the name back |
| `Receipts.SplitCount` | src/hooks/useReceipts.ts:12-13 | there is more than one part exactly when the name contains '.' |
| `Receipts.ExtensionOf` | src/hooks/useReceipts.ts:12-13 | the split-and-pop computes the extension of the file name |
| `Receipts.NoDotGivesBin` | src/hooks/useReceipts.ts:13 | a name without '.' gets "bin" |
| `Receipts.ExtensionAfterLastDot` | src/hooks/useReceipts.ts:12-13 | a name with '.' gets exactly the text after its last '.' |
| `Receipts.ExtensionHasNoDot` | src/hooks/useReceipts.ts:12-13 | the extension never contains '.' |
| `Receipts.StoragePath` | src/hooks/useReceipts.ts:14 | the path always starts with the user id and '/' |
| `Receipts.PathKeepsExtension` | src/hooks/useReceipts.ts:12-14 | the extension read back from the stored path is the file's own extension |
| `Receipts.ReceiptStore.UploadReceipt` | src/hooks/useReceipts.ts:9-27 | on success the file is stored under `userId/now.ext` and that path returned; on error null and the bucket unchanged; loading is false afterwards |
| `Receipts.ReceiptUrl` | src/hooks/useReceipts.ts:29-34 | the signed URL, or "" when none is produced |
| `ReceiptUploadButton.Check` | src/components/ReceiptUploadButton.tsx:22-30 | accepted exactly for JPEG, PNG, GIF or PDF of at most 10 MiB; a bad type is reported before the size |
| `ReceiptUploadButton.SizeLimitInclusive` | src/components/ReceiptUploadButton.tsx:27 | exactly 10 MiB is accepted, one byte more is refused |
| `ReceiptUploadButton.UploadButton.HandleFileSelect` | src/components/ReceiptUploadButton.tsx:19-32 | no file changes nothing; a refused file leaves the selection; an accepted file becomes the selection |
| `ReceiptUploadButton.UploadButton.HandleUpload` | src/components/ReceiptUploadButton.tsx:34-42 | nothing without a selection and a user; a stored upload reports (path, name) and clears the selection; a failed one keeps it; after an upload attempt the store is no longer loading |
| `ReceiptUploadButton.UploadButton.Remove` | src/components/ReceiptUploadButton.tsx:74-77 | the selection is cleared |
| `ReceiptUploadButtonV2.Check` | src/components/ReceiptUploadButton_Version2.tsx:24-33 | accepted exactly for JPEG, PNG or PDF of at most 5 MiB; a bad type is reported before the size |
| `ReceiptUploadButtonV2.AcceptedByBoth` | src/components/ReceiptUploadButton_Version2.tsx:24-33 | every file this picker accepts, the first picker accepts too |
| `ReceiptUploadButtonV2.GifOnlyInFirst` | src/components/ReceiptUploadButton_Version2.tsx:24-28 | a small GIF is refused here and accepted by the first picker |
| `ReceiptUploadButtonV2.UploadButton.HandleFileSelect` | src/components/ReceiptUploadButton_Version2.tsx:20-36 | no file changes nothing; a refused file leaves the selection; an accepted file becomes the selection |
| `ReceiptUploadButtonV2.UploadButton.HandleUpload` | src/components/ReceiptUploadButton_Version2.tsx:38-46 | nothing without a selection; a stored upload, under the transaction id, reports (path, name) and clears the selection; a failed one keeps it; after an upload attempt the store is no longer loading |
| `ReceiptUploadButtonV2.UploadButton.Remove` | src/components/ReceiptUploadButton_Version2.tsx:80-83 | the selection is cleared |
| `Auth.Initial` | src/hooks/useAuth.tsx:26-28 | no session, loading, not locked |
| `Auth.User` | src/hooks/useAuth.tsx:66 | the user is present exactly when there is a session, and is its user |
| `Auth.AuthChangedWithSession` | src/hooks/useAuth.tsx:31-37 | a session event stores the session and ends loading; it locks unless the browser session is already unlocked, in which case `locked` is kept |
| `Auth.AuthChangedWithoutSession` | src/hooks/useAuth.tsx:38-41 | a sign-out event unlocks and removes the flag, keeping every other session-storage key |
| `Auth.SessionLoadedEffect` | src/hooks/useAuth.tsx:44-50 | the initial read never unlocks or touches the flag, and locks with a session not yet unlocked |
| `Auth.UnlockEffect` | src/hooks/useAuth.tsx:55-58 | `unlock` sets the flag to "true" and clears the lock |
| `Auth.SignOutRelocks` | src/hooks/useAuth.tsx:60-62 | `signOut` removes the flag, so the next session locks again |
| `Auth.UnlockedStaysUnlocked` | src/hooks/useAuth.tsx:31-58 | after unlocking, no run of events without a sign-out relocks the app, and the flag stays |
| `Auth.LoadingEnds` | src/hooks/useAuth.tsx:31-50 | once any handler has run, loading is false |
| `Auth.AuthProvider.constructor` | src/hooks/useAuth.tsx:26-28 | the provider starts in the initial state |
| `Auth.AuthProvider.OnAuthStateChange` | src/hooks/useAuth.tsx:31-42 | the fields change as the auth-change transition says |
| `Auth.AuthProvider.OnGetSession` | src/hooks/useAuth.tsx:44-50 | the fields change as the session-read transition says |
| `Auth.AuthProvider.DoUnlock` | src/hooks/useAuth.tsx:55-58 | the fields change as `unlock` says |
| `Auth.AuthProvider.DoSignOut` | src/hooks/useAuth.tsx:60-63 | the fields change as `signOut` says |
| `AppLockScreen.BinaryOf` | src/components/AppLockScreen.tsx:19-21 | one character per byte, with the byte as its code |
| `AppLockScreen.BytesOf` | src/components/AppLockScreen.tsx:27-29 | one byte per character, its code modulo 256 |
| `AppLockScreen.BytesOfBinary` | src/components/AppLockScreen.tsx:18-31 | bytes turned into a binary string and back are the same bytes |
| `AppLockScreen.BinaryOfBytes` | src/components/AppLockScreen.tsx:18-31 | a string comes back from its bytes exactly when every character code is below 256 |
| `AppLockScreen.BytesToBinary` | src/components/AppLockScreen.tsx:19-21 | the `forEach` builds that binary string |
| `AppLockScreen.BinaryToBytes` | src/components/AppLockScreen.tsx:27-30 | the `for` loop fills a fresh buffer with those bytes |
| `AppLockScreen.InitialMode` | src/components/AppLockScreen.tsx:48-55 | password exactly unless a credential is stored and biometrics are supported |
| `AppLockScreen.AfterFailure` | src/components/AppLockScreen.tsx:84-99 | a failure adds exactly one, and switches to password from the fifth on |
| `AppLockScreen.FailuresCount` | src/components/AppLockScreen.tsx:84-99 | after n failures in a row the count is n, and the fingerprint screen holds for four and gives way at the fifth |
| `AppLockScreen.Offered` | src/components/AppLockScreen.tsx:223-306 | the buttons: fingerprint and recovery go to password, password goes to recovery, and to fingerprint only with a registered fingerprint |
| `AppLockScreen.LockScreen.constructor` | src/components/AppLockScreen.tsx:48-55 | `hasBiometric` is "credential stored and supported", and the mode is the initial mode |
| `AppLockScreen.LockScreen.BiometricAuth` | src/components/AppLockScreen.tsx:57-103 | a missing credential switches to password; an assertion unlocks; a failed request counts a failure; loading ends |
| `AppLockScreen.LockScreen.RegisterBiometric` | src/components/AppLockScreen.tsx:105-154 | unsupported changes nothing; a created credential is stored, enables the fingerprint and selects it; otherwise the state is kept |
| `AppLockScreen.LockScreen.ChooseMode` | src/components/AppLockScreen.tsx:223-306 | an offered button switches to its mode and changes nothing else |
| `AppLockScreen.LockScreen.PasswordSubmit` | src/components/AppLockScreen.tsx:156-175 | unlocks exactly when the password is accepted; loading ends |
| `AppLockScreen.LockScreen.PasswordRecovery` | src/components/AppLockScreen.tsx:177-192 | a sent e-mail sets `recoverySent`; loading ends |
| `ServiceWorker.RouteOf` | public/sw.js:15-52 | the four intercepted routes are recognised exactly by path and method |
| `ServiceWorker.ShareText` | public/sw.js:64-68 | the shared text has no whitespace at its ends |
| `ServiceWorker.NoFieldsNoText` | public/sw.js:64-68 | nothing shared gives "" |
| `ServiceWorker.OneFieldIsTheText` | public/sw.js:64-68 | a single non-empty field is the text, trimmed |
| `ServiceWorker.ThreeFieldsJoined` | public/sw.js:64-68 | three fields are joined by single spaces and trimmed |
| `ServiceWorker.NonEmptyAppend` | public/sw.js:66 | `filter(Boolean)` keeps order: filtering a concatenation concatenates the filtered parts |
| `ServiceWorker.FieldsInOrder` | public/sw.js:64-66 | the filtered fields are the non-empty ones among title, text and url, in that order |
| `ServiceWorker.PresentFieldsJoined` | public/sw.js:64-68 | the text is the trimmed join of the present fields; none gives "", one gives it trimmed, two or three are joined by single spaces and trimmed |
| `ServiceWorker.TitleAndUrlJoined` | public/sw.js:64-68 | a title and a url without text give the title, one space and the url, trimmed |
| `ServiceWorker.ContentType` | public/sw.js:76 | the file's own type, or `application/octet-stream` when it has none |
| `ServiceWorker.OthersPassThrough` | public/sw.js:10-53 | a request passes through exactly when it is none of the four routes, and then the cache is unchanged |
| `ServiceWorker.ShareEffect` | public/sw.js:70-90 | a share stores a non-empty file under 'file' and otherwise removes it, always writes 'meta' with the same flag, changes no other key, and redirects to '/?share=1' |
| `ServiceWorker.UnreadableFormRedirects` | public/sw.js:57-61 | an unreadable form redirects to '/' with the cache untouched |
| `ServiceWorker.ShareThenRead` | public/sw.js:21-41 | after a share, the file route serves the stored file (404 without one) and the meta route the stored text |
| `ServiceWorker.ClearThenRead` | public/sw.js:44-52 | a clear answers 204, after which the file route answers 404 and the meta route `{}` |
| `ServiceWorker.Worker.OnFetch` | public/sw.js:10-91 | the response and the new cache are those of one fetch |
| `Common.Trim` | src/lib/logos.tsx:63 | `trim`: no whitespace at the ends, never longer, and empty exactly for a blank string |
| `Common.TakeWord` | src/lib/logos.tsx:76 | the longest prefix without whitespace |
| `Common.Words` | src/lib/logos.tsx:76 | `trim().split(/\s+/).filter(Boolean)`: every element is a non-empty run without whitespace, and there are none exactly for a blank name |
| `Common.LeadingBlanksIgnored` | src/lib/logos.tsx:76 | leading whitespace does not change the words |
| `Common.TrailingBlanksIgnored` | src/lib/logos.tsx:76 | trailing whitespace does not change the words |
| `Common.WordsOfTrim` | src/lib/logos.tsx:76 | `trim` does not change the words: the `trim()` before the split is redundant |
| `Common.CanonicalIsJoined` | src/lib/notificationParser.ts:49 | text without whitespace at its ends, with only plain spaces and never two in a row, is its own words joined by single spaces |
| `Common.Includes` | src/lib/logos.tsx:65 | `includes`: true exactly when the pattern occurs at some position |
| `Common.Find` | src/lib/categories.ts:24 | `find`: None exactly when no element satisfies the test, otherwise the first that does |
| `Common.MathRound` | src/pages/Dashboard.tsx:81 | `Math.round`: the integer within half below and strictly less than half above |
| `Common.ToFixed2` | src/components/NovoLancamentoModal.tsx:147 | `+x.toFixed(2)`: a whole number of cents within half a cent of x, non-negative for non-negative x |
| `IsoText.PadStart2` | src/pages/Dashboard.tsx:22 | `padStart(2, "0")`: two characters, zeros in front of a one-digit text |
| `IsoText.IsoOrder` | src/pages/Dashboard.tsx:34-35 | for years 0..9999, comparing ISO date strings compares the dates |

## Left out

- **Rendering.** JSX, styling, dialogs, toasts, icons and the routing of the
  pages are not modelled. The `icon` of each category entry is not modelled
  either. Dafny reserves `label`, so the label field is `caption`.
- **Backend access.** Network calls, query caching and query invalidation
  become values. The rows the pages receive are taken as given. The filters
  of those queries (by user, by month, by tipo) are assumed applied, and so
  is the `order("data")` of the dashboard. `Dashboard.MonthRangeSelectsMonth`
  states what the month filter selects. No request runs concurrently with
  another.
- **Floating point.** Amounts are exact decimals. Binary floating-point effects
  of `parseFloat`, division, `toFixed` and `Math.round` are not modelled.
- **Time zones.** The model is in UTC. In zones east of UTC the local-midnight
  parse followed by `toISOString` can move a date back one day; this is not
  modelled. The reverse happens in zones west of UTC, such as Brazil's UTC−3:
  `new Date(data_limite)` in src/pages/Objetivos.tsx:140-142 parses the
  date-only text as UTC midnight, so a deadline on the 1st of a month is read
  locally as the last day of the month before, and `getMonth()` counts one
  month fewer. The model reads the deadline's own month.
- **Unicode.** Case mapping and whitespace cover ASCII only. A name such as
  "ITAÚ" is lowercased by the app to "itaú". In the model it becomes "itaÚ",
  so it does not match the pattern "itaú".
- **Regular expressions.** The merchant patterns are abstract matchers passed to
  `NotificationParser.ParseBankNotification`. The amount pattern is written
  out.
- **Browser encoders.** `btoa`/`atob` and `encodeURIComponent` are not
  modelled.
- AppLockScreen.LockScreen.RegisterBiometric: stores the binary string of the
  credential id, not its base64 text, because base64 is not modelled.
  `handleBiometricAuth` does not decode the stored id; a failure to decode it
  counts as a failed attempt, like any other error.
- **The lock screen's browser APIs.** The WebAuthn calls, the password sign-in
  and the recovery e-mail are outcomes passed in. `crypto.getRandomValues`
  challenges are not modelled. Showing the register button depends on browser
  support and is not modelled.
- AppLockScreen.LockScreen.BiometricAuth: `loading` is stated only after each
  handler, not while it awaits. The same holds for every handler of the lock
  screen, of `useReceipts` and of the upload buttons.
- NovoLancamento.LancamentoTable.Submit: the form's loading, resetting and
  refilling from the edited row are not modelled. An invalid purchase date, which makes
  `toISOString` throw, is the `InvalidDate` outcome.
- NovoLancamento.InstallmentEntries: is given the dates, so the dating rule is
  stated separately. The modal never applies the invoice-date rule of
  `src/lib/billingDate.ts` to installments, and neither does the model.
- Dashboard.MonthRangeIsIso: proved only for four-digit years (1000 to 9998).
  For other years `String(ano)` is not four characters.
- Dashboard.MonthRangeSelectsMonth: proved only for four-digit years, for the
  same reason.
- **Logos lemmas** (`BlankHasNoLogo`, `FirstKnownPatternWins`, `SlugFallback`,
  `LogoUrlShape`) are stated for any pattern table. `Logos.GetLogoUrl` uses
  KNOWN_DOMAINS. The `LogoImage` component's fallback on a failed image is
  not modelled.
- Objetivos.UpsertIdempotent: assumes the id of an inserted row is fresh,
  which the backend's uuids guarantee.
- **Parts of the goals page not modelled:**
  - the GoalCard form's conversions of its inputs;
  - adding and deleting list items;
  - the React state of the editing flag.

  `Objetivos.MesesRestantes` takes the deadline as an already parsed date.
- ReceiptUploadButton.UploadButton.HandleUpload: the reset of the file input's
  value is not modelled.
- **The V2 picker's folder.** `ReceiptUploadButtonV2` passes the transaction
  id where `uploadReceipt` expects a user id. The model keeps that, so its
  path starts with the transaction id.
- **Service-worker lifecycle.** The `install` and `activate` handlers and
  the cache's name are not modelled. The share-target reader
  `src/hooks/useShareTarget.ts` is not part of this model. It reads a cache
  and key that `public/sw.js` never writes.
- Auth.AuthProvider.DoSignOut: the backend sign-out call is not modelled. Its
  effect reaches the provider as a later auth-change event with no session.
- **Files not part of this model:** `src/pages/Perfil.tsx`, the navigation
  and layout components, the splash screen, the receipt viewers and
  `src/hooks/useReceipts_Version2.ts`. They are forms and wiring around the
  backend.

## Findings

| source | as written | input that shows it | evidently intended | confidence | as-written member | corrected member |
|---|---|---|---|---|---|---|
| src/components/NovoLancamentoModal.tsx:150-152 | installment i is dated by `setMonth(getMonth() + i)` on a copy of the purchase date, which runs past the end of a shorter month | a purchase on 2026-01-31 in 3 installments is dated 2026-01-31, 2026-03-03 and 2026-03-31: two in March and none in February | one installment per calendar month, the day clamped to the month's end, as `addMonths` does in src/lib/billingDate.ts | not executed | `NovoLancamento.AsWrittenSkipsFebruary` | `NovoLancamento.OneInstallmentPerMonth` |
