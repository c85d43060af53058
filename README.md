# app-sistema: a verified model of the order and register logic

app-sistema is a small-business back-office web app. A shop keeps its customers, products and sales orders paid in monthly installments ("parcelas"), shows customers a bill page, imports clients from a CSV file or from the phone's contact list, and keeps a financial register of inflows and outflows ("In"/"Out"). This project models the logic of its pages in Dafny and proves what that logic promises. Rendering, the HTTP client, toasts and navigation are not modelled.

Money is held in integer cents, as the back end stores it. The register and product forms convert stored cents to reais and back with `Math.round(x * 100)`; for those the model uses exact `real` arithmetic and `floor(x + 1/2)`. The two order forms also hold their line prices in reais, but the model keeps those in whole cents (see "## Left out").

Modules:

- `Wrappers`: `Option` and `Result`.
- `Seqs`: filtering, mapping and summing of sequences, with the algebra the proofs need.
- `Text`: lower-casing, substring search, digit stripping, trimming and decimal rendering.
- `Money`: `Math.round` and the cents/reais conversions.
- `Calendar`: dates as (year, month 0..11, day), day numbers and month steps.
- `Sorting`: `Array.prototype.sort` with a comparator, as a stable insertion sort.
- `Records`: the order item and product records shared by the order pages.
- `Installments`: `buildInstallments` of the order form. It splits a total into installments and marks them paid from a budget.
- `OrderCreate`: the new-order form. It covers the item handlers, totals, the due-date list resize and submit validation.
- `OrderList`: the order list. It covers search, statistics, days until the next due day, and the two sort orders.
- `Bill`: the bill page. It covers the next installment, payments, amount due, last payment, overdue flag and telephone mask.
- `OrderEdit`: the order edit form. It covers the item editing, totals, steppers and submit validation.
- `Customers`: customer create, edit and list. It covers CPF and telephone checks and formats, form loading and editing, search and local delete. The create form is a class whose handlers update its fields.
- `InputContacts`: CSV client import. It covers the CSV parser, the row-to-record conversion, phone normalisation, client building and result counting.
- `ContactImport`: phone-contact import. It covers picking, editing and deleting contacts, the batch loop with its progress bar, and the summary.
- `Registration`: the financial register list and edit pages.
- `Products`: the product list, create and edit pages.

The character loops and step-by-step loops of the source are methods with loop invariants. These are `Installments.BuildInstallments`, `OrderCreate.ResizeDates`, `InputContacts.ParseCsv`, `InputContacts.FillRow`, `InputContacts.TallyResults`, `ContactImport.RunBatch`, `ContactImport.ImportContacts` and the `Customers.CreateForm` handlers. `Registration.ApplyFilters` keeps the page's chain of reassignments. Each is proved against a function, and the lemmas beside that function state its properties.

## Where the code and its description differ

The model follows the code in each case.

- Installments are marked paid wherever the remaining budget covers them, so the paid ones need not be a prefix of the schedule (`Installments.ExampleNotPrefix`).
- The order list reads `installmentsTotal` as the day of the month an order falls due. `getDaysUntilDue` rolls a day already passed over to the next month rather than reporting it overdue.
- The register's balance card shows cash inflow minus outflow, but takes its colour from the `current` field.
- A CSV import call that returns an error of `""` counts as a success.

## Model

| member | source | states |
|---|---|---|
| Calendar.DaysInMonth | src/pages/orders/OrderList.tsx:133 | the last day of a month is between 28 and 31, and 29 exactly for February of a leap year |
| Calendar.NextMonth | src/pages/orders/OrderList.tsx:148-150 | the month after is a valid month index |
| Calendar.NextMonthStart | src/pages/orders/OrderList.tsx:148-150 | the first day of the next month is `DaysInMonth` days after the first day of this one, across a year boundary too |
| Calendar.NextMonthIsLater | src/pages/orders/OrderList.tsx:147-159 | every day of the next month comes after every day of this month |
| Money.JsRound | src/pages/orders/OrderCreate.tsx:156-157 | `Math.round` gives the integer within half of its argument, halves rounded up |
| Money.CentsRoundTrip | src/pages/products/ProductEdit.tsx:43-44 | an amount in cents shown as reais and saved with `Math.round(x * 100)` comes back unchanged |
| Money.RoundDiv | src/pages/orders/OrderList.tsx:108 | the rounded quotient is within half of the exact quotient |
| Money.RoundDivIsJsRound | src/pages/orders/OrderList.tsx:108 | the integer formula equals `Math.round` applied to the exact quotient |
| Text.Lower | src/pages/orders/OrderList.tsx:69 | lower-casing keeps the length and maps each character on its own |
| Text.ContainsEmpty | src/pages/orders/OrderList.tsx:71 | every string includes the empty string, so an empty search term matches everything |
| Text.ContainsSelf | src/pages/orders/OrderList.tsx:71 | every string includes itself |
| Text.Digits | src/pages/customers/CustomerCreate.tsx:28 | stripping non-digits leaves only digits and never lengthens the string |
| Text.DigitsAppend | src/pages/customers/CustomerCreate.tsx:28 | the digits of a concatenation are the digits of each part, in order |
| Text.DigitsOfDigits | src/pages/customers/CustomerCreate.tsx:28 | a digit string strips to itself |
| Text.DigitsOfNonDigits | src/pages/customers/CustomerCreate.tsx:28 | a string without digits strips to the empty string |
| Text.DigitsIdempotent | src/pages/customers/CustomerCreate.tsx:28 | stripping twice is stripping once |
| Text.TrimStartSpec | src/pages/customers/CustomerEdit.tsx:77 | the start trim drops a run of leading white space and nothing else |
| Text.TrimEndSpec | src/pages/customers/CustomerEdit.tsx:77 | the end trim drops a run of trailing white space and nothing else |
| Text.TrimShape | src/pages/customers/CustomerEdit.tsx:77 | a trimmed string begins and ends with a non-space character and is a contiguous piece of the original |
| Text.TrimRemovesSpaces | src/pages/customers/CustomerEdit.tsx:77 | the original is the trimmed string with only white space before and after it |
| Text.TrimUntrimmed | src/pages/customers/CustomerEdit.tsx:77 | a string with no white space at either end trims to itself |
| Text.TrimIdempotent | src/pages/customers/CustomerEdit.tsx:77 | trimming twice is trimming once |
| Text.Decimal | src/components/InputContacts.tsx:50 | a number renders as a non-empty digit string with no leading zero whose digits denote the number |
| Text.DecimalInjective | src/components/InputContacts.tsx:50 | two numbers render the same exactly when they are equal |
| Installments.BuildInstallments | src/pages/orders/OrderCreate.tsx:178-247 | the loop returns exactly the schedule `Schedule` describes: entry `i` numbered `i + 1`, its share of the total, its status from the running paid budget and its due date |
| Installments.AmountNonNegative | src/pages/orders/OrderCreate.tsx:194-203 | a non-negative total never gives a negative installment amount |
| Installments.ScheduleShape | src/pages/orders/OrderCreate.tsx:191-243 | a count below one gives no installments; otherwise exactly `count` entries numbered 1..count in order, each due on the date typed for it or the fallback date |
| Installments.ScheduleAmounts | src/pages/orders/OrderCreate.tsx:194-203 | every amount is `floor(total / count)` or one cent more, and exactly the first `total - base * count` entries get the extra cent |
| Installments.PrefixSum | src/pages/orders/OrderCreate.tsx:194-203 | the first `k` amounts sum to `k * base` plus one cent per entry below the remainder |
| Installments.ScheduleSumsToTotal | src/pages/orders/OrderCreate.tsx:194-203 | the amounts sum exactly to the total in cents |
| Installments.BudgetAccounts | src/pages/orders/OrderCreate.tsx:198-236 | the budget left before entry `k` is `max(0, paidCents)` minus the amounts marked "pago" so far, and never negative |
| Installments.PaidWithinBudget | src/pages/orders/OrderCreate.tsx:198-236 | the amounts marked "pago" add up to at most `max(0, paidCents)`, and the final budget is exactly the difference |
| Installments.NeverLate | src/pages/orders/OrderCreate.tsx:234-235 | no entry is ever "atrasado" |
| Installments.BudgetNonIncreasing | src/pages/orders/OrderCreate.tsx:234-236 | with a non-negative total the budget only shrinks along the schedule |
| Installments.PaidAfterPendingIsSmaller | src/pages/orders/OrderCreate.tsx:234-236 | a "pago" entry after a "pendente" one is possible only when the pending one carries the extra cent and the paid one does not |
| Installments.CoveredPrefixIsPaid | src/pages/orders/OrderCreate.tsx:234-236 | when the paid cents cover the first `k` amounts, those `k` entries are all "pago" |
| Installments.ExampleNothingPaid | src/pages/orders/OrderCreate.tsx:191-244 | 1000 cents in 3 installments with nothing paid: 334, 333, 333, all pending |
| Installments.ExamplePartlyPaid | src/pages/orders/OrderCreate.tsx:191-244 | with 400 paid only the first installment is "pago", and 66 cents of budget remain |
| Installments.ExampleNotPrefix | src/pages/orders/OrderCreate.tsx:191-244 | with 333 paid the statuses are pendente, pago, pendente: the paid entries are not a prefix |
| Records.FindProduct | src/pages/orders/OrderCreate.tsx:90 | the product found is in the catalogue, has the id asked for and is the first product with that id; none is found exactly when no product has that id |
| OrderCreate.AddProductEffect | src/pages/orders/OrderCreate.tsx:89-118 | an unknown product changes nothing; otherwise the product is on the order afterwards, the line count grows by one exactly when it was not on it before, every existing line keeps its product and price, other products' lines are untouched, a line below stock gains one unit and a line at or above stock is set to the stock, and a new line comes last with quantity 1 at the catalogue price |
| OrderCreate.AddProductQuantity | src/pages/orders/OrderCreate.tsx:89-118 | with one line per product, the units on the order rise by exactly one when the product is new to the order or its line is below stock; a line at or above stock is set to the stock; an unknown product leaves the units unchanged |
| OrderCreate.AddProductKeepsDistinct | src/pages/orders/OrderCreate.tsx:89-118 | adding a product never puts the same product on two lines |
| OrderCreate.ClampQuantity | src/pages/orders/OrderCreate.tsx:124 | the quantity set is at least 1, at most the stock when the stock is positive, and the requested one when it is already in range |
| OrderCreate.UpdateQuantityEffect | src/pages/orders/OrderCreate.tsx:120-131 | a product missing from the catalogue changes nothing; otherwise only the lines of that product change, and only in their quantity, which becomes `ClampQuantity(newQty, stock)`: at least 1, at most the stock, and `newQty` itself when it lies in between |
| OrderCreate.RemoveItemEffect | src/pages/orders/OrderCreate.tsx:133-137 | the result holds no line of that product, every other line stays, and nothing new appears |
| OrderCreate.UpdatePriceEffect | src/pages/orders/OrderCreate.tsx:139-147 | only the lines of that product change, and only in their price, which becomes `max(0, newPrice)`: never negative, and `newPrice` itself when it is not negative |
| OrderCreate.RemoveAbsentItem | src/pages/orders/OrderCreate.tsx:133-137 | removing a product that is on no line leaves the list unchanged |
| OrderCreate.AddThenRemove | src/pages/orders/OrderCreate.tsx:89-137 | adding a new product and then removing it gives back the original lines |
| OrderCreate.TotalsOfNewLine | src/pages/orders/OrderCreate.tsx:149-153 | a new line adds 1 to the total quantity and its catalogue price to the total price |
| OrderCreate.RemainingCents | src/pages/orders/OrderCreate.tsx:158 | the open balance is never negative, is at least total minus paid, and is either 0 or exactly that difference |
| OrderCreate.TargetLength | src/pages/orders/OrderCreate.tsx:47 | the target length is at least 1 and equals the count whenever the count is at least 1 |
| OrderCreate.ResizeDatesAsWritten | src/pages/orders/OrderCreate.tsx:45-63 | the effect as written returns `ResizedAsWritten`: the kept prefix, then the default entry `k` dated `kept + 2k` months ahead |
| OrderCreate.ResizeDates | src/pages/orders/OrderCreate.tsx:45-63 | the effect with the intended month offset returns `Resized` |
| OrderCreate.ResizedShape | src/pages/orders/OrderCreate.tsx:45-63 | the new list has `max(1, parcelas \|\| 1)` entries; it is the old list when the length already matches; otherwise the old entries are a prefix and each appended entry is dated its own position in months ahead, the same date the installment builder falls back to |
| OrderCreate.ResizeSkipsAMonth | src/pages/orders/OrderCreate.tsx:56-60 | growing a one-date list to three dates, the code dates the third installment three months ahead instead of two |
| OrderCreate.SubmitRejects | src/pages/orders/OrderCreate.tsx:249-282 | the submit is refused exactly when there is no customer, no item, or a date list whose length differs from the count or has an empty entry, and the checks run in that order |
| OrderCreate.SubmitPayload | src/pages/orders/OrderCreate.tsx:284-329 | an accepted order carries the total price, the open balance `max(0, total - paid)`, the count in `installmentsTotal`, the schedule for its own total, the number of "pago" entries, and installments that sum to its price |
| OrderList.EmptySearchKeepsAll | src/pages/orders/OrderList.tsx:68-76 | an empty search term keeps every order, in order |
| OrderList.SearchKeepsMatches | src/pages/orders/OrderList.tsx:68-76 | the search keeps exactly the orders whose client name, CPF or id contains the lower-cased term or whose telephone contains the raw term |
| OrderList.AverageOrderValue | src/pages/orders/OrderList.tsx:106-109 | no shown order gives 0; otherwise the average is within half a cent of total revenue over the number of orders |
| OrderList.AverageIsRoundedMean | src/pages/orders/OrderList.tsx:98-109 | the average is `Math.round(totalRevenue / length)` over the shown orders |
| OrderList.ExpectedRevenueIgnoresSearch | src/pages/orders/OrderList.tsx:112-115 | the pending revenue is the open balance of the shown orders plus that of the hidden ones, so the search does not change it |
| OrderList.ClampDayForMonth | src/pages/orders/OrderList.tsx:132-135 | the clamped day is the due day or the last day of the month, never past the month's end, and a real date for any positive due day |
| OrderList.DaysUntilDue | src/pages/orders/OrderList.tsx:121-164 | no due date (Infinity) exactly when the due day is missing, not a number or not positive; otherwise a non-negative day count |
| OrderList.CandidateIsNextDue | src/pages/orders/OrderList.tsx:137-159 | the candidate is a real date on the clamped due day, in the current month when that month's 23:59:59 due moment has not passed and in the next month (December rolling to January) otherwise, and never before now |
| OrderList.DaysUntilDueIsCeiling | src/pages/orders/OrderList.tsx:161-163 | the countdown is the exact ceiling of the distance to the due moment in days, between 0 and 62 |
| OrderList.NoDueDay | src/pages/orders/OrderList.tsx:122-125 | a missing, non-numeric or non-positive due day yields no due date |
| OrderList.CompareByDueIsLexicographic | src/pages/orders/OrderList.tsx:167-181 | `a` sorts before `b` exactly when it has an open balance and `b` does not, or, with the same flag, its countdown is sooner, or, with equal countdowns, it was created earlier |
| OrderList.DueOrderIsStrict | src/pages/orders/OrderList.tsx:167-181 | the due comparator is irreflexive and transitive, so the sort it drives is well defined |
| OrderList.NewestFirstIsStrict | src/pages/orders/OrderList.tsx:192-196 | the date comparator is irreflexive and transitive |
| OrderList.SortedOrders | src/pages/orders/OrderList.tsx:192-196 | the sorted list is a permutation of the shown orders |
| OrderList.SortByDueOrdering | src/pages/orders/OrderList.tsx:167-196 | sorted by due date, the result is a permutation of the shown orders, every order with an open balance precedes every paid one, within each group the countdowns never decrease, and orders with equal countdowns run from the oldest creation date to the newest |
| OrderList.SortByDateOrdering | src/pages/orders/OrderList.tsx:192-196 | without the due ordering the orders run from the newest to the oldest |
| Bill.StoredStatusesRead | src/pages/Bill.tsx:90-94 | of the statuses the order form stores, exactly "pago" reads as paid; an absent status reads as pending; "PAGA" and "Paid" read as paid whatever their case |
| Bill.NextInstallmentIsEarliestPending | src/pages/Bill.tsx:84-107 | the next installment is a pending installment of the order due no later than any other pending one, and there is none exactly when no installment is pending (including no installments at all) |
| Bill.AmountDueAccounts | src/pages/Bill.tsx:125-136 | amount due plus total paid is the price (so the amount due may be negative); the open-balance block shows exactly when the payments fall short of the price; one more payment lowers the amount due by its value |
| Bill.LastPaymentDateIsLatest | src/pages/Bill.tsx:138-145 | the last payment date is a date in the history no earlier than any other, and there is none exactly when the history is absent or empty |
| Bill.OverdueIffSomePendingPast | src/pages/Bill.tsx:295 | the next due date is shown as late exactly when some pending installment is past due |
| Bill.MaskPhone | src/pages/Bill.tsx:255 | the mask keeps the length of the telephone |
| Bill.MaskPhoneEffect | src/pages/Bill.tsx:254-256 | a character either stays or is a digit turned into '*'; in every maximal run of digits all but the last four are hidden and the last four (the whole run when shorter) stay visible |
| Bill.MaskPhoneIdempotent | src/pages/Bill.tsx:255 | masking an already masked telephone changes nothing |
| Bill.MaskPhoneExample | src/pages/Bill.tsx:255 | "(11) 98765-4321" is shown as "(11) *8765-4321" |
| OrderEdit.AddProductEffect | src/pages/orders/OrderEdit.tsx:91-96 | exactly one blank line (no product, quantity 1, price 0) is appended, every other field and line is unchanged, and the totals grow by one unit and no money |
| OrderEdit.RemoveProductEffect | src/pages/orders/OrderEdit.tsx:98-103 | removing index `i` drops exactly that line and keeps the others in order; an index outside the list removes nothing |
| OrderEdit.RemoveProductTotals | src/pages/orders/OrderEdit.tsx:98-142 | removing a line takes its quantity and its line total off the order totals |
| OrderEdit.UpdateItemEffect | src/pages/orders/OrderEdit.tsx:105-129 | only the line at the index changes, and only in the field edited; choosing a catalogue product also takes its price, an unknown id keeps the price typed |
| OrderEdit.StepperBounds | src/pages/orders/OrderEdit.tsx:378-396 | the "-" stepper never takes a quantity below 1 and otherwise steps down by one; the "+" stepper adds one |
| OrderEdit.IncrementPaidBounds | src/pages/orders/OrderEdit.tsx:469-474 | the paid count never passes the installment total, and below it the "+" stepper adds exactly one |
| OrderEdit.SubmitAccepts | src/pages/orders/OrderEdit.tsx:144-192 | a save goes out exactly when there is a customer, at least one line, every line has a product and a positive quantity, and the order has an id; it carries `calculateTotals` of the lines; a freshly added blank line blocks the save |
| OrderEdit.QuantityAtLeastLines | src/pages/orders/OrderEdit.tsx:131-135 | with every quantity positive, the total quantity is at least the number of lines |
| Customers.CpfPatternKeepsDigits | src/pages/customers/CustomerCreate.tsx:85-88 | the CPF pattern only inserts punctuation: on a digit string the digits come out as they went in |
| Customers.PhonePatternKeepsDigits | src/pages/customers/CustomerCreate.tsx:90-96 | the telephone patterns only insert punctuation: on a digit string the digits come out as they went in |
| Customers.FormatCpfKeepsDigits | src/pages/customers/CustomerCreate.tsx:85-88 | `formatCPF` keeps exactly the input's digits, formatting twice is formatting once, and the CPF check gives the same answer before and after formatting |
| Customers.FormatPhoneKeepsDigits | src/pages/customers/CustomerCreate.tsx:90-96 | `formatPhone` keeps exactly the input's digits and formatting twice is formatting once |
| Customers.FormatCpfShape | src/pages/customers/CustomerCreate.tsx:85-88 | eleven digits are shown as `ddd.ddd.ddd-dd` starting with the first three digits and ending with the last two; fewer are shown as the bare digits |
| Customers.FormatPhoneShape | src/pages/customers/CustomerCreate.tsx:90-96 | ten digits are shown as `(dd) dddd-dddd`, eleven as `(dd) ddddd-dddd`, fewer than ten as the bare digits |
| Customers.SetFieldEffect | src/pages/customers/CustomerEdit.tsx:59-67 | a change sets the named field and leaves every other field alone |
| Customers.CreateCheckIff | src/pages/customers/CustomerCreate.tsx:27-56 | a form is sent exactly when its CPF has 11 or 0 digits and its telephone 10 or 11 digits; a bad CPF is reported first; what is sent differs from the form only in the telephone, which is its digits |
| Customers.CreateCheckStable | src/pages/customers/CustomerCreate.tsx:45-48 | submitting again after the telephone was stripped gives the same answer |
| Customers.CreateForm.constructor | src/pages/customers/CustomerCreate.tsx:10-16 | a new form has every field empty |
| Customers.CreateForm.HandleChange | src/pages/customers/CustomerCreate.tsx:18-25 | a change sets the named field of the form in place and nothing else |
| Customers.CreateForm.HandleSubmit | src/pages/customers/CustomerCreate.tsx:32-61 | the outcome is `CreateCheck` of the form as it was; a rejected CPF leaves the form untouched; otherwise the form's telephone is replaced by its digits in place, whether or not the telephone check then passes, and an accepted form is sent as it now stands |
| Customers.OrEmpty | src/pages/customers/CustomerEdit.tsx:37-43 | a missing field loads as "" and a present one as itself |
| Customers.LoadFormShape | src/pages/customers/CustomerEdit.tsx:35-44 | every loaded field is the stored one or ""; the anniversary is a prefix of the stored one of at most ten characters, all of it when shorter |
| Customers.LoadFormIdempotent | src/pages/customers/CustomerEdit.tsx:35-44 | loading a client that was saved from a loaded form gives the same form |
| Customers.EditCheckIff | src/pages/customers/CustomerEdit.tsx:74-101 | the update is sent exactly when the trimmed name is non-empty, the CPF has 11 or 0 digits and the route has an id; the checks come in that order; the form is sent as it stands |
| Customers.BlankNameRejected | src/pages/customers/CustomerEdit.tsx:77-83 | a name made only of spaces is refused as missing |
| Customers.FilteredClientsEffect | src/pages/customers/CustomerList.tsx:46-51 | the list keeps exactly the clients whose lower-cased name contains the lower-cased term or whose telephone or CPF contains the raw term, the shown count is at most the total, and an empty term keeps everyone |
| Customers.DeleteCustomerEffect | src/pages/customers/CustomerList.tsx:71-83 | without confirmation or after a failed call the list is unchanged; a confirmed successful delete removes exactly the clients with that id |
| Customers.DeleteCustomerAsWritten | src/pages/customers/CustomerList.tsx:71-83 | as shipped, the delete call does not exist on the API client, the page catches the error, and the list never changes |
| Customers.DeleteNeverRemoves | src/pages/customers/CustomerList.tsx:79-83 | a confirmed delete of a listed client leaves the list different from the intended result, which no longer holds that client |
| InputContacts.ParseCsv | src/components/InputContacts.tsx:11-45 | the character loop returns `Parse(text)`: the rows the scanner `Run` produces, then the pending row when it holds something |
| InputContacts.ParseEmpty | src/components/InputContacts.tsx:40-44 | an empty text has no rows |
| InputContacts.TrailingNewline | src/components/InputContacts.tsx:32-43 | a line break that ends the text outside quotes closes the row, and no empty row follows it |
| InputContacts.CarriageReturnsIgnored | src/components/InputContacts.tsx:31 | outside quotes a carriage return changes nothing: text without quotes parses as it would with every '\r' removed |
| InputContacts.EscapedFieldRead | src/components/InputContacts.tsx:19-25 | inside quotes every character is literal, a doubled quote reads as one quote and a single quote closes the field |
| InputContacts.OpenQuote | src/components/InputContacts.tsx:27 | outside quotes a quote opens quoted mode and adds nothing to the field |
| InputContacts.QuotedFieldRead | src/components/InputContacts.tsx:19-27 | a quoted field with doubled inner quotes is read back as itself, commas and line breaks included |
| InputContacts.RowRead | src/components/InputContacts.tsx:16-39 | an encoded row of fields followed by a line break is read back as exactly that row |
| InputContacts.RowsRead | src/components/InputContacts.tsx:16-39 | a sequence of encoded rows is read back row for row |
| InputContacts.ParseEncodeRoundTrip | src/components/InputContacts.tsx:11-45 | quoting each field, doubling its quotes, joining with ',' and ending each row with '\n' is parsed back to exactly the rows written |
| InputContacts.AssocContents | src/components/InputContacts.tsx:51-54 | a record filled key by key holds a key exactly when some position carries it, with the value of the last such position |
| InputContacts.AssocHasKeys | src/components/InputContacts.tsx:51-54 | every key written is present |
| InputContacts.LastValueIn | src/components/InputContacts.tsx:51-54 | a key is found only among the keys written |
| InputContacts.LastValueAt | src/components/InputContacts.tsx:51-54 | a key that no later position repeats holds the value of its own position |
| InputContacts.Keys | src/components/InputContacts.tsx:49-53 | there is one key per header |
| InputContacts.Cells | src/components/InputContacts.tsx:53 | there is one cell per header |
| InputContacts.FillRow | src/components/InputContacts.tsx:51-54 | the loop builds exactly `RowObject(headers, row)` |
| InputContacts.RowObjectEffect | src/components/InputContacts.tsx:49-54 | the record has the key of every column (its trimmed header, or `col{i}` when that is empty) and no other; a column whose key no later column repeats holds its own trimmed cell, "" past the end of a short row |
| InputContacts.TrimAll | src/components/InputContacts.tsx:49 | every header is trimmed, and there are as many as before |
| InputContacts.RowsToObjects | src/components/InputContacts.tsx:47-56 | no rows give no records; otherwise every row after the header gives one record |
| InputContacts.NormalizePhone | src/components/InputContacts.tsx:58-63 | the result is "" exactly when no '+' or digit is left after trimming, and otherwise starts with '+' and holds only '+' and digits |
| InputContacts.PhoneCharsBetweenSpaces | src/components/InputContacts.tsx:60 | with only white space around `s[a..b]`, the telephone characters of `s` are those of `s[a..b]` |
| InputContacts.PhoneCharsIgnoresTrim | src/components/InputContacts.tsx:60 | trimming before keeping '+' and digits makes no difference |
| InputContacts.NormalizePhoneIdempotent | src/components/InputContacts.tsx:58-63 | a normalized telephone normalizes to itself |
| InputContacts.NotPhoneLike | src/components/InputContacts.tsx:65-71 | strings shorter than seven characters and strings without digits are never taken for a telephone |
| InputContacts.NormalizedPhoneLike | src/components/InputContacts.tsx:58-71 | a normalized telephone is phone-like exactly when it has at least seven digits |
| InputContacts.NameFrom | src/components/InputContacts.tsx:96-97 | the name chosen is never empty |
| InputContacts.PlaceholderNotPhoneLike | src/components/InputContacts.tsx:97 | the placeholder "(sem nome)" is not phone-like |
| InputContacts.NameFromIsAName | src/components/InputContacts.tsx:95-97 | the name is never empty and never phone-like, and any other non-empty candidate is kept as it is |
| InputContacts.PhoneOf | src/components/InputContacts.tsx:89-90 | each column's telephone is normalized |
| InputContacts.PrimaryPhone | src/components/InputContacts.tsx:89-101 | the telephone sent is normalized, and it is "" exactly when all three telephone columns normalize to "" |
| InputContacts.BuildClient | src/components/InputContacts.tsx:84-112 | every built client has a non-empty name and a normalized telephone |
| InputContacts.ClientsToCreateAreValid | src/components/InputContacts.tsx:114-122 | between one and fifteen clients go out, each with a name and a telephone that starts with '+' and holds only '+' and digits |
| InputContacts.TallyAccounts | src/components/InputContacts.tsx:127-146 | every call is counted once, as a success or as an error line |
| InputContacts.TallyResults | src/components/InputContacts.tsx:127-146 | the loop counts the successes and lists, in call order, the line `Linha {idx+1}: {message}` of each failed call, and the two add up to the number of calls |
| ContactImport.SelectContactsEffect | src/pages/customers/ContactImport.tsx:62-80 | a pick is refused exactly when no picked contact has a name list and a telephone; otherwise there is one listed contact per usable one, in pick order, with id `{stamp}-{index}`, its first name or "Sem nome", and its first telephone; the listed ids `stamp-i` are pairwise distinct |
| ContactImport.UpdateContact | src/pages/customers/ContactImport.tsx:99-109 | editing keeps the number of contacts |
| ContactImport.UpdateContactEffect | src/pages/customers/ContactImport.tsx:99-109 | only the named field of the contacts with that id changes; every other contact and field is unchanged |
| ContactImport.DeleteContactEffect | src/pages/customers/ContactImport.tsx:111-115 | no contact with the id is left, every other one is kept, and the list shrinks by exactly the number of contacts with that id |
| ContactImport.DeleteAfterUpdate | src/pages/customers/ContactImport.tsx:99-115 | editing a contact and then deleting it leaves the same list as deleting it straight away |
| ContactImport.StripCountryCodeShape | src/pages/customers/ContactImport.tsx:146 | on a digit string, exactly one leading "55" is removed when there is one, and the result is still all digits |
| ContactImport.RequestForShape | src/pages/customers/ContactImport.tsx:144-150 | the telephone sent is the contact's digits with at most one leading "55" removed, and the name sent is trimmed |
| ContactImport.StripCountryCodeOnce | src/pages/customers/ContactImport.tsx:146 | "555511" becomes "5511" (only one country code goes), and a number without it is unchanged |
| ContactImport.RunBatch | src/pages/customers/ContactImport.tsx:139-169 | one outcome per contact of the batch, in batch order: a failure with the message when the response has a non-empty error, a success otherwise |
| ContactImport.ProgressStep | src/pages/customers/ContactImport.tsx:173 | the progress after batch `k` is measured at `min(10k + 10, total)` contacts |
| ContactImport.BatchCountIs | src/pages/customers/ContactImport.tsx:135 | `n` batches of ten cover `total` contacts when the last one is partly filled |
| ContactImport.ImportContacts | src/pages/customers/ContactImport.tsx:117-175 | an empty selection is refused before any call; otherwise the results are one per selected contact, in list order, and one progress value is recorded per batch, each `Math.round` of the share of contacts done |
| ContactImport.RoundDivMonotone | src/pages/customers/ContactImport.tsx:173 | the rounded percentage never decreases as more contacts are done |
| ContactImport.RoundDivExact | src/pages/customers/ContactImport.tsx:173 | rounding an exact quotient gives it back |
| ContactImport.ProgressRises | src/pages/customers/ContactImport.tsx:172-174 | the progress stays within 0..100, never moves back, and is 100 after the last batch |
| ContactImport.BatchesCover | src/pages/customers/ContactImport.tsx:135-136 | the batches hold one to ten contacts each, number `ceil(total / 10)`, and put back together give the list: every contact is sent exactly once and in order |
| ContactImport.BatchAt | src/pages/customers/ContactImport.tsx:135-137 | the slice the import loop takes at `i = 10 * k` is the k-th batch, so the loop sends the batches that `BatchesCover` describes |
| ContactImport.CountZero | src/pages/customers/ContactImport.tsx:181-182 | a count is zero exactly when no result satisfies the test |
| ContactImport.SummarizeAccounts | src/pages/customers/ContactImport.tsx:181-201 | successes plus failures is the number of results; "all imported" exactly when nothing failed; "all failed" exactly when there are results and none succeeded; otherwise a partial import with both counts positive |
| Registration.PipelineFilters | src/pages/registration/RegistrationList.tsx:124-188 | running the switched-on filters one after the other keeps exactly the entries that pass all of them, in their original order |
| Registration.SurvivesAll | src/pages/registration/RegistrationList.tsx:127-188 | passing the eight filters in turn is the same as the single acceptance test on an entry |
| Registration.NewerFirstIsStrict | src/pages/registration/RegistrationList.tsx:190-192 | the newest-first comparison is a strict order, so the sort is well defined |
| Registration.ApplyFilters | src/pages/registration/RegistrationList.tsx:124-195 | the list shown is the accepted entries sorted newest first |
| Registration.FilteredEntries | src/pages/registration/RegistrationList.tsx:124-195 | the shown list holds the accepted entries as often as the register does (same multiset), an entry is shown iff it is in the register and accepted, the list is no longer than the register, and it runs from the newest creation time to the oldest |
| Registration.NoFilterKeepsAll | src/pages/registration/RegistrationList.tsx:197-210 | with the cleared filters every entry passes, in its original order |
| Registration.KeptRespectsBounds | src/pages/registration/RegistrationList.tsx:137-188 | an accepted entry has the chosen type, has a date when a date bound is set, lies before the end of the `dateTo` day read in UTC, and lies within the inclusive value bounds |
| Registration.StatsAccount | src/pages/registration/RegistrationList.tsx:212-222 | `getStats`: inflows minus outflows is the entries' net effect on the balance, and the two totals plus the entries of any other type make up the sum of all values (the page computes these totals but its cards show the back end's summary instead) |
| Registration.TruncReais | src/pages/registration/RegistrationList.tsx:114-122 | whole reais of a cent amount, rounded toward zero: within one real of the amount, on the side of zero |
| Registration.TruncReaisSymmetric | src/pages/registration/RegistrationList.tsx:115-122 | truncation is symmetric around zero |
| Registration.TruncReaisExamples | src/pages/registration/RegistrationList.tsx:115 | 42040 cents show as 420 and -42040 as -420, where floor division would give -421 for -42099 |
| Registration.BalanceCardAmount | src/pages/registration/RegistrationList.tsx:298-308 | the balance card shows inflow minus outflow in whole reais, within one real toward zero; a missing summary shows 0 in the positive colour |
| Registration.CalculateNewBalanceEffect | src/pages/registration/RegistrationEdit.tsx:102-112 | only the new balance changes; it is the previous balance plus the value for "In" and minus the value for any other type |
| Registration.NewBalanceInCents | src/pages/registration/RegistrationEdit.tsx:102-112 | for amounts loaded from cents, the new balance converts back to exactly the previous balance plus or minus the value in cents |
| Registration.AddTagKeepsDistinct | src/pages/registration/RegistrationEdit.tsx:85-93 | distinct non-empty tags stay distinct and non-empty; either nothing changes or the trimmed tag, absent before, is appended |
| Registration.AddTagIdempotent | src/pages/registration/RegistrationEdit.tsx:85-93 | adding the same tag twice is adding it once |
| Registration.RemoveTagEffect | src/pages/registration/RegistrationEdit.tsx:95-100 | the removed tag is gone and every other tag stays |
| Registration.RemoveAddedTag | src/pages/registration/RegistrationEdit.tsx:85-100 | removing a tag just added gives the old list back |
| Registration.SubmitEntryEffect | src/pages/registration/RegistrationEdit.tsx:114-142 | the form is sent iff category and description are filled, the value is positive and there is an id; the missing-fields error comes exactly when the first test fails |
| Registration.LoadSaveRoundTrip | src/pages/registration/RegistrationEdit.tsx:55-71 | an entry loaded into the form and saved unchanged goes back with the same amounts in cents |
| Products.FilteredProductsEffect | src/pages/products/ProductList.tsx:47-54 | a product is shown iff it is in the catalogue and its name or code contains the term ignoring case and its category equals the chosen one; with neither set every product is shown |
| Products.CategoriesListed | src/pages/products/ProductList.tsx:56-58 | a category is offered iff it is non-empty and some product has it |
| Products.CategoriesDistinct | src/pages/products/ProductList.tsx:56-58 | no category is offered twice |
| Products.CategoriesOrdered | src/pages/products/ProductList.tsx:56-58 | the categories come in the order of their first product |
| Products.CategoriesEffect | src/pages/products/ProductList.tsx:56-58 | the category list is the distinct non-empty categories of the catalogue in order of first appearance |
| Products.StockStatusCases | src/pages/products/ProductList.tsx:68-73 | zero is out of stock, any other count up to five (negative ones included) is low, more than five is in stock |
| Products.ProfitIsRevenueMinusCost | src/pages/products/ProductList.tsx:254-292 | the expected-profit card equals the expected-revenue card minus the stock-value card, and each product contributes its card margin (line 214) times its stock |
| Products.ProfitNonNegative | src/pages/products/ProductList.tsx:288-292 | when no product is priced below cost and no stock is negative the expected profit is not negative |
| Products.HandleChangeEffect | src/pages/products/ProductCreate.tsx:58-66 | the edited field becomes the raw text for a text input and the parsed number for a number input (0 when it does not parse), and no other field changes |
| Products.CreateProductEffect | src/pages/products/ProductCreate.tsx:24-35 | a product is created iff stock, cost and price are all positive, the stock error coming first; the purchase date is sent iff it was filled in; the amounts go out as non-negative cents |
| Products.MarginPreviewBounds | src/pages/products/ProductCreate.tsx:254-266 | the preview shows iff cost and price are positive; its percentage is below 100 and positive iff the price is above the cost |
| Products.UpdateProductEffect | src/pages/products/ProductEdit.tsx:74-111 | an update goes out iff the name is not blank, stock, cost and price are at least 0 and there is an id, checked in that order; every product creation would accept is also a valid update |
| Products.LoadSaveRoundTrip | src/pages/products/ProductEdit.tsx:37-49 | a product with a purchase date, loaded into the form and saved unchanged, keeps its cents, stock, name, category and code |
| Products.LoadProductEffect | src/pages/products/ProductEdit.tsx:37-58 | loading fails (the load-error path) exactly when the purchase date is missing; otherwise the form's reais convert back to the stored cents, the text fields are the stored ones, and the date is the first ten characters of the stored one |

## Left out

- OrderCreate and OrderEdit: line prices and the amount paid are held in whole cents. The pages hold them in reais (`product.price / 100`, `parseFloat` of the typed price) and on save round each line and the whole total separately with `Math.round(x * 100)`. With the pages' `step="0.01"` price inputs the two agree; sub-cent prices are not modelled.
- Floating point: the reais amounts in the register and product forms are exact rationals and `parseFloat` is an `Option<real>` given to the model (`None` for NaN). Rounding error in `x * 100` is not modelled.
- `Intl.NumberFormat` and `toLocaleDateString` rendering are left out; only the numbers they are given are modelled (cents, and the truncated whole reais of the register balance).
- JavaScript `Date`: "today plus k months" (`setMonth` with its overflow, the time zone, ISO serialisation) is a parameter `monthsAhead` of the installment and resize functions. The current instant on the order list is a parameter. A register entry's `date`/`createAt` text and the filter bar's dates arrive already parsed into instants (`None` for an unparsable date).
- Registration.KeptRespectsBounds: the `dateTo` bound is read in UTC. The page parses `dateTo` as UTC midnight and then calls `setHours(23, 59, 59, 999)` in local time, so west of UTC its bound is the end of the previous local day; the model does not capture that shift.
- Date strings cut to their first ten characters (the customer anniversary, the product purchase date on load) are modelled as that cut. The ISO round trip through `new Date` before the cut is not modelled.
- Every `api.*` call, `fetch`, toasts, navigation and loading flags are left out. A call's response is a parameter of the function that consumes it. A failed load only shows a toast and navigates away, so it is not modelled, except that a product without a purchase date fails to load (`Products.LoadProduct` gives `None`).
- Hashids decoding of the bill id is left out. The bill page starts from the decoded order.
- The Contact Picker API is left out. Its result is the list of picked contacts given to `ContactImport.SelectContacts`, and the page's id stamp (`Date.now()`) is a parameter. The unsupported-browser branch and the unknown-error branch only show a toast.
- Reading the chosen file (`file.text()`) is left out. `InputContacts.ParseCsv` starts from its text. The birthday column is not part of the client built.
- `Promise.all` within an import batch and `Promise.allSettled` in the CSV import are modelled as sequential calls with one outcome per contact, in order. Interleaving is not modelled.
- Lower-casing maps `A`-`Z` and the Latin-1 capitals; other Unicode case mappings are not modelled.
- The order-list phone and CPF of a client, and optional customer fields, are `""` when absent, as the page's `?? ""` and `|| ""` make them.
- Products.Categories: `filter(Boolean)` after the `Set` drops only the empty category; categories are strings in this model, so no other falsy value arises.
- Login, routing, layout and the other pages without logic are not part of this model.

## Findings

| source | as written | input that shows it | evidently intended | confidence | as-written member | corrected member |
|---|---|---|---|---|---|---|
| src/pages/orders/OrderCreate.tsx:56-60 | the default date for a new installment is today plus `res.length + i` months, but `res` grows with each push, so the k-th new date is `kept + 2k` months ahead | growing a list of one date to three installments dates the third one three months ahead, not two | the installment at position p defaults to today plus p months, as `buildInstallments` assumes | not executed | OrderCreate.ResizeDatesAsWritten, OrderCreate.ResizeSkipsAMonth | OrderCreate.ResizeDates, OrderCreate.ResizedShape |
| src/pages/customers/CustomerList.tsx:79 | `deleteCustomer` calls `api.deleteClient(id)`, but the API client (`src/services/api.ts`) defines no such method, so the call throws and every confirmed delete ends in the error toast | confirming the removal of any listed client: it stays on the list | a delete endpoint on the API client; on success the client leaves the local list | not executed | Customers.DeleteCustomerAsWritten, Customers.DeleteNeverRemoves | Customers.DeleteCustomer, Customers.DeleteCustomerEffect |
