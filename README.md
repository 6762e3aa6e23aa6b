# PGVMS derived-state layer in Dafny

PGVMS is a small single-page React app for a produce wholesaler. It keeps four
in-memory collections:

- inventory lots, each with an expiry date;
- customers;
- sale and payment transactions;
- returnable-crate ledger entries.

Every page turns these collections into derived views. This project models
that layer and proves what each view promises:

- **Customer balances** (`App`): a dictionary folded over the transactions.
  Sales add their total and payments subtract their amount.
- **The crate ledger** (`CrateManagement`):
  - the per-customer summary;
  - the running balance written onto each entry in date order;
  - the tab filter and the newest-first display;
  - adding, editing and deleting entries.
- **The inventory page** (`InventoryManagement`):
  - lots ranked by expiry (first expired, first out);
  - the Expired / Expiring Soon / Fresh status computed from whole days left, rounded up;
  - the "Sell First" flag;
  - adding a lot.
- **The transaction ledger** (`TransactionLedger`):
  - lots offered for sale;
  - the tab, customer and case-insensitive item filters, then a newest-first sort;
  - customer names and the business report;
  - sale-line validation;
  - saving and deleting transactions;
  - the form's running total and its rows.
- **The printable report** (`PrintReport`): the totals, the oldest-first order and the customer cell.
- **The customer page** (`CustomerManagement`): a customer's statement and saving a customer.
- **The dashboard** (`Dashboard`): its copy of the expiry status and its four figures.

Shared modules:

- `Seqs`: `Filter`, `Find`, and `SumBy` (a left-to-right `reduce` sum), with their laws.
  It also holds the group-sum lemma: summing per-key totals over distinct keys gives the plain total.
- `StableSort`: `Array.prototype.sort` with a numeric comparator, which is stable.
  It is modelled as an insertion sort `SortBy(s, key)`. A descending sort uses the negated key.
  `StableSort.IsStableSortOf` shows that any stable ascending sort returns exactly this sequence.
- `Dates`: millisecond timestamps and UTC days.
- `Text`: ASCII `toLowerCase` and `includes`.
- `Types`: the records of `types.ts`.

The style follows the source:

- Loops that update a dictionary or running totals are methods with loop invariants, proved against specification functions:
  - `App.CustomersWithBalance`;
  - `CrateManagement.RunningBalances`, which `CrateManagement.ProcessedLedger` calls after sorting;
  - `PrintReport.Summary`;
  - `TransactionLedger.ResolveCustomers`.
- `TransactionLedger.FilteredTransactions` reassigns its `filtered` variable step by step, as the source does; it has no loop.
- Everything else is a function.
- State updates return the new list, as the React setters receive it.
- Ids made from `Date.now()` are parameters, and so is the clock (`now`).
- A `window.confirm` answer is a `bool` parameter.
- An `alert` is the `Err` message of a `Result`.

A transaction is one record with a `kind` field (`Sale` or `Payment`), as in the source. This lets the model state that a payment's `totalAmount` is never read by the balance.

## Behaviour worth knowing

These are cases where the code behaves in a way a reader might not expect. The model follows the code in each case.

- **Sell First flag.** The flag goes only to row 0 of the ranked list, and only when that lot is not Expired.
  - When the earliest lot is Expired, nothing is flagged; the flag does not move down to the first sellable lot.
  - One might expect the flag to move to the first sellable lot (the +2-day lot in `FefoExample`, with lots at +2, +6, −1 and +4 days). The code flags nothing there.
  - Shown by `InventoryManagement.FefoExample` and `InventoryManagement.ExpiredHeadFlagsNothing`.
- **Lots past expiry by less than a day.** The day count is rounded up, so such a lot has 0 days left.
  - The inventory page shows it as Expiring Soon and may flag it Sell First.
  - The sale form no longer offers it, because it requires expiry after now.
  - Shown by `TransactionLedger.JustExpiredIsSoonButUnavailable`.
- **Sale-line validation** tests the quantity and price with JavaScript truthiness (`!item.quantity`).
  - A value typed into the form is a non-empty string, so a typed "0" passes and the line is saved with total 0.
  - A value loaded from a saved sale for editing is a number, so a loaded 0 is dropped.
  - Shown by `TransactionLedger.ZeroQuantityDependsOnOrigin`.
  - Negative values pass and give negative line totals.
- **The form's running total** (`grandTotal`) also counts rows that validation will drop, such as a row with an unknown lot. So it can differ from the saved total (`TransactionLedger.GrandTotalVersusSaved`).
- **Removing a form row** deletes every row with that temporary id. Ids come from the clock, so two rows can share one, and removing it can leave the form with no row (`TransactionLedger.RepeatedRowIdEmptiesForm`).

## Model

| member | source | states |
|---|---|---|
| Dates.CeilDiv | components/InventoryManagement.tsx:23 | `Math.ceil(a / d)`: the result q satisfies (q−1)·d < a ≤ q·d |
| Dates.StartOfDay | components/TransactionLedger.tsx:164 | the first millisecond of the (UTC) day of t: at most t, less than a day before, a day boundary |
| Dates.EndOfDay | components/TransactionLedger.tsx:165 | the last millisecond of the day of t: at least t, less than a day after, just before a day boundary |
| Dates.RangeIsInclusive | components/TransactionLedger.tsx:164-169 | a report period includes every time on its last day and on its first day, and excludes the day just after and the day just before |
| Text.Lower | components/TransactionLedger.tsx:101 | `toLowerCase`: same length; each upper-case ASCII letter becomes its lower-case letter (code + 32), every other character is kept; no upper-case ASCII letter left |
| Text.LoweringKeepsMatch | components/TransactionLedger.tsx:101-105 | an item name that contains the typed text, at some position, still contains it there once both are lowered, so the case-insensitive filter keeps it |
| Seqs.Find | components/TransactionLedger.tsx:114 | `find`: None exactly when no element matches; otherwise the first matching element |
| Seqs.SumOfGroupSums | components/Dashboard.tsx:42-43 | over distinct keys covering every element, the sum of the per-key totals is the total |
| StableSort.SortByCorrect | components/InventoryManagement.tsx:16 | the sort is a permutation, ascending by key, and keeps equal keys in input order |
| StableSort.IsStableSortOf | components/InventoryManagement.tsx:16 | any ascending, stable rearrangement equals `SortBy`, so `SortBy` is what the library sort returns |
| App.CustomersWithBalance | App.tsx:24-46 | one row per customer, in order, the customer unchanged; its balance is its sales total minus its payment amounts (missing = 0) |
| App.TalliesStep | App.tsx:31-39 | one loop step keeps the dictionary equal to every customer's balance over the transactions seen (missing key = 0) |
| App.NoTransactionsNoBalance | App.tsx:42-45 | a customer with no transactions has balance 0 |
| App.BalancePermutation | App.tsx:31-40 | the balance does not depend on the order of the transactions |
| App.PaymentTotalUnused | App.tsx:35-39 | a payment's `totalAmount` is never read: changing it changes no balance |
| App.OtherCustomerIgnored | App.tsx:31-34 | another customer's transaction, known or not, leaves a balance unchanged wherever it sits |
| App.OverpaymentIsNegative | App.tsx:38 | balances are not clamped: paying more than is owed leaves a negative balance |
| App.SeedBalance | data/mockData.ts:100-134 | on the seed data cust001 owes 400 + 1500 − 500 = 1400, cust002 owes 2400, cust003 nothing |
| App.AddCrateEntryFromSale | App.tsx:59-69 | one entry appended with the quantity issued, nothing returned and balance 0; earlier entries unchanged |
| App.SaleCratesRaiseDebt | App.tsx:59-69 | the appended entry raises that customer's net crates by the quantity and no one else's |
| CrateManagement.CustomerCrateSummary | components/CrateManagement.tsx:39-47 | one summary row per customer, in customer order |
| CrateManagement.IssuedMinusReturned | components/CrateManagement.tsx:41-44 | total issued minus total returned over a customer's entries is that customer's net crate debt |
| CrateManagement.SummaryIsNet | components/CrateManagement.tsx:39-47 | each row's balance is its customer's net debt over the ledger; a customer with no entries has 0 |
| CrateManagement.NetPermutation | components/CrateManagement.tsx:41-44 | the net debt does not depend on the order of the ledger |
| CrateManagement.Annotated | components/CrateManagement.tsx:54-60 | annotating keeps the length and changes nothing but each entry's balance |
| CrateManagement.TracksStep | components/CrateManagement.tsx:55-58 | one accumulator step writes the customer's net debt up to that entry, and the map stays right for every customer |
| CrateManagement.RunningBalances | components/CrateManagement.tsx:50-60 | the loop writes on each entry its customer's net debt over the entries up to and including it |
| CrateManagement.ProcessedLedger | components/CrateManagement.tsx:49-69 | the result is the date-sorted, annotated, tab-filtered ledger sorted newest first |
| CrateManagement.Chronology | components/CrateManagement.tsx:52-60 | before filtering the ledger is a permutation of the input, ascending by date, ties in input order, only balances changed |
| CrateManagement.LastEntryCarriesSummary | components/CrateManagement.tsx:39-60 | a customer's last entry in date order carries that customer's summary balance |
| CrateManagement.ViewFilter | components/CrateManagement.tsx:62-66 | 'issued' keeps exactly the entries with crates issued, 'returned' those with crates returned, 'all' everything; no balance changes |
| CrateManagement.DisplayOrder | components/CrateManagement.tsx:68 | the displayed list holds exactly the filtered entries, newest first |
| CrateManagement.HandleDelete | components/CrateManagement.tsx:95-99 | once confirmed, the result is the ledger filtered to the entries with another id, in their order, and exactly the entries with that id go; unconfirmed, nothing changes |
| CrateManagement.DeleteKeepsOrder | components/CrateManagement.tsx:97 | deleting from two concatenated parts is deleting from each part, with the parts kept in order |
| CrateManagement.HandleSubmit | components/CrateManagement.tsx:101-131 | refused exactly without a customer or with a missing or non-positive quantity; otherwise one of issued/returned is the quantity and the other 0; an edit replaces by id, keeps the length and the edited record's balance; an add appends one entry with balance 0 |
| InventoryManagement.SortedInventory | components/InventoryManagement.tsx:15-17 | the ranked list is a permutation of the inventory, ascending by expiry, ties in input order |
| InventoryManagement.DaysLeft | components/InventoryManagement.tsx:20-23 | whole days left, rounded up: (d−1)·DAY < expiry − now ≤ d·DAY |
| InventoryManagement.GetStatus | components/InventoryManagement.tsx:19-32 | Expired exactly when a full day or more past expiry, Expiring Soon up to three days ahead, Fresh beyond; each status has its label |
| InventoryManagement.StatusByDaysLeft | components/InventoryManagement.tsx:25-31 | Expired iff days left < 0, Expiring Soon iff 0..3, Fresh iff > 3 |
| InventoryManagement.StatusBoundaries | components/InventoryManagement.tsx:23-31 | three days ahead is Expiring Soon, four is Fresh, less than a day past expiry is Expiring Soon with 0 days left |
| InventoryManagement.StatusMonotone | components/InventoryManagement.tsx:25-31 | a later expiry or an earlier clock never gives a worse status |
| InventoryManagement.SellFirstOnlyAtHead | components/InventoryManagement.tsx:72-74 | only row 0 can be flagged; it expires no later than any lot and is not Expired; it is flagged whenever it is not Expired |
| InventoryManagement.ExpiredHeadFlagsNothing | components/InventoryManagement.tsx:74 | when the earliest lot is Expired no lot is flagged |
| InventoryManagement.IsFefo | components/InventoryManagement.tsx:74 | only the head row of the ranked list can carry the flag, and the head carries it exactly when it is not Expired |
| InventoryManagement.FefoExample | components/InventoryManagement.tsx:72-74 | lots at +2, +6, −1, +4 days rank −1, +2, +4, +6 and none is flagged, though the +2-day lot is Expiring Soon |
| InventoryManagement.HandleAddItem | components/InventoryManagement.tsx:37-47 | one lot appended with today's purchase date; the other lots unchanged |
| InventoryManagement.AddedItemIsRanked | components/InventoryManagement.tsx:15-47 | after an addition the ranked list holds the old lots plus the new one |
| TransactionLedger.AvailableInventory | components/TransactionLedger.tsx:80-82 | exactly the lots whose expiry is after now, each as often as in the inventory |
| TransactionLedger.ExpiredNeverAvailable | components/TransactionLedger.tsx:81 | no lot the inventory page calls Expired is offered for sale |
| TransactionLedger.JustExpiredIsSoonButUnavailable | components/TransactionLedger.tsx:81 | a lot less than a day past expiry is Expiring Soon and flagged on its own, yet not offered for sale |
| TransactionLedger.FilteredTransactions | components/TransactionLedger.tsx:84-111 | the step-by-step filtering gives the passing transactions sorted newest first |
| TransactionLedger.ShownIsSortedSelection | components/TransactionLedger.tsx:84-111 | the list holds every passing transaction as often as the input and nothing else, newest first, equal dates in input order |
| TransactionLedger.ShownRespectsFilters | components/TransactionLedger.tsx:88-110 | tab kind, chosen customer, and for an item filter a sale with a matching line; with no filter a permutation of the input |
| TransactionLedger.ItemFilterIgnoresCase | components/TransactionLedger.tsx:100-106 | item filters that lower-case alike list the same transactions |
| TransactionLedger.GetCustomerName | components/TransactionLedger.tsx:113-115 | the first customer with the id gives its name; no such customer, or an empty name, gives "Unknown Customer" |
| TransactionLedger.ResolveCustomers | components/TransactionLedger.tsx:179-182 | the reduce builds the id-to-customer dictionary |
| TransactionLedger.ByIdKeys | components/TransactionLedger.tsx:179-182 | the dictionary's keys are exactly the customers' ids |
| TransactionLedger.ByIdLastWins | components/TransactionLedger.tsx:179-182 | each key holds the last customer with that id |
| TransactionLedger.ByIdAgreesWithFind | components/TransactionLedger.tsx:113-182 | with distinct ids the dictionary and `find` agree |
| TransactionLedger.HandleGenerateReport | components/TransactionLedger.tsx:163-191 | a business report of the period's transactions in input order, each with its customer attached and its resolved name |
| TransactionLedger.PeriodSelection | components/TransactionLedger.tsx:164-170 | a transaction is in the period exactly when it lies between the start of the first day and the end of the last; order is kept |
| TransactionLedger.ReportCustomerIsNamed | components/TransactionLedger.tsx:173-187 | with distinct ids the attached customer and the resolved name agree |
| TransactionLedger.ValidateRow | components/TransactionLedger.tsx:195-205 | a row gives a line exactly when its lot is known and quantity, price and unit are filled in by JavaScript truthiness; a saved zero quantity or price was typed, never loaded; the line carries the row's lot id, numbers and unit, totals quantity × price and is named "name (variant)" after the first lot with that id |
| TransactionLedger.ValidLines | components/TransactionLedger.tsx:194-207 | the valid rows' lines, at most one per row, each well formed |
| TransactionLedger.ValidLinesAppend | components/TransactionLedger.tsx:194-207 | the lines of two blocks of rows are the lines of the first block followed by those of the second |
| TransactionLedger.ValidLinesSingle | components/TransactionLedger.tsx:195-207 | a single row gives its validated line when valid and no line otherwise |
| TransactionLedger.ValidLinesEmpty | components/TransactionLedger.tsx:194-209 | no line survives exactly when no row is valid |
| TransactionLedger.ValidLinesAllValid | components/TransactionLedger.tsx:194-207 | when every row is valid each row becomes its line, in place |
| TransactionLedger.LoadRows | components/TransactionLedger.tsx:69-72 | opening a sale for editing gives one row per saved line, with ids counting up from the clock, the line's lot and unit, and its quantity and price as loaded numbers |
| TransactionLedger.ReloadKeepsLines | components/TransactionLedger.tsx:69-72 | saving a reopened sale unchanged gives back its lines when each is well formed, non-zero and its lot is still known under the same name |
| TransactionLedger.ZeroQuantityDependsOnOrigin | components/TransactionLedger.tsx:197 | a typed zero quantity passes validation with a line total of 0; the same zero loaded from a saved line is dropped |
| TransactionLedger.ProcessAndValidateSaleItems | components/TransactionLedger.tsx:193-214 | an error exactly when no row is valid; otherwise the non-empty list of valid lines |
| TransactionLedger.SaleTotal | components/TransactionLedger.tsx:231 | the `totalAmount` of no lines is 0; with no negative line it is non-negative and at least every line's total |
| TransactionLedger.SaleTotalFromFront | components/TransactionLedger.tsx:250 | the `reduce` from the first line: the total is the first line's total plus the total of the rest |
| TransactionLedger.ReplaceById | components/TransactionLedger.tsx:241 | every transaction with the id becomes the new one; the others and the length stay |
| TransactionLedger.HandleSubmit | components/TransactionLedger.tsx:216-284 | refused exactly without a customer, for a sale with no valid line, or for a payment without a positive amount; a new transaction goes first, well formed, with no attached customer and, for a sale, no payment amount; an edit replaces by id keeping the kind, the attached customer and, for a sale, the payment amount; crates only for a new sale with crates |
| TransactionLedger.SubmitKeepsWellFormed | components/TransactionLedger.tsx:216-284 | saving keeps every transaction well formed: a sale totals its lines and each line is quantity × price; a payment's amount is its total and positive |
| TransactionLedger.SubmitMovesBalance | components/TransactionLedger.tsx:244-280 | a new transaction moves only its customer's balance, up by the sale's total or down by the payment |
| TransactionLedger.HandleDelete | components/TransactionLedger.tsx:157-161 | once confirmed, the result is the list filtered to the transactions with another id, in their order, and exactly those with that id go; unconfirmed, nothing changes |
| TransactionLedger.DeleteKeepsOrder | components/TransactionLedger.tsx:159 | deleting from two concatenated parts is deleting from each part, with the parts kept in order |
| TransactionLedger.GrandTotal | components/TransactionLedger.tsx:286-293 | 0 while a payment is being entered |
| TransactionLedger.GrandTotalVersusSaved | components/TransactionLedger.tsx:286-293 | the running total is the saved total plus what the dropped rows contribute |
| TransactionLedger.GrandTotalMatchesSaved | components/TransactionLedger.tsx:286-293 | when every row is valid the running total is the saved total |
| TransactionLedger.RemoveSaleItem | components/TransactionLedger.tsx:147-151 | with more than one row the result is the rows filtered to other ids, in their order, and exactly the rows with that id go; a single row is kept |
| TransactionLedger.LastRowStays | components/TransactionLedger.tsx:148 | with distinct row ids the form always keeps a row |
| TransactionLedger.RepeatedRowIdEmptiesForm | components/TransactionLedger.tsx:143-151 | two rows sharing an id are removed together, leaving none |
| TransactionLedger.AddSaleItem | components/TransactionLedger.tsx:143-145 | one row appended with the given id, no lot, blank quantity and price and unit kg; the other rows unchanged |
| TransactionLedger.BlankRowNeverSaved | components/TransactionLedger.tsx:144-197 | the appended blank row is dropped by validation for every inventory and gives no line |
| TransactionLedger.AddThenRemoveRestores | components/TransactionLedger.tsx:143-151 | adding a row with a fresh id and removing it gives back the form |
| TransactionLedger.AddKeepsGrandTotal | components/TransactionLedger.tsx:143-145 | a blank row adds nothing to the running total |
| TransactionLedger.SetField | components/TransactionLedger.tsx:154 | the chosen field takes the new value and every other field, the row id included, is kept |
| TransactionLedger.ChangeSaleItem | components/TransactionLedger.tsx:153-155 | every row with that id gets the field set, rows with other ids are unchanged, and the length stays |
| TransactionLedger.ChangeMovesGrandTotal | components/TransactionLedger.tsx:153-155 | with distinct ids a change moves the running total by the changed row's new amount minus its old one |
| PrintReport.Summary | components/PrintReport.tsx:13-25 | total sales is the sum over sales, total payments the sum of payment amounts (missing = 0) over all other rows, and the final balance their difference |
| PrintReport.SortedTransactions | components/PrintReport.tsx:27-29 | a permutation, oldest first, equal dates in input order |
| PrintReport.SummaryOrderFree | components/PrintReport.tsx:13-29 | the totals do not depend on the order, so the printed order gives the same summary |
| PrintReport.SummaryIsBalance | components/PrintReport.tsx:13-25 | over one customer's rows the final balance is that customer's outstanding balance |
| PrintReport.CustomerName | components/PrintReport.tsx:31-34 | the attached customer's name, or "N/A" when none is attached or the name is empty |
| PrintReport.ReportNamesAgree | components/PrintReport.tsx:31-34 | on a business report with distinct ids, the customer cell and the resolved name agree wherever either is found |
| CustomerManagement.GenerateStatement | components/CustomerManagement.tsx:67-86 | nothing without a chosen customer; otherwise exactly that customer's transactions within the inclusive period, with the report fields |
| CustomerManagement.StatementKeepsOrder | components/CustomerManagement.tsx:73-76 | the statement of a concatenation is the concatenation of the statements |
| CustomerManagement.StatementBalance | components/CustomerManagement.tsx:73-76 | when the period covers all of the customer's transactions the statement's final balance is the outstanding balance |
| CustomerManagement.PhotoOr | components/CustomerManagement.tsx:100 | the entered photo when not empty, else the default |
| CustomerManagement.StripBalances | components/CustomerManagement.tsx:91 | the customers in order without their balances |
| CustomerManagement.HandleSaveCustomer | components/CustomerManagement.tsx:88-118 | an edit rewrites the form fields of the customers with the edited id and keeps the rest and the length; an add puts an unverified customer first |
| CustomerManagement.EditKeepsIdentity | components/CustomerManagement.tsx:95-102 | with distinct ids an edit keeps every id and every verification flag in place |
| CustomerManagement.AddKeepsCustomers | components/CustomerManagement.tsx:105-114 | an add keeps every existing customer, unchanged and in order, behind the new one |
| CustomerManagement.NewCustomerOwesNothing | components/CustomerManagement.tsx:105-114 | the customer an add puts first has the fresh id, and while no transaction names it its balance is 0 |
| Dashboard.StatusOf | components/Dashboard.tsx:25-34 | the dashboard's status equals the inventory page's status for every expiry and clock |
| Dashboard.Stats | components/Dashboard.tsx:39-45 | the customer count; the expiring-soon count is the number of positions whose lot is Expiring Soon, so between 0 and the lot count, 0 exactly when no lot is expiring soon, all exactly when every lot is |
| Dashboard.ExpiringCount | components/Dashboard.tsx:41 | the length of the expiring-soon filter is the number of positions whose lot is Expiring Soon; so 0 iff none is and the whole list iff all are |
| Dashboard.CratesDebtIsSummaryTotal | components/Dashboard.tsx:43 | with distinct customer ids and known customers the crates debt is the total of the crate page's summary balances |
| Dashboard.TotalOutstandingIsNetSales | components/Dashboard.tsx:42 | with derived balances, distinct ids and known customers the total outstanding is all sales minus all payments |

## Left out

- Rendering, hooks, modal state and navigation. This includes the effects that fill a form from the edited record (components/CrateManagement.tsx:26-33, components/TransactionLedger.tsx:49-78) and the print view toggle. Of these effects only the sale rows loaded from an edited sale are modelled (`TransactionLedger.LoadRows`).
- components/Forecasting.tsx and services/geminiService.ts are not part of this model. They make a network call to a language model.
- Date strings, `toISOString` and local time zones. Dates are integer milliseconds, and a day is a UTC day.
- Floating-point money and `Number(...)` coercion of form strings. Amounts and counts are integers; a typed number field is the integer it reads as (`TransactionLedger.FormNumber`), and text a number input would not accept is not modelled.
- The payment amount `NaN` or an empty string is treated the same as a missing value.
- `Date.now()` ids, the clock, `window.confirm` and `alert`. These are parameters or `Err` results.
- The colour classes of `getStatus` are carried but nothing is proved about them.
- CrateManagement's `getCustomerName` (components/CrateManagement.tsx:35-37) is only used for display. It has the same shape as the ledger's `TransactionLedger.GetCustomerName`, which is modelled.
- `handleAddItem` reads its fields from the form; the model takes them as parameters. The lot number built from the clock is a parameter as well.
- Dashboard.Stats: the total outstanding and the crates debt are stated through `Dashboard.TotalOutstandingIsNetSales` and `Dashboard.CratesDebtIsSummaryTotal`, not in its own contract.
- CustomerManagement.EditKeepsIdentity: the verification flag is only proved for an edited customer that is in the list with a unique id. The source copies the flag from the record being edited.
- Text.Lower lowers only ASCII letters. Unicode case folding is not modelled.
