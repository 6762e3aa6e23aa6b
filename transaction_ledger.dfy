/**
 * The transaction ledger page (components/TransactionLedger.tsx): the lots
 * offered for sale, the filtered and sorted list, customer names, the
 * business report, sale-line validation, saving and deleting transactions,
 * the running grand total of the form and removing a form row.
 */
module TransactionLedger {
  import opened Types
  import opened Seqs
  import opened StableSort
  import opened Dates
  import opened Text
  import InventoryManagement
  import App

  // ---------------------------------------------------------------------
  // Lots offered in the sale form

  function ExpiresAfter(now: int): InventoryItem -> bool
  {
    (item: InventoryItem) => item.expiryDate > now
  }

  /** `availableInventory`: the lots whose expiry is still ahead, in list order. */
  function AvailableInventory(inventory: seq<InventoryItem>, now: int): (r: seq<InventoryItem>)
    ensures forall x :: multiset(r)[x] == if x.expiryDate > now then multiset(inventory)[x] else 0
  {
    FilterCounts(inventory, ExpiresAfter(now));
    Filter(inventory, ExpiresAfter(now))
  }

  /** No lot the inventory page shows as Expired is offered for sale. */
  lemma ExpiredNeverAvailable(inventory: seq<InventoryItem>, now: int)
    ensures forall x | x in AvailableInventory(inventory, now) ::
              x in inventory && InventoryManagement.GetStatus(x.expiryDate, now).status != Expired
  {
    forall x | x in AvailableInventory(inventory, now)
      ensures x in inventory && InventoryManagement.GetStatus(x.expiryDate, now).status != Expired
    {
      assert multiset(AvailableInventory(inventory, now))[x] > 0;
    }
  }

  /**
   * The two pages disagree for up to a day after expiry: such a lot is
   * shown as Expiring Soon (and may carry the Sell First flag) but is no
   * longer offered for sale.
   */
  lemma JustExpiredIsSoonButUnavailable(item: InventoryItem, now: int)
    requires now - DAY < item.expiryDate <= now
    ensures InventoryManagement.GetStatus(item.expiryDate, now).status == ExpiringSoon
    ensures InventoryManagement.IsFefo([item], 0, now)
    ensures AvailableInventory([item], now) == []
  {
    assert [item][..0] == [];
  }

  // ---------------------------------------------------------------------
  // The filtered list

  /** The tabs of the ledger. */
  datatype LedgerView = AllTransactions | SalesOnly | PaymentsOnly

  function OfKind(kind: TxKind): Transaction -> bool
  {
    (tx: Transaction) => tx.kind == kind
  }

  function ForCustomer(id: string): Transaction -> bool
  {
    (tx: Transaction) => tx.customerId == id
  }

  /** Some line of the sale has an item name that, lower-cased, contains `lowered`. */
  predicate HasItemLike(tx: Transaction, lowered: string)
  {
    exists i | 0 <= i < |tx.items| :: Contains(Lower(tx.items[i].itemName), lowered)
  }

  /** The item filter step: payments never match, a sale matches through one of its lines. */
  function MatchesItem(lowered: string): Transaction -> bool
  {
    (tx: Transaction) => if tx.kind == Payment then false else HasItemLike(tx, lowered)
  }

  /** What each step asks of a transaction, an empty filter asking nothing. */
  function ViewPred(view: LedgerView): Transaction -> bool
  {
    (tx: Transaction) => match view
      case AllTransactions => true
      case SalesOnly => tx.kind == Sale
      case PaymentsOnly => tx.kind == Payment
  }

  function ViewAndCustomer(view: LedgerView, filterCustomer: string): Transaction -> bool
  {
    (tx: Transaction) => ViewPred(view)(tx) && (filterCustomer == "" || tx.customerId == filterCustomer)
  }

  /** A transaction is listed exactly when it passes the tab, the customer filter and the item filter. */
  function Passes(view: LedgerView, filterCustomer: string, filterItem: string): Transaction -> bool
  {
    (tx: Transaction) => ViewAndCustomer(view, filterCustomer)(tx)
                         && (filterItem == "" || MatchesItem(Lower(filterItem))(tx))
  }

  /** The list the ledger shows: the passing transactions, newest first, ties in input order. */
  function Shown(transactions: seq<Transaction>, view: LedgerView, filterCustomer: string, filterItem: string): seq<Transaction>
  {
    SortBy(Filter(transactions, Passes(view, filterCustomer, filterItem)), NegTxDate)
  }

  /**
   * `filteredTransactions`: the copy is narrowed step by step (tab,
   * customer, item), then sorted by date descending.
   */
  method FilteredTransactions(transactions: seq<Transaction>, view: LedgerView, filterCustomer: string, filterItem: string)
    returns (r: seq<Transaction>)
    ensures r == Shown(transactions, view, filterCustomer, filterItem)
  {
    var filtered := transactions;
    if view == SalesOnly {
      filtered := Filter(filtered, OfKind(Sale));
      FilterCongruent(transactions, OfKind(Sale), ViewPred(view));
    } else if view == PaymentsOnly {
      filtered := Filter(filtered, OfKind(Payment));
      FilterCongruent(transactions, OfKind(Payment), ViewPred(view));
    } else {
      FilterAll(transactions, ViewPred(view));
    }
    assert filtered == Filter(transactions, ViewPred(view));

    if filterCustomer != "" {
      FilterFilter(transactions, ViewPred(view), ForCustomer(filterCustomer), ViewAndCustomer(view, filterCustomer));
      filtered := Filter(filtered, ForCustomer(filterCustomer));
    } else {
      FilterCongruent(transactions, ViewPred(view), ViewAndCustomer(view, filterCustomer));
    }
    assert filtered == Filter(transactions, ViewAndCustomer(view, filterCustomer));

    if filterItem != "" {
      var lowered := Lower(filterItem);
      FilterFilter(transactions, ViewAndCustomer(view, filterCustomer), MatchesItem(lowered), Passes(view, filterCustomer, filterItem));
      filtered := Filter(filtered, MatchesItem(lowered));
    } else {
      FilterCongruent(transactions, ViewAndCustomer(view, filterCustomer), Passes(view, filterCustomer, filterItem));
    }
    assert filtered == Filter(transactions, Passes(view, filterCustomer, filterItem));

    r := SortBy(filtered, NegTxDate);
  }

  /**
   * The list holds every passing transaction as often as the input does and
   * nothing else, newest first, with equal dates in input order.
   */
  lemma ShownIsSortedSelection(transactions: seq<Transaction>, view: LedgerView, filterCustomer: string, filterItem: string)
    ensures var r := Shown(transactions, view, filterCustomer, filterItem);
            && (forall tx :: multiset(r)[tx] == if Passes(view, filterCustomer, filterItem)(tx) then multiset(transactions)[tx] else 0)
            && (forall i, j :: 0 <= i < j < |r| ==> r[i].date >= r[j].date)
            && (forall d :: WithKey(r, NegTxDate, d) == WithKey(Filter(transactions, Passes(view, filterCustomer, filterItem)), NegTxDate, d))
  {
    var f := Filter(transactions, Passes(view, filterCustomer, filterItem));
    FilterCounts(transactions, Passes(view, filterCustomer, filterItem));
    SortByCorrect(f, NegTxDate);
    var r := SortBy(f, NegTxDate);
    forall i, j | 0 <= i < j < |r| ensures r[i].date >= r[j].date {
      assert NegTxDate(r[i]) <= NegTxDate(r[j]);
    }
  }

  /**
   * What each filter guarantees of a listed transaction: the tab's kind,
   * the chosen customer, and for an item filter a sale with a matching
   * line; with no filter at all the list is a reordering of the input.
   */
  lemma ShownRespectsFilters(transactions: seq<Transaction>, view: LedgerView, filterCustomer: string, filterItem: string)
    ensures var r := Shown(transactions, view, filterCustomer, filterItem);
            forall tx | tx in r ::
              && tx in transactions
              && (view == SalesOnly ==> tx.kind == Sale)
              && (view == PaymentsOnly ==> tx.kind == Payment)
              && (filterCustomer != "" ==> tx.customerId == filterCustomer)
              && (filterItem != "" ==> tx.kind == Sale && HasItemLike(tx, Lower(filterItem)))
    ensures view == AllTransactions && filterCustomer == "" && filterItem == "" ==>
              multiset(Shown(transactions, view, filterCustomer, filterItem)) == multiset(transactions)
  {
    ShownIsSortedSelection(transactions, view, filterCustomer, filterItem);
    var r := Shown(transactions, view, filterCustomer, filterItem);
    forall tx | tx in r
      ensures tx in transactions && Passes(view, filterCustomer, filterItem)(tx)
      ensures ViewAndCustomer(view, filterCustomer)(tx) && ViewPred(view)(tx)
    {
      assert multiset(r)[tx] > 0;
    }
    if view == AllTransactions && filterCustomer == "" && filterItem == "" {
      forall tx ensures multiset(r)[tx] == multiset(transactions)[tx] {
        assert ViewPred(view)(tx);
        assert ViewAndCustomer(view, filterCustomer)(tx);
        assert Passes(view, filterCustomer, filterItem)(tx);
      }
      assert multiset(r) == multiset(transactions);
    }
  }

  /** The item filter ignores case: two filters that lower-case alike list the same transactions. */
  lemma ItemFilterIgnoresCase(transactions: seq<Transaction>, view: LedgerView, filterCustomer: string, a: string, b: string)
    requires Lower(a) == Lower(b)
    ensures Shown(transactions, view, filterCustomer, a) == Shown(transactions, view, filterCustomer, b)
  {
    assert |a| == |Lower(a)| == |Lower(b)| == |b|;
    FilterCongruent(transactions, Passes(view, filterCustomer, a), Passes(view, filterCustomer, b));
  }

  // ---------------------------------------------------------------------
  // Customer names and the business report

  function IdIs(id: string): Customer -> bool
  {
    (c: Customer) => c.id == id
  }

  /** `getCustomerName`: the name of the first customer with that id, unless missing or nameless. */
  function GetCustomerName(customers: seq<Customer>, id: string): (r: string)
    ensures (forall i :: 0 <= i < |customers| ==> customers[i].id != id) ==> r == "Unknown Customer"
    ensures forall i :: 0 <= i < |customers| && customers[i].id == id && (forall j :: 0 <= j < i ==> customers[j].id != id) ==>
              r == if customers[i].name == "" then "Unknown Customer" else customers[i].name
    ensures r != "Unknown Customer" ==>
              exists i :: 0 <= i < |customers| && customers[i].id == id && customers[i].name == r
                          && forall j :: 0 <= j < i ==> customers[j].id != id
  {
    match Find(customers, IdIs(id))
    case Some(c) => if c.name == "" then "Unknown Customer" else c.name
    case None => "Unknown Customer"
  }

  /** The dictionary `resolvedCustomers` is built into: one key per id, a later customer overwriting an earlier one. */
  function ById(customers: seq<Customer>): map<string, Customer>
  {
    if customers == [] then map[]
    else
      var last := customers[|customers| - 1];
      ById(customers[..|customers| - 1])[last.id := last]
  }

  /** `resolvedCustomers`: a reduce that writes every customer into the dictionary under its id. */
  method ResolveCustomers(customers: seq<Customer>) returns (m: map<string, Customer>)
    ensures m == ById(customers)
  {
    m := map[];
    for i := 0 to |customers|
      invariant m == ById(customers[..i])
    {
      assert customers[..i + 1][..i] == customers[..i];
      m := m[customers[i].id := customers[i]];
    }
    assert customers[..|customers|] == customers;
  }

  /** The dictionary's keys are exactly the ids of the list. */
  lemma {:induction false} ByIdKeys(customers: seq<Customer>)
    ensures forall k :: k in ById(customers) <==> exists i :: 0 <= i < |customers| && customers[i].id == k
  {
    if customers != [] {
      var init := customers[..|customers| - 1];
      ByIdKeys(init);
      forall k | exists i :: 0 <= i < |customers| && customers[i].id == k
        ensures k in ById(customers)
      {
        var i :| 0 <= i < |customers| && customers[i].id == k;
        if i < |init| {
          assert init[i].id == k;
        }
      }
    }
  }

  /** Each key holds the last customer of the list with that id. */
  lemma {:induction false} ByIdLastWins(customers: seq<Customer>, k: string)
    requires k in ById(customers)
    ensures exists i :: 0 <= i < |customers| && customers[i] == ById(customers)[k] && customers[i].id == k
                        && forall j :: i < j < |customers| ==> customers[j].id != k
  {
    var init, last := customers[..|customers| - 1], customers[|customers| - 1];
    if k == last.id {
      assert customers[|customers| - 1] == ById(customers)[k];
    } else {
      ByIdLastWins(init, k);
      var i :| 0 <= i < |init| && init[i] == ById(init)[k] && init[i].id == k
               && forall j :: i < j < |init| ==> init[j].id != k;
      assert customers[i] == init[i];
    }
  }

  /** With distinct ids the dictionary and `find` agree. */
  lemma ByIdAgreesWithFind(customers: seq<Customer>, k: string)
    requires forall i, j :: 0 <= i < j < |customers| ==> customers[i].id != customers[j].id
    ensures k in ById(customers) <==> Find(customers, IdIs(k)).Some?
    ensures k in ById(customers) ==> Find(customers, IdIs(k)) == Some(ById(customers)[k])
  {
    var f := Find(customers, IdIs(k));
    if k in ById(customers) {
      ByIdLastWins(customers, k);
      var i :| 0 <= i < |customers| && customers[i] == ById(customers)[k] && customers[i].id == k;
      assert f.Some? by { assert IdIs(k)(customers[i]); }
      var i' :| 0 <= i' < |customers| && customers[i'] == f.value && IdIs(k)(customers[i']);
      assert i' == i;
    } else {
      ByIdKeys(customers);
      assert forall i :: 0 <= i < |customers| ==> !IdIs(k)(customers[i]);
    }
  }

  function Lookup(m: map<string, Customer>, k: string): Option<Customer>
  {
    if k in m then Some(m[k]) else None
  }

  function InPeriod(startDate: int, endDate: int): Transaction -> bool
  {
    (tx: Transaction) => InRange(tx.date, startDate, endDate)
  }

  /**
   * `handleGenerateReport`: the transactions from the first millisecond of
   * the start day to the last millisecond of the end day, in input order,
   * each with its customer attached from the dictionary, and with the name
   * `getCustomerName` gives.
   */
  method HandleGenerateReport(transactions: seq<Transaction>, customers: seq<Customer>, startDate: int, endDate: int)
    returns (data: PrintViewData, names: seq<string>)
    ensures data.kind == BusinessReport && data.title == "Business Transaction Report"
    ensures data.customer == None && data.startDate == startDate && data.endDate == endDate
    ensures var period := Filter(transactions, InPeriod(startDate, endDate));
            && |data.transactions| == |period| == |names|
            && forall i :: 0 <= i < |period| ==>
                 && data.transactions[i] == period[i].(customer := Lookup(ById(customers), period[i].customerId))
                 && names[i] == GetCustomerName(customers, period[i].customerId)
  {
    var period := Filter(transactions, InPeriod(startDate, endDate));
    names := seq(|period|, i requires 0 <= i < |period| => GetCustomerName(customers, period[i].customerId));
    var resolved := ResolveCustomers(customers);
    var withCustomers := seq(|period|, i requires 0 <= i < |period| =>
                           period[i].(customer := Lookup(resolved, period[i].customerId)));
    data := PrintViewData(BusinessReport, "Business Transaction Report", withCustomers, None, startDate, endDate);
  }

  /**
   * The report period takes a transaction exactly when it lies between the
   * start of the first day and the end of the last, both days included,
   * and keeps the input order.
   */
  lemma PeriodSelection(transactions: seq<Transaction>, more: seq<Transaction>, startDate: int, endDate: int)
    ensures forall tx :: multiset(Filter(transactions, InPeriod(startDate, endDate)))[tx]
                         == if StartOfDay(startDate) <= tx.date <= EndOfDay(endDate) then multiset(transactions)[tx] else 0
    ensures Filter(transactions + more, InPeriod(startDate, endDate))
            == Filter(transactions, InPeriod(startDate, endDate)) + Filter(more, InPeriod(startDate, endDate))
  {
    FilterCounts(transactions, InPeriod(startDate, endDate));
    FilterAppend(transactions, more, InPeriod(startDate, endDate));
  }

  /** With distinct customer ids the attached customer is the one whose name the report shows. */
  lemma ReportCustomerIsNamed(customers: seq<Customer>, id: string)
    requires forall i, j :: 0 <= i < j < |customers| ==> customers[i].id != customers[j].id
    ensures Lookup(ById(customers), id).None? ==> GetCustomerName(customers, id) == "Unknown Customer"
    ensures Lookup(ById(customers), id).Some? && Lookup(ById(customers), id).value.name != "" ==>
              GetCustomerName(customers, id) == Lookup(ById(customers), id).value.name
  {
    ByIdAgreesWithFind(customers, id);
  }

  // ---------------------------------------------------------------------
  // Sale lines

  /**
   * A number field of a sale row. `Blank` is an unset or cleared input;
   * `Typed(n)` is the non-empty text of a number input (`e.target.value`),
   * which JavaScript counts as true even when it reads "0"; `Loaded(n)` is
   * the number copied from a saved line when a sale is opened for editing,
   * which counts as true only when it is not 0.
   */
  datatype FormNumber = Blank | Typed(n: int) | Loaded(n: int)

  /** JavaScript truthiness of the field, as in `!item.quantity`. */
  predicate Filled(v: FormNumber)
  {
    match v
    case Blank => false
    case Typed(_) => true
    case Loaded(n) => n != 0
  }

  /** `Number(v)`, with an unset or cleared field read as 0. */
  function NumberOf(v: FormNumber): int
  {
    match v
    case Blank => 0
    case Typed(n) => n
    case Loaded(n) => n
  }

  /** A row of the sale form; any field but the row id may still be empty. */
  datatype SaleFormItem = SaleFormItem(
    tempId: int,
    inventoryLotId: Option<string>,
    quantity: FormNumber,
    pricePerUnit: FormNumber,
    unit: Option<Unit>)

  function LotIs(id: string): InventoryItem -> bool
  {
    (item: InventoryItem) => item.id == id
  }

  /** The lot a row refers to: the first lot with the row's lot id. */
  function FindLot(inventory: seq<InventoryItem>, lotId: Option<string>): Option<InventoryItem>
  {
    match lotId
    case None => None
    case Some(id) => Find(inventory, LotIs(id))
  }

  /** A saved line: its total is quantity times price. */
  predicate LineWellFormed(line: SaleItem)
  {
    line.total == line.quantity * line.pricePerUnit
  }

  /**
   * One row of `processAndValidateSaleItems`: a row with an unknown lot, or
   * a quantity, price or unit that is not filled in, gives nothing;
   * otherwise the line names the lot "name (variant)". A zero that was
   * typed passes; a zero loaded from a saved line does not.
   */
  function ValidateRow(inventory: seq<InventoryItem>, row: SaleFormItem): (r: Option<SaleItem>)
    ensures r.Some? <==> FindLot(inventory, row.inventoryLotId).Some? && Filled(row.quantity)
                         && Filled(row.pricePerUnit) && row.unit.Some?
    ensures r.Some? && r.value.quantity == 0 ==> row.quantity.Typed?
    ensures r.Some? && r.value.pricePerUnit == 0 ==> row.pricePerUnit.Typed?
    ensures r.Some? ==>
              && LineWellFormed(r.value)
              && r.value.inventoryLotId == row.inventoryLotId.value
              && r.value.quantity == NumberOf(row.quantity) && r.value.pricePerUnit == NumberOf(row.pricePerUnit)
              && r.value.unit == row.unit.value
              && var lot := FindLot(inventory, row.inventoryLotId).value;
                 lot.id == r.value.inventoryLotId && r.value.itemName == lot.name + " (" + lot.variant + ")"
  {
    match FindLot(inventory, row.inventoryLotId)
    case None => None
    case Some(lot) =>
      if !Filled(row.quantity) || !Filled(row.pricePerUnit) || row.unit.None? then None
      else
        var q, p := NumberOf(row.quantity), NumberOf(row.pricePerUnit);
        Some(SaleItem(row.inventoryLotId.value, lot.name + " (" + lot.variant + ")", q, row.unit.value, p, q * p))
  }

  /** The lines of the valid rows, in row order. */
  function ValidLines(inventory: seq<InventoryItem>, rows: seq<SaleFormItem>): (r: seq<SaleItem>)
    ensures |r| <= |rows|
    ensures forall i :: 0 <= i < |r| ==> LineWellFormed(r[i])
  {
    if rows == [] then []
    else
      var init := ValidLines(inventory, rows[..|rows| - 1]);
      match ValidateRow(inventory, rows[|rows| - 1])
      case Some(line) => init + [line]
      case None => init
  }

  /** No line survives exactly when no row is valid. */
  lemma {:induction false} ValidLinesEmpty(inventory: seq<InventoryItem>, rows: seq<SaleFormItem>)
    ensures ValidLines(inventory, rows) == [] <==> forall i :: 0 <= i < |rows| ==> ValidateRow(inventory, rows[i]).None?
  {
    if rows != [] {
      var init := rows[..|rows| - 1];
      ValidLinesEmpty(inventory, init);
      assert forall i :: 0 <= i < |init| ==> init[i] == rows[i];
    }
  }

  /** When every row is valid, each row becomes its line, in place. */
  lemma {:induction false} ValidLinesAllValid(inventory: seq<InventoryItem>, rows: seq<SaleFormItem>)
    requires forall i :: 0 <= i < |rows| ==> ValidateRow(inventory, rows[i]).Some?
    ensures |ValidLines(inventory, rows)| == |rows|
    ensures forall i :: 0 <= i < |rows| ==> ValidLines(inventory, rows)[i] == ValidateRow(inventory, rows[i]).value
  {
    if rows != [] {
      var init, last := rows[..|rows| - 1], rows[|rows| - 1];
      ValidLinesAllValid(inventory, init);
      assert ValidLines(inventory, rows) == ValidLines(inventory, init) + [ValidateRow(inventory, last).value];
      forall i | 0 <= i < |rows|
        ensures ValidLines(inventory, rows)[i] == ValidateRow(inventory, rows[i]).value
      {
        if i < |init| {
          assert rows[i] == init[i];
        }
      }
    }
  }

  /** Validation goes row by row: the lines of two blocks of rows are the lines of each, in order. */
  lemma {:induction false} ValidLinesAppend(inventory: seq<InventoryItem>, a: seq<SaleFormItem>, b: seq<SaleFormItem>)
    ensures ValidLines(inventory, a + b) == ValidLines(inventory, a) + ValidLines(inventory, b)
    decreases |b|
  {
    if b == [] {
      assert a + b == a;
    } else {
      var b' := b[..|b| - 1];
      assert (a + b)[..|a + b| - 1] == a + b';
      assert (a + b)[|a + b| - 1] == b[|b| - 1];
      ValidLinesAppend(inventory, a, b');
    }
  }

  /** A single row gives its line when it is valid and nothing otherwise. */
  lemma ValidLinesSingle(inventory: seq<InventoryItem>, row: SaleFormItem)
    ensures ValidLines(inventory, [row]) == if ValidateRow(inventory, row).Some? then [ValidateRow(inventory, row).value] else []
  {
    assert [row][..0] == [];
  }

  /**
   * The rows a sale is loaded into when it is opened for editing: one row
   * per saved line, with row ids counting up from the clock and the line's
   * numbers loaded as numbers.
   */
  function LoadRows(items: seq<SaleItem>, clock: int): (r: seq<SaleFormItem>)
    ensures |r| == |items|
    ensures forall i :: 0 <= i < |items| ==> r[i].tempId == clock + i && r[i].inventoryLotId == Some(items[i].inventoryLotId)
    ensures forall i :: 0 <= i < |items| ==>
              && r[i].quantity == Loaded(items[i].quantity) && r[i].pricePerUnit == Loaded(items[i].pricePerUnit)
              && r[i].unit == Some(items[i].unit)
  {
    seq(|items|, i requires 0 <= i < |items| =>
      SaleFormItem(clock + i, Some(items[i].inventoryLotId), Loaded(items[i].quantity), Loaded(items[i].pricePerUnit), Some(items[i].unit)))
  }

  /** The lot of a saved line is still in the inventory under the name the line shows. */
  predicate LineResolves(inventory: seq<InventoryItem>, line: SaleItem)
  {
    var lot := FindLot(inventory, Some(line.inventoryLotId));
    lot.Some? && line.itemName == lot.value.name + " (" + lot.value.variant + ")"
  }

  /**
   * Opening a saved sale and saving it unchanged gives back its lines when
   * every line is well formed, has a non-zero quantity and price, and its
   * lot is still in the inventory under the same name.
   */
  lemma ReloadKeepsLines(inventory: seq<InventoryItem>, items: seq<SaleItem>, clock: int)
    requires forall i :: 0 <= i < |items| ==> LineWellFormed(items[i]) && items[i].quantity != 0 && items[i].pricePerUnit != 0
    requires forall i :: 0 <= i < |items| ==> LineResolves(inventory, items[i])
    ensures ValidLines(inventory, LoadRows(items, clock)) == items
  {
    var rows := LoadRows(items, clock);
    forall i | 0 <= i < |rows| ensures ValidateRow(inventory, rows[i]) == Some(items[i]) {
      assert rows[i].quantity == Loaded(items[i].quantity) && rows[i].pricePerUnit == Loaded(items[i].pricePerUnit);
    }
    ValidLinesAllValid(inventory, rows);
  }

  /** A zero quantity typed into the form is saved as a line with total 0; the same zero loaded from a saved line is dropped. */
  lemma ZeroQuantityDependsOnOrigin(lot: InventoryItem, tempId: int, price: int)
    requires price != 0
    ensures var typed := SaleFormItem(tempId, Some(lot.id), Typed(0), Typed(price), Some(Kg));
            ValidateRow([lot], typed).Some? && ValidateRow([lot], typed).value.total == 0
    ensures ValidateRow([lot], SaleFormItem(tempId, Some(lot.id), Loaded(0), Loaded(price), Some(Kg))).None?
  {
  }

  /** `processAndValidateSaleItems`: the valid lines, or the alert when there are none. */
  function ProcessAndValidateSaleItems(inventory: seq<InventoryItem>, rows: seq<SaleFormItem>): (r: Result<seq<SaleItem>>)
    ensures r.Err? <==> forall i :: 0 <= i < |rows| ==> ValidateRow(inventory, rows[i]).None?
    ensures r.Ok? ==> r.value != [] && r.value == ValidLines(inventory, rows)
  {
    ValidLinesEmpty(inventory, rows);
    var lines := ValidLines(inventory, rows);
    if |lines| == 0 then Err("Please add at least one valid item for the sale.") else Ok(lines)
  }

  function LineTotal(line: SaleItem): int { line.total }

  /**
   * The `totalAmount` of a sale: the sum of its line totals. With no
   * negative line it is non-negative and at least every line's total.
   */
  function SaleTotal(lines: seq<SaleItem>): (r: int)
    ensures lines == [] ==> r == 0
    ensures (forall i :: 0 <= i < |lines| ==> lines[i].total >= 0) ==> r >= 0 && forall i :: 0 <= i < |lines| ==> lines[i].total <= r
  {
    SumByBounds(lines, LineTotal);
    SumBy(lines, LineTotal)
  }

  /** The `reduce` adds from the first line on; the total is the first line's plus the rest's. */
  lemma SaleTotalFromFront(lines: seq<SaleItem>)
    requires lines != []
    ensures SaleTotal(lines) == lines[0].total + SaleTotal(lines[1..])
  {
    assert lines == [lines[0]] + lines[1..];
    SumByAppend([lines[0]], lines[1..], LineTotal);
    assert [lines[0]][..0] == [];
  }

  // ---------------------------------------------------------------------
  // Saving, deleting

  /** A well-formed saved transaction: a sale totals its lines, a payment's amount is its total and positive. */
  predicate WellFormed(tx: Transaction)
  {
    && (tx.kind == Sale ==> tx.totalAmount == SaleTotal(tx.items) && forall i :: 0 <= i < |tx.items| ==> LineWellFormed(tx.items[i]))
    && (tx.kind == Payment ==> tx.paymentAmount == Some(tx.totalAmount) && tx.totalAmount > 0)
  }

  /** The crate entry a new sale asks for (`addCrateEntryFromSale`). */
  datatype CrateRequest = CrateRequest(customerId: string, date: int, quantity: int)

  /** The new transaction list and the crate entry to add, if any. */
  datatype Submission = Submission(transactions: seq<Transaction>, crates: Option<CrateRequest>)

  /** The kind being saved: an edit keeps the edited transaction's kind. */
  function SubmitKind(editing: Option<Transaction>, txType: TxKind): TxKind
  {
    if editing.Some? then editing.value.kind else txType
  }

  /** `!paymentAmount || Number(paymentAmount) <= 0` rejects. */
  predicate ValidPayment(amount: Option<int>)
  {
    amount.Some? && amount.value > 0
  }

  /** Every transaction with the id of `tx` becomes `tx`. */
  function ReplaceById(transactions: seq<Transaction>, tx: Transaction): (r: seq<Transaction>)
    ensures |r| == |transactions|
    ensures forall i :: 0 <= i < |r| ==> r[i] == if transactions[i].id == tx.id then tx else transactions[i]
  {
    seq(|transactions|, i requires 0 <= i < |transactions| => if transactions[i].id == tx.id then tx else transactions[i])
  }

  /** The saved sale or payment, on top of `base`. */
  function Saved(base: Transaction, lines: seq<SaleItem>, amount: int): Transaction
  {
    if base.kind == Sale then base.(items := lines, totalAmount := SaleTotal(lines))
    else base.(paymentAmount := Some(amount), totalAmount := amount)
  }

  /**
   * `handleSubmit`. Without a customer, or with a sale without a valid
   * line, or a payment without a positive amount, nothing is saved. An
   * edit replaces the transactions with the edited id (customer and date
   * from the form, kind unchanged); a new transaction (id passed in) is put
   * first; a new sale with crates asks for a crate entry.
   */
  function HandleSubmit(transactions: seq<Transaction>, inventory: seq<InventoryItem>, editing: Option<Transaction>,
                        txType: TxKind, customerId: string, date: int, paymentAmount: Option<int>,
                        rows: seq<SaleFormItem>, cratesIssued: Option<int>, newId: string): (r: Result<Submission>)
    ensures r.Err? <==>
              || customerId == ""
              || (SubmitKind(editing, txType) == Sale && forall i :: 0 <= i < |rows| ==> ValidateRow(inventory, rows[i]).None?)
              || (SubmitKind(editing, txType) == Payment && !ValidPayment(paymentAmount))
    ensures r.Ok? && editing.None? ==>
              var s := r.value.transactions;
              && |s| == |transactions| + 1 && s[1..] == transactions
              && s[0].id == newId && s[0].customerId == customerId && s[0].date == date && s[0].kind == txType
              && s[0].customer.None? && WellFormed(s[0])
              && (txType == Sale ==> s[0].items == ValidLines(inventory, rows) && s[0].paymentAmount.None?)
              && (txType == Payment ==> s[0].paymentAmount == paymentAmount && s[0].items == [])
    ensures r.Ok? && editing.Some? ==>
              var s := r.value.transactions;
              && |s| == |transactions|
              && r.value.crates.None?
              && forall i :: 0 <= i < |s| ==>
                   if transactions[i].id == editing.value.id then
                     && s[i].id == editing.value.id && s[i].customerId == customerId && s[i].date == date
                     && s[i].kind == editing.value.kind && s[i].customer == editing.value.customer && WellFormed(s[i])
                     && (s[i].kind == Sale ==> s[i].items == ValidLines(inventory, rows) && s[i].paymentAmount == editing.value.paymentAmount)
                     && (s[i].kind == Payment ==> s[i].paymentAmount == paymentAmount && s[i].items == editing.value.items)
                   else s[i] == transactions[i]
    ensures r.Ok? ==>
              (r.value.crates.Some? <==> editing.None? && txType == Sale && cratesIssued.Some? && cratesIssued.value > 0)
    ensures r.Ok? && r.value.crates.Some? ==> r.value.crates.value == CrateRequest(customerId, date, cratesIssued.value)
  {
    if customerId == "" then Err("Please select a customer.")
    else
      var kind := SubmitKind(editing, txType);
      var base := match editing
        case Some(tx) => tx.(customerId := customerId, date := date)
        case None => Transaction(newId, customerId, date, kind, [], None, 0, None);
      var crates := if editing.None? && kind == Sale && cratesIssued.Some? && cratesIssued.value > 0
                    then Some(CrateRequest(customerId, date, cratesIssued.value)) else None;
      if kind == Sale then
        match ProcessAndValidateSaleItems(inventory, rows)
        case Err(msg) => Err(msg)
        case Ok(lines) => Ok(Commit(transactions, editing, Saved(base, lines, 0), crates))
      else if !ValidPayment(paymentAmount) then
        assert kind == Payment;
        Err("Please enter a valid payment amount.")
      else Ok(Commit(transactions, editing, Saved(base, [], paymentAmount.value), crates))
  }

  /** An edit replaces by id and asks for no crates; a new transaction goes first. */
  function Commit(transactions: seq<Transaction>, editing: Option<Transaction>, tx: Transaction, crates: Option<CrateRequest>): Submission
  {
    if editing.Some? then Submission(ReplaceById(transactions, tx), None)
    else Submission([tx] + transactions, crates)
  }

  /** Saving keeps a list of well-formed transactions well-formed. */
  lemma SubmitKeepsWellFormed(transactions: seq<Transaction>, inventory: seq<InventoryItem>, editing: Option<Transaction>,
                              txType: TxKind, customerId: string, date: int, paymentAmount: Option<int>,
                              rows: seq<SaleFormItem>, cratesIssued: Option<int>, newId: string)
    requires forall i :: 0 <= i < |transactions| ==> WellFormed(transactions[i])
    ensures var r := HandleSubmit(transactions, inventory, editing, txType, customerId, date, paymentAmount, rows, cratesIssued, newId);
            r.Ok? ==> forall i :: 0 <= i < |r.value.transactions| ==> WellFormed(r.value.transactions[i])
  {
    var r := HandleSubmit(transactions, inventory, editing, txType, customerId, date, paymentAmount, rows, cratesIssued, newId);
    if r.Ok? && editing.None? {
      var s := r.value.transactions;
      forall i | 0 < i < |s| ensures WellFormed(s[i]) {
        assert s[i] == s[1..][i - 1] == transactions[i - 1];
      }
    }
  }

  /**
   * A new transaction moves only its customer's balance: up by the sale's
   * total, or down by the payment's amount.
   */
  lemma SubmitMovesBalance(transactions: seq<Transaction>, inventory: seq<InventoryItem>,
                           txType: TxKind, customerId: string, date: int, paymentAmount: Option<int>,
                           rows: seq<SaleFormItem>, cratesIssued: Option<int>, newId: string, k: string)
    requires HandleSubmit(transactions, inventory, None, txType, customerId, date, paymentAmount, rows, cratesIssued, newId).Ok?
    ensures var s := HandleSubmit(transactions, inventory, None, txType, customerId, date, paymentAmount, rows, cratesIssued, newId).value.transactions;
            App.BalanceOf(s, k) == App.BalanceOf(transactions, k)
              + (if k != customerId then 0
                 else if txType == Sale then SaleTotal(ValidLines(inventory, rows))
                 else -paymentAmount.value)
  {
    var s := HandleSubmit(transactions, inventory, None, txType, customerId, date, paymentAmount, rows, cratesIssued, newId).value.transactions;
    assert s == [s[0]] + transactions;
    SumByAppend([s[0]], transactions, App.SaleShare(k));
    SumByAppend([s[0]], transactions, App.PaymentShare(k));
    assert [s[0]][..0] == [];
  }

  function TxIdIsNot(id: string): Transaction -> bool
  {
    (tx: Transaction) => tx.id != id
  }

  /** `handleDelete`: after confirmation every transaction with that id goes and the rest stay, in order. */
  function HandleDelete(transactions: seq<Transaction>, transactionId: string, confirmed: bool): (r: seq<Transaction>)
    ensures !confirmed ==> r == transactions
    ensures confirmed ==> forall tx :: multiset(r)[tx] == if tx.id == transactionId then 0 else multiset(transactions)[tx]
    ensures confirmed ==> r == Filter(transactions, TxIdIsNot(transactionId))
  {
    if confirmed then
      FilterCounts(transactions, TxIdIsNot(transactionId));
      Filter(transactions, TxIdIsNot(transactionId))
    else transactions
  }

  /** Deleting from a list split in two deletes from each part and keeps the parts in order. */
  lemma DeleteKeepsOrder(a: seq<Transaction>, b: seq<Transaction>, transactionId: string)
    ensures HandleDelete(a + b, transactionId, true) == HandleDelete(a, transactionId, true) + HandleDelete(b, transactionId, true)
  {
    FilterAppend(a, b, TxIdIsNot(transactionId));
  }

  // ---------------------------------------------------------------------
  // The form

  /** A row's amount in the running total: a missing quantity or price counts 0. */
  function RowAmount(row: SaleFormItem): int
  {
    NumberOf(row.quantity) * NumberOf(row.pricePerUnit)
  }

  /** `grandTotal`: the sum of the row amounts while a sale is being entered, 0 for a payment. */
  function GrandTotal(txType: TxKind, rows: seq<SaleFormItem>): (r: int)
    ensures txType == Payment ==> r == 0
  {
    if txType != Sale then 0 else SumBy(rows, RowAmount)
  }

  /** What a row the validation drops still adds to the running total. */
  function DroppedAmount(inventory: seq<InventoryItem>): SaleFormItem -> int
  {
    (row: SaleFormItem) => if ValidateRow(inventory, row).Some? then 0 else RowAmount(row)
  }

  /**
   * The running total is the total that will be saved plus what the rows
   * the validation drops contribute (a row whose lot is not found but
   * whose quantity and price are filled in).
   */
  lemma {:induction false} GrandTotalVersusSaved(inventory: seq<InventoryItem>, rows: seq<SaleFormItem>)
    ensures GrandTotal(Sale, rows) == SaleTotal(ValidLines(inventory, rows)) + SumBy(rows, DroppedAmount(inventory))
  {
    if rows != [] {
      var init, last := rows[..|rows| - 1], rows[|rows| - 1];
      GrandTotalVersusSaved(inventory, init);
      match ValidateRow(inventory, last)
      case Some(line) =>
        SumByAppend(ValidLines(inventory, init), [line], LineTotal);
      case None =>
    }
  }

  /** When every row is valid, the running total is the total that is saved. */
  lemma GrandTotalMatchesSaved(inventory: seq<InventoryItem>, rows: seq<SaleFormItem>)
    requires forall i :: 0 <= i < |rows| ==> ValidateRow(inventory, rows[i]).Some?
    ensures GrandTotal(Sale, rows) == SaleTotal(ValidLines(inventory, rows))
  {
    GrandTotalVersusSaved(inventory, rows);
    SumByZero(rows, DroppedAmount(inventory));
  }

  function TempIdIsNot(tempId: int): SaleFormItem -> bool
  {
    (row: SaleFormItem) => row.tempId != tempId
  }

  /** `handleRemoveSaleItem`: the rows with that id go and the rest keep their order, unless only one row is left. */
  function RemoveSaleItem(rows: seq<SaleFormItem>, tempId: int): (r: seq<SaleFormItem>)
    ensures |rows| <= 1 ==> r == rows
    ensures |rows| > 1 ==> forall x :: multiset(r)[x] == if x.tempId == tempId then 0 else multiset(rows)[x]
    ensures |rows| > 1 ==> r == Filter(rows, TempIdIsNot(tempId))
  {
    if |rows| > 1 then
      FilterCounts(rows, TempIdIsNot(tempId));
      Filter(rows, TempIdIsNot(tempId))
    else rows
  }

  /** With distinct row ids the form always keeps a row. */
  lemma LastRowStays(rows: seq<SaleFormItem>, tempId: int)
    requires forall i, j :: 0 <= i < j < |rows| ==> rows[i].tempId != rows[j].tempId
    requires |rows| >= 1
    ensures |RemoveSaleItem(rows, tempId)| >= 1
  {
    if |rows| > 1 {
      var keep := if rows[0].tempId != tempId then rows[0] else rows[1];
      assert multiset(rows)[keep] > 0;
      assert keep in multiset(RemoveSaleItem(rows, tempId));
    }
  }

  /** Row ids come from the clock and can repeat; two rows with the same id are removed together, leaving none. */
  lemma RepeatedRowIdEmptiesForm(row: SaleFormItem)
    ensures RemoveSaleItem([row, row], row.tempId) == []
  {
    assert [row, row][..1] == [row];
    assert [row][..0] == [];
  }

  /** A fresh row of the sale form: only its id and the unit "kg" are filled in. */
  function BlankRow(tempId: int): SaleFormItem
  {
    SaleFormItem(tempId, None, Blank, Blank, Some(Kg))
  }

  /** `handleAddSaleItem`: a blank row (id passed in) goes at the end; the other rows stay. */
  function AddSaleItem(rows: seq<SaleFormItem>, tempId: int): (r: seq<SaleFormItem>)
    ensures |r| == |rows| + 1 && r[..|rows|] == rows
    ensures r[|rows|].tempId == tempId && r[|rows|].inventoryLotId.None?
    ensures r[|rows|].quantity.Blank? && r[|rows|].pricePerUnit.Blank? && r[|rows|].unit == Some(Kg)
  {
    rows + [BlankRow(tempId)]
  }

  /** A blank row is never saved, whatever the inventory. */
  lemma BlankRowNeverSaved(inventory: seq<InventoryItem>, tempId: int)
    ensures ValidateRow(inventory, BlankRow(tempId)).None?
    ensures ValidLines(inventory, [BlankRow(tempId)]) == []
  {
    ValidLinesSingle(inventory, BlankRow(tempId));
  }

  /** Adding a row with a fresh id and removing it again gives back the form. */
  lemma AddThenRemoveRestores(rows: seq<SaleFormItem>, tempId: int)
    requires |rows| >= 1
    requires forall i :: 0 <= i < |rows| ==> rows[i].tempId != tempId
    ensures RemoveSaleItem(AddSaleItem(rows, tempId), tempId) == rows
  {
    FilterSnoc(rows, BlankRow(tempId), TempIdIsNot(tempId));
    FilterAll(rows, TempIdIsNot(tempId));
  }

  /** A blank row adds nothing to the running total. */
  lemma AddKeepsGrandTotal(txType: TxKind, rows: seq<SaleFormItem>, tempId: int)
    ensures GrandTotal(txType, AddSaleItem(rows, tempId)) == GrandTotal(txType, rows)
  {
    SumByAppend(rows, [BlankRow(tempId)], RowAmount);
  }

  /** The field a change sets, with its new value; an emptied input is `None` or `Blank`. */
  datatype SaleField =
    | LotField(lotId: Option<string>)
    | QuantityField(quantity: FormNumber)
    | PriceField(price: FormNumber)
    | UnitField(unitValue: Option<Unit>)

  /** The row with one field set to its new value; the other fields stay. */
  function SetField(row: SaleFormItem, field: SaleField): (r: SaleFormItem)
    ensures r.tempId == row.tempId
    ensures r.inventoryLotId == if field.LotField? then field.lotId else row.inventoryLotId
    ensures r.quantity == if field.QuantityField? then field.quantity else row.quantity
    ensures r.pricePerUnit == if field.PriceField? then field.price else row.pricePerUnit
    ensures r.unit == if field.UnitField? then field.unitValue else row.unit
  {
    match field
    case LotField(v) => row.(inventoryLotId := v)
    case QuantityField(v) => row.(quantity := v)
    case PriceField(v) => row.(pricePerUnit := v)
    case UnitField(v) => row.(unit := v)
  }

  /** `handleSaleItemChange`: every row with that id gets the new value; row ids and the other rows stay. */
  function ChangeSaleItem(rows: seq<SaleFormItem>, tempId: int, field: SaleField): (r: seq<SaleFormItem>)
    ensures |r| == |rows|
    ensures forall i :: 0 <= i < |rows| ==> r[i].tempId == rows[i].tempId
    ensures forall i :: 0 <= i < |rows| && rows[i].tempId != tempId ==> r[i] == rows[i]
    ensures forall i :: 0 <= i < |rows| && rows[i].tempId == tempId ==> r[i] == SetField(rows[i], field)
  {
    seq(|rows|, i requires 0 <= i < |rows| => if rows[i].tempId == tempId then SetField(rows[i], field) else rows[i])
  }

  /**
   * With distinct row ids, a change moves the running total by the
   * difference between the changed row's old and new amounts.
   */
  lemma ChangeMovesGrandTotal(rows: seq<SaleFormItem>, k: nat, field: SaleField)
    requires k < |rows|
    requires forall i, j :: 0 <= i < j < |rows| ==> rows[i].tempId != rows[j].tempId
    ensures GrandTotal(Sale, ChangeSaleItem(rows, rows[k].tempId, field))
            == GrandTotal(Sale, rows) - RowAmount(rows[k]) + RowAmount(SetField(rows[k], field))
  {
    var r := ChangeSaleItem(rows, rows[k].tempId, field);
    assert r == rows[k := SetField(rows[k], field)];
    SumByUpdate(rows, k, SetField(rows[k], field), RowAmount);
  }
}
