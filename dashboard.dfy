/**
 * The dashboard figures (components/Dashboard.tsx): its own copy of the
 * expiry status and the four statistics.
 */
module Dashboard {
  import opened Types
  import opened Seqs
  import opened Dates
  import InventoryManagement
  import CrateManagement
  import App

  /** The dashboard's own `getStatus`, which only returns the status; it agrees with the inventory page. */
  function StatusOf(expiry: int, now: int): (r: ItemStatus)
    ensures r == InventoryManagement.GetStatus(expiry, now).status
  {
    var diffDays := CeilDiv(expiry - now, DAY);
    if diffDays < 0 then Expired
    else if diffDays <= 3 then ExpiringSoon
    else Fresh
  }

  datatype DashboardStats = DashboardStats(totalCustomers: int, itemsExpiringSoon: int, totalOutstanding: int, cratesDebt: int)

  function IsExpiringSoon(now: int): InventoryItem -> bool
  {
    (item: InventoryItem) => StatusOf(item.expiryDate, now) == ExpiringSoon
  }

  function Outstanding(c: CustomerWithBalance): int { c.outstandingBalance }

  /** What an entry adds to the crates out: issued minus returned. */
  function EntryNet(e: CrateLedgerEntry): int { e.cratesIssued - e.cratesReturned }

  /**
   * `stats`: the number of customers, the number of lots expiring soon, the
   * sum of the balances and the crates issued minus returned over the ledger.
   */
  function Stats(customers: seq<CustomerWithBalance>, inventory: seq<InventoryItem>, ledger: seq<CrateLedgerEntry>, now: int)
    : (r: DashboardStats)
    ensures r.totalCustomers == |customers|
    ensures r.itemsExpiringSoon == |set i | 0 <= i < |inventory| && StatusOf(inventory[i].expiryDate, now) == ExpiringSoon|
    ensures 0 <= r.itemsExpiringSoon <= |inventory|
    ensures r.itemsExpiringSoon == 0 <==> forall i :: 0 <= i < |inventory| ==> StatusOf(inventory[i].expiryDate, now) != ExpiringSoon
    ensures r.itemsExpiringSoon == |inventory| <==> forall i :: 0 <= i < |inventory| ==> StatusOf(inventory[i].expiryDate, now) == ExpiringSoon
  {
    ExpiringCount(inventory, now);
    var soon := Filter(inventory, IsExpiringSoon(now));
    DashboardStats(|customers|, |soon|, SumBy(customers, Outstanding), SumBy(ledger, EntryNet))
  }

  /**
   * The count of lots expiring soon is the number of positions of the
   * inventory whose lot is Expiring Soon; so it is 0 exactly when no lot
   * is, and the whole list exactly when all are.
   */
  lemma ExpiringCount(inventory: seq<InventoryItem>, now: int)
    ensures var n := |Filter(inventory, IsExpiringSoon(now))|;
            && n == |set i | 0 <= i < |inventory| && StatusOf(inventory[i].expiryDate, now) == ExpiringSoon|
            && (n == 0 <==> forall i :: 0 <= i < |inventory| ==> StatusOf(inventory[i].expiryDate, now) != ExpiringSoon)
            && (n == |inventory| <==> forall i :: 0 <= i < |inventory| ==> StatusOf(inventory[i].expiryDate, now) == ExpiringSoon)
  {
    var soon := Filter(inventory, IsExpiringSoon(now));
    FilterLength(inventory, IsExpiringSoon(now));
    var positions := set i | 0 <= i < |inventory| && StatusOf(inventory[i].expiryDate, now) == ExpiringSoon;
    assert Positions(inventory, IsExpiringSoon(now)) == positions;
    if soon == [] {
      FilterDropsAll(inventory, IsExpiringSoon(now));
    } else {
      FilterSound(inventory, IsExpiringSoon(now));
      assert soon[0] in soon;
    }
    if |soon| == |inventory| {
      FilterKeepsAll(inventory, IsExpiringSoon(now));
    } else if forall i :: 0 <= i < |inventory| ==> IsExpiringSoon(now)(inventory[i]) {
      FilterAll(inventory, IsExpiringSoon(now));
    }
  }

  /** The crates debt of an entry goes to the customer it names. */
  function EntryCustomer(e: CrateLedgerEntry): string { e.customerId }

  function SummaryBalance(row: CrateManagement.CrateSummary): int { row.balance }

  function Ids(customers: seq<Customer>): (r: seq<string>)
    ensures |r| == |customers| && forall i :: 0 <= i < |r| ==> r[i] == customers[i].id
  {
    seq(|customers|, i requires 0 <= i < |customers| => customers[i].id)
  }

  /**
   * When customer ids are distinct and every entry names a known customer,
   * the crates debt is the total of the crate page's per-customer balances.
   */
  lemma CratesDebtIsSummaryTotal(customers: seq<Customer>, ledger: seq<CrateLedgerEntry>,
                                 withBalance: seq<CustomerWithBalance>, inventory: seq<InventoryItem>, now: int)
    requires forall i, j :: 0 <= i < j < |customers| ==> customers[i].id != customers[j].id
    requires forall k :: 0 <= k < |ledger| ==> exists i :: 0 <= i < |customers| && customers[i].id == ledger[k].customerId
    ensures Stats(withBalance, inventory, ledger, now).cratesDebt
            == SumBy(CrateManagement.CustomerCrateSummary(customers, ledger), SummaryBalance)
  {
    var ids := Ids(customers);
    forall k | 0 <= k < |ledger| ensures EntryCustomer(ledger[k]) in ids {
      var i :| 0 <= i < |customers| && customers[i].id == ledger[k].customerId;
      assert ids[i] == ledger[k].customerId;
    }
    SumOfGroupSums(ids, ledger, EntryCustomer, EntryNet);
    var summary := CrateManagement.CustomerCrateSummary(customers, ledger);
    forall i | 0 <= i < |summary|
      ensures SummaryBalance(summary[i]) == GroupSum(ledger, EntryCustomer, EntryNet)(ids[i])
    {
      SummaryRowIsGroupSum(customers, ledger, i);
    }
    SumByPointwise(summary, SummaryBalance, ids, GroupSum(ledger, EntryCustomer, EntryNet));
  }

  lemma SummaryRowIsGroupSum(customers: seq<Customer>, ledger: seq<CrateLedgerEntry>, i: nat)
    requires i < |customers|
    ensures SummaryBalance(CrateManagement.CustomerCrateSummary(customers, ledger)[i])
            == GroupSum(ledger, EntryCustomer, EntryNet)(customers[i].id)
  {
    var id := customers[i].id;
    CrateManagement.SummaryIsNet(customers, ledger, i);
    forall j | 0 <= j < |ledger|
      ensures CrateManagement.NetShare(id)(ledger[j]) == KeyShare(EntryCustomer, EntryNet, id)(ledger[j])
    {
      var e := ledger[j];
      assert EntryCustomer(e) == e.customerId;
      assert KeyShare(EntryCustomer, EntryNet, id)(e) == if e.customerId == id then EntryNet(e) else 0;
      assert CrateManagement.NetShare(id)(e) == if e.customerId == id then e.cratesIssued - e.cratesReturned else 0;
    }
    SumByCongruent(ledger, CrateManagement.NetShare(customers[i].id), KeyShare(EntryCustomer, EntryNet, customers[i].id));
  }

  /** What a transaction adds to the money owed: a sale's total, minus a payment's amount. */
  function TxNet(tx: Transaction): int
  {
    if tx.kind == Sale then tx.totalAmount else -tx.paymentAmount.GetOr(0)
  }

  function TxCustomer(tx: Transaction): string { tx.customerId }

  /** A customer's balance is the sum of the net amounts of its transactions. */
  lemma BalanceIsGroupSum(transactions: seq<Transaction>, id: string)
    ensures App.BalanceOf(transactions, id) == GroupSum(transactions, TxCustomer, TxNet)(id)
  {
    forall tx ensures App.SaleShare(id)(tx) == KeyShare(TxCustomer, TxNet, id)(tx) + App.PaymentShare(id)(tx) {
      assert TxCustomer(tx) == tx.customerId;
      assert KeyShare(TxCustomer, TxNet, id)(tx) == if tx.customerId == id then TxNet(tx) else 0;
      assert App.SaleShare(id)(tx) == if tx.customerId == id && tx.kind == Sale then tx.totalAmount else 0;
      assert App.PaymentShare(id)(tx) == if tx.customerId == id && tx.kind == Payment then tx.paymentAmount.GetOr(0) else 0;
    }
    SumByAdd(transactions, KeyShare(TxCustomer, TxNet, id), App.PaymentShare(id), App.SaleShare(id));
  }

  /**
   * When the balances are the app's derived ones, customer ids are distinct
   * and every transaction names a known customer, the total outstanding is
   * all sales minus all payments.
   */
  lemma TotalOutstandingIsNetSales(customers: seq<Customer>, transactions: seq<Transaction>,
                                   withBalance: seq<CustomerWithBalance>, inventory: seq<InventoryItem>,
                                   ledger: seq<CrateLedgerEntry>, now: int)
    requires |withBalance| == |customers|
    requires forall i :: 0 <= i < |customers| ==> withBalance[i].outstandingBalance == App.BalanceOf(transactions, customers[i].id)
    requires forall i, j :: 0 <= i < j < |customers| ==> customers[i].id != customers[j].id
    requires forall k :: 0 <= k < |transactions| ==> exists i :: 0 <= i < |customers| && customers[i].id == transactions[k].customerId
    ensures Stats(withBalance, inventory, ledger, now).totalOutstanding == SumBy(transactions, TxNet)
  {
    var ids := Ids(customers);
    forall k | 0 <= k < |transactions| ensures TxCustomer(transactions[k]) in ids {
      var i :| 0 <= i < |customers| && customers[i].id == transactions[k].customerId;
      assert ids[i] == transactions[k].customerId;
    }
    SumOfGroupSums(ids, transactions, TxCustomer, TxNet);
    forall i | 0 <= i < |withBalance|
      ensures Outstanding(withBalance[i]) == GroupSum(transactions, TxCustomer, TxNet)(ids[i])
    {
      BalanceIsGroupSum(transactions, ids[i]);
    }
    SumByPointwise(withBalance, Outstanding, ids, GroupSum(transactions, TxCustomer, TxNet));
  }
}
