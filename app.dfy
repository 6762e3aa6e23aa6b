/**
 * The derived customer balances and the crate entry a sale adds (App.tsx).
 */
module App {
  import opened Types
  import opened Seqs
  import CrateManagement

  /** What a sale adds to customer `id`'s balance. */
  function SaleShare(id: string): Transaction -> int
  {
    (tx: Transaction) => if tx.customerId == id && tx.kind == Sale then tx.totalAmount else 0
  }

  /** What a payment takes off customer `id`'s balance; a missing amount counts 0. */
  function PaymentShare(id: string): Transaction -> int
  {
    (tx: Transaction) => if tx.customerId == id && tx.kind == Payment then tx.paymentAmount.GetOr(0) else 0
  }

  /** Sum of `totalAmount` over the sales of customer `id`. */
  function SalesOf(txs: seq<Transaction>, id: string): int
  {
    SumBy(txs, SaleShare(id))
  }

  /** Sum of `paymentAmount` (missing = 0) over the payments of customer `id`. */
  function PaymentsOf(txs: seq<Transaction>, id: string): int
  {
    SumBy(txs, PaymentShare(id))
  }

  /** The outstanding balance the aggregator must produce: sales minus payments. */
  function BalanceOf(txs: seq<Transaction>, id: string): int
  {
    SalesOf(txs, id) - PaymentsOf(txs, id)
  }

  /** The change one transaction makes to the balance of customer `id`. */
  function Delta(tx: Transaction, id: string): int
  {
    SaleShare(id)(tx) - PaymentShare(id)(tx)
  }

  lemma BalanceStep(txs: seq<Transaction>, i: nat, id: string)
    requires i < |txs|
    ensures BalanceOf(txs[..i + 1], id) == BalanceOf(txs[..i], id) + Delta(txs[i], id)
  {
    assert txs[..i + 1][..i] == txs[..i];
  }

  /** The dictionary holds each customer's balance over the first `i` transactions; a missing key means 0. */
  ghost predicate Tallies(txs: seq<Transaction>, i: nat, balances: map<string, int>)
    requires i <= |txs|
  {
    forall k :: BalanceOf(txs[..i], k) == if k in balances then balances[k] else 0
  }

  /** One pass step: adding the transaction's change to its customer's entry keeps the dictionary right. */
  lemma TalliesStep(txs: seq<Transaction>, i: nat, balances: map<string, int>)
    requires i < |txs| && Tallies(txs, i, balances)
    ensures var id := txs[i].customerId;
            Tallies(txs, i + 1, balances[id := (if id in balances then balances[id] else 0) + Delta(txs[i], id)])
  {
    forall k ensures BalanceOf(txs[..i + 1], k) == BalanceOf(txs[..i], k) + Delta(txs[i], k) {
      BalanceStep(txs, i, k);
    }
  }

  /**
   * `customersWithBalance`: a dictionary set to 0 for every customer, then
   * updated by one pass over the transactions, then read back per customer.
   */
  method CustomersWithBalance(customers: seq<Customer>, transactions: seq<Transaction>)
    returns (r: seq<CustomerWithBalance>)
    ensures |r| == |customers|
    ensures forall i :: 0 <= i < |r| ==> r[i].customer == customers[i]
    ensures forall i :: 0 <= i < |r| ==>
              r[i].outstandingBalance == SalesOf(transactions, customers[i].id) - PaymentsOf(transactions, customers[i].id)
  {
    var balances: map<string, int> := map[];
    for i := 0 to |customers|
      invariant forall k :: k in balances ==> balances[k] == 0
    {
      balances := balances[customers[i].id := 0];
    }
    assert Tallies(transactions, 0, balances) by {
      assert transactions[..0] == [];
    }
    for i := 0 to |transactions|
      invariant Tallies(transactions, i, balances)
    {
      var tx := transactions[i];
      TalliesStep(transactions, i, balances);
      if tx.customerId !in balances || balances[tx.customerId] == 0 {
        balances := balances[tx.customerId := 0];
      }
      if tx.kind == Sale {
        balances := balances[tx.customerId := balances[tx.customerId] + tx.totalAmount];
      } else if tx.kind == Payment {
        balances := balances[tx.customerId := balances[tx.customerId] - tx.paymentAmount.GetOr(0)];
      }
    }
    assert transactions[..|transactions|] == transactions;
    r := seq(|customers|, i requires 0 <= i < |customers| =>
           CustomerWithBalance(customers[i], if customers[i].id in balances then balances[customers[i].id] else 0));
  }

  /** A customer with no transactions has balance 0. */
  lemma {:induction false} NoTransactionsNoBalance(txs: seq<Transaction>, id: string)
    requires forall i :: 0 <= i < |txs| ==> txs[i].customerId != id
    ensures BalanceOf(txs, id) == 0
  {
    SumByZero(txs, SaleShare(id));
    SumByZero(txs, PaymentShare(id));
  }

  /** The balance does not depend on the order of the transaction list. */
  lemma BalancePermutation(a: seq<Transaction>, b: seq<Transaction>, id: string)
    requires multiset(a) == multiset(b)
    ensures BalanceOf(a, id) == BalanceOf(b, id)
  {
    SumByPermutation(a, b, SaleShare(id));
    SumByPermutation(a, b, PaymentShare(id));
  }

  /** A payment's `totalAmount` is never read: changing it changes no balance. */
  lemma PaymentTotalUnused(txs: seq<Transaction>, i: nat, v: int, id: string)
    requires i < |txs| && txs[i].kind == Payment
    ensures BalanceOf(txs[i := txs[i].(totalAmount := v)], id) == BalanceOf(txs, id)
  {
    SumByUpdate(txs, i, txs[i].(totalAmount := v), SaleShare(id));
    SumByUpdate(txs, i, txs[i].(totalAmount := v), PaymentShare(id));
  }

  /** A transaction of another customer (known or not) leaves `id`'s balance alone, wherever it sits. */
  lemma OtherCustomerIgnored(a: seq<Transaction>, tx: Transaction, b: seq<Transaction>, id: string)
    requires tx.customerId != id
    ensures BalanceOf(a + [tx] + b, id) == BalanceOf(a + b, id)
  {
    SumByAppend(a + [tx], b, SaleShare(id));
    SumByAppend(a, [tx], SaleShare(id));
    SumByAppend(a, b, SaleShare(id));
    SumByAppend(a + [tx], b, PaymentShare(id));
    SumByAppend(a, [tx], PaymentShare(id));
    SumByAppend(a, b, PaymentShare(id));
  }

  /** Balances are not clamped: paying more than was bought leaves a negative balance. */
  lemma {:induction false} OverpaymentIsNegative(txs: seq<Transaction>, p: Transaction, id: string)
    requires p.customerId == id && p.kind == Payment && p.paymentAmount.Some?
    requires p.paymentAmount.value > SalesOf(txs, id) - PaymentsOf(txs, id)
    ensures BalanceOf(txs + [p], id) < 0
  {
    SumByAppend(txs, [p], SaleShare(id));
    SumByAppend(txs, [p], PaymentShare(id));
  }

  /** The seed transactions of the app's initial state, dated relative to `today`. */
  function SeedTransactions(today: int): seq<Transaction>
  {
    var day := 86400000;
    [ Transaction("txn001", "cust001", today - 2 * day, Sale,
                  [SaleItem("inv001", "Tomatoes", 10, Kg, 40, 400)], None, 400, None),
      Transaction("txn001a", "cust001", today - 3 * day, Sale,
                  [SaleItem("inv003", "Potatoes", 50, Kg, 30, 1500)], None, 1500, None),
      Transaction("txn002", "cust002", today - day, Sale,
                  [SaleItem("inv002", "Apples", 2, Lot, 1200, 2400)], None, 2400, None),
      Transaction("txn003", "cust001", today - day, Payment, [], Some(500), 500, None) ]
  }

  /** The seed data: cust001 owes 400 + 1500 - 500 = 1400, cust002 owes 2400, cust003 nothing. */
  lemma SeedBalance(today: int)
    ensures BalanceOf(SeedTransactions(today), "cust001") == 1400
    ensures BalanceOf(SeedTransactions(today), "cust002") == 2400
    ensures BalanceOf(SeedTransactions(today), "cust003") == 0
  {
    var s := SeedTransactions(today);
    SumOfFour(s, SaleShare("cust001"));
    SumOfFour(s, PaymentShare("cust001"));
    SumOfFour(s, SaleShare("cust002"));
    SumOfFour(s, PaymentShare("cust002"));
    SumOfFour(s, SaleShare("cust003"));
    SumOfFour(s, PaymentShare("cust003"));
  }

  lemma SumOfFour<T>(s: seq<T>, f: T -> int)
    requires |s| == 4
    ensures SumBy(s, f) == f(s[0]) + f(s[1]) + f(s[2]) + f(s[3])
  {
    assert s[..3][..2] == s[..2];
    assert s[..2][..1] == s[..1];
    assert s[..1][..0] == [];
    assert SumBy(s[..1], f) == f(s[0]);
    assert SumBy(s[..2], f) == f(s[0]) + f(s[1]);
    assert SumBy(s[..3], f) == f(s[0]) + f(s[1]) + f(s[2]);
  }

  /** `addCrateEntryFromSale`: one new entry at the end, issuing `quantity` crates. */
  function AddCrateEntryFromSale(ledger: seq<CrateLedgerEntry>, id: string, customerId: string, date: int, quantity: int)
    : (r: seq<CrateLedgerEntry>)
    ensures |r| == |ledger| + 1 && r[..|ledger|] == ledger
    ensures r[|ledger|] == CrateLedgerEntry(id, customerId, date, quantity, 0, 0)
  {
    ledger + [CrateLedgerEntry(id, customerId, date, quantity, 0, 0)]
  }

  /** The crates of a sale raise that customer's crate debt by the quantity and no one else's. */
  lemma SaleCratesRaiseDebt(ledger: seq<CrateLedgerEntry>, id: string, customerId: string, date: int, quantity: int, other: string)
    ensures CrateManagement.Net(AddCrateEntryFromSale(ledger, id, customerId, date, quantity), customerId)
         == CrateManagement.Net(ledger, customerId) + quantity
    ensures other != customerId ==>
              (CrateManagement.Net(AddCrateEntryFromSale(ledger, id, customerId, date, quantity), other)
               == CrateManagement.Net(ledger, other))
  {
    var e := CrateLedgerEntry(id, customerId, date, quantity, 0, 0);
    SumByAppend(ledger, [e], CrateManagement.NetShare(customerId));
    SumByAppend(ledger, [e], CrateManagement.NetShare(other));
  }
}
