/**
 * The printable report (components/PrintReport.tsx): the summary totals,
 * the rows in date order and the customer-name cell.
 */
module PrintReport {
  import opened Types
  import opened Seqs
  import opened StableSort
  import App
  import TransactionLedger

  /** The totals printed under the report. */
  datatype ReportSummary = ReportSummary(totalSales: int, totalPayments: int, finalBalance: int)

  /** What a row adds to the sales total: a sale's `totalAmount`. */
  function SaleAmount(tx: Transaction): int
  {
    if tx.kind == Sale then tx.totalAmount else 0
  }

  /** What a row adds to the payments total: anything but a sale adds its `paymentAmount`, a missing one 0. */
  function PaidAmount(tx: Transaction): int
  {
    if tx.kind == Sale then 0 else tx.paymentAmount.GetOr(0)
  }

  /**
   * `summary`: one pass over the rows adding each sale's total to the
   * sales and every other row's payment to the payments; the final balance
   * is their difference.
   */
  method Summary(transactions: seq<Transaction>) returns (r: ReportSummary)
    ensures r.totalSales == SumBy(transactions, SaleAmount)
    ensures r.totalPayments == SumBy(transactions, PaidAmount)
    ensures r.finalBalance == r.totalSales - r.totalPayments
  {
    var totalSales := 0;
    var totalPayments := 0;
    for i := 0 to |transactions|
      invariant totalSales == SumBy(transactions[..i], SaleAmount)
      invariant totalPayments == SumBy(transactions[..i], PaidAmount)
    {
      assert transactions[..i + 1][..i] == transactions[..i];
      var tx := transactions[i];
      if tx.kind == Sale {
        totalSales := totalSales + tx.totalAmount;
      } else {
        totalPayments := totalPayments + tx.paymentAmount.GetOr(0);
      }
    }
    assert transactions[..|transactions|] == transactions;
    r := ReportSummary(totalSales, totalPayments, totalSales - totalPayments);
  }

  /** `sortedTransactions`: the rows oldest first, rows of the same date in input order. */
  function SortedTransactions(transactions: seq<Transaction>): (r: seq<Transaction>)
    ensures multiset(r) == multiset(transactions)
    ensures forall i, j :: 0 <= i < j < |r| ==> r[i].date <= r[j].date
    ensures forall d :: WithKey(r, TxDate, d) == WithKey(transactions, TxDate, d)
  {
    SortByCorrect(transactions, TxDate);
    SortBy(transactions, TxDate)
  }

  /** The totals do not depend on the row order: the printed order gives the same summary. */
  lemma SummaryOrderFree(a: seq<Transaction>, b: seq<Transaction>)
    requires multiset(a) == multiset(b)
    ensures SumBy(a, SaleAmount) == SumBy(b, SaleAmount)
    ensures SumBy(a, PaidAmount) == SumBy(b, PaidAmount)
    ensures SumBy(SortedTransactions(a), SaleAmount) == SumBy(a, SaleAmount)
    ensures SumBy(SortedTransactions(a), PaidAmount) == SumBy(a, PaidAmount)
  {
    SumByPermutation(a, b, SaleAmount);
    SumByPermutation(a, b, PaidAmount);
    SumByPermutation(SortedTransactions(a), a, SaleAmount);
    SumByPermutation(SortedTransactions(a), a, PaidAmount);
  }

  /**
   * Over rows that all belong to one customer, the final balance is that
   * customer's outstanding balance as the app derives it.
   */
  lemma SummaryIsBalance(transactions: seq<Transaction>, id: string)
    requires forall i :: 0 <= i < |transactions| ==> transactions[i].customerId == id
    ensures SumBy(transactions, SaleAmount) - SumBy(transactions, PaidAmount) == App.BalanceOf(transactions, id)
  {
    SumByCongruent(transactions, SaleAmount, App.SaleShare(id));
    SumByCongruent(transactions, PaidAmount, App.PaymentShare(id));
  }

  /** The customer cell: the attached customer's name, or "N/A" when none is attached or its name is empty. */
  function CustomerName(tx: Transaction): (r: string)
    ensures tx.customer.Some? && tx.customer.value.name != "" ==> r == tx.customer.value.name
    ensures tx.customer.None? || tx.customer.value.name == "" ==> r == "N/A"
  {
    match tx.customer
    case Some(c) => if c.name == "" then "N/A" else c.name
    case None => "N/A"
  }

  /**
   * On a business report built with distinct customer ids, the customer
   * cell and the name the ledger resolved agree wherever either found one.
   */
  lemma ReportNamesAgree(customers: seq<Customer>, tx: Transaction)
    requires forall i, j :: 0 <= i < j < |customers| ==> customers[i].id != customers[j].id
    ensures var row := tx.(customer := TransactionLedger.Lookup(TransactionLedger.ById(customers), tx.customerId));
            var name := TransactionLedger.GetCustomerName(customers, tx.customerId);
            && (name != "Unknown Customer" ==> CustomerName(row) == name)
            && (CustomerName(row) != "N/A" ==> CustomerName(row) == name)
  {
    TransactionLedger.ReportCustomerIsNamed(customers, tx.customerId);
    TransactionLedger.ByIdAgreesWithFind(customers, tx.customerId);
  }
}
