/**
 * The customer page (components/CustomerManagement.tsx): the statement of
 * one customer over a period, and saving a new or edited customer.
 */
module CustomerManagement {
  import opened Types
  import opened Seqs
  import opened Dates
  import App
  import PrintReport

  function StatementPred(id: string, startDate: int, endDate: int): Transaction -> bool
  {
    (tx: Transaction) => tx.customerId == id && InRange(tx.date, startDate, endDate)
  }

  /**
   * `handleGenerateReport`: nothing without a chosen customer; otherwise
   * that customer's transactions from the start of the first day to the end
   * of the last day, both days included, in input order.
   */
  function GenerateStatement(customerForReport: Option<Customer>, transactions: seq<Transaction>, startDate: int, endDate: int)
    : (r: Option<PrintViewData>)
    ensures r.None? <==> customerForReport.None?
    ensures r.Some? ==>
              && r.value.kind == CustomerStatement && r.value.title == "Customer Transaction Statement"
              && r.value.customer == customerForReport
              && r.value.startDate == startDate && r.value.endDate == endDate
              && forall tx :: multiset(r.value.transactions)[tx]
                              == if tx.customerId == customerForReport.value.id && StartOfDay(startDate) <= tx.date <= EndOfDay(endDate)
                                 then multiset(transactions)[tx] else 0
  {
    match customerForReport
    case None => None
    case Some(c) =>
      FilterCounts(transactions, StatementPred(c.id, startDate, endDate));
      Some(PrintViewData(CustomerStatement, "Customer Transaction Statement",
                         Filter(transactions, StatementPred(c.id, startDate, endDate)),
                         customerForReport, startDate, endDate))
  }

  /** The statement keeps the input order: the statement of a concatenation is the concatenation of the statements. */
  lemma StatementKeepsOrder(c: Customer, a: seq<Transaction>, b: seq<Transaction>, startDate: int, endDate: int)
    ensures GenerateStatement(Some(c), a + b, startDate, endDate).value.transactions
            == GenerateStatement(Some(c), a, startDate, endDate).value.transactions
               + GenerateStatement(Some(c), b, startDate, endDate).value.transactions
  {
    FilterAppend(a, b, StatementPred(c.id, startDate, endDate));
  }

  /**
   * When the period covers every transaction of the customer, the
   * statement's final balance is the outstanding balance the app shows.
   */
  lemma StatementBalance(c: Customer, transactions: seq<Transaction>, startDate: int, endDate: int)
    requires forall i :: 0 <= i < |transactions| && transactions[i].customerId == c.id ==>
               StartOfDay(startDate) <= transactions[i].date <= EndOfDay(endDate)
    ensures var st := GenerateStatement(Some(c), transactions, startDate, endDate).value.transactions;
            SumBy(st, PrintReport.SaleAmount) - SumBy(st, PrintReport.PaidAmount) == App.BalanceOf(transactions, c.id)
  {
    var p := StatementPred(c.id, startDate, endDate);
    var st := Filter(transactions, p);
    FilterSound(transactions, p);
    forall i | 0 <= i < |st| ensures st[i].customerId == c.id {
      assert st[i] in st;
    }
    PrintReport.SummaryIsBalance(st, c.id);
    SumByFilter(transactions, p, App.SaleShare(c.id));
    SumByFilter(transactions, p, App.PaymentShare(c.id));
  }

  /** The photo: the entered one, or the default when the field is empty. */
  function PhotoOr(photoUrl: string, defaultPhoto: string): (r: string)
    ensures photoUrl != "" ==> r == photoUrl
    ensures photoUrl == "" ==> r == defaultPhoto
  {
    if photoUrl != "" then photoUrl else defaultPhoto
  }

  /** The customer list without the derived balances. */
  function StripBalances(customers: seq<CustomerWithBalance>): (r: seq<Customer>)
    ensures |r| == |customers|
    ensures forall i :: 0 <= i < |r| ==> r[i] == customers[i].customer
  {
    seq(|customers|, i requires 0 <= i < |customers| => customers[i].customer)
  }

  /**
   * `handleSaveCustomer`: the balances are dropped; an edit rewrites the
   * form fields of the customers with the edited id and keeps the rest; a
   * new customer (id and default photo passed in) goes first, not verified.
   */
  function HandleSaveCustomer(customers: seq<CustomerWithBalance>, editing: Option<Customer>,
                              name: string, address: string, contact: string, photoUrl: string,
                              newId: string, defaultPhoto: string): (r: seq<Customer>)
    ensures editing.Some? ==>
              && |r| == |customers|
              && forall i :: 0 <= i < |r| ==>
                   if customers[i].customer.id == editing.value.id then
                     r[i] == editing.value.(name := name, address := address, contactNumber := contact,
                                            photoUrl := PhotoOr(photoUrl, defaultPhoto))
                   else r[i] == customers[i].customer
    ensures editing.None? ==>
              && |r| == |customers| + 1
              && r[0] == Customer(newId, name, address, contact, PhotoOr(photoUrl, defaultPhoto), false)
              && r[1..] == StripBalances(customers)
  {
    var all := StripBalances(customers);
    match editing
    case Some(e) =>
      var updated := e.(name := name, address := address, contactNumber := contact, photoUrl := PhotoOr(photoUrl, defaultPhoto));
      seq(|all|, i requires 0 <= i < |all| => if all[i].id == e.id then updated else all[i])
    case None =>
      [Customer(newId, name, address, contact, PhotoOr(photoUrl, defaultPhoto), false)] + all
  }

  /**
   * With distinct ids, an edit of a listed customer keeps every customer's
   * id in place, so each keeps its transactions and balance, and never
   * touches a verification flag.
   */
  lemma EditKeepsIdentity(customers: seq<CustomerWithBalance>, editing: Customer,
                          name: string, address: string, contact: string, photoUrl: string,
                          newId: string, defaultPhoto: string)
    requires forall i, j :: 0 <= i < j < |customers| ==> customers[i].customer.id != customers[j].customer.id
    requires exists i :: 0 <= i < |customers| && customers[i].customer == editing
    ensures var r := HandleSaveCustomer(customers, Some(editing), name, address, contact, photoUrl, newId, defaultPhoto);
            forall i :: 0 <= i < |customers| ==>
              r[i].id == customers[i].customer.id && r[i].aadhaarVerified == customers[i].customer.aadhaarVerified
  {
    var r := HandleSaveCustomer(customers, Some(editing), name, address, contact, photoUrl, newId, defaultPhoto);
    var k :| 0 <= k < |customers| && customers[k].customer == editing;
    forall i | 0 <= i < |customers|
      ensures r[i].id == customers[i].customer.id && r[i].aadhaarVerified == customers[i].customer.aadhaarVerified
    {
      if customers[i].customer.id == editing.id {
        assert i == k;
      }
    }
  }

  /** Adding keeps every existing customer, unchanged and in order, behind the new one. */
  lemma AddKeepsCustomers(customers: seq<CustomerWithBalance>,
                          name: string, address: string, contact: string, photoUrl: string,
                          newId: string, defaultPhoto: string)
    ensures var r := HandleSaveCustomer(customers, None, name, address, contact, photoUrl, newId, defaultPhoto);
            forall i :: 0 <= i < |customers| ==> r[i + 1] == customers[i].customer
  {
    var r := HandleSaveCustomer(customers, None, name, address, contact, photoUrl, newId, defaultPhoto);
    forall i | 0 <= i < |customers| ensures r[i + 1] == customers[i].customer {
      assert r[i + 1] == r[1..][i];
    }
  }

  /**
   * The customer an add puts first has the fresh id; while no transaction
   * names that id, the app shows a balance of 0 for it.
   */
  lemma NewCustomerOwesNothing(customers: seq<CustomerWithBalance>, name: string, address: string, contact: string,
                               photoUrl: string, newId: string, defaultPhoto: string, transactions: seq<Transaction>)
    requires forall i :: 0 <= i < |transactions| ==> transactions[i].customerId != newId
    ensures var r := HandleSaveCustomer(customers, None, name, address, contact, photoUrl, newId, defaultPhoto);
            r[0].id == newId && App.BalanceOf(transactions, r[0].id) == 0
  {
    App.NoTransactionsNoBalance(transactions, newId);
  }
}
