/**
 * The records of types.ts. Timestamps are integer milliseconds since the
 * epoch (the value `new Date(s).getTime()` gives for the stored ISO string),
 * money and quantities are integers, and an optional TypeScript field is an
 * `Option`.
 */
module Types {

  datatype Option<+T> = None | Some(value: T)
  {
    /** `x || fallback` on an optional number: a missing value reads as the fallback. */
    function GetOr(fallback: T): T
    {
      match this
      case Some(v) => v
      case None => fallback
    }
  }

  /** A validation failure is an `alert` message; nothing is written. */
  datatype Result<+T> = Ok(value: T) | Err(message: string)

  datatype Unit = Kg | Lot

  datatype InventoryItem = InventoryItem(
    id: string,
    name: string,
    variant: string,
    lotNumber: string,
    quantity: int,
    unit: Unit,
    purchaseDate: int,
    expiryDate: int)

  datatype ItemStatus = Fresh | ExpiringSoon | Expired

  datatype Customer = Customer(
    id: string,
    name: string,
    address: string,
    contactNumber: string,
    photoUrl: string,
    aadhaarVerified: bool)

  /** A customer together with the balance derived from the transaction list. */
  datatype CustomerWithBalance = CustomerWithBalance(customer: Customer, outstandingBalance: int)

  /** The `type` field of a transaction: 'sale' or 'payment'. */
  datatype TxKind = Sale | Payment

  datatype SaleItem = SaleItem(
    inventoryLotId: string,
    itemName: string,
    quantity: int,
    unit: Unit,
    pricePerUnit: int,
    total: int)

  /**
   * One record for both kinds, as in the source: a payment has no items and
   * a `paymentAmount`; `customer` is only filled in for a business report.
   */
  datatype Transaction = Transaction(
    id: string,
    customerId: string,
    date: int,
    kind: TxKind,
    items: seq<SaleItem>,
    paymentAmount: Option<int>,
    totalAmount: int,
    customer: Option<Customer>)

  datatype CrateLedgerEntry = CrateLedgerEntry(
    id: string,
    customerId: string,
    date: int,
    cratesIssued: int,
    cratesReturned: int,
    balance: int)

  datatype ReportKind = CustomerStatement | BusinessReport

  /** What the print view is given. */
  datatype PrintViewData = PrintViewData(
    kind: ReportKind,
    title: string,
    transactions: seq<Transaction>,
    customer: Option<Customer>,
    startDate: int,
    endDate: int)

  function TxDate(tx: Transaction): int { tx.date }
  function NegTxDate(tx: Transaction): int { -tx.date }
  function EntryDate(e: CrateLedgerEntry): int { e.date }
  function NegEntryDate(e: CrateLedgerEntry): int { -e.date }
  function ExpiryKey(item: InventoryItem): int { item.expiryDate }
}
