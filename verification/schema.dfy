/**
 * The five tables `init_db` creates (models/database.py), their column defaults,
 * the uniqueness constraints, and the consistency the application's own guards
 * keep between them.
 */
module Schema {
  import opened Wrappers
  import opened Tables

  /** The two invoice statuses the application writes; the column itself is free text. */
  const PENDING := "pending"
  const PAID := "paid"

  /** `contractor_info`: the business issuing invoices (a singleton in practice). */
  datatype Contractor = Contractor(
    name: string, address: string, email: string, phone: string,
    taxId: string, personalTaxId: string, createdAt: string)

  /** `clients`. */
  datatype Client = Client(name: string, address: string, email: string, phone: string, createdAt: string)

  /**
   * The single-service columns of the earlier invoice schema. They are still read
   * by the migration rule; rows written by the current code leave them NULL.
   */
  datatype LegacyService = LegacyService(
    serviceName: Option<string>, serviceDescription: Option<string>,
    quantity: Option<int>, rate: Option<real>)

  const NO_LEGACY := LegacyService(None, None, None, None)

  /** `invoices`; `number` is `invoice_number`, UNIQUE NOT NULL. */
  datatype Invoice = Invoice(
    number: string, clientId: int, contractorId: int, invoiceDate: string,
    leaveDateBlank: int, total: real, dateCreated: string, status: string,
    legacy: LegacyService)

  /** `invoice_items`; `serviceDescription` is nullable. */
  datatype Item = Item(
    invoiceId: int, serviceName: string, serviceDescription: Option<string>,
    quantity: int, rate: real, amount: real, sortOrder: int)

  /** `receipts`; `number` is `receipt_number`, UNIQUE NOT NULL. */
  datatype Receipt = Receipt(
    invoiceId: int, number: string, paidAmount: real, leaveDateBlank: int, paymentDate: string)

  /** The whole database. */
  datatype Db = Db(
    contractors: Table<Contractor>, clients: Table<Client>, invoices: Table<Invoice>,
    items: Table<Item>, receipts: Table<Receipt>)

  const EMPTY := Db([], [], [], [], [])

  /** Why an operation was refused or failed. */
  datatype Error =
    | UniqueViolation   // sqlite3.IntegrityError: a UNIQUE column already holds the value
    | NotNullViolation  // sqlite3.IntegrityError: NULL written to a NOT NULL column
    | NotFound          // "Invoice not found!"
    | NotPending        // "Only pending invoices can be ..." / "Invoice is already paid!"
    | HasReceipt        // "Cannot delete invoice with existing receipt"
    | HasInvoices       // "Cannot delete client with existing invoices"
    | NoContractor      // "Please setup contractor information first!"
    | NoLineItems       // "Please add at least one line item!"
    | MissingField      // KeyError on request.form[...]: the request is rejected
    | BadNumber         // ValueError from int() or float() on a form value
    | MissingColumn     // sqlite3.OperationalError: a query names a column the table lacks

  /** The result of a state transition: what the caller sees, and the database afterwards. */
  datatype Step<T> = Step(result: Result<T, Error>, db: Db)

  // ---------------------------------------------------------------- row selectors

  function NumberIs(n: string): Row<Invoice> -> bool {
    (r: Row<Invoice>) => r.val.number == n
  }

  function NumberIsNot(n: string): Row<Invoice> -> bool {
    (r: Row<Invoice>) => r.val.number != n
  }

  function ItemOf(invoiceId: int): Row<Item> -> bool {
    (r: Row<Item>) => r.val.invoiceId == invoiceId
  }

  function NotItemOf(invoiceId: int): Row<Item> -> bool {
    (r: Row<Item>) => r.val.invoiceId != invoiceId
  }

  function ReceiptOf(invoiceId: int): Row<Receipt> -> bool {
    (r: Row<Receipt>) => r.val.invoiceId == invoiceId
  }

  function ReceiptNumberIs(n: string): Row<Receipt> -> bool {
    (r: Row<Receipt>) => r.val.number == n
  }

  function StatusIs(s: string): Row<Invoice> -> bool {
    (r: Row<Invoice>) => r.val.status == s
  }

  /** The invoice row with a given id. */
  function InvoiceById(db: Db, id: int): Option<Row<Invoice>> {
    FindFirst(db.invoices, WithId(id))
  }

  // ---------------------------------------------------------------- consistency

  /** The UNIQUE constraint on `invoice_number`. */
  predicate InvoiceNumbersUnique(t: Table<Invoice>) {
    forall i, j :: 0 <= i < j < |t| ==> t[i].val.number != t[j].val.number
  }

  /** The UNIQUE constraint on `receipt_number`. */
  predicate ReceiptNumbersUnique(t: Table<Receipt>) {
    forall i, j :: 0 <= i < j < |t| ==> t[i].val.number != t[j].val.number
  }

  /** Every line item belongs to a stored invoice. */
  predicate ItemsOwned(db: Db) {
    forall k :: 0 <= k < |db.items| ==> db.items[k].val.invoiceId in Ids(db.invoices)
  }

  /** A receipt is only ever issued for an invoice that is marked paid. */
  predicate ReceiptsForPaidInvoices(db: Db) {
    forall k :: 0 <= k < |db.receipts| ==> IsPaidInvoice(db.invoices, db.receipts[k].val.invoiceId)
  }

  /** Some stored invoice with this id is marked paid. */
  predicate IsPaidInvoice(t: Table<Invoice>, id: int) {
    exists j :: 0 <= j < |t| && t[j].id == id && t[j].val.status == PAID
  }

  /** No invoice has two receipts. */
  predicate OneReceiptPerInvoice(t: Table<Receipt>) {
    forall i, j :: 0 <= i < j < |t| ==> t[i].val.invoiceId != t[j].val.invoiceId
  }

  /** The consistency every application operation preserves. */
  predicate Valid(db: Db) {
    && Ordered(db.contractors) && Ordered(db.clients) && Ordered(db.invoices)
    && Ordered(db.items) && Ordered(db.receipts)
    && InvoiceNumbersUnique(db.invoices)
    && ReceiptNumbersUnique(db.receipts)
    && ItemsOwned(db)
    && ReceiptsForPaidInvoices(db)
    && OneReceiptPerInvoice(db.receipts)
  }
}
