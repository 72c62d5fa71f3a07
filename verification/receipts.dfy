/**
 * The receipt model (models/receipt.py): number allocation, issuing a receipt
 * for an invoice, the lookups by invoice and by receipt number, and the totals.
 */
module Receipts {
  import opened Wrappers
  import opened Tables
  import opened Numbering
  import opened Schema
  import opened Invoices

  /** The fallback service name of a receipt whose invoice has no items. */
  const SERVICES_RENDERED := "Services Rendered"

  /** Some stored receipt already carries this number. */
  predicate ReceiptNumberTaken(t: Table<Receipt>, n: string) {
    exists k :: 0 <= k < |t| && t[k].val.number == n
  }

  /** `f"{RECEIPT_PREFIX}{count + 1:04d}"` where count is the number of receipt rows. */
  function NextReceiptNumber(db: Db): (r: string)
    ensures ParseNumber(RECEIPT_PREFIX, r) == Some(|db.receipts| + 1)
  {
    FormatThenParse(RECEIPT_PREFIX, |db.receipts| + 1);
    FormatNumber(RECEIPT_PREFIX, |db.receipts| + 1)
  }

  /** `invoice_result['leave_date_blank'] if invoice_result else 0`. */
  function LeaveDateBlankOf(db: Db, invoiceId: int): (r: int)
    ensures Ordered(db.invoices) ==> forall x :: x in db.invoices && x.id == invoiceId ==> r == x.val.leaveDateBlank
    ensures (forall x :: x in db.invoices ==> x.id != invoiceId) ==> r == 0
  {
    match InvoiceById(db, invoiceId)
    case None => 0
    case Some(row) =>
      assert Ordered(db.invoices) ==> forall x :: x in db.invoices && x.id == invoiceId ==> x == row by {
        if Ordered(db.invoices) {
          forall x | x in db.invoices && x.id == invoiceId ensures x == row {
            FindById(db.invoices, invoiceId, x);
          }
        }
      }
      row.val.leaveDateBlank
  }

  /**
   * `Receipt.create_receipt`: allocate the next number and insert the receipt
   * with the amount exactly as passed in. There is no check for an existing
   * receipt of the same invoice; only a number already in use stops the insert.
   */
  function CreateReceipt(db: Db, invoiceId: int, paidAmount: real, now: string): (r: Step<string>)
    ensures r.result.Ok? <==> !ReceiptNumberTaken(db.receipts, FormatNumber(RECEIPT_PREFIX, |db.receipts| + 1))
    ensures r.result.Err? ==> r.result.error == UniqueViolation && r.db == db
    ensures r.result.Ok? ==>
      && r.result.value == FormatNumber(RECEIPT_PREFIX, |db.receipts| + 1)
      && r.db.contractors == db.contractors && r.db.clients == db.clients
      && r.db.invoices == db.invoices && r.db.items == db.items
      && |r.db.receipts| == |db.receipts| + 1 && r.db.receipts[..|db.receipts|] == db.receipts
      && var x := r.db.receipts[|db.receipts|];
        && x.id == NextId(db.receipts)
        && x.val.invoiceId == invoiceId && x.val.number == r.result.value
        && x.val.paidAmount == paidAmount && x.val.paymentDate == now
        && x.val.leaveDateBlank == LeaveDateBlankOf(db, invoiceId)
  {
    var number := NextReceiptNumber(db);
    if FindFirst(db.receipts, ReceiptNumberIs(number)).Some? then
      Step(Err(UniqueViolation), db)
    else
      var receipt := Receipt(invoiceId, number, paidAmount, LeaveDateBlankOf(db, invoiceId), now);
      Step(Ok(number), db.(receipts := Insert(db.receipts, receipt)))
  }

  /** A successful create appends one row for the invoice, under a fresh number and the next rowid. */
  lemma CreateReceiptAppends(db: Db, invoiceId: int, paidAmount: real, now: string)
    requires CreateReceipt(db, invoiceId, paidAmount, now).result.Ok?
    ensures var after := CreateReceipt(db, invoiceId, paidAmount, now).db;
      var x := after.receipts[|db.receipts|];
      && after == db.(receipts := db.receipts + [x])
      && x.val.invoiceId == invoiceId && x.id == NextId(db.receipts)
      && forall k :: 0 <= k < |db.receipts| ==> db.receipts[k].val.number != x.val.number
  {
    var after := CreateReceipt(db, invoiceId, paidAmount, now).db;
    var x := after.receipts[|db.receipts|];
    assert after.receipts == after.receipts[..|db.receipts|] + [x];
    assert !ReceiptNumberTaken(db.receipts, x.val.number);
  }

  /** A successful create always adds a receipt for the invoice, even when it already has one. */
  lemma CreateReceiptAlwaysAdds(db: Db, invoiceId: int, paidAmount: real, now: string)
    requires CreateReceipt(db, invoiceId, paidAmount, now).result.Ok?
    ensures var after := CreateReceipt(db, invoiceId, paidAmount, now).db.receipts;
      Count(after, ReceiptOf(invoiceId)) == Count(db.receipts, ReceiptOf(invoiceId)) + 1
  {
    var after := CreateReceipt(db, invoiceId, paidAmount, now).db.receipts;
    var x := after[|db.receipts|];
    assert after == db.receipts + [x];
    FilterAppend(db.receipts, [x], ReceiptOf(invoiceId));
  }

  /** So calling it for an invoice that already has a receipt breaks one-receipt-per-invoice. */
  lemma CreateReceiptCanDuplicate(db: Db, invoiceId: int, paidAmount: real, now: string)
    requires CreateReceipt(db, invoiceId, paidAmount, now).result.Ok?
    requires exists k :: 0 <= k < |db.receipts| && db.receipts[k].val.invoiceId == invoiceId
    ensures !OneReceiptPerInvoice(CreateReceipt(db, invoiceId, paidAmount, now).db.receipts)
  {
    var after := CreateReceipt(db, invoiceId, paidAmount, now).db.receipts;
    var k :| 0 <= k < |db.receipts| && db.receipts[k].val.invoiceId == invoiceId;
    assert after[k] == db.receipts[k];
    assert after[k].val.invoiceId == after[|db.receipts|].val.invoiceId;
  }

  /** Receipts carry `REC-0001`, `REC-0002`, ... in rowid order (the application never deletes one). */
  predicate ReceiptsSequentiallyNumbered(t: Table<Receipt>) {
    forall k :: 0 <= k < |t| ==> t[k].val.number == FormatNumber(RECEIPT_PREFIX, k + 1)
  }

  /** While receipts are numbered in sequence, creating one never collides and keeps the sequence. */
  lemma SequentialReceiptsNeverCollide(db: Db, invoiceId: int, paidAmount: real, now: string)
    requires ReceiptsSequentiallyNumbered(db.receipts)
    ensures CreateReceipt(db, invoiceId, paidAmount, now).result.Ok?
    ensures ReceiptsSequentiallyNumbered(CreateReceipt(db, invoiceId, paidAmount, now).db.receipts)
  {
    var n := FormatNumber(RECEIPT_PREFIX, |db.receipts| + 1);
    if ReceiptNumberTaken(db.receipts, n) {
      var k :| 0 <= k < |db.receipts| && db.receipts[k].val.number == n;
      FormatInjective(RECEIPT_PREFIX, k + 1, |db.receipts| + 1);
    }
    var after := CreateReceipt(db, invoiceId, paidAmount, now).db.receipts;
    forall k | 0 <= k < |after| ensures after[k].val.number == FormatNumber(RECEIPT_PREFIX, k + 1) {
      if k < |db.receipts| {
        assert after[k] == db.receipts[k];
      }
    }
  }

  /** `get_receipt_by_invoice_id`: the number of the first receipt for the invoice, if any. */
  function GetReceiptByInvoiceId(db: Db, invoiceId: int): (r: Option<string>)
    ensures r.None? <==> forall k :: 0 <= k < |db.receipts| ==> db.receipts[k].val.invoiceId != invoiceId
    ensures r.Some? ==> exists k :: 0 <= k < |db.receipts| && db.receipts[k].val.invoiceId == invoiceId
                                 && db.receipts[k].val.number == r.value
  {
    match FindFirst(db.receipts, ReceiptOf(invoiceId))
    case None =>
      assert forall k :: 0 <= k < |db.receipts| ==> db.receipts[k] in db.receipts;
      None
    case Some(x) =>
      var k :| 0 <= k < |db.receipts| && db.receipts[k] == x;
      Some(x.val.number)
  }

  /** After the first receipt of an invoice is created, looking it up by invoice finds that receipt. */
  lemma CreateThenFindReceipt(db: Db, invoiceId: int, paidAmount: real, now: string)
    requires GetReceiptByInvoiceId(db, invoiceId).None?
    requires CreateReceipt(db, invoiceId, paidAmount, now).result.Ok?
    ensures GetReceiptByInvoiceId(CreateReceipt(db, invoiceId, paidAmount, now).db, invoiceId)
         == Some(CreateReceipt(db, invoiceId, paidAmount, now).result.value)
  {
    var after := CreateReceipt(db, invoiceId, paidAmount, now).db.receipts;
    var i := FirstIndex(after, ReceiptOf(invoiceId));
    assert ReceiptOf(invoiceId)(after[|db.receipts|]);
    assert forall k :: 0 <= k < |db.receipts| ==> after[k] == db.receipts[k];
    assert i == |db.receipts|;
  }

  /** What `get_receipt_by_number` returns. */
  datatype ReceiptView = ReceiptView(
    receipt: Row<Receipt>, invoice: Row<Invoice>, client: Row<Client>, contractor: Row<Contractor>,
    lineItems: seq<Row<Item>>, serviceName: string, serviceDescription: Option<string>)

  /**
   * `get_receipt_by_number`: the receipt joined with its invoice, client and
   * contractor; the invoice's items in `sort_order, id` order; and the service
   * name and description of the first item, or the fallback when there is none.
   */
  function GetReceiptByNumber(db: Db, number: string): (r: Option<ReceiptView>)
    ensures r.Some? ==>
      && r.value.receipt in db.receipts && r.value.receipt.val.number == number
      && r.value.invoice in db.invoices && r.value.invoice.id == r.value.receipt.val.invoiceId
      && r.value.client in db.clients && r.value.client.id == r.value.invoice.val.clientId
      && r.value.contractor in db.contractors && r.value.contractor.id == r.value.invoice.val.contractorId
      && r.value.lineItems == OrderedItems(db.items, r.value.receipt.val.invoiceId)
    ensures r.Some? && r.value.lineItems != [] ==>
      r.value.serviceName == r.value.lineItems[0].val.serviceName
      && r.value.serviceDescription == r.value.lineItems[0].val.serviceDescription
    ensures r.Some? && r.value.lineItems == [] ==>
      r.value.serviceName == SERVICES_RENDERED && r.value.serviceDescription == Some("")
    ensures (forall k :: 0 <= k < |db.receipts| ==> db.receipts[k].val.number != number) ==> r.None?
  {
    match FindFirst(db.receipts, ReceiptNumberIs(number))
    case None => None
    case Some(rc) =>
      match InvoiceById(db, rc.val.invoiceId)
      case None => None
      case Some(inv) =>
        match (FindFirst(db.clients, WithId(inv.val.clientId)), FindFirst(db.contractors, WithId(inv.val.contractorId)))
        case (Some(c), Some(k)) =>
          var items := OrderedItems(db.items, rc.val.invoiceId);
          var name := if items != [] then items[0].val.serviceName else SERVICES_RENDERED;
          var desc := if items != [] then items[0].val.serviceDescription else Some("");
          Some(ReceiptView(rc, inv, c, k, items, name, desc))
        case _ => None
  }

  /**
   * The lookup finds the first receipt with the number exactly when its invoice
   * row exists and that invoice's client and contractor rows exist; it then
   * returns that receipt and that invoice.
   */
  lemma GetReceiptByNumberFinds(db: Db, number: string, k: int)
    requires Ordered(db.invoices)
    requires 0 <= k < |db.receipts| && db.receipts[k].val.number == number
    requires forall j :: 0 <= j < k ==> db.receipts[j].val.number != number
    ensures (forall i :: 0 <= i < |db.invoices| ==> db.invoices[i].id != db.receipts[k].val.invoiceId) ==>
      GetReceiptByNumber(db, number).None?
    ensures forall i :: 0 <= i < |db.invoices| && db.invoices[i].id == db.receipts[k].val.invoiceId ==>
      && (GetReceiptByNumber(db, number).Some? <==>
            db.invoices[i].val.clientId in Ids(db.clients) && db.invoices[i].val.contractorId in Ids(db.contractors))
      && (GetReceiptByNumber(db, number).Some? ==>
            GetReceiptByNumber(db, number).value.receipt == db.receipts[k]
            && GetReceiptByNumber(db, number).value.invoice == db.invoices[i])
  {
    var id := db.receipts[k].val.invoiceId;
    FindFirstAt(db.receipts, ReceiptNumberIs(number), k);
    if forall i :: 0 <= i < |db.invoices| ==> db.invoices[i].id != id {
      assert forall x :: x in db.invoices ==> !WithId(id)(x);
    }
    forall i | 0 <= i < |db.invoices| && db.invoices[i].id == id
      ensures GetReceiptByNumber(db, number).Some? <==>
                db.invoices[i].val.clientId in Ids(db.clients) && db.invoices[i].val.contractorId in Ids(db.contractors)
      ensures GetReceiptByNumber(db, number).Some? ==>
                GetReceiptByNumber(db, number).value.receipt == db.receipts[k]
                && GetReceiptByNumber(db, number).value.invoice == db.invoices[i]
    {
      FindById(db.invoices, id, db.invoices[i]);
      FindIdPresent(db.clients, db.invoices[i].val.clientId);
      FindIdPresent(db.contractors, db.invoices[i].val.contractorId);
    }
  }

  datatype ReceiptStats = ReceiptStats(totalReceipts: nat, totalReceived: real)

  function PaidAmount(r: Receipt): real {
    r.paidAmount
  }

  /** `get_receipt_stats` without the clock-dependent 30-day count: the receipt count and the sum of `paid_amount`. */
  function GetReceiptStats(db: Db): (r: ReceiptStats)
    ensures r.totalReceipts == |db.receipts|
    ensures r.totalReceived == Sum(db.receipts, PaidAmount)
    ensures db.receipts == [] ==> r.totalReceived == 0.0
  {
    ReceiptStats(|db.receipts|, Sum(db.receipts, PaidAmount))
  }

  /** Issuing a receipt counts one more and adds exactly the amount passed in. */
  lemma CreateReceiptUpdatesStats(db: Db, invoiceId: int, paidAmount: real, now: string)
    requires CreateReceipt(db, invoiceId, paidAmount, now).result.Ok?
    ensures var before := GetReceiptStats(db);
      var after := GetReceiptStats(CreateReceipt(db, invoiceId, paidAmount, now).db);
      && after.totalReceipts == before.totalReceipts + 1
      && after.totalReceived == before.totalReceived + paidAmount
  {
    var after := CreateReceipt(db, invoiceId, paidAmount, now).db.receipts;
    var x := after[|db.receipts|];
    assert after == db.receipts + [x];
    SumAppend(db.receipts, [x], PaidAmount);
    assert [x][1..] == [];
  }
}
