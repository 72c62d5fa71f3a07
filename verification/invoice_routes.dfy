/**
 * The request handlers of routes/invoice.py that do more than forward: the
 * create and edit handlers (contractor guard, form parsing, the empty-list
 * refusal, the status guard) and `mark_paid` (status guard, then the two
 * separately committed steps: flip the status, issue the receipt).
 */
module InvoiceRoutes {
  import opened Wrappers
  import opened Tables
  import opened Schema
  import opened Invoices
  import opened Receipts
  import opened Contractors
  import opened FormItems

  /** `request.form['client_id']` as the integer the column stores; absent or non-numeric fails. */
  function ClientIdOf(form: Form): (r: Result<int, Error>)
    ensures r.Err? ==> r.error == MissingField || r.error == BadNumber
    ensures r.Err? && r.error == MissingField <==> Get(form, "client_id").None?
    ensures r.Ok? ==> ParseInt(Get(form, "client_id").value) == Some(r.value)
  {
    match Get(form, "client_id")
    case None => Err(MissingField)
    case Some(s) =>
      match ParseInt(s)
      case None => Err(BadNumber)
      case Some(n) => Ok(n)
  }

  /** The line items, client and date the create and edit handlers read from a form, in their order. */
  function ReadInvoiceForm(form: Form): (r: Result<InvoiceEdit, Error>)
    ensures r.Ok? ==> ParseLineItems(form) == Ok(r.value.lineItems) && r.value.lineItems != []
    ensures r.Ok? ==> ClientIdOf(form) == Ok(r.value.clientId)
    ensures r.Ok? ==> Get(form, "invoice_date") == Some(r.value.invoiceDate)
    ensures ParseLineItems(form) == Ok([]) ==> r == Err(NoLineItems)
    ensures r.Err? && r.error == NoLineItems <==> ParseLineItems(form) == Ok([])
    ensures r.Err? ==> r.error == BadNumber || r.error == NoLineItems || r.error == MissingField
  {
    match ParseLineItems(form)
    case Err(e) => Err(e)
    case Ok(items) =>
      if items == [] then Err(NoLineItems)
      else
        match ClientIdOf(form)
        case Err(e) => Err(e)
        case Ok(clientId) =>
          match Get(form, "invoice_date")
          case None => Err(MissingField)
          case Some(date) => Ok(InvoiceEdit(clientId, date, items))
  }

  /**
   * POST `/invoices/create`: without a contractor nothing happens; otherwise the
   * form is read and `create_invoice` is called under the contractor's id. Its
   * count-based number can already be taken (after a delete), and then the
   * insert fails on the UNIQUE column, the error is flashed and nothing is written.
   */
  function CreateInvoiceRoute(db: Db, form: Form, now: string): (r: Step<string>)
    ensures r.result.Err? ==> r.db == db
    ensures GetContractor(db).None? ==> r == Step(Err(NoContractor), db)
    ensures GetContractor(db).Some? && ParseLineItems(form) == Ok([]) ==> r == Step(Err(NoLineItems), db)
    ensures r.result.Ok? <==>
      GetContractor(db).Some? && ReadInvoiceForm(form).Ok? && !NumberTaken(db.invoices, NextInvoiceNumber(db))
    ensures r.result == Err(UniqueViolation) <==>
      GetContractor(db).Some? && ReadInvoiceForm(form).Ok? && NumberTaken(db.invoices, NextInvoiceNumber(db))
    ensures r.result.Ok? ==>
      var e := ReadInvoiceForm(form).value;
      && r.result.value == NextInvoiceNumber(db)
      && Inserted(db, r.db, r.result.value,
                  NewInvoice(e.clientId, GetContractor(db).value.id, e.invoiceDate, e.lineItems))
  {
    match GetContractor(db)
    case None => Step(Err(NoContractor), db)
    case Some(contractor) =>
      match ReadInvoiceForm(form)
      case Err(e) => Step(Err(e), db)
      case Ok(e) => CreateInvoice(db, NewInvoice(e.clientId, contractor.id, e.invoiceDate, e.lineItems), now)
  }

  lemma CreateInvoiceRouteKeepsValid(db: Db, form: Form, now: string)
    requires Valid(db)
    ensures Valid(CreateInvoiceRoute(db, form, now).db)
  {
    if GetContractor(db).Some? && ReadInvoiceForm(form).Ok? {
      var e := ReadInvoiceForm(form).value;
      CreateInvoiceKeepsValid(db, NewInvoice(e.clientId, GetContractor(db).value.id, e.invoiceDate, e.lineItems), now);
    }
  }

  /**
   * The create handler with the corrected numbering: the same guards, then an
   * invoice under one past the largest stored number, which is never in use.
   */
  function CreateInvoiceRouteFresh(db: Db, form: Form, now: string): (r: Step<string>)
    ensures r.result.Err? ==> r.db == db
    ensures r.result.Ok? <==> GetContractor(db).Some? && ReadInvoiceForm(form).Ok?
    ensures r.result.Ok? ==>
      var e := ReadInvoiceForm(form).value;
      && !NumberTaken(db.invoices, r.result.value)
      && Inserted(db, r.db, r.result.value,
                  NewInvoice(e.clientId, GetContractor(db).value.id, e.invoiceDate, e.lineItems))
  {
    match GetContractor(db)
    case None => Step(Err(NoContractor), db)
    case Some(contractor) =>
      match ReadInvoiceForm(form)
      case Err(e) => Step(Err(e), db)
      case Ok(e) => CreateInvoiceFresh(db, NewInvoice(e.clientId, contractor.id, e.invoiceDate, e.lineItems), now)
  }

  /** Until an invoice is deleted, the corrected handler does exactly what the original does. */
  lemma CreateRoutesAgreeWhenSequential(db: Db, form: Form, now: string)
    requires SequentiallyNumbered(db.invoices)
    ensures CreateInvoiceRouteFresh(db, form, now) == CreateInvoiceRoute(db, form, now)
  {
  }

  lemma CreateInvoiceRouteFreshKeepsValid(db: Db, form: Form, now: string)
    requires Valid(db)
    ensures Valid(CreateInvoiceRouteFresh(db, form, now).db)
  {
    if GetContractor(db).Some? && ReadInvoiceForm(form).Ok? {
      var e := ReadInvoiceForm(form).value;
      CreateInvoiceFreshKeepsValid(db, NewInvoice(e.clientId, GetContractor(db).value.id, e.invoiceDate, e.lineItems), now);
    }
  }

  /**
   * POST `/invoices/edit/<number>`: refused when the invoice is not found or not
   * editable, before the form is looked at; then the form is read and the
   * invoice updated (the update's own result is not consulted).
   */
  function EditInvoiceRoute(db: Db, number: string, form: Form): (r: Step<()>)
    ensures r.result.Err? ==> r.db == db
    ensures r.result == Err(NotFound) <==> GetInvoiceByNumber(db, number).None?
    ensures r.result == Err(NotPending) <==> GetInvoiceByNumber(db, number).Some? && !CanEditInvoice(db, number)
    ensures r.result.Ok? <==> Editable(db, number) && ReadInvoiceForm(form).Ok?
    ensures r.result.Ok? ==> Updated(db, r.db, GetInvoiceByNumber(db, number).value.header, ReadInvoiceForm(form).value)
  {
    match GetInvoiceByNumber(db, number)
    case None => Step(Err(NotFound), db)
    case Some(v) =>
      if !CanEditInvoice(db, number) then Step(Err(NotPending), db)
      else
        match ReadInvoiceForm(form)
        case Err(e) =>
          assert e != NotFound && e != NotPending;
          Step(Err(e), db)
        case Ok(e) =>
          CanEditMakesEditable(db, number);
          Step(Ok(()), UpdateInvoice(db, number, e).1)
  }

  /** The joined read and the status check look at the same row, so together they make the invoice editable. */
  lemma CanEditMakesEditable(db: Db, number: string)
    requires GetInvoiceByNumber(db, number).Some?
    ensures CanEditInvoice(db, number) <==> Editable(db, number)
  {
    assert FindFirst(db.invoices, NumberIs(number)) == Some(GetInvoiceByNumber(db, number).value.header);
  }

  /**
   * A stored pending invoice whose client and contractor rows exist is edited
   * whenever the form reads, and is neither "not found" nor "not pending" for
   * `mark_paid`.
   */
  lemma PendingInvoiceIsEditable(db: Db, number: string, k: int, form: Form, now: string)
    requires 0 <= k < |db.invoices| && db.invoices[k].val.number == number
    requires forall j :: 0 <= j < k ==> db.invoices[j].val.number != number
    requires db.invoices[k].val.status == PENDING
    requires db.invoices[k].val.clientId in Ids(db.clients) && db.invoices[k].val.contractorId in Ids(db.contractors)
    ensures EditInvoiceRoute(db, number, form).result.Ok? <==> ReadInvoiceForm(form).Ok?
    ensures MarkPaidRoute(db, number, now).result != Err(NotFound)
    ensures MarkPaidRoute(db, number, now).result != Err(NotPending)
  {
    GetInvoiceByNumberFinds(db, number, k);
    CanEditMakesEditable(db, number);
  }

  lemma EditInvoiceRouteKeepsValid(db: Db, number: string, form: Form)
    requires Valid(db)
    ensures Valid(EditInvoiceRoute(db, number, form).db)
  {
    if EditInvoiceRoute(db, number, form).result.Ok? {
      UpdateInvoiceKeepsValid(db, number, ReadInvoiceForm(form).value);
    }
  }

  /**
   * GET `/invoices/mark-paid/<number>`: refused unless the joined read finds the
   * invoice and it is pending. Then the status is flipped and committed, and a
   * receipt is issued for the invoice's id with the total read before the flip.
   * When issuing the receipt fails, the flip stays.
   */
  function MarkPaidRoute(db: Db, number: string, now: string): (r: Step<string>)
    ensures r.result == Err(NotFound) <==> GetInvoiceByNumber(db, number).None?
    ensures r.result == Err(NotPending) <==>
      GetInvoiceByNumber(db, number).Some? && GetInvoiceByNumber(db, number).value.header.val.status != PENDING
    ensures r.result == Err(NotFound) || r.result == Err(NotPending) ==> r.db == db
    ensures r.result == Err(UniqueViolation) ==> r.db == MarkInvoicePaid(db, number)
    ensures r.result.Err? ==> r.result.error in {NotFound, NotPending, UniqueViolation}
    ensures r.result.Ok? ==>
      var h := GetInvoiceByNumber(db, number).value.header;
      && h.val.status == PENDING
      && CreateReceipt(MarkInvoicePaid(db, number), h.id, h.val.total, now) == r
  {
    match GetInvoiceByNumber(db, number)
    case None => Step(Err(NotFound), db)
    case Some(v) =>
      if v.header.val.status != PENDING then Step(Err(NotPending), db)
      else
        var paid := MarkInvoicePaid(db, number);
        var rc := CreateReceipt(paid, v.header.id, v.header.val.total, now);
        if rc.result.Err? then Step(Err(rc.result.error), paid) else rc
  }

  /** The header the route reads is the one row the number names. */
  lemma ViewedHeader(db: Db, number: string)
    requires GetInvoiceByNumber(db, number).Some?
    ensures var h := GetInvoiceByNumber(db, number).value.header;
      exists k :: 0 <= k < |db.invoices| && db.invoices[k] == h && h.val.number == number
  {
    var h := GetInvoiceByNumber(db, number).value.header;
    assert h in db.invoices;
  }

  /**
   * When both steps succeed on a consistent store, the invoice is now paid and
   * has exactly one receipt, carrying the invoice's total.
   */
  lemma MarkPaidRouteIssuesOneReceipt(db: Db, number: string, now: string)
    requires Valid(db)
    requires MarkPaidRoute(db, number, now).result.Ok?
    ensures var h := GetInvoiceByNumber(db, number).value.header;
      var after := MarkPaidRoute(db, number, now).db;
      && IsPaidInvoice(after.invoices, h.id)
      && |after.receipts| == |db.receipts| + 1
      && Filter(after.receipts, ReceiptOf(h.id)) == [after.receipts[|db.receipts|]]
      && after.receipts[|db.receipts|].val.paidAmount == h.val.total
  {
    var h := GetInvoiceByNumber(db, number).value.header;
    MarkPaidPrepares(db, number);
    IssueReceiptForPaid(MarkInvoicePaid(db, number), h.id, h.val.total, now);
  }

  /** Marking paid keeps the store consistent, including one receipt per invoice. */
  lemma MarkPaidRouteKeepsValid(db: Db, number: string, now: string)
    requires Valid(db)
    ensures Valid(MarkPaidRoute(db, number, now).db)
  {
    var r := MarkPaidRoute(db, number, now);
    if GetInvoiceByNumber(db, number).Some? && GetInvoiceByNumber(db, number).value.header.val.status == PENDING {
      var h := GetInvoiceByNumber(db, number).value.header;
      MarkPaidPrepares(db, number);
      if r.result.Ok? {
        IssueReceiptForPaid(MarkInvoicePaid(db, number), h.id, h.val.total, now);
      }
    }
  }

  /**
   * The first step of `mark_paid` on a pending invoice of a consistent store: the
   * store stays consistent, the invoice's row is paid, and it has no receipt yet.
   */
  lemma MarkPaidPrepares(db: Db, number: string)
    requires Valid(db)
    requires GetInvoiceByNumber(db, number).Some? && GetInvoiceByNumber(db, number).value.header.val.status == PENDING
    ensures var h := GetInvoiceByNumber(db, number).value.header;
      var paid := MarkInvoicePaid(db, number);
      && Valid(paid)
      && IsPaidInvoice(paid.invoices, h.id)
      && forall k :: 0 <= k < |paid.receipts| ==> paid.receipts[k].val.invoiceId != h.id
  {
    var h := GetInvoiceByNumber(db, number).value.header;
    var paid := MarkInvoicePaid(db, number);
    MarkInvoicePaidKeepsValid(db, number);
    ViewedHeader(db, number);
    var i :| 0 <= i < |db.invoices| && db.invoices[i] == h;
    assert paid.invoices[i].id == h.id && paid.invoices[i].val.status == PAID;
    NoReceiptForPending(db, h);
  }

  /** Issuing the first receipt of a paid invoice keeps the store consistent. */
  lemma IssueReceiptForPaid(db: Db, id: int, amount: real, now: string)
    requires Valid(db) && IsPaidInvoice(db.invoices, id)
    requires forall k :: 0 <= k < |db.receipts| ==> db.receipts[k].val.invoiceId != id
    requires CreateReceipt(db, id, amount, now).result.Ok?
    ensures var after := CreateReceipt(db, id, amount, now).db;
      && Valid(after)
      && Filter(after.receipts, ReceiptOf(id)) == [after.receipts[|db.receipts|]]
  {
    var after := CreateReceipt(db, id, amount, now).db;
    CreateReceiptAppends(db, id, amount, now);
    AppendedOnlyReceipt(db, after.receipts[|db.receipts|], after);
  }

  /** `after` is `db` with one receipt appended for a paid invoice that had none: consistent, and that receipt is the invoice's only one. */
  lemma AppendedOnlyReceipt(db: Db, x: Row<Receipt>, after: Db)
    requires Valid(db) && IsPaidInvoice(db.invoices, x.val.invoiceId)
    requires forall k :: 0 <= k < |db.receipts| ==> db.receipts[k].val.invoiceId != x.val.invoiceId
    requires forall k :: 0 <= k < |db.receipts| ==> db.receipts[k].val.number != x.val.number
    requires x.id == NextId(db.receipts) && after == db.(receipts := db.receipts + [x])
    ensures Valid(after) && Filter(after.receipts, ReceiptOf(x.val.invoiceId)) == [x]
  {
    AppendReceiptKeepsValid(db, x);
    OnlyNewReceipt(db.receipts, x, x.val.invoiceId);
  }

  /** A receipt appended for an invoice that had none is that invoice's only receipt. */
  lemma OnlyNewReceipt(t: Table<Receipt>, x: Row<Receipt>, id: int)
    requires forall k :: 0 <= k < |t| ==> t[k].val.invoiceId != id
    requires x.val.invoiceId == id
    ensures Filter(t + [x], ReceiptOf(id)) == [x]
  {
    FilterAppend(t, [x], ReceiptOf(id));
    FilterKeepsNone(t, ReceiptOf(id));
  }

  /** Appending a receipt with a fresh number and id, for a paid invoice that has none, keeps the store consistent. */
  lemma AppendReceiptKeepsValid(db: Db, x: Row<Receipt>)
    requires Valid(db) && IsPaidInvoice(db.invoices, x.val.invoiceId)
    requires forall k :: 0 <= k < |db.receipts| ==> db.receipts[k].val.invoiceId != x.val.invoiceId
    requires forall k :: 0 <= k < |db.receipts| ==> db.receipts[k].val.number != x.val.number
    requires forall k :: 0 <= k < |db.receipts| ==> db.receipts[k].id < x.id
    ensures Valid(db.(receipts := db.receipts + [x]))
  {
    var t := db.receipts + [x];
    var n := |db.receipts|;
    assert forall k :: 0 <= k < n ==> t[k] == db.receipts[k];
    assert t[n] == x;
  }

  /** In a consistent store, a pending invoice has no receipt. */
  lemma NoReceiptForPending(db: Db, h: Row<Invoice>)
    requires Valid(db) && h in db.invoices && h.val.status == PENDING
    ensures forall k :: 0 <= k < |db.receipts| ==> db.receipts[k].val.invoiceId != h.id
  {
    forall k | 0 <= k < |db.receipts| ensures db.receipts[k].val.invoiceId != h.id {
      var j :| 0 <= j < |db.invoices| && db.invoices[j].id == db.receipts[k].val.invoiceId && db.invoices[j].val.status == PAID;
      var i :| 0 <= i < |db.invoices| && db.invoices[i] == h;
      assert i != j;
    }
  }

  /**
   * A successful `mark_paid` moves the invoice's total from the pending to the
   * paid figures of the dashboard, and adds one receipt carrying that total to
   * the receipt figures.
   */
  lemma MarkPaidRouteMovesStats(db: Db, number: string, now: string)
    requires Valid(db)
    requires MarkPaidRoute(db, number, now).result.Ok?
    ensures var h := GetInvoiceByNumber(db, number).value.header;
      var before, after := GetInvoiceStats(db), GetInvoiceStats(MarkPaidRoute(db, number, now).db);
      && after.pendingInvoices == before.pendingInvoices - 1
      && after.paidInvoices == before.paidInvoices + 1
      && after.pendingAmount == before.pendingAmount - h.val.total
      && after.paidAmount == before.paidAmount + h.val.total
      && after.totalAmount == before.totalAmount
    ensures var h := GetInvoiceByNumber(db, number).value.header;
      var before, after := GetReceiptStats(db), GetReceiptStats(MarkPaidRoute(db, number, now).db);
      && after.totalReceipts == before.totalReceipts + 1
      && after.totalReceived == before.totalReceived + h.val.total
  {
    var h := GetInvoiceByNumber(db, number).value.header;
    var paid := MarkInvoicePaid(db, number);
    ViewedHeader(db, number);
    var i :| 0 <= i < |db.invoices| && db.invoices[i] == h && h.val.number == number;
    MarkPaidMovesStats(db, number, i);
    assert CreateReceipt(paid, h.id, h.val.total, now).db.invoices == paid.invoices;
    assert paid.receipts == db.receipts;
    CreateReceiptUpdatesStats(paid, h.id, h.val.total, now);
  }

  /** Receipts are never deleted, so their numbers stay in sequence and issuing one cannot collide. */
  lemma MarkPaidRouteSucceeds(db: Db, number: string, now: string)
    requires ReceiptsSequentiallyNumbered(db.receipts)
    requires GetInvoiceByNumber(db, number).Some? && GetInvoiceByNumber(db, number).value.header.val.status == PENDING
    ensures MarkPaidRoute(db, number, now).result.Ok?
  {
    var h := GetInvoiceByNumber(db, number).value.header;
    SequentialReceiptsNeverCollide(MarkInvoicePaid(db, number), h.id, h.val.total, now);
  }
}
