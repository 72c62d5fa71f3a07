/**
 * The text decisions of the PDF generator (services/pdf_generator.py): file
 * names, the status label and footer, the date cell, the receipt's services
 * cell, the contractor's tax-id lines and the rows of the service table. Page
 * layout, styles and money formatting are not modelled.
 */
module PdfLabels {
  import opened Wrappers
  import opened Text
  import opened Tables
  import opened Numbering
  import opened Schema
  import opened Invoices
  import opened Receipts

  const INVOICE_FILE := "Invoice_"
  const RECEIPT_FILE := "Receipt_"
  const PDF := ".pdf"

  /** `f"{kind}{number}_{date}.pdf"`. */
  function PdfName(kind: string, number: string, date: string): string {
    kind + number + "_" + date + PDF
  }

  /** The invoice file: the number, then the invoice date with its dashes removed. */
  function InvoiceFilename(number: string, invoiceDate: string): (r: string)
    ensures StartsWith(r, INVOICE_FILE + number + "_")
    ensures '-' !in r[|INVOICE_FILE + number + "_"|..]
    ensures |r| >= |INVOICE_FILE + number + "_"| + |PDF| && r[|r| - |PDF|..] == PDF
    ensures r[|INVOICE_FILE + number + "_"|..|r| - |PDF|] == RemoveChar(invoiceDate, '-')
  {
    var date := RemoveChar(invoiceDate, '-');
    var r := PdfName(INVOICE_FILE, number, date);
    assert r[..|INVOICE_FILE + number + "_"|] == INVOICE_FILE + number + "_";
    assert r[|INVOICE_FILE + number + "_"|..] == date + PDF;
    r
  }

  /** The receipt file: the number, then the payment day (before the first space) with its dashes removed. */
  function ReceiptFilename(number: string, paymentDate: string): (r: string)
    ensures StartsWith(r, RECEIPT_FILE + number + "_")
    ensures '-' !in r[|RECEIPT_FILE + number + "_"|..]
    ensures |r| >= |RECEIPT_FILE + number + "_"| + |PDF| && r[|r| - |PDF|..] == PDF
    ensures r[|RECEIPT_FILE + number + "_"|..|r| - |PDF|] == RemoveChar(BeforeFirst(paymentDate, ' '), '-')
  {
    var date := RemoveChar(BeforeFirst(paymentDate, ' '), '-');
    var r := PdfName(RECEIPT_FILE, number, date);
    assert r[..|RECEIPT_FILE + number + "_"|] == RECEIPT_FILE + number + "_";
    assert r[|RECEIPT_FILE + number + "_"|..] == date + PDF;
    r
  }

  /** A dashed ISO date loses its dashes: `2025-07-12` gives `Invoice_INV-0001_20250712.pdf`. */
  lemma InvoiceFilenameExample()
    ensures InvoiceFilename("INV-0001", "2025-07-12") == "Invoice_INV-0001_20250712.pdf"
  {
    DateLiteralParts();
    DashesDropped("2025", "07", "12");
    assert RemoveChar("2025-07-12", '-') == "20250712";
    FilenameLiteral();
  }

  lemma DateLiteralParts()
    ensures "2025-07-12" == "2025" + "-" + "07" + "-" + "12"
    ensures "2025" + "07" + "12" == "20250712"
    ensures '-' !in "2025" && '-' !in "07" && '-' !in "12"
  {
  }

  lemma FilenameLiteral()
    ensures PdfName(INVOICE_FILE, "INV-0001", "20250712") == "Invoice_INV-0001_20250712.pdf"
  {
  }

  /** The document number a file name carries: the text after the kind, up to the next `_`. */
  function NumberOfFilename(kind: string, filename: string): Option<string> {
    if StartsWith(filename, kind) then Some(BeforeFirst(filename[|kind|..], '_')) else None
  }

  /** A file name gives back the document number it was made from, as long as the number holds no `_`. */
  lemma FilenameNamesDocument(kind: string, number: string, date: string)
    requires '_' !in number
    ensures NumberOfFilename(kind, PdfName(kind, number, date)) == Some(number)
  {
    var f := PdfName(kind, number, date);
    assert f == kind + (number + ['_'] + (date + PDF));
    assert f[|kind|..] == number + ['_'] + (date + PDF);
    BeforeFirstAppend(number, date + PDF, '_');
  }

  /** Numbers made by the numbering scheme hold no `_`, so their file names identify them. */
  lemma GeneratedNumbersIdentifyFiles(n: nat, invoiceDate: string, paymentDate: string)
    ensures NumberOfFilename(INVOICE_FILE, InvoiceFilename(FormatNumber(INVOICE_PREFIX, n), invoiceDate))
         == Some(FormatNumber(INVOICE_PREFIX, n))
    ensures NumberOfFilename(RECEIPT_FILE, ReceiptFilename(FormatNumber(RECEIPT_PREFIX, n), paymentDate))
         == Some(FormatNumber(RECEIPT_PREFIX, n))
  {
    NoUnderscoreNorDash(INVOICE_PREFIX, n);
    NoUnderscoreNorDash(RECEIPT_PREFIX, n);
    FilenameNamesDocument(INVOICE_FILE, FormatNumber(INVOICE_PREFIX, n), RemoveChar(invoiceDate, '-'));
    FilenameNamesDocument(RECEIPT_FILE, FormatNumber(RECEIPT_PREFIX, n), RemoveChar(BeforeFirst(paymentDate, ' '), '-'));
  }

  lemma NoUnderscoreNorDash(prefix: string, n: nat)
    requires prefix == INVOICE_PREFIX || prefix == RECEIPT_PREFIX
    ensures '_' !in FormatNumber(prefix, n)
    ensures '-' in FormatNumber(prefix, n)
  {
    var r := FormatNumber(prefix, n);
    forall i | 0 <= i < |r| ensures r[i] != '_' {
      if i < |prefix| {
        assert r[i] == r[..|prefix|][i];
      } else {
        assert r[i] == r[|prefix|..][i - |prefix|];
      }
    }
    assert r[3] == r[..|prefix|][3];
  }

  /** Only the day goes into a receipt's file name: the time after the first space is dropped. */
  lemma ReceiptFilenameIgnoresTime(number: string, day: string, time: string)
    requires ' ' !in day
    ensures ReceiptFilename(number, day + " " + time) == ReceiptFilename(number, day)
  {
    BeforeFirstAppend(day, time, ' ');
    assert day + " " + time == day + [' '] + time;
    BeforeFirstOfNoSeparator(day, ' ');
  }

  // ---------------------------------------------------------------- status

  const PENDING_LABEL := "Pending Payment"
  const PAID_LABEL := "Paid"
  const PAID_FOOTER := "Thank you for your business! This invoice has been paid in full."
  const REMIT_FOOTER := "Thank you for your business! Please remit payment by the due date."

  /** The "Status:" cell: pending invoices read "Pending Payment", everything else "Paid". */
  function StatusLabel(status: string): (r: string)
    ensures r == PENDING_LABEL <==> status == PENDING
    ensures r == PAID_LABEL <==> status != PENDING
  {
    if status == PENDING then PENDING_LABEL else PAID_LABEL
  }

  /** The footer: the paid-in-full line only for `paid`, the remit line otherwise. */
  function Footer(status: string): (r: string)
    ensures r == PAID_FOOTER <==> status == PAID
    ensures r == REMIT_FOOTER <==> status != PAID
  {
    if status == PAID then PAID_FOOTER else REMIT_FOOTER
  }

  /** For the two statuses the application writes, the label and the footer agree. */
  lemma LabelAndFooterAgree(status: string)
    requires status == PENDING || status == PAID
    ensures StatusLabel(status) == PAID_LABEL <==> Footer(status) == PAID_FOOTER
  {
  }

  /** Any other status is labelled "Paid" yet asks for payment. */
  lemma OtherStatusMixesLabels(status: string)
    requires status != PENDING && status != PAID
    ensures StatusLabel(status) == PAID_LABEL && Footer(status) == REMIT_FOOTER
  {
  }

  // ---------------------------------------------------------------- dates

  /** Sixteen underscores: a line to write the date on by hand. */
  const BLANK_DATE := "________________"

  /**
   * `d.get('leave_date_blank', False) and BLANK_DATE or date`: the blank line
   * when the flag is present and non-zero, the date otherwise.
   */
  function DateCell(leaveDateBlank: Option<int>, date: string): (r: string)
    ensures leaveDateBlank.Some? && leaveDateBlank.value != 0 ==> r == BLANK_DATE
    ensures leaveDateBlank.None? || leaveDateBlank.value == 0 ==> r == date
  {
    match leaveDateBlank
    case Some(flag) => if flag != 0 then BLANK_DATE else date
    case None => date
  }

  /** The invoice PDF's date cell: the joined read does not select `leave_date_blank`, so the date always shows. */
  function InvoiceDateCell(v: InvoiceView): (r: string)
    ensures r == v.header.val.invoiceDate
  {
    DateCell(None, v.header.val.invoiceDate)
  }

  /** The receipt PDF's date cell: the receipt's own flag, or the payment day. */
  function ReceiptDateCell(rc: Receipt): (r: string)
    ensures rc.leaveDateBlank != 0 ==> r == BLANK_DATE
    ensures rc.leaveDateBlank == 0 ==> ' ' !in r && StartsWith(rc.paymentDate, r)
    ensures rc.leaveDateBlank == 0 && ' ' !in rc.paymentDate ==> r == rc.paymentDate
  {
    assert ' ' !in rc.paymentDate ==> BeforeFirst(rc.paymentDate, ' ') == rc.paymentDate by {
      if ' ' !in rc.paymentDate {
        BeforeFirstOfNoSeparator(rc.paymentDate, ' ');
      }
    }
    DateCell(Some(rc.leaveDateBlank), BeforeFirst(rc.paymentDate, ' '))
  }

  /**
   * A receipt issued for a stored invoice shows the blank line exactly when
   * the invoice asked for it, and otherwise the day it was issued.
   */
  lemma ReceiptDateFollowsInvoice(db: Db, inv: Row<Invoice>, paidAmount: real, now: string)
    requires Ordered(db.invoices) && inv in db.invoices
    requires CreateReceipt(db, inv.id, paidAmount, now).result.Ok?
    ensures var rc := CreateReceipt(db, inv.id, paidAmount, now).db.receipts[|db.receipts|].val;
      && (ReceiptDateCell(rc) == BLANK_DATE <== inv.val.leaveDateBlank != 0)
      && (inv.val.leaveDateBlank == 0 ==> ReceiptDateCell(rc) == BeforeFirst(now, ' '))
  {
  }

  // ---------------------------------------------------------------- receipt services cell

  const ITEMS_SUFFIX := " item(s)"

  /** The "Services:" cell: the item count when there are items, else the service name or the fallback. */
  function ServicesCell(itemCount: nat, serviceName: Option<string>): (r: string)
    ensures itemCount > 0 ==> r == Decimal(itemCount) + ITEMS_SUFFIX && IsDigit(r[0])
    ensures itemCount == 0 ==> r == serviceName.GetOr(SERVICES_RENDERED)
  {
    if itemCount > 0 then Decimal(itemCount) + ITEMS_SUFFIX else serviceName.GetOr(SERVICES_RENDERED)
  }

  /** On a receipt read by number, the cell reads "Services Rendered" exactly when the invoice has no items. */
  lemma ReceiptServicesCell(db: Db, number: string)
    requires GetReceiptByNumber(db, number).Some?
    ensures var v := GetReceiptByNumber(db, number).value;
      ServicesCell(|v.lineItems|, Some(v.serviceName)) == SERVICES_RENDERED <==> v.lineItems == []
  {
    var v := GetReceiptByNumber(db, number).value;
    if v.lineItems != [] {
      assert ServicesCell(|v.lineItems|, Some(v.serviceName))[0] != SERVICES_RENDERED[0];
    }
  }

  // ---------------------------------------------------------------- contractor block

  const TAX_ID_LABEL := "<b>Tax ID:</b> "
  const PERSONAL_TAX_ID_LABEL := "<b>Personal Tax ID:</b> "
  const BREAK := "<br/>"

  /** The tax-id lines of the contractor block: each only when its field is non-empty. */
  function TaxIdLines(taxId: string, personalTaxId: string): (r: seq<string>)
    ensures |r| == (if taxId != "" then 1 else 0) + (if personalTaxId != "" then 1 else 0)
    ensures TAX_ID_LABEL + taxId + BREAK in r <==> taxId != ""
    ensures PERSONAL_TAX_ID_LABEL + personalTaxId + BREAK in r <==> personalTaxId != ""
  {
    var a := if taxId != "" then [TAX_ID_LABEL + taxId + BREAK] else [];
    var b := if personalTaxId != "" then [PERSONAL_TAX_ID_LABEL + personalTaxId + BREAK] else [];
    assert TAX_ID_LABEL + taxId + BREAK != PERSONAL_TAX_ID_LABEL + personalTaxId + BREAK by {
      assert (TAX_ID_LABEL + taxId + BREAK)[3] != (PERSONAL_TAX_ID_LABEL + personalTaxId + BREAK)[3];
    }
    a + b
  }

  // ---------------------------------------------------------------- service table

  /** One row of the invoice's service table; the money columns are left unformatted. */
  datatype TableRow =
    | HeaderRow
    | LineRow(service: string, description: string, quantity: string, rate: real, amount: real)

  /** `str(n)` for any integer. */
  function IntText(n: int): string {
    if n < 0 then "-" + Decimal(-n) else Decimal(n)
  }

  /** The row for one stored item; a missing or empty description leaves the cell empty. */
  function ItemRow(it: Item): TableRow {
    LineRow(it.serviceName, it.serviceDescription.GetOr(""), IntText(it.quantity), it.rate, it.amount)
  }

  /** The header row, then one row per item in the order given. */
  function ServiceTable(items: seq<Row<Item>>): (r: seq<TableRow>)
    ensures |r| == |items| + 1 && r[0] == HeaderRow
    ensures forall k :: 0 <= k < |items| ==> r[k + 1] == ItemRow(items[k].val)
  {
    [HeaderRow] + seq(|items|, k requires 0 <= k < |items| => ItemRow(items[k].val))
  }

  /** The table shows the entries in order: one row each after the header, with their name, description and amount. */
  predicate ShowsEntries(t: seq<TableRow>, lines: seq<LineItem>) {
    && |t| == |lines| + 1
    && forall k :: 0 <= k < |lines| ==>
         t[k + 1].LineRow?
         && t[k + 1].service == lines[k].serviceName
         && t[k + 1].description == lines[k].serviceDescription
         && t[k + 1].amount == Amount(lines[k])
  }

  /** The PDF of a freshly created invoice lists its entries in the order they were entered. */
  lemma CreatedInvoiceTable(db: Db, data: NewInvoice, now: string)
    requires Valid(db)
    requires CreateInvoice(db, data, now).result.Ok?
    ensures var r := CreateInvoice(db, data, now);
      ShowsEntries(ServiceTable(OrderedItems(r.db.items, r.db.invoices[|db.invoices|].id)), data.lineItems)
  {
    var r := CreateInvoice(db, data, now);
    var id := r.db.invoices[|db.invoices|].id;
    CreateThenRead(db, data, now);
    TableOfStoredEntries(OrderedItems(r.db.items, id), id, data.lineItems);
  }

  /** The table of items stored from a list of entries shows those entries, in order. */
  lemma TableOfStoredEntries(read: seq<Row<Item>>, id: int, lines: seq<LineItem>)
    requires |read| == |lines|
    requires forall k :: 0 <= k < |read| ==> read[k].val == StoredItem(id, lines[k], k)
    ensures ShowsEntries(ServiceTable(read), lines)
  {
    var t := ServiceTable(read);
    forall k | 0 <= k < |lines|
      ensures t[k + 1].LineRow?
      ensures t[k + 1].service == lines[k].serviceName
      ensures t[k + 1].description == lines[k].serviceDescription
      ensures t[k + 1].amount == Amount(lines[k])
    {
      assert t[k + 1] == ItemRow(read[k].val);
    }
  }
}
