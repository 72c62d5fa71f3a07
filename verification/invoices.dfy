/**
 * The invoice model (models/invoice.py): number allocation, creation and update
 * with their line items, the read that orders items, the pending-only guards,
 * deletion, marking paid, and the dashboard statistics.
 */
module Invoices {
  import opened Wrappers
  import opened Tables
  import opened Sorting
  import opened Numbering
  import opened Schema

  /** One entry of `data['line_items']`, as the invoice form produces it. */
  datatype LineItem = LineItem(serviceName: string, serviceDescription: string, quantity: int, rate: real)

  /** The `data` argument of `create_invoice`. */
  datatype NewInvoice = NewInvoice(clientId: int, contractorId: int, invoiceDate: string, lineItems: seq<LineItem>)

  /** The `data` argument of `update_invoice`: no contractor, no number. */
  datatype InvoiceEdit = InvoiceEdit(clientId: int, invoiceDate: string, lineItems: seq<LineItem>)

  /** What `get_invoice_by_number` returns: the header joined with its client and contractor, and its items. */
  datatype InvoiceView = InvoiceView(
    header: Row<Invoice>, client: Row<Client>, contractor: Row<Contractor>, lineItems: seq<Row<Item>>)

  function Amount(li: LineItem): real {
    li.quantity as real * li.rate
  }

  /** `sum(quantity * rate for item in line_items)`. */
  function LinesTotal(lines: seq<LineItem>): real {
    if lines == [] then 0.0 else Amount(lines[0]) + LinesTotal(lines[1..])
  }

  /** The `invoice_items` row written for the entry at position `index`. */
  function StoredItem(invoiceId: int, li: LineItem, index: int): Item {
    Item(invoiceId, li.serviceName, Some(li.serviceDescription), li.quantity, li.rate, Amount(li), index)
  }

  function ItemAmount(it: Item): real {
    it.amount
  }

  // ---------------------------------------------------------------- inserting items

  /** The rows a run of item inserts appends, the first taking rowid `firstId`. */
  function NewRows(firstId: int, invoiceId: int, lines: seq<LineItem>, index: int): (r: Table<Item>)
    ensures |r| == |lines|
    ensures forall k :: 0 <= k < |lines| ==> r[k] == Row(firstId + k, StoredItem(invoiceId, lines[k], index + k))
    decreases |lines|
  {
    if lines == [] then []
    else [Row(firstId, StoredItem(invoiceId, lines[0], index))] + NewRows(firstId + 1, invoiceId, lines[1..], index + 1)
  }

  /** The loop `for index, item in enumerate(line_items): INSERT INTO invoice_items ...`. */
  function InsertItems(t: Table<Item>, invoiceId: int, lines: seq<LineItem>, index: int): Table<Item>
    decreases |lines|
  {
    if lines == [] then t
    else InsertItems(Insert(t, StoredItem(invoiceId, lines[0], index)), invoiceId, lines[1..], index + 1)
  }

  /** One insert appends one row under the next rowid, and the rowid after it is one more. */
  lemma InsertOne(t: Table<Item>, v: Item)
    ensures Insert(t, v) == t + [Row(NextId(t), v)]
    ensures NextId(Insert(t, v)) == NextId(t) + 1
  {
  }

  /** Inserting one row after another appends consecutive rowids starting at `NextId(t)`. */
  lemma {:induction false} InsertItemsAppends(t: Table<Item>, invoiceId: int, lines: seq<LineItem>, index: int)
    ensures InsertItems(t, invoiceId, lines, index) == t + NewRows(NextId(t), invoiceId, lines, index)
    decreases |lines|
  {
    if lines != [] {
      var v := StoredItem(invoiceId, lines[0], index);
      var head := Row(NextId(t), v);
      var rest := NewRows(NextId(t) + 1, invoiceId, lines[1..], index + 1);
      var t1 := Insert(t, v);
      InsertOne(t, v);
      assert InsertItems(t, invoiceId, lines, index) == InsertItems(t1, invoiceId, lines[1..], index + 1);
      InsertItemsAppends(t1, invoiceId, lines[1..], index + 1);
      assert InsertItems(t1, invoiceId, lines[1..], index + 1) == t1 + rest;
      assert NewRows(NextId(t), invoiceId, lines, index) == [head] + rest;
      assert t1 + rest == t + ([head] + rest);
    }
  }

  lemma NewRowsFacts(firstId: int, invoiceId: int, lines: seq<LineItem>)
    ensures Filter(NewRows(firstId, invoiceId, lines, 0), ItemOf(invoiceId)) == NewRows(firstId, invoiceId, lines, 0)
    ensures SortedBy(NewRows(firstId, invoiceId, lines, 0), ItemLe)
    ensures Ordered(NewRows(firstId, invoiceId, lines, 0))
  {
    FilterKeepsAll(NewRows(firstId, invoiceId, lines, 0), ItemOf(invoiceId));
  }

  /** The stored amounts of the appended rows add up to the total of the entries. */
  lemma {:induction false} NewRowsSum(firstId: int, invoiceId: int, lines: seq<LineItem>, index: int)
    ensures Sum(NewRows(firstId, invoiceId, lines, index), ItemAmount) == LinesTotal(lines)
    decreases |lines|
  {
    if lines != [] {
      NewRowsSum(firstId + 1, invoiceId, lines[1..], index + 1);
      assert NewRows(firstId, invoiceId, lines, index)[1..] == NewRows(firstId + 1, invoiceId, lines[1..], index + 1);
    }
  }

  lemma AppendKeepsOrder(t: Table<Item>, invoiceId: int, lines: seq<LineItem>)
    requires Ordered(t)
    ensures Ordered(t + NewRows(NextId(t), invoiceId, lines, 0))
  {
  }

  // ---------------------------------------------------------------- reading

  /** `ORDER BY sort_order, id`. */
  predicate ItemLe(a: Row<Item>, b: Row<Item>) {
    a.val.sortOrder < b.val.sortOrder || (a.val.sortOrder == b.val.sortOrder && a.id <= b.id)
  }

  lemma ItemLeIsTotalPreorder()
    ensures TotalPreorder(ItemLe)
  {
  }

  /** `SELECT ... FROM invoice_items WHERE invoice_id = ? ORDER BY sort_order, id`. */
  function OrderedItems(items: Table<Item>, invoiceId: int): (r: seq<Row<Item>>)
    ensures multiset(r) == multiset(Filter(items, ItemOf(invoiceId)))
    ensures SortedBy(r, ItemLe)
  {
    ItemLeIsTotalPreorder();
    Sort(Filter(items, ItemOf(invoiceId)), ItemLe)
  }

  /**
   * `get_invoice_by_number`: the header row with that number, provided its
   * client and contractor rows exist (the query joins both), with its items.
   */
  function GetInvoiceByNumber(db: Db, number: string): (r: Option<InvoiceView>)
    ensures r.Some? ==> r.value.header in db.invoices && r.value.header.val.number == number
    ensures r.Some? ==> r.value.client in db.clients && r.value.client.id == r.value.header.val.clientId
    ensures r.Some? ==> r.value.contractor in db.contractors && r.value.contractor.id == r.value.header.val.contractorId
    ensures r.Some? ==> r.value.lineItems == OrderedItems(db.items, r.value.header.id)
    ensures (forall k :: 0 <= k < |db.invoices| ==> db.invoices[k].val.number != number) ==> r.None?
  {
    match FindFirst(db.invoices, NumberIs(number))
    case None => None
    case Some(h) =>
      match (FindFirst(db.clients, WithId(h.val.clientId)), FindFirst(db.contractors, WithId(h.val.contractorId)))
      case (Some(c), Some(k)) => Some(InvoiceView(h, c, k, OrderedItems(db.items, h.id)))
      case _ => None
  }

  /**
   * The lookup finds the first row with the number exactly when that row's
   * client and contractor rows exist, and then returns that row as the header.
   */
  lemma GetInvoiceByNumberFinds(db: Db, number: string, k: int)
    requires 0 <= k < |db.invoices| && db.invoices[k].val.number == number
    requires forall j :: 0 <= j < k ==> db.invoices[j].val.number != number
    ensures var h := db.invoices[k].val;
      GetInvoiceByNumber(db, number).Some? <==> h.clientId in Ids(db.clients) && h.contractorId in Ids(db.contractors)
    ensures GetInvoiceByNumber(db, number).Some? ==> GetInvoiceByNumber(db, number).value.header == db.invoices[k]
  {
    FindFirstAt(db.invoices, NumberIs(number), k);
    FindIdPresent(db.clients, db.invoices[k].val.clientId);
    FindIdPresent(db.contractors, db.invoices[k].val.contractorId);
  }

  // ---------------------------------------------------------------- numbering

  /** Some stored invoice already carries this number. */
  predicate NumberTaken(t: Table<Invoice>, n: string) {
    exists k :: 0 <= k < |t| && t[k].val.number == n
  }

  /** `f"{INVOICE_PREFIX}{count + 1:04d}"` where count is the number of invoice rows. */
  function NextInvoiceNumber(db: Db): (r: string)
    ensures ParseNumber(INVOICE_PREFIX, r) == Some(|db.invoices| + 1)
  {
    FormatThenParse(INVOICE_PREFIX, |db.invoices| + 1);
    FormatNumber(INVOICE_PREFIX, |db.invoices| + 1)
  }

  // ---------------------------------------------------------------- create

  /**
   * `Invoice.create_invoice`: allocate the next number, insert the header with
   * the recomputed total, then one item per entry. A number already in use makes
   * the header insert fail on the UNIQUE column, and nothing is written.
   */
  function CreateInvoice(db: Db, data: NewInvoice, now: string): (r: Step<string>)
    ensures r.result.Ok? <==> !NumberTaken(db.invoices, FormatNumber(INVOICE_PREFIX, |db.invoices| + 1))
    ensures r.result.Ok? ==> r.result.value == FormatNumber(INVOICE_PREFIX, |db.invoices| + 1)
    ensures r.result.Err? ==> r.result.error == UniqueViolation && r.db == db
    ensures r.result.Ok? ==> Inserted(db, r.db, r.result.value, data)
  {
    var number := NextInvoiceNumber(db);
    if FindFirst(db.invoices, NumberIs(number)).Some? then
      Step(Err(UniqueViolation), db)
    else
      Step(Ok(number), InsertInvoice(db, number, data, now))
  }

  /**
   * `after` is `before` with one new pending header carrying `number` and the
   * entries' total appended, its items appended after the old ones, and the
   * other tables untouched.
   */
  ghost predicate Inserted(before: Db, after: Db, number: string, data: NewInvoice) {
    && after.contractors == before.contractors && after.clients == before.clients
    && after.receipts == before.receipts
    && |after.invoices| == |before.invoices| + 1 && after.invoices[..|before.invoices|] == before.invoices
    && after.invoices[|before.invoices|].id == NextId(before.invoices)
    && after.items == before.items + NewRows(NextId(before.items), NextId(before.invoices), data.lineItems, 0)
    && var h := after.invoices[|before.invoices|].val;
      && h.number == number && h.status == PENDING && h.leaveDateBlank == 0
      && h.clientId == data.clientId && h.contractorId == data.contractorId
      && h.invoiceDate == data.invoiceDate && h.total == LinesTotal(data.lineItems)
  }

  /** The two INSERT steps of `create_invoice`, once the number is chosen. */
  function InsertInvoice(db: Db, number: string, data: NewInvoice, now: string): (r: Db)
    ensures Inserted(db, r, number, data)
  {
    var header := Invoice(number, data.clientId, data.contractorId, data.invoiceDate,
                          0, LinesTotal(data.lineItems), now, PENDING, NO_LEGACY);
    var id := NextId(db.invoices);
    InsertItemsAppends(db.items, id, data.lineItems, 0);
    db.(invoices := Insert(db.invoices, header), items := InsertItems(db.items, id, data.lineItems, 0))
  }

  /** The line items that a successful `CreateInvoice` stored, as a later read returns them. */
  lemma CreateThenRead(db: Db, data: NewInvoice, now: string)
    requires Valid(db)
    requires CreateInvoice(db, data, now).result.Ok?
    ensures var r := CreateInvoice(db, data, now);
      var id := r.db.invoices[|db.invoices|].id;
      var read := OrderedItems(r.db.items, id);
      && |read| == |data.lineItems|
      && (forall k :: 0 <= k < |read| ==> read[k].val == StoredItem(id, data.lineItems[k], k))
      && Sum(read, ItemAmount) == r.db.invoices[|db.invoices|].val.total
  {
    var id := NextId(db.invoices);
    ReadBackNewItems(db.items, id, data.lineItems);
  }

  /**
   * Appending the rows of a fresh (or emptied) invoice id: reading that id back
   * returns exactly the appended rows, in entry order.
   */
  lemma ReadBackNewItems(items: Table<Item>, id: int, lines: seq<LineItem>)
    requires forall k :: 0 <= k < |items| ==> items[k].val.invoiceId != id
    ensures var after := InsertItems(items, id, lines, 0);
      && OrderedItems(after, id) == NewRows(NextId(items), id, lines, 0)
      && Sum(OrderedItems(after, id), ItemAmount) == LinesTotal(lines)
  {
    var rows := NewRows(NextId(items), id, lines, 0);
    InsertItemsAppends(items, id, lines, 0);
    FilterAppend(items, rows, ItemOf(id));
    FilterKeepsNone(items, ItemOf(id));
    NewRowsFacts(NextId(items), id, lines);
    assert [] + rows == rows;
    SortOfSorted(rows, ItemLe);
    NewRowsSum(NextId(items), id, lines, 0);
  }

  /** Inserting a header under a number nobody holds keeps the store consistent. */
  lemma InsertInvoiceKeepsValid(db: Db, number: string, data: NewInvoice, now: string)
    requires Valid(db)
    requires !NumberTaken(db.invoices, number)
    ensures Valid(InsertInvoice(db, number, data, now))
  {
    var r := InsertInvoice(db, number, data, now);
    var x := r.invoices[|db.invoices|];
    var rows := NewRows(NextId(db.items), NextId(db.invoices), data.lineItems, 0);
    assert r.invoices == db.invoices + [x];
    AppendKeepsOrder(db.items, NextId(db.invoices), data.lineItems);
    AppendKeepsNumbersUnique(db.invoices, x);
    AppendKeepsItemsOwned(db.items, rows, db.invoices, x);
    AppendKeepsReceiptsPaid(db.receipts, db.invoices, x);
  }

  /** A header appended under a number no row holds keeps the numbers unique. */
  lemma AppendKeepsNumbersUnique(t: Table<Invoice>, x: Row<Invoice>)
    requires InvoiceNumbersUnique(t) && !NumberTaken(t, x.val.number)
    ensures InvoiceNumbersUnique(t + [x])
  {
    forall i, j | 0 <= i < j < |t + [x]| ensures (t + [x])[i].val.number != (t + [x])[j].val.number {
      assert (t + [x])[i] == t[i];
      if j < |t| {
        assert (t + [x])[j] == t[j];
      }
    }
  }

  /** Items owned by stored invoices, followed by items of an appended header, are all owned. */
  lemma AppendKeepsItemsOwned(items: Table<Item>, rows: Table<Item>, t: Table<Invoice>, x: Row<Invoice>)
    requires forall k :: 0 <= k < |items| ==> items[k].val.invoiceId in Ids(t)
    requires forall k :: 0 <= k < |rows| ==> rows[k].val.invoiceId == x.id
    ensures forall k :: 0 <= k < |items + rows| ==> (items + rows)[k].val.invoiceId in Ids(t + [x])
  {
    forall k | 0 <= k < |items + rows| ensures (items + rows)[k].val.invoiceId in Ids(t + [x]) {
      if k < |items| {
        assert (items + rows)[k] == items[k];
        var owner :| owner in t && owner.id == items[k].val.invoiceId;
        assert owner in t + [x];
      } else {
        assert (items + rows)[k] == rows[k - |items|];
        assert x in t + [x];
      }
    }
  }

  /** Appending a header leaves every paid invoice paid. */
  lemma AppendKeepsReceiptsPaid(receipts: Table<Receipt>, t: Table<Invoice>, x: Row<Invoice>)
    requires forall k :: 0 <= k < |receipts| ==> IsPaidInvoice(t, receipts[k].val.invoiceId)
    ensures forall k :: 0 <= k < |receipts| ==> IsPaidInvoice(t + [x], receipts[k].val.invoiceId)
  {
    forall k | 0 <= k < |receipts| ensures IsPaidInvoice(t + [x], receipts[k].val.invoiceId) {
      var j :| 0 <= j < |t| && t[j].id == receipts[k].val.invoiceId && t[j].val.status == PAID;
      assert (t + [x])[j] == t[j];
    }
  }

  lemma CreateInvoiceKeepsValid(db: Db, data: NewInvoice, now: string)
    requires Valid(db)
    ensures Valid(CreateInvoice(db, data, now).db)
  {
    if CreateInvoice(db, data, now).result.Ok? {
      InsertInvoiceKeepsValid(db, NextInvoiceNumber(db), data, now);
    }
  }

  // ---------------------------------------------------------------- update

  /** The header columns `update_invoice` rewrites: client, date and the recomputed total. */
  function Edited(e: InvoiceEdit): Invoice -> Invoice {
    (inv: Invoice) => inv.(clientId := e.clientId, invoiceDate := e.invoiceDate, total := LinesTotal(e.lineItems))
  }

  /** `WHERE id=? AND status='pending'`. */
  function PendingWithId(id: int): Row<Invoice> -> bool {
    (r: Row<Invoice>) => r.id == id && r.val.status == PENDING
  }

  /** The invoice `update_invoice` may change: found through the joined read, and still pending. */
  predicate Editable(db: Db, number: string) {
    var v := GetInvoiceByNumber(db, number);
    v.Some? && v.value.header.val.status == PENDING
  }

  /**
   * `DELETE FROM invoice_items WHERE invoice_id = ?` followed by the insert loop:
   * the invoice's items are replaced, every other invoice's items stay as they were.
   */
  function ReplaceItems(items: Table<Item>, id: int, lines: seq<LineItem>): (r: Table<Item>)
    ensures forall j :: j != id ==> Filter(r, ItemOf(j)) == Filter(items, ItemOf(j))
    ensures forall k :: 0 <= k < |r| ==> r[k].val.invoiceId == id || r[k] in items
    ensures Ordered(items) ==> Ordered(r)
  {
    var kept := Filter(items, NotItemOf(id));
    var r := InsertItems(kept, id, lines, 0);
    ReplaceShape(items, id, lines);
    forall j | j != id ensures Filter(r, ItemOf(j)) == Filter(items, ItemOf(j)) {
      ReplaceKeepsOthers(items, id, lines, j);
    }
    r
  }

  /** The replaced table is the kept rows followed by the new ones, each row either new or from before. */
  lemma ReplaceShape(items: Table<Item>, id: int, lines: seq<LineItem>)
    ensures var kept := Filter(items, NotItemOf(id));
      var r := InsertItems(kept, id, lines, 0);
      && r == kept + NewRows(NextId(kept), id, lines, 0)
      && (forall k :: 0 <= k < |r| ==> r[k].val.invoiceId == id || r[k] in items)
      && (Ordered(items) ==> Ordered(r))
  {
    var kept := Filter(items, NotItemOf(id));
    var rows := NewRows(NextId(kept), id, lines, 0);
    InsertItemsAppends(kept, id, lines, 0);
    assert forall k :: 0 <= k < |rows| ==> rows[k].val.invoiceId == id;
    KeptThenNew(items, kept, rows, id);
    if Ordered(items) {
      AppendKeepsOrder(kept, id, lines);
    }
  }

  lemma KeptThenNew(items: Table<Item>, kept: Table<Item>, rows: Table<Item>, id: int)
    requires forall x :: x in kept ==> x in items
    requires forall k :: 0 <= k < |rows| ==> rows[k].val.invoiceId == id
    ensures forall k :: 0 <= k < |kept + rows| ==> (kept + rows)[k].val.invoiceId == id || (kept + rows)[k] in items
  {
    var r := kept + rows;
    forall k | 0 <= k < |r| ensures r[k].val.invoiceId == id || r[k] in items {
      if k < |kept| {
        assert r[k] == kept[k] && kept[k] in kept;
      } else {
        assert r[k] == rows[k - |kept|];
      }
    }
  }

  /** Another invoice's items pass through the delete and are not among the new rows. */
  lemma ReplaceKeepsOthers(items: Table<Item>, id: int, lines: seq<LineItem>, j: int)
    requires j != id
    ensures var kept := Filter(items, NotItemOf(id));
      Filter(kept + NewRows(NextId(kept), id, lines, 0), ItemOf(j)) == Filter(items, ItemOf(j))
  {
    var kept := Filter(items, NotItemOf(id));
    var rows := NewRows(NextId(kept), id, lines, 0);
    FilterAppend(kept, rows, ItemOf(j));
    FilterFilter(items, NotItemOf(id), ItemOf(j));
    FilterKeepsNone(rows, ItemOf(j));
    assert Filter(kept, ItemOf(j)) + [] == Filter(kept, ItemOf(j));
  }

  /** Reading an invoice's items back after replacing them gives exactly the new entries, in order. */
  lemma ReplaceThenRead(items: Table<Item>, id: int, lines: seq<LineItem>)
    requires Ordered(items)
    ensures var read := OrderedItems(ReplaceItems(items, id, lines), id);
      && |read| == |lines|
      && (forall k :: 0 <= k < |read| ==> read[k].val == StoredItem(id, lines[k], k))
      && Sum(read, ItemAmount) == LinesTotal(lines)
  {
    var kept := Filter(items, NotItemOf(id));
    assert forall k :: 0 <= k < |kept| ==> kept[k] in kept;
    ReadBackNewItems(kept, id, lines);
  }

  /**
   * `after` differs from `before` only in the header row `h`, whose client, date
   * and total are rewritten (number, contractor and status stay), and in the
   * items of `h`, which are replaced by the edit's entries.
   */
  ghost predicate Updated(before: Db, after: Db, h: Row<Invoice>, e: InvoiceEdit) {
    && after.contractors == before.contractors && after.clients == before.clients
    && after.receipts == before.receipts
    && |after.invoices| == |before.invoices|
    && (forall k :: 0 <= k < |before.invoices| ==>
          && after.invoices[k].id == before.invoices[k].id
          && after.invoices[k].val.number == before.invoices[k].val.number
          && after.invoices[k].val.contractorId == before.invoices[k].val.contractorId
          && after.invoices[k].val.status == before.invoices[k].val.status)
    && (forall k :: 0 <= k < |before.invoices| && before.invoices[k].id != h.id ==>
          after.invoices[k] == before.invoices[k])
    && (forall k :: 0 <= k < |before.invoices| && before.invoices[k] == h ==>
          && after.invoices[k].val.clientId == e.clientId
          && after.invoices[k].val.invoiceDate == e.invoiceDate
          && after.invoices[k].val.total == LinesTotal(e.lineItems))
    && after.items == ReplaceItems(before.items, h.id, e.lineItems)
  }

  /**
   * `Invoice.update_invoice`: `false` and no change unless the joined read finds
   * the invoice pending; otherwise rewrite the header and replace its items.
   */
  function UpdateInvoice(db: Db, number: string, e: InvoiceEdit): (r: (bool, Db))
    ensures r.0 <==> Editable(db, number)
    ensures !r.0 ==> r.1 == db
    ensures r.0 ==> Updated(db, r.1, GetInvoiceByNumber(db, number).value.header, e)
  {
    match GetInvoiceByNumber(db, number)
    case None => (false, db)
    case Some(v) =>
      if v.header.val.status != PENDING then (false, db)
      else
        EditRows(db, v.header, e);
        (true, db.(invoices := UpdateWhere(db.invoices, PendingWithId(v.header.id), Edited(e)),
                   items := ReplaceItems(db.items, v.header.id, e.lineItems)))
  }

  /** Rewriting the pending row `h` in place is an update in the sense of `Updated`. */
  lemma EditRows(db: Db, h: Row<Invoice>, e: InvoiceEdit)
    requires h.val.status == PENDING
    ensures Updated(db, db.(invoices := UpdateWhere(db.invoices, PendingWithId(h.id), Edited(e)),
                            items := ReplaceItems(db.items, h.id, e.lineItems)), h, e)
  {
    var t := db.invoices;
    var r := UpdateWhere(t, PendingWithId(h.id), Edited(e));
    forall k | 0 <= k < |t|
      ensures && r[k].id == t[k].id && r[k].val.number == t[k].val.number
              && r[k].val.contractorId == t[k].val.contractorId && r[k].val.status == t[k].val.status
    {
      if PendingWithId(h.id)(t[k]) {
        assert r[k].val == Edited(e)(t[k].val);
      }
    }
    forall k | 0 <= k < |t| && t[k] == h
      ensures && r[k].val.clientId == e.clientId && r[k].val.invoiceDate == e.invoiceDate
              && r[k].val.total == LinesTotal(e.lineItems)
    {
      assert PendingWithId(h.id)(t[k]);
      assert r[k].val == Edited(e)(t[k].val);
    }
  }

  /** After a successful update, the invoice's items read back as exactly the new entries. */
  lemma UpdateThenRead(db: Db, number: string, e: InvoiceEdit)
    requires Valid(db)
    requires UpdateInvoice(db, number, e).0
    ensures var id := GetInvoiceByNumber(db, number).value.header.id;
      var read := OrderedItems(UpdateInvoice(db, number, e).1.items, id);
      && |read| == |e.lineItems|
      && (forall k :: 0 <= k < |read| ==> read[k].val == StoredItem(id, e.lineItems[k], k))
      && Sum(read, ItemAmount) == LinesTotal(e.lineItems)
  {
    ReplaceThenRead(db.items, GetInvoiceByNumber(db, number).value.header.id, e.lineItems);
  }

  /** A refused update leaves the whole store as it was. */
  lemma UpdateRefusedChangesNothing(db: Db, number: string, e: InvoiceEdit)
    requires !CanEditInvoice(db, number)
    ensures UpdateInvoice(db, number, e) == (false, db)
  {
    if Editable(db, number) {
      EditableNeedsCanEdit(db, number);
    }
  }

  lemma UpdateInvoiceKeepsValid(db: Db, number: string, e: InvoiceEdit)
    requires Valid(db)
    ensures Valid(UpdateInvoice(db, number, e).1)
  {
    var u := UpdateInvoice(db, number, e);
    if u.0 {
      var h := GetInvoiceByNumber(db, number).value.header;
      UpdatedKeepsValid(db, u.1, h, e);
    }
  }

  /** Any update of a stored invoice keeps the store consistent. */
  lemma UpdatedKeepsValid(before: Db, after: Db, h: Row<Invoice>, e: InvoiceEdit)
    requires Valid(before) && h in before.invoices && Updated(before, after, h, e)
    ensures Valid(after)
  {
    assert h.id in Ids(before.invoices);
    forall k | 0 <= k < |after.items| ensures after.items[k].val.invoiceId in Ids(before.invoices) {
      if after.items[k].val.invoiceId != h.id {
        var x := after.items[k];
        var i :| 0 <= i < |before.items| && before.items[i] == x;
      }
    }
    RewriteKeepsValid(before, after.invoices, after.items);
    assert after == before.(invoices := after.invoices, items := after.items);
  }

  /**
   * Rewriting invoice headers in place (ids, numbers and statuses kept) and
   * replacing items with owned ones in rowid order keeps the store consistent.
   */
  lemma RewriteKeepsValid(db: Db, invoices: Table<Invoice>, items: Table<Item>)
    requires Valid(db) && Ordered(items)
    requires |invoices| == |db.invoices|
    requires forall k :: 0 <= k < |db.invoices| ==>
      && invoices[k].id == db.invoices[k].id
      && invoices[k].val.number == db.invoices[k].val.number
      && invoices[k].val.status == db.invoices[k].val.status
    requires forall k :: 0 <= k < |items| ==> items[k].val.invoiceId in Ids(db.invoices)
    ensures Valid(db.(invoices := invoices, items := items))
  {
    var r := db.(invoices := invoices, items := items);
    assert Ids(invoices) == Ids(db.invoices) by {
      forall x | x in invoices ensures x.id in Ids(db.invoices) {
        var k :| 0 <= k < |invoices| && invoices[k] == x;
        assert db.invoices[k] in db.invoices;
      }
      forall x | x in db.invoices ensures x.id in Ids(invoices) {
        var k :| 0 <= k < |db.invoices| && db.invoices[k] == x;
        assert invoices[k] in invoices;
      }
    }
    forall k | 0 <= k < |r.receipts| ensures IsPaidInvoice(invoices, r.receipts[k].val.invoiceId) {
      var j :| 0 <= j < |db.invoices| && db.invoices[j].id == db.receipts[k].val.invoiceId && db.invoices[j].val.status == PAID;
      assert invoices[j].id == db.invoices[j].id && invoices[j].val.status == PAID;
    }
  }

  // ---------------------------------------------------------------- status

  /**
   * `can_edit_invoice`: looks only at the first invoice row with the number
   * (no joins), and is true when it exists and is pending.
   */
  function CanEditInvoice(db: Db, number: string): (r: bool)
    ensures r ==> exists k :: 0 <= k < |db.invoices| && db.invoices[k].val.number == number && db.invoices[k].val.status == PENDING
    ensures InvoiceNumbersUnique(db.invoices) ==>
      (r <== exists k :: 0 <= k < |db.invoices| && db.invoices[k].val.number == number && db.invoices[k].val.status == PENDING)
  {
    match FindFirst(db.invoices, NumberIs(number))
    case None => false
    case Some(h) => h.val.status == PENDING
  }

  /** The joined read finds nothing the unjoined status check would not: editing needs `CanEditInvoice`. */
  lemma EditableNeedsCanEdit(db: Db, number: string)
    requires Editable(db, number)
    ensures CanEditInvoice(db, number)
  {
  }

  function MarkedPaid(inv: Invoice): Invoice {
    inv.(status := PAID)
  }

  /** `mark_invoice_paid`: every invoice row with the number becomes paid; nothing else changes. */
  function MarkInvoicePaid(db: Db, number: string): (r: Db)
    ensures r.contractors == db.contractors && r.clients == db.clients
    ensures r.items == db.items && r.receipts == db.receipts
    ensures |r.invoices| == |db.invoices|
    ensures forall k :: 0 <= k < |db.invoices| && db.invoices[k].val.number == number ==>
      r.invoices[k] == Row(db.invoices[k].id, db.invoices[k].val.(status := PAID))
    ensures forall k :: 0 <= k < |db.invoices| && db.invoices[k].val.number != number ==>
      r.invoices[k] == db.invoices[k]
  {
    db.(invoices := UpdateWhere(db.invoices, NumberIs(number), MarkedPaid))
  }

  /** Once marked paid, the invoice can no longer be edited or deleted. */
  lemma MarkPaidStopsEditing(db: Db, number: string)
    ensures !CanEditInvoice(MarkInvoicePaid(db, number), number)
  {
    var r := MarkInvoicePaid(db, number);
    match FindFirst(r.invoices, NumberIs(number))
    case None =>
    case Some(h) =>
      var k := FirstIndex(r.invoices, NumberIs(number));
      assert r.invoices[k].val.status == PAID;
  }

  lemma MarkInvoicePaidKeepsValid(db: Db, number: string)
    requires Valid(db)
    ensures Valid(MarkInvoicePaid(db, number))
  {
    var r := MarkInvoicePaid(db, number);
    forall k | 0 <= k < |r.receipts| ensures IsPaidInvoice(r.invoices, r.receipts[k].val.invoiceId) {
      var j :| 0 <= j < |db.invoices| && db.invoices[j].id == db.receipts[k].val.invoiceId && db.invoices[j].val.status == PAID;
      assert r.invoices[j].id == db.invoices[j].id && r.invoices[j].val.status == PAID;
    }
    assert Ids(r.invoices) == Ids(db.invoices);
  }

  // ---------------------------------------------------------------- statistics

  datatype InvoiceStats = InvoiceStats(
    totalInvoices: nat, pendingInvoices: nat, paidInvoices: nat,
    totalAmount: real, pendingAmount: real, paidAmount: real)

  function InvoiceTotal(inv: Invoice): real {
    inv.total
  }

  /** An invoice's total when it has status `s`, and nothing otherwise. */
  function TotalIfStatus(s: string): Invoice -> real {
    (inv: Invoice) => if inv.status == s then inv.total else 0.0
  }

  /**
   * `get_invoice_stats`: six independent aggregate queries. The counts are the
   * numbers of rows with each status, and each amount adds up the totals of the
   * rows with that status (`SUM(...) or 0` makes the empty sum 0).
   */
  function GetInvoiceStats(db: Db): (r: InvoiceStats)
    ensures r.totalInvoices == |db.invoices|
    ensures r.pendingInvoices == |set k | 0 <= k < |db.invoices| && db.invoices[k].val.status == PENDING|
    ensures r.paidInvoices == |set k | 0 <= k < |db.invoices| && db.invoices[k].val.status == PAID|
    ensures r.pendingInvoices + r.paidInvoices <= r.totalInvoices
    ensures r.pendingAmount == Sum(db.invoices, TotalIfStatus(PENDING))
    ensures r.paidAmount == Sum(db.invoices, TotalIfStatus(PAID))
    ensures r.totalAmount == Sum(db.invoices, InvoiceTotal)
    ensures db.invoices == [] ==> r == InvoiceStats(0, 0, 0, 0.0, 0.0, 0.0)
  {
    var pending := Filter(db.invoices, StatusIs(PENDING));
    var paid := Filter(db.invoices, StatusIs(PAID));
    StatusFigures(db.invoices);
    InvoiceStats(|db.invoices|, |pending|, |paid|,
                 Sum(db.invoices, InvoiceTotal), Sum(pending, InvoiceTotal), Sum(paid, InvoiceTotal))
  }

  /** The filtered counts and sums the queries compute, in terms of each row's status. */
  lemma StatusFigures(t: Table<Invoice>)
    ensures |Filter(t, StatusIs(PENDING))| == |set k | 0 <= k < |t| && t[k].val.status == PENDING|
    ensures |Filter(t, StatusIs(PAID))| == |set k | 0 <= k < |t| && t[k].val.status == PAID|
    ensures |Filter(t, StatusIs(PENDING))| + |Filter(t, StatusIs(PAID))| <= |t|
    ensures Sum(Filter(t, StatusIs(PENDING)), InvoiceTotal) == Sum(t, TotalIfStatus(PENDING))
    ensures Sum(Filter(t, StatusIs(PAID)), InvoiceTotal) == Sum(t, TotalIfStatus(PAID))
  {
    StatusesSplit(t);
    StatusCount(t, PENDING);
    StatusCount(t, PAID);
    StatusSumIsMasked(t, PENDING);
    StatusSumIsMasked(t, PAID);
  }

  /** No row is counted under both statuses. */
  lemma StatusesSplit(t: Table<Invoice>)
    ensures |Filter(t, StatusIs(PENDING))| + |Filter(t, StatusIs(PAID))| <= |t|
  {
    PartitionSums(Filter(t, StatusIsEither), StatusIs(PENDING), StatusIs(PAID), InvoiceTotal);
    FilterFilter(t, StatusIsEither, StatusIs(PENDING));
    FilterFilter(t, StatusIsEither, StatusIs(PAID));
  }

  /** `COUNT(*) ... WHERE status = s` counts the positions holding status `s`. */
  lemma StatusCount(t: Table<Invoice>, s: string)
    ensures |Filter(t, StatusIs(s))| == |set k | 0 <= k < |t| && t[k].val.status == s|
  {
    CountIsPositions(t, StatusIs(s));
    assert Positions(t, StatusIs(s)) == set k | 0 <= k < |t| && t[k].val.status == s;
  }

  /** Summing the totals of the rows with a status is summing every row's share for that status. */
  lemma {:induction false} StatusSumIsMasked(t: Table<Invoice>, s: string)
    ensures Sum(Filter(t, StatusIs(s)), InvoiceTotal) == Sum(t, TotalIfStatus(s))
    decreases |t|
  {
    if t != [] {
      StatusSumIsMasked(t[1..], s);
      var rest := Filter(t[1..], StatusIs(s));
      if t[0].val.status == s {
        assert ([t[0]] + rest)[1..] == rest;
      }
    }
  }

  /**
   * Marking a pending invoice paid moves it, with its total, from the pending
   * figures to the paid ones; the overall figures stay.
   */
  lemma MarkPaidMovesStats(db: Db, number: string, i: int)
    requires InvoiceNumbersUnique(db.invoices)
    requires 0 <= i < |db.invoices| && db.invoices[i].val.number == number && db.invoices[i].val.status == PENDING
    ensures var before := GetInvoiceStats(db);
      var after := GetInvoiceStats(MarkInvoicePaid(db, number));
      var x := db.invoices[i].val.total;
      && after.totalInvoices == before.totalInvoices
      && after.pendingInvoices == before.pendingInvoices - 1
      && after.paidInvoices == before.paidInvoices + 1
      && after.totalAmount == before.totalAmount
      && after.pendingAmount == before.pendingAmount - x
      && after.paidAmount == before.paidAmount + x
  {
    var t := db.invoices;
    var u := MarkInvoicePaid(db, number).invoices;
    forall k | 0 <= k < |t| && k != i ensures u[k] == t[k] {
      if k < i {
        assert t[k].val.number != t[i].val.number;
      } else {
        assert t[i].val.number != t[k].val.number;
      }
    }
    assert u[i].val == t[i].val.(status := PAID);
    SumUpdateOne(t, u, i, InvoiceTotal);
    SumUpdateOne(t, u, i, TotalIfStatus(PENDING));
    SumUpdateOne(t, u, i, TotalIfStatus(PAID));
    OneStatusMoves(t, u, i);
  }

  /** The position sets behind the two counts, when only row `i` goes from pending to paid. */
  lemma OneStatusMoves(t: Table<Invoice>, u: Table<Invoice>, i: int)
    requires |u| == |t| && 0 <= i < |t|
    requires forall k :: 0 <= k < |t| && k != i ==> u[k] == t[k]
    requires t[i].val.status == PENDING && u[i].val.status == PAID
    ensures |set k | 0 <= k < |u| && u[k].val.status == PENDING| == |set k | 0 <= k < |t| && t[k].val.status == PENDING| - 1
    ensures |set k | 0 <= k < |u| && u[k].val.status == PAID| == |set k | 0 <= k < |t| && t[k].val.status == PAID| + 1
  {
    var pt := set k | 0 <= k < |t| && t[k].val.status == PENDING;
    var pu := set k | 0 <= k < |u| && u[k].val.status == PENDING;
    var qt := set k | 0 <= k < |t| && t[k].val.status == PAID;
    var qu := set k | 0 <= k < |u| && u[k].val.status == PAID;
    assert pt == pu + {i};
    assert i !in pu;
    assert qu == qt + {i};
    assert i !in qt;
  }

  function StatusIsEither(r: Row<Invoice>): bool {
    r.val.status == PENDING || r.val.status == PAID
  }

  /** With only the two statuses the application writes, the counts and amounts partition the totals. */
  lemma StatsAddUp(db: Db)
    requires forall k :: 0 <= k < |db.invoices| ==> db.invoices[k].val.status in {PENDING, PAID}
    ensures var s := GetInvoiceStats(db);
      && s.totalInvoices == s.pendingInvoices + s.paidInvoices
      && s.totalAmount == s.pendingAmount + s.paidAmount
  {
    PartitionSums(db.invoices, StatusIs(PENDING), StatusIs(PAID), InvoiceTotal);
  }

  /** Appending a pending row adds it to the pending rows and leaves the paid rows alone. */
  lemma AppendPendingRow(t: Table<Invoice>, x: Row<Invoice>)
    requires x.val.status == PENDING
    ensures Filter(t + [x], StatusIs(PENDING)) == Filter(t, StatusIs(PENDING)) + [x]
    ensures Filter(t + [x], StatusIs(PAID)) == Filter(t, StatusIs(PAID))
    ensures Sum(t + [x], InvoiceTotal) == Sum(t, InvoiceTotal) + x.val.total
    ensures Sum(Filter(t, StatusIs(PENDING)) + [x], InvoiceTotal) == Sum(Filter(t, StatusIs(PENDING)), InvoiceTotal) + x.val.total
  {
    FilterAppend(t, [x], StatusIs(PENDING));
    FilterAppend(t, [x], StatusIs(PAID));
    assert Filter(t, StatusIs(PAID)) + [] == Filter(t, StatusIs(PAID));
    assert Sum([x], InvoiceTotal) == x.val.total by {
      assert [x][1..] == [];
    }
    SumAppend(t, [x], InvoiceTotal);
    SumAppend(Filter(t, StatusIs(PENDING)), [x], InvoiceTotal);
  }

  /** A successful create counts one more pending invoice and adds the entries' total to the pending amount. */
  lemma CreateUpdatesStats(db: Db, data: NewInvoice, now: string)
    requires CreateInvoice(db, data, now).result.Ok?
    ensures var before := GetInvoiceStats(db);
      var after := GetInvoiceStats(CreateInvoice(db, data, now).db);
      && after.totalInvoices == before.totalInvoices + 1
      && after.pendingInvoices == before.pendingInvoices + 1
      && after.paidInvoices == before.paidInvoices
      && after.totalAmount == before.totalAmount + LinesTotal(data.lineItems)
      && after.pendingAmount == before.pendingAmount + LinesTotal(data.lineItems)
      && after.paidAmount == before.paidAmount
  {
    var r := CreateInvoice(db, data, now).db;
    var x := r.invoices[|db.invoices|];
    assert r.invoices == db.invoices + [x];
    AppendPendingRow(db.invoices, x);
  }

  // ---------------------------------------------------------------- delete

  /** The receipts-to-invoices JOIN of `delete_invoice` has a row for this number. */
  predicate HasReceiptFor(db: Db, number: string) {
    exists k, j | 0 <= k < |db.receipts| && 0 <= j < |db.invoices| ::
      db.receipts[k].val.invoiceId == db.invoices[j].id && db.invoices[j].val.number == number
  }

  /**
   * `Invoice.delete_invoice`. Refused unless `CanEditInvoice`, and when a receipt
   * joins to the number. Otherwise, if the joined read finds the invoice, its
   * items and every invoice row with the number are deleted. When that read
   * finds nothing (the invoice's client or contractor row is missing) success is
   * reported and nothing is deleted.
   */
  function DeleteInvoice(db: Db, number: string): (r: Step<()>)
    ensures r.result == Err(NotPending) <==> !CanEditInvoice(db, number)
    ensures r.result == Err(HasReceipt) <==> CanEditInvoice(db, number) && HasReceiptFor(db, number)
    ensures r.result.Err? ==> r.db == db
    ensures r.result.Ok? && GetInvoiceByNumber(db, number).None? ==> r.db == db
    ensures r.result.Ok? && GetInvoiceByNumber(db, number).Some? ==>
      var id := GetInvoiceByNumber(db, number).value.header.id;
      && r.db.contractors == db.contractors && r.db.clients == db.clients && r.db.receipts == db.receipts
      && (forall x :: x in r.db.invoices <==> x in db.invoices && x.val.number != number)
      && (forall x :: x in r.db.items <==> x in db.items && x.val.invoiceId != id)
  {
    if !CanEditInvoice(db, number) then Step(Err(NotPending), db)
    else if HasReceiptFor(db, number) then Step(Err(HasReceipt), db)
    else
      match GetInvoiceByNumber(db, number)
      case None => Step(Ok(()), db)
      case Some(v) =>
        Step(Ok(()), db.(items := Filter(db.items, NotItemOf(v.header.id)),
                         invoices := Filter(db.invoices, NumberIsNot(number))))
  }

  /** After a delete that removed something, the number is free and its items are gone. */
  lemma DeleteRemovesInvoice(db: Db, number: string)
    requires DeleteInvoice(db, number).result.Ok? && GetInvoiceByNumber(db, number).Some?
    ensures var r := DeleteInvoice(db, number).db;
      && !NumberTaken(r.invoices, number)
      && GetInvoiceByNumber(r, number).None?
      && Filter(r.items, ItemOf(GetInvoiceByNumber(db, number).value.header.id)) == []
  {
    var r := DeleteInvoice(db, number).db;
    var id := GetInvoiceByNumber(db, number).value.header.id;
    assert !NumberTaken(r.invoices, number);
    FilterKeepsNone(r.items, ItemOf(id));
  }

  /** Dropping invoice rows keeps the numbers of the rest distinct. */
  lemma FilterKeepsNumbersUnique(t: Table<Invoice>, keep: Row<Invoice> -> bool)
    requires Ordered(t) && InvoiceNumbersUnique(t)
    ensures InvoiceNumbersUnique(Filter(t, keep))
  {
    var f := Filter(t, keep);
    forall i, j | 0 <= i < j < |f| ensures f[i].val.number != f[j].val.number {
      assert f[i] in t && f[j] in t && f[i].id < f[j].id;
      var a :| 0 <= a < |t| && t[a] == f[i];
      var b :| 0 <= b < |t| && t[b] == f[j];
      assert a != b;
    }
  }

  /** Removing the only invoice row with the number and exactly its items leaves every item owned. */
  lemma DeleteKeepsItemsOwned(db: Db, number: string, h: Row<Invoice>)
    requires Valid(db) && h in db.invoices && h.val.number == number
    ensures ItemsOwned(db.(items := Filter(db.items, NotItemOf(h.id)), invoices := Filter(db.invoices, NumberIsNot(number))))
  {
    var items := Filter(db.items, NotItemOf(h.id));
    var invoices := Filter(db.invoices, NumberIsNot(number));
    forall k | 0 <= k < |items| ensures items[k].val.invoiceId in Ids(invoices) {
      var x := items[k];
      assert x in db.items;
      var i :| 0 <= i < |db.items| && db.items[i] == x;
      assert x.val.invoiceId in Ids(db.invoices);
      var y :| y in db.invoices && y.id == x.val.invoiceId;
      OnlyRowWithNumber(db, number, h, y);
      assert y in invoices;
    }
  }

  /** Removing a row no receipt joins to leaves every receipt's invoice paid. */
  lemma DeleteKeepsReceiptsPaid(db: Db, number: string)
    requires Valid(db) && !HasReceiptFor(db, number)
    ensures ReceiptsForPaidInvoices(db.(invoices := Filter(db.invoices, NumberIsNot(number))))
  {
    var invoices := Filter(db.invoices, NumberIsNot(number));
    forall k | 0 <= k < |db.receipts| ensures IsPaidInvoice(invoices, db.receipts[k].val.invoiceId) {
      var j :| 0 <= j < |db.invoices| && db.invoices[j].id == db.receipts[k].val.invoiceId && db.invoices[j].val.status == PAID;
      var y := db.invoices[j];
      assert y.val.number != number;
      assert y in invoices;
      var j' :| 0 <= j' < |invoices| && invoices[j'] == y;
    }
  }

  lemma DeleteInvoiceKeepsValid(db: Db, number: string)
    requires Valid(db)
    ensures Valid(DeleteInvoice(db, number).db)
  {
    var d := DeleteInvoice(db, number);
    if d.result.Ok? && GetInvoiceByNumber(db, number).Some? {
      var h := GetInvoiceByNumber(db, number).value.header;
      FilterKeepsNumbersUnique(db.invoices, NumberIsNot(number));
      DeleteKeepsItemsOwned(db, number, h);
      DeleteKeepsReceiptsPaid(db, number);
    }
  }

  /** Under unique numbers, a row with a different id has a different number. */
  lemma OnlyRowWithNumber(db: Db, number: string, h: Row<Invoice>, y: Row<Invoice>)
    requires Valid(db) && h in db.invoices && h.val.number == number && y in db.invoices && y.id != h.id
    ensures y.val.number != number
  {
    var a :| 0 <= a < |db.invoices| && db.invoices[a] == h;
    var b :| 0 <= b < |db.invoices| && db.invoices[b] == y;
  }

  // ---------------------------------------------------------------- numbering after deletions

  /**
   * Every create from the same store computes the same number, so once one
   * collides, every later create collides too until some other operation
   * changes the number of invoice rows.
   */
  lemma CollisionRepeats(db: Db, d1: NewInvoice, n1: string, d2: NewInvoice, n2: string)
    requires CreateInvoice(db, d1, n1).result.Err?
    ensures CreateInvoice(db, d2, n2) == Step(Err(UniqueViolation), db)
  {
  }

  /** A permitted delete of an invoice the joined read finds drops its items and its number's rows. */
  lemma DeleteFound(db: Db, number: string)
    requires CanEditInvoice(db, number) && !HasReceiptFor(db, number) && GetInvoiceByNumber(db, number).Some?
    ensures DeleteInvoice(db, number) == Step(Ok(()), db.(
      items := Filter(db.items, NotItemOf(GetInvoiceByNumber(db, number).value.header.id)),
      invoices := Filter(db.invoices, NumberIsNot(number))))
  {
  }

  /** Dropping the one row that carries a number leaves one row fewer, and every other row. */
  lemma DropOneNumber(t: Table<Invoice>, h: Row<Invoice>)
    requires Ordered(t) && InvoiceNumbersUnique(t) && h in t
    ensures |Filter(t, NumberIsNot(h.val.number))| == |t| - 1
    ensures forall x :: x in t && x.val.number != h.val.number ==> x in Filter(t, NumberIsNot(h.val.number))
  {
    var n := h.val.number;
    forall y | y in t && NumberIs(n)(y) ensures y == h {
      var a :| 0 <= a < |t| && t[a] == h;
      var b :| 0 <= b < |t| && t[b] == y;
      assert !(a < b) && !(b < a);
    }
    FilterSingle(t, NumberIs(n), h);
    PartitionSums(t, NumberIs(n), NumberIsNot(n), (v: Invoice) => v.total);
  }

  /**
   * As written: in a store numbered `INV-0001`, `INV-0002`, ... with nothing
   * deleted yet, deleting any invoice but the newest leaves `|t| - 1` rows, so
   * the next number is the newest invoice's, which is still there: the create fails.
   */
  lemma CountNumberingCollides(db: Db, number: string, data: NewInvoice, now: string)
    requires Valid(db) && SequentiallyNumbered(db.invoices)
    requires CanEditInvoice(db, number) && !HasReceiptFor(db, number) && GetInvoiceByNumber(db, number).Some?
    requires number != FormatNumber(INVOICE_PREFIX, |db.invoices|)
    ensures DeleteInvoice(db, number).result.Ok?
    ensures CreateInvoice(DeleteInvoice(db, number).db, data, now).result == Err(UniqueViolation)
  {
    var h := GetInvoiceByNumber(db, number).value.header;
    DeleteFound(db, number);
    RemovalThenCreateCollides(db.invoices, h, DeleteInvoice(db, number).db, data, now);
  }

  /** A store whose invoices are a sequential table less one row that is not the newest: the next create collides. */
  lemma RemovalThenCreateCollides(t: Table<Invoice>, h: Row<Invoice>, after: Db, data: NewInvoice, now: string)
    requires Ordered(t) && InvoiceNumbersUnique(t) && SequentiallyNumbered(t) && h in t
    requires h.val.number != FormatNumber(INVOICE_PREFIX, |t|)
    requires after.invoices == Filter(t, NumberIsNot(h.val.number))
    ensures CreateInvoice(after, data, now).result == Err(UniqueViolation)
  {
    LastNumberSurvives(t, h);
  }

  /** Removing one invoice other than the last leaves the last one's number, the count-based next one, taken. */
  lemma LastNumberSurvives(t: Table<Invoice>, h: Row<Invoice>)
    requires Ordered(t) && InvoiceNumbersUnique(t) && SequentiallyNumbered(t) && h in t
    requires h.val.number != FormatNumber(INVOICE_PREFIX, |t|)
    ensures NumberTaken(Filter(t, NumberIsNot(h.val.number)), FormatNumber(INVOICE_PREFIX, |Filter(t, NumberIsNot(h.val.number))| + 1))
  {
    var last := t[|t| - 1];
    assert last.val.number == FormatNumber(INVOICE_PREFIX, |t|);
    LastSurvives(t, h);
    var after := Filter(t, NumberIsNot(h.val.number));
    var k :| 0 <= k < |after| && after[k] == last;
    assert after[k].val.number == FormatNumber(INVOICE_PREFIX, |after| + 1);
  }

  /** The last row survives removing any other number, and exactly one row goes. */
  lemma LastSurvives(t: Table<Invoice>, h: Row<Invoice>)
    requires Ordered(t) && InvoiceNumbersUnique(t) && h in t
    requires t[|t| - 1].val.number != h.val.number
    ensures |Filter(t, NumberIsNot(h.val.number))| == |t| - 1
    ensures t[|t| - 1] in Filter(t, NumberIsNot(h.val.number))
  {
    DropOneNumber(t, h);
  }

  /** The largest sequence number carried by a stored `INV-` number, or 0. */
  function MaxInvoiceIndex(t: Table<Invoice>): (m: nat)
    ensures forall k :: 0 <= k < |t| ==> ParseNumber(INVOICE_PREFIX, t[k].val.number).GetOr(0) <= m
  {
    if t == [] then 0
    else
      var last := ParseNumber(INVOICE_PREFIX, t[|t| - 1].val.number).GetOr(0);
      var m := MaxInvoiceIndex(t[..|t| - 1]);
      if last > m then last else m
  }

  /** One past the largest stored sequence number: never a number already in use. */
  function FreshInvoiceNumber(db: Db): (r: string)
    ensures !NumberTaken(db.invoices, r)
  {
    var n := MaxInvoiceIndex(db.invoices) + 1;
    FormatThenParse(INVOICE_PREFIX, n);
    FormatNumber(INVOICE_PREFIX, n)
  }

  /** The invoices carry `INV-0001`, `INV-0002`, ... in rowid order, as when none was ever deleted. */
  predicate SequentiallyNumbered(t: Table<Invoice>) {
    forall k :: 0 <= k < |t| ==> t[k].val.number == FormatNumber(INVOICE_PREFIX, k + 1)
  }

  /** Where no invoice was ever deleted, the fresh number is the count-based one. */
  lemma {:induction false} FreshMatchesCountWhenSequential(t: Table<Invoice>)
    ensures SequentiallyNumbered(t) ==> MaxInvoiceIndex(t) == |t|
    decreases |t|
  {
    if SequentiallyNumbered(t) && t != [] {
      var init := t[..|t| - 1];
      assert forall k :: 0 <= k < |init| ==> init[k] == t[k];
      FreshMatchesCountWhenSequential(init);
      FormatThenParse(INVOICE_PREFIX, |t|);
    }
  }

  /** Invoice creation with a number that cannot collide: it always succeeds. */
  function CreateInvoiceFresh(db: Db, data: NewInvoice, now: string): (r: Step<string>)
    ensures r.result.Ok? && !NumberTaken(db.invoices, r.result.value)
    ensures Inserted(db, r.db, r.result.value, data)
    ensures SequentiallyNumbered(db.invoices) ==> r == CreateInvoice(db, data, now)
  {
    var number := FreshInvoiceNumber(db);
    FreshMatchesCountWhenSequential(db.invoices);
    Step(Ok(number), InsertInvoice(db, number, data, now))
  }

  lemma CreateInvoiceFreshKeepsValid(db: Db, data: NewInvoice, now: string)
    requires Valid(db)
    ensures Valid(CreateInvoiceFresh(db, data, now).db)
  {
    InsertInvoiceKeepsValid(db, FreshInvoiceNumber(db), data, now);
  }

  // ---------------------------------------------------------------- deleting without the joins

  /**
   * As written: when the invoice's client row is missing, the joined read finds
   * nothing, yet the delete reports success; the store is unchanged and the
   * number is still taken.
   */
  lemma DeleteReportsSuccessWithoutDeleting(db: Db, number: string)
    requires CanEditInvoice(db, number) && !HasReceiptFor(db, number)
    requires forall c :: c in db.clients ==> c.id != FindFirst(db.invoices, NumberIs(number)).value.val.clientId
    ensures DeleteInvoice(db, number) == Step(Ok(()), db)
    ensures NumberTaken(DeleteInvoice(db, number).db.invoices, number)
  {
    var h := FindFirst(db.invoices, NumberIs(number)).value;
    assert FindFirst(db.clients, WithId(h.val.clientId)).None?;
    var k :| 0 <= k < |db.invoices| && db.invoices[k] == h;
  }

  /**
   * Deletion keyed on the invoice row itself rather than on the joined read:
   * on success the number is gone and so are the row's items.
   */
  function DeleteInvoiceByRow(db: Db, number: string): (r: Step<()>)
    ensures r.result == Err(NotPending) <==> !CanEditInvoice(db, number)
    ensures r.result == Err(HasReceipt) <==> CanEditInvoice(db, number) && HasReceiptFor(db, number)
    ensures r.result.Err? ==> r.db == db
    ensures r.result.Ok? ==>
      && !NumberTaken(r.db.invoices, number)
      && r.db.contractors == db.contractors && r.db.clients == db.clients && r.db.receipts == db.receipts
      && (forall x :: x in r.db.invoices <==> x in db.invoices && x.val.number != number)
      && exists h :: h in db.invoices && h.val.number == number &&
           forall x :: x in r.db.items <==> x in db.items && x.val.invoiceId != h.id
  {
    if !CanEditInvoice(db, number) then Step(Err(NotPending), db)
    else if HasReceiptFor(db, number) then Step(Err(HasReceipt), db)
    else
      var h := FindFirst(db.invoices, NumberIs(number)).value;
      var r := db.(items := Filter(db.items, NotItemOf(h.id)), invoices := Filter(db.invoices, NumberIsNot(number)));
      assert !NumberTaken(r.invoices, number) by {
        forall k | 0 <= k < |r.invoices| ensures r.invoices[k].val.number != number {
          assert r.invoices[k] in r.invoices;
        }
      }
      Step(Ok(()), r)
  }

  lemma DeleteInvoiceByRowKeepsValid(db: Db, number: string)
    requires Valid(db)
    ensures Valid(DeleteInvoiceByRow(db, number).db)
  {
    if DeleteInvoiceByRow(db, number).result.Ok? {
      var h := FindFirst(db.invoices, NumberIs(number)).value;
      FilterKeepsNumbersUnique(db.invoices, NumberIsNot(number));
      DeleteKeepsItemsOwned(db, number, h);
      DeleteKeepsReceiptsPaid(db, number);
    }
  }

  /** Where the joined read succeeds, the corrected delete does exactly what the original does. */
  lemma DeleteByRowAgrees(db: Db, number: string)
    requires Ordered(db.invoices)
    requires GetInvoiceByNumber(db, number).Some?
    ensures DeleteInvoiceByRow(db, number) == DeleteInvoice(db, number)
  {
  }
}
