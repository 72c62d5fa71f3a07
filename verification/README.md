# Invoice system core in Dafny

This project is a Dafny model of a small invoicing application: a Flask web app over a SQLite file. The model covers the rules that sit under its SQL:

- allocating invoice and receipt numbers;
- creating, editing, deleting and paying invoices, with their line items;
- the guards on clients and the contractor profile;
- the start-up migration of legacy invoices;
- the text decisions of the PDF generator;
- the browser-side phone formatter and CSV export;
- the path filter and confirmation prompt of the distribution packager.

The database is an immutable value `Schema.Db`. It holds five tables, and each table is a `seq` of rows kept in rowid order (`Tables.Row`, `Tables.Table`). Every SQL statement is a pure function on tables. A new row gets rowid "largest + 1" (`Tables.NextId`). Every application operation is a pure transition that returns what its caller sees and the database afterwards (`Schema.Step`).

Failures are values of `Schema.Error`:
- a UNIQUE or NOT NULL violation;
- a refusal by a guard;
- a missing form field or an unparsable number;
- a query naming a missing column.

Money is `real`. The current time is a plain string parameter (`now`).

The modules follow the program's files:

| module | file | what it holds |
|---|---|---|
| `Wrappers`, `Text`, `Sorting`, `Tables` | — | `Option`/`Result`; string helpers (strip, lower, digits, join/split, string order); insertion sort; tables |
| `Schema` | `models/database.py` | the five tables, defaults, uniqueness, and the consistency predicate `Valid` |
| `Numbering` | `config.py`, `models/invoice.py`, `models/receipt.py` | `PREFIX` + `{n:04d}` numbers |
| `Clients`, `Contractors` | `models/client.py`, `models/contractor.py` | client CRUD with the delete guard; the contractor upsert |
| `Invoices` | `models/invoice.py` | create, read, update, guards, delete, mark paid, stats |
| `Receipts` | `models/receipt.py` | issuing, lookups, stats |
| `FormItems`, `InvoiceRoutes` | `routes/invoice.py` | the line-item form parser; the create, edit and mark-paid handlers |
| `Migration` | `models/database.py` | the legacy-data migration in `init_db` |
| `PdfLabels` | `services/pdf_generator.py` | file names, labels, date and service cells, the service table |
| `Phone`, `Csv` | `static/js/main.js` | phone formatter, `convertToCSV` |
| `Packaging` | `package_for_distribution.py` | `should_exclude`, `ignore_patterns`, the yes/no prompt |

The store-level invariant `Schema.Valid` bundles several facts:
- tables in rowid order;
- unique invoice and receipt numbers;
- every item owned by a stored invoice;
- every receipt for a paid invoice;
- at most one receipt per invoice.

Every operation that writes is proved to preserve it (the `KeepsValid` lemmas), except the raw `Receipts.CreateReceipt`, which is proved able to break it.

## Model

| member | source | states |
|---|---|---|
| Numbering.FormatNumber | models/invoice.py:67 | the number is the prefix followed by only digits, at least four of them, and more only when the value needs more |
| Numbering.FormatThenParse | config.py:16-17 | reading the digits after the prefix gives back the sequence number, for both prefixes |
| Numbering.FormatInjective | models/invoice.py:67 | distinct sequence numbers never give the same document number |
| Numbering.FormatExampleSeven | models/invoice.py:67 | invoice 7 is numbered `INV-0007` |
| Numbering.FormatExampleTwelve | models/receipt.py:75 | receipt 12 is numbered `REC-0012` |
| Numbering.FormatExampleWide | models/invoice.py:67 | past 9999 the padding gives way to a fifth digit (`INV-12345`) |
| Tables.NextId | models/database.py:25 | the rowid an insert gets is larger than every stored rowid, so it is fresh |
| Tables.Insert | models/database.py:25 | an insert appends exactly one row under the fresh rowid and keeps every old row and the rowid order |
| Tables.Filter | models/invoice.py:205-207 | a DELETE/SELECT keeps exactly the rows its condition selects, in order |
| Tables.UpdateWhere | models/invoice.py:141 | an UPDATE rewrites exactly the selected rows and keeps every rowid |
| Clients.CreateClient | models/client.py:23-30 | exactly one client row is added, under a fresh id, with the four form fields; no other table changes |
| Clients.UpdateClient | models/client.py:33-41 | only the row with the id gets the four fields; its `created_at` and every other row and table stay |
| Clients.DeleteClient | models/client.py:44-55 | refused (and nothing changes) exactly when some invoice names the client; otherwise exactly that client is removed |
| Clients.DeleteClientKeepsClientsExist | models/client.py:47-51 | the guard keeps every invoice's client row in place |
| Clients.CreateClientKeepsValid | models/client.py:23-30 | adding a client keeps the store consistent |
| Clients.UpdateClientKeepsValid | models/client.py:33-41 | updating a client keeps the store consistent |
| Clients.DeleteClientKeepsValid | models/client.py:44-55 | a delete, refused or not, keeps the store consistent |
| Clients.GetAllClients | models/client.py:11-14 | every client exactly once (same multiset), ordered by name |
| Clients.ClientLeIsTotalPreorder | models/client.py:13 | name order (ties by rowid) is total and transitive, so the sort is well defined |
| Clients.GetClientsForDropdown | models/client.py:58-61 | one (id, name) pair per row of the listing, in the listing's order |
| Clients.DropdownOrderedByName | models/client.py:58-61 | the dropdown has one entry per client, contains every client, and its names never decrease |
| Contractors.GetContractor | models/contractor.py:13-16 | none exactly when the table is empty; otherwise the first row, which has the smallest rowid |
| Contractors.CreateOrUpdateContractor | models/contractor.py:19-44 | an existing first row is rewritten in place (id and `created_at` kept, other rows untouched); an empty table gets one new row |
| Contractors.CreateOrUpdateContractorKeepsValid | models/contractor.py:19-44 | saving the profile keeps the store consistent |
| Contractors.SaveAllKeepsSingleton | models/contractor.py:19-44 | from at most one row, any run of saves leaves at most one row, and exactly one after a save |
| Contractors.GetContractorDict | models/contractor.py:47-60 | none exactly when there is no contractor; otherwise the first row's id and six fields |
| Contractors.SaveThenRead | models/contractor.py:19-60 | after a save the profile reads back exactly the saved fields, under the old id or id 1 |
| Invoices.NewRows | models/invoice.py:85-95 | entry k is stored under rowid `first + k` with `sort_order` `k` and amount quantity × rate |
| Invoices.InsertItemsAppends | models/invoice.py:85-95 | the insert loop appends exactly those rows after the existing ones |
| Invoices.NewRowsSum | models/invoice.py:70-90 | the stored amounts add up to the recomputed invoice total |
| Invoices.OrderedItems | models/invoice.py:46-52 | the invoice's items, each once (same multiset as the WHERE), sorted by `sort_order` then id |
| Invoices.GetInvoiceByNumber | models/invoice.py:28-59 | a found header has the number, its client and contractor rows exist (the joins), and its items are the ordered read; no row with the number gives none |
| Invoices.GetInvoiceByNumberFinds | models/invoice.py:28-59 | the first row with the number is found exactly when its client and contractor rows exist, and then it is the header returned |
| Invoices.CreateInvoice | models/invoice.py:62-97 | succeeds exactly when the count-based number is free; then one pending header (flag 0, recomputed total, the form's client, contractor and date) and its items are appended, nothing else changes; a taken number fails with nothing written |
| Invoices.CreateThenRead | models/invoice.py:46-95 | reading a created invoice back gives its entries in entry order, with amounts summing to the stored total |
| Invoices.ReadBackNewItems | models/invoice.py:46-95 | appending an id's rows and reading that id back gives exactly the appended rows |
| Invoices.InsertInvoiceKeepsValid | models/invoice.py:73-95 | inserting under a free number keeps the store consistent |
| Invoices.CreateInvoiceKeepsValid | models/invoice.py:62-97 | create keeps the store consistent, whether it succeeds or collides |
| Invoices.ReplaceItems | models/invoice.py:120-134 | every other invoice's items are untouched; each row is either the invoice's or an old one; rowid order is kept |
| Invoices.ReplaceThenRead | models/invoice.py:120-134 | after the replacement the invoice's items read back as exactly the new entries, in order, summing to the new total |
| Invoices.UpdateInvoice | models/invoice.py:99-136 | true exactly when the joined read finds the invoice pending; false changes nothing; true rewrites client, date and total of that row (number, contractor, status kept), replaces its items, and changes nothing else |
| Invoices.UpdateThenRead | models/invoice.py:110-134 | after a successful update the items read back as the new entries, summing to the new total |
| Invoices.UpdateRefusedChangesNothing | models/invoice.py:103-105 | when the invoice is missing or not pending, the update returns false with the store unchanged |
| Invoices.UpdateInvoiceKeepsValid | models/invoice.py:99-136 | an update keeps the store consistent |
| Invoices.CanEditInvoice | models/invoice.py:181-186 | true only if a row with the number is pending, and (numbers being unique) true whenever one is |
| Invoices.EditableNeedsCanEdit | models/invoice.py:103-186 | whatever the update's joined check accepts, the plain status check accepts too |
| Invoices.MarkInvoicePaid | models/invoice.py:138-142 | every row with the number becomes paid with its id kept; every other row and table is unchanged |
| Invoices.MarkPaidStopsEditing | models/invoice.py:139-186 | after marking paid the invoice can no longer be edited or deleted |
| Invoices.MarkInvoicePaidKeepsValid | models/invoice.py:138-142 | marking paid keeps the store consistent |
| Invoices.GetInvoiceStats | models/invoice.py:144-179 | the pending and paid counts are the numbers of rows with that status; the pending, paid and total amounts are the sums of those rows' totals; the total count is the number of rows |
| Invoices.MarkPaidMovesStats | models/invoice.py:138-179 | marking a pending invoice paid moves one from the pending count to the paid count and its total from the pending to the paid amount; the total count and amount stay |
| Invoices.StatsAddUp | models/invoice.py:149-177 | when every status is pending or paid, counts and amounts split exactly into the two |
| Invoices.CreateUpdatesStats | models/invoice.py:62-179 | a create adds one pending invoice and its total to the total and pending amount, and leaves the paid figures alone |
| Invoices.DeleteInvoice | models/invoice.py:188-209 | refused exactly when the status check fails, then exactly when a receipt joins; refusals change nothing; when the joined read finds the invoice, its rows and exactly its items go; when it finds nothing, success with no change |
| Invoices.DeleteRemovesInvoice | models/invoice.py:202-207 | after a delete that found the invoice, its number is free and none of its items remain |
| Invoices.DeleteInvoiceKeepsValid | models/invoice.py:188-209 | a delete keeps the store consistent |
| Invoices.CollisionRepeats | models/invoice.py:65-67 | once the count-based number is taken, every create fails the same way until the row count changes |
| Invoices.CountNumberingCollides | models/invoice.py:65-67 | in a consistent store numbered in sequence, a delete the guards permit (pending, no receipt, found by the joined read) of any invoice but the newest succeeds, and the next create then fails on the UNIQUE number |
| Invoices.NextInvoiceNumber | models/invoice.py:65-67 | the number reads back as row count + 1 after the `INV-` prefix |
| Invoices.FreshInvoiceNumber | models/invoice.py:65-67 | the number one past the largest stored sequence number is never in use |
| Invoices.FreshMatchesCountWhenSequential | models/invoice.py:65-67 | with nothing ever deleted, the largest stored sequence number equals the row count |
| Invoices.CreateInvoiceFresh | models/invoice.py:62-97 | always succeeds with an unused number, appends like `CreateInvoice`, and equals `CreateInvoice` while nothing was deleted |
| Invoices.CreateInvoiceFreshKeepsValid | models/invoice.py:62-97 | the corrected create keeps the store consistent |
| Invoices.DeleteReportsSuccessWithoutDeleting | models/invoice.py:188-209 | when the invoice's client row is missing, a permitted delete reports success, changes nothing, and the number stays taken |
| Invoices.DeleteInvoiceByRow | models/invoice.py:188-209 | the same refusals; on success the number is gone and so are exactly the items of the row that carried it |
| Invoices.DeleteInvoiceByRowKeepsValid | models/invoice.py:188-209 | the corrected delete keeps the store consistent |
| Invoices.DeleteByRowAgrees | models/invoice.py:202-207 | where the joined read finds the invoice, the corrected delete is exactly the original |
| Receipts.LeaveDateBlankOf | models/receipt.py:77-80 | the flag of the invoice with the id, or 0 when there is none |
| Receipts.NextReceiptNumber | models/receipt.py:73-75 | the number reads back as receipt count + 1 after the `REC-` prefix |
| Receipts.CreateReceipt | models/receipt.py:69-92 | succeeds exactly when the count-based `REC-` number is free; then exactly one receipt is appended with that number, the invoice id, the amount as passed, `now` and the invoice's flag; nothing else changes |
| Receipts.CreateReceiptAlwaysAdds | models/receipt.py:69-92 | a successful create adds a receipt for the invoice whether or not it already had one |
| Receipts.CreateReceiptCanDuplicate | models/receipt.py:69-92 | called for an invoice that has a receipt, it breaks one-receipt-per-invoice |
| Receipts.SequentialReceiptsNeverCollide | models/receipt.py:73-75 | with receipts numbered in sequence, issuing one never collides and keeps the sequence |
| Receipts.GetReceiptByInvoiceId | models/receipt.py:94-99 | none exactly when no receipt names the invoice; otherwise the number of one that does |
| Receipts.CreateThenFindReceipt | models/receipt.py:69-99 | after the first receipt of an invoice is issued, looking it up by invoice finds its number |
| Receipts.GetReceiptByNumber | models/receipt.py:24-67 | a found receipt has the number and its invoice, client and contractor exist; items are the ordered read; service fields come from the first item, or are `Services Rendered` and empty |
| Receipts.GetReceiptByNumberFinds | models/receipt.py:24-67 | the first receipt with the number is found exactly when its invoice and that invoice's client and contractor exist, and then the receipt and invoice returned are those rows |
| Receipts.GetReceiptStats | models/receipt.py:101-114 | the count is the number of receipts and the amount received is the sum of their amounts; no receipts means zero received |
| Receipts.CreateReceiptUpdatesStats | models/receipt.py:82-114 | issuing a receipt adds one to the count and exactly the amount passed to the total |
| FormItems.Get | routes/invoice.py:35-47 | a missing key gives none; a found value is the one under the key's first occurrence in the form |
| FormItems.IndexOf | routes/invoice.py:42 | the index is the bracket-free run right after `line_items[`, ended by the next `[` or `]` |
| FormItems.IndexOfFieldKey | routes/invoice.py:40-42 | a key built as `line_items[IDX][field]` (IDX without brackets) qualifies and gives back IDX |
| FormItems.IndexOfStopsAtBracket | routes/invoice.py:42 | the index ends at the next `[` too: `line_items[a[b][c]` gives `a` |
| FormItems.SortedSet | routes/invoice.py:38-46 | `sorted(set(xs))` holds each element of xs once, in strictly increasing string order |
| FormItems.StrictlySortedUnique | routes/invoice.py:46 | a strictly sorted sequence is fixed by its elements, so the visiting order is determined |
| FormItems.TenBeforeTwo | routes/invoice.py:46 | indices sort as strings: `10` is visited before `2`, and duplicates appear once |
| FormItems.ParseInt | routes/invoice.py:52 | accepted exactly for digits with at most one leading sign; the value is the numeral's, negated after `-` |
| FormItems.ParseFloat | routes/invoice.py:53 | accepted text has a digit, at most one point, and otherwise only digits and a leading sign; a negative value needs `-`; a plain numeral reads as its value |
| FormItems.ParseFloatValue | routes/invoice.py:53 | any text that strips to an optional sign, digits `w`, a point and digits `f` (a digit on some side) is accepted and reads as ±(w + f / 10^len(f)) |
| FormItems.ParseFloatInteger | routes/invoice.py:53 | any text that strips to an optional sign and a non-empty digit string is accepted and reads as ± its value |
| FormItems.Indices | routes/invoice.py:38-46 | the visited indices are strictly ordered and are exactly those of the qualifying keys |
| FormItems.ParseIntDecimal | routes/invoice.py:52 | `int()` reads back any non-negative decimal numeral |
| FormItems.ParseIntNegativeDecimal | routes/invoice.py:52 | `int()` reads back a negative numeral |
| FormItems.ParseFloatDecimal | routes/invoice.py:53 | `float()` reads back an integer numeral as that value |
| FormItems.ParseRejectsBlank | routes/invoice.py:52-53 | blank text and a lone point are rejected, not read as zero |
| FormItems.ParseFloatExample | routes/invoice.py:53 | `float("12.50")` is 12.5 |
| FormItems.BuildItem | routes/invoice.py:47-55 | a blank stripped name gives no entry; otherwise the stripped name and description, the posted quantity as `int()` reads it and the rate as `float()` reads it, or 1 and 0 when absent; it fails exactly when a named entry has a number those reject |
| FormItems.BuildItems | routes/invoice.py:46-55 | a failure is always a bad number; the entries are no more than the indices |
| FormItems.BuildItemsMatchesNamed | routes/invoice.py:46-55 | the entries are those of the indices with a non-blank name, in visiting order, each built from its own fields |
| FormItems.BuiltItemsAreNamed | routes/invoice.py:47-51 | every kept entry has a non-blank name, and name and description carry no surrounding whitespace |
| FormItems.BlankNamesGiveNoItems | routes/invoice.py:48-59 | a form whose every entry is unnamed yields no line items |
| InvoiceRoutes.ClientIdOf | routes/invoice.py:62 | a missing field and unparsable text are told apart; success is the parsed integer |
| InvoiceRoutes.ReadInvoiceForm | routes/invoice.py:33-66 | on success the items are the parsed non-empty list, with the parsed client and the posted date; an empty list fails with "no line items" exactly then |
| InvoiceRoutes.CreateInvoiceRoute | routes/invoice.py:23-73 | every failure changes nothing; success exactly when a contractor exists, the form reads and the count-based number is free, and then one invoice is inserted under that number and the contractor's id; a taken number fails as a UNIQUE violation |
| InvoiceRoutes.CreateInvoiceRouteKeepsValid | routes/invoice.py:23-73 | the create handler keeps the store consistent |
| InvoiceRoutes.CreateInvoiceRouteFresh | routes/invoice.py:23-73 | the handler over the corrected create: success exactly when a contractor exists and the form reads, with an unused number |
| InvoiceRoutes.CreateRoutesAgreeWhenSequential | routes/invoice.py:23-73 | while the invoices are numbered in sequence, the handler and the corrected handler give the same outcome |
| InvoiceRoutes.CreateInvoiceRouteFreshKeepsValid | routes/invoice.py:23-73 | the corrected handler keeps the store consistent |
| InvoiceRoutes.EditInvoiceRoute | routes/invoice.py:98-150 | not found and not pending are refused before the form is read; refusals change nothing; success exactly when editable and the form reads, and it is an update with the form's data |
| InvoiceRoutes.CanEditMakesEditable | routes/invoice.py:101-109 | once the joined read finds the invoice, the status check and editability coincide |
| InvoiceRoutes.PendingInvoiceIsEditable | routes/invoice.py:98-150 | when the first row with the number is pending and its client and contractor exist, the edit succeeds exactly when the form reads, and mark paid is neither not-found nor not-pending |
| InvoiceRoutes.EditInvoiceRouteKeepsValid | routes/invoice.py:98-150 | the edit handler keeps the store consistent |
| InvoiceRoutes.MarkPaidRoute | routes/invoice.py:186-209 | not found and not pending change nothing; otherwise the flip happens first and stays even when the receipt fails; success is the receipt for the invoice's id and pre-flip total |
| InvoiceRoutes.MarkPaidRouteIssuesOneReceipt | routes/invoice.py:194-203 | when both steps succeed, the invoice is paid and has exactly one receipt, carrying its total |
| InvoiceRoutes.MarkPaidRouteKeepsValid | routes/invoice.py:186-209 | marking paid keeps the store consistent, one receipt per invoice included |
| InvoiceRoutes.NoReceiptForPending | routes/invoice.py:194 | in a consistent store a pending invoice has no receipt, which is what makes the route's guard enough |
| InvoiceRoutes.MarkPaidRouteSucceeds | routes/invoice.py:200-203 | with receipts numbered in sequence, marking a pending invoice paid always issues its receipt |
| InvoiceRoutes.MarkPaidRouteMovesStats | routes/invoice.py:194-203 | a successful mark paid moves the invoice's total from pending to paid in the invoice figures and adds one receipt and that total to the receipt figures |
| Migration.LegacyQuantity | models/database.py:122 | a NULL or zero quantity becomes 1; any other is kept |
| Migration.LegacyItems | models/database.py:113-125 | one item per legacy invoice in scan order, under consecutive rowids |
| Migration.Migrate | models/database.py:93-129 | runs only with invoices and no items; refused without the legacy columns; fails (all lost) exactly when a legacy row has a NULL rate; otherwise appends one item per legacy invoice and changes nothing else |
| Migration.MigrateTwiceChangesNothing | models/database.py:95-102 | running the migration again after it succeeded does nothing |
| Migration.MigratedInvoicesHaveOneItem | models/database.py:106-125 | each migrated invoice reads back exactly one item with its service columns and an amount equal to its total; any other invoice has none |
| Migration.MigrateKeepsValid | models/database.py:113-125 | every inserted item belongs to a stored invoice, so the store stays consistent |
| PdfLabels.InvoiceFilename | services/pdf_generator.py:87-88 | `Invoice_` + number + `_`, then the invoice date with its dashes removed, then `.pdf` |
| PdfLabels.InvoiceFilenameExample | services/pdf_generator.py:86-88 | the date `2025-07-12` gives `Invoice_INV-0001_20250712.pdf` |
| PdfLabels.ReceiptFilename | services/pdf_generator.py:272-273 | `Receipt_` + number + `_`, then the payment day before the first space with its dashes removed, then `.pdf` |
| PdfLabels.FilenameNamesDocument | services/pdf_generator.py:272-273 | a file name gives back its document number when the number holds no `_` |
| PdfLabels.GeneratedNumbersIdentifyFiles | services/pdf_generator.py:87-88 | every generated invoice and receipt number is recovered from its file name |
| PdfLabels.ReceiptFilenameIgnoresTime | services/pdf_generator.py:272 | only the day before the first space goes into a receipt's file name |
| PdfLabels.StatusLabel | services/pdf_generator.py:158 | "Pending Payment" exactly for `pending`, "Paid" for anything else |
| PdfLabels.Footer | services/pdf_generator.py:258-261 | the paid-in-full footer exactly for `paid`, the remit footer otherwise |
| PdfLabels.LabelAndFooterAgree | services/pdf_generator.py:158-261 | for the two statuses written, label and footer agree |
| PdfLabels.OtherStatusMixesLabels | services/pdf_generator.py:158-261 | any other status is labelled "Paid" yet asks for payment |
| PdfLabels.DateCell | services/pdf_generator.py:339 | the underscore line exactly when the flag is present and non-zero, the date otherwise |
| PdfLabels.InvoiceDateCell | services/pdf_generator.py:154 | the invoice date always shows, because the joined read does not select the flag |
| PdfLabels.ReceiptDateCell | services/pdf_generator.py:339 | the underscore line when the flag is set; otherwise a prefix of the payment date with no space, the whole date when it has no space |
| PdfLabels.ReceiptDateFollowsInvoice | services/pdf_generator.py:339 | a new receipt shows the blank line when its invoice asked for it, otherwise the day it was issued |
| PdfLabels.ServicesCell | services/pdf_generator.py:344 | "n item(s)" with the count when there are items, else the service name, else `Services Rendered` |
| PdfLabels.ReceiptServicesCell | services/pdf_generator.py:344 | on a receipt read by number, the cell is `Services Rendered` exactly when the invoice has no items |
| PdfLabels.TaxIdLines | services/pdf_generator.py:129-130 | a tax-id line appears exactly when its field is non-empty |
| PdfLabels.ServiceTable | services/pdf_generator.py:179-205 | a header row, then one row per item in the given order |
| PdfLabels.CreatedInvoiceTable | services/pdf_generator.py:185-205 | a created invoice's PDF table lists its entries in entry order, with name, description and amount |
| Phone.Digits | static/js/main.js:68 | only digits remain, each digit as often as in the input, and a digit string is left alone |
| Phone.DigitsAppend | static/js/main.js:68 | the digits of a concatenation are the concatenated digits |
| Phone.FormatPhone | static/js/main.js:67-74 | the output's digits are the input's; below ten digits the bare digits; from ten on, `(ddd) ddd-dddd` followed by the remaining digits |
| Phone.FramedDigits | static/js/main.js:70 | the full pattern frames any digit string of ten or more, and framing keeps the digits |
| Phone.FormatPhoneIdempotent | static/js/main.js:66-75 | formatting an already formatted value changes nothing |
| Csv.Lookup | static/js/main.js:134 | a missing key reads as empty text; a found key gives that key's value |
| Csv.Cell | static/js/main.js:135 | a string is wrapped in double quotes with its content unchanged; anything else is its text |
| Csv.Lines | static/js/main.js:130-137 | the first record's keys joined by commas, then one line per record in order, cells under those keys |
| Csv.ConvertToCSV | static/js/main.js:129-139 | an empty array has no first record and fails; otherwise the lines joined by line breaks |
| Csv.SplitRecoversLines | static/js/main.js:138 | without line breaks in fields, splitting the text at line breaks gives back the header and one line per record |
| Csv.RowSplitsIntoColumns | static/js/main.js:136 | without commas in cells, a record line splits into exactly one field per header |
| Csv.CommaInValueAddsColumn | static/js/main.js:135 | strings are not escaped: a comma inside a value makes an extra column |
| Packaging.Needle | package_for_distribution.py:71 | the needle has no `*` and every other character as often as the pattern; a pattern without `*` is its own needle |
| Packaging.Excluded | package_for_distribution.py:68-73 | true exactly when some pattern's needle occurs in the path |
| Packaging.PycAnywhere | package_for_distribution.py:57-71 | `*.pyc` excludes any path containing `.pyc`, not only names ending in it |
| Packaging.ExcludedUpward | package_for_distribution.py:71 | a path containing an excluded path is excluded |
| Packaging.IgnoreNames | package_for_distribution.py:94-95 | exactly the names whose joined path is excluded, never more than were listed |
| Packaging.ExcludedDirIgnoresAll | package_for_distribution.py:94-95 | inside an excluded directory every relative name is ignored |
| Packaging.NameDecides | package_for_distribution.py:94-95 | a name containing a needle is ignored in whatever directory it is in |
| Packaging.Confirm | package_for_distribution.py:260-262 | yes exactly when the stripped, lower-cased answer is `yes` or `y` |
| Packaging.ConfirmIgnoresSurroundingSpace | package_for_distribution.py:260-262 | whitespace around the answer does not change the decision |
| Packaging.ConfirmIgnoresCase | package_for_distribution.py:260-262 | an answer is accepted exactly when its lower-case form is |
| Text.SplitJoin | static/js/main.js:138 | splitting joined pieces that lack the separator gives the pieces back |
| Text.RemoveChar | services/pdf_generator.py:87 | `replace(c, '')`: no `c` is left and every other character occurs as often as before; text without `c` is unchanged |
| Text.DashesDropped | services/pdf_generator.py:87 | a `YYYY-MM-DD` date whose parts hold no dash becomes its parts run together |
| Text.StripIgnoresSurroundingSpace | routes/invoice.py:47 | `strip()` removes whitespace added at either end |

## Left out

- Connections, cursors, commits and `execute_query` are not modelled. Each statement is one pure function, and a failing statement changes nothing. A failed route leaves whatever earlier statements committed, which the `mark_paid` model makes explicit.
- Flask routing, `flash`, redirects and templates are left out. So are the thin route modules, which only forward to the model methods.
- Some reads only render a page: `get_all_invoices`, `get_all_receipts`, `get_recent_receipts`, `get_client_by_id`. They have no rule beyond their SQL ordering, so they are not modelled.
- Receipts.GetReceiptStats: leaves out the `recent_receipts` count, because it depends on the clock.
- The current time is a string parameter, and `date_created`, `created_at` and `payment_date` receive it as given.
- Money is exact `real`. Float rounding and `:.2f` formatting are not modelled.
- PDF layout, styles and the ReportLab document build are left out. Only the text decisions are modelled.
- FormItems.ParseInt and FormItems.ParseFloat: they accept only plain decimal text. The first allows an optional sign; the second also allows one decimal point. Underscores, exponents, `inf`/`nan` and non-ASCII digits, all of which Python accepts, are not modelled.
- Text.Lower: changes ASCII letters only, where Python's `lower()` covers all of Unicode.
- InvoiceRoutes.ClientIdOf: the route stores `client_id` as the posted text, and SQLite's INTEGER affinity turns numeric text into an integer. The model parses it with `int()` and rejects non-numeric text. The application instead stores such text and later fails to join it.
- Migration.Migrate: whether the stored `invoices` table still has the legacy service columns is a parameter, because the model's schema has no column list. The `print` calls are left out.
- Clients.ClientLe: SQLite leaves the order of equal names unspecified. The model breaks ties by rowid.
- Csv.Keys: the model takes keys in the record's own order. JavaScript lists integer-like keys first.
- Csv.Cell: a non-string value is given as its text (`JsOther`). JavaScript's number-to-text conversion is not modelled.
- The packager's copying, archive, size report and generated files are left out. So are `reset_data.py` and the rest of `static/js/main.js` (tooltips, alerts, live totals, search).
- Phone.FormatPhone: the short `(ddd) ddd` pattern needs six digits but is only tried with three to five, so it never matches. The model keeps the branch, and its contract states the observable result.
- The rest of `config.py` (paths, secret key, session lifetime) is left out.

## Findings

| source | as written | input that shows it | evidently intended | confidence | as-written member | corrected member |
|---|---|---|---|---|---|---|
| models/invoice.py:65-67 | the next invoice number is `INV-` + (row count + 1) | invoices `INV-0001`, `INV-0002`; delete `INV-0001`; the next create computes `INV-0002` again and fails on the UNIQUE column, and so does every later create | a number no stored invoice holds | not executed | Invoices.CountNumberingCollides | Invoices.CreateInvoiceFresh |
| models/invoice.py:188-209 | the delete finds the invoice id through the read that joins clients and contractor, and reports success whether or not it found it | a pending invoice, without a receipt, whose client row no longer exists: "Invoice deleted successfully" and nothing is deleted | delete the row the status check saw, with its items | not executed | Invoices.DeleteReportsSuccessWithoutDeleting | Invoices.DeleteInvoiceByRow |

The create handler (`InvoiceRoutes.CreateInvoiceRoute`) models the code as written and calls the count-based `Invoices.CreateInvoice`; `InvoiceRoutes.CreateInvoiceRouteFresh` is the same handler over the corrected `Invoices.CreateInvoiceFresh`, and the two agree while the invoices are numbered in sequence (`InvoiceRoutes.CreateRoutesAgreeWhenSequential`). The corrected create agrees with the original for as long as no invoice has been deleted (`Invoices.FreshMatchesCountWhenSequential`). The corrected delete agrees with the original wherever the joined read finds the invoice (`Invoices.DeleteByRowAgrees`).
