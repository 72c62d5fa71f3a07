/**
 * The legacy-data migration `init_db` runs on start-up (models/database.py):
 * invoices from the single-service schema get one line item each, built from
 * the service columns on the invoice row.
 */
module Migration {
  import opened Wrappers
  import opened Tables
  import opened Schema
  import opened Invoices

  /** `WHERE service_name IS NOT NULL`. */
  function HasLegacyService(r: Row<Invoice>): bool {
    r.val.legacy.serviceName.Some?
  }

  /** A legacy invoice whose rate is NULL: its item would break `rate REAL NOT NULL`. */
  function NullRate(r: Row<Invoice>): bool {
    r.val.legacy.rate.None?
  }

  /** `invoice['quantity'] or 1`: a NULL or zero quantity becomes 1. */
  function LegacyQuantity(q: Option<int>): (r: int)
    ensures q.Some? && q.value != 0 ==> r == q.value
    ensures q.None? || q.value == 0 ==> r == 1
    ensures r != 0
  {
    match q
    case Some(n) => if n == 0 then 1 else n
    case None => 1
  }

  /** The line item one legacy invoice becomes: its amount is the invoice total, its sort order 0. */
  function LegacyItem(r: Row<Invoice>): Item {
    Item(r.id, r.val.legacy.serviceName.GetOr(""), r.val.legacy.serviceDescription,
         LegacyQuantity(r.val.legacy.quantity), r.val.legacy.rate.GetOr(0.0), r.val.total, 0)
  }

  /** The inserted rows, one per legacy invoice in scan order, with consecutive rowids. */
  function LegacyItems(legacy: Table<Invoice>, firstId: int): (r: Table<Item>)
    ensures |r| == |legacy|
    ensures forall k :: 0 <= k < |r| ==> r[k] == Row(firstId + k, LegacyItem(legacy[k]))
    ensures Ordered(r)
  {
    seq(|legacy|, k requires 0 <= k < |legacy| => Row(firstId + k, LegacyItem(legacy[k])))
  }

  /** The trigger: some invoices and no line items at all. */
  predicate NeedsMigration(db: Db) {
    |db.invoices| > 0 && db.items == []
  }

  /**
   * The migration step of `init_db`. `legacyColumns` says whether the stored
   * `invoices` table still has the single-service columns: a table created by
   * the current CREATE statement does not, and the SELECT then fails. A legacy
   * row with a NULL rate fails its INSERT, and the uncommitted inserts before
   * it are lost with the connection. The result is the number of migrated invoices.
   */
  function Migrate(db: Db, legacyColumns: bool): (r: Step<nat>)
    ensures !NeedsMigration(db) ==> r == Step(Ok(0), db)
    ensures NeedsMigration(db) && !legacyColumns ==> r == Step(Err(MissingColumn), db)
    ensures NeedsMigration(db) && legacyColumns ==>
      (r.result.Err? <==> exists x :: x in db.invoices && HasLegacyService(x) && NullRate(x))
    ensures r.result.Err? ==> r.db == db
    ensures r.result.Ok? ==> r.db == db.(items := r.db.items)
    ensures r.result.Ok? ==> |r.db.items| == |db.items| + r.result.value
    ensures r.result.Ok? && r.result.value > 0 ==> NeedsMigration(db)
  {
    if !NeedsMigration(db) then Step(Ok(0), db)
    else if !legacyColumns then Step(Err(MissingColumn), db)
    else
      var legacy := Filter(db.invoices, HasLegacyService);
      match FindFirst(legacy, NullRate)
      case Some(_) => Step(Err(NotNullViolation), db)
      case None => Step(Ok(|legacy|), db.(items := LegacyItems(legacy, NextId(db.items))))
  }

  /** Running the migration again after it succeeded changes nothing. */
  lemma MigrateTwiceChangesNothing(db: Db, legacyColumns: bool)
    requires Migrate(db, legacyColumns).result.Ok?
    ensures var after := Migrate(db, legacyColumns).db;
      Migrate(after, legacyColumns) == Step(Ok(0), after)
  {
    var r := Migrate(db, legacyColumns);
    if NeedsMigration(db) && r.result.value == 0 {
      assert r.db.items == [];
      assert r.db == db;
    }
  }

  /** Legacy invoices have distinct ids, so each one's item is the only item naming it. */
  lemma OnlyItemOf(legacy: Table<Invoice>, firstId: int, k: int)
    requires Ordered(legacy) && 0 <= k < |legacy|
    ensures var t := LegacyItems(legacy, firstId);
      forall y :: y in t && y.val.invoiceId == legacy[k].id ==> y == t[k]
  {
    var t := LegacyItems(legacy, firstId);
    forall y | y in t && y.val.invoiceId == legacy[k].id ensures y == t[k] {
      var j :| 0 <= j < |t| && t[j] == y;
      assert legacy[j].id == legacy[k].id;
    }
  }

  /**
   * After a successful migration each migrated invoice has exactly one line
   * item, carrying its service columns and an amount equal to the invoice
   * total, and every other invoice has none.
   */
  lemma MigratedInvoicesHaveOneItem(db: Db, legacyColumns: bool, x: Row<Invoice>)
    requires Ordered(db.invoices) && x in db.invoices
    requires NeedsMigration(db) && Migrate(db, legacyColumns).result.Ok?
    ensures var items := OrderedItems(Migrate(db, legacyColumns).db.items, x.id);
      && (HasLegacyService(x) ==> |items| == 1 && items[0].val == LegacyItem(x) && items[0].val.amount == x.val.total)
      && (!HasLegacyService(x) ==> items == [])
  {
    var legacy := Filter(db.invoices, HasLegacyService);
    var t := Migrate(db, legacyColumns).db.items;
    assert t == LegacyItems(legacy, NextId(db.items));
    var sel := Filter(t, ItemOf(x.id));
    if HasLegacyService(x) {
      assert x in legacy;
      var k :| 0 <= k < |legacy| && legacy[k] == x;
      OnlyItemOf(legacy, NextId(db.items), k);
      FilterSingle(t, ItemOf(x.id), t[k]);
      var items := OrderedItems(t, x.id);
      assert multiset(items) == multiset([t[k]]);
      assert |items| == 1;
      assert items[0] in multiset(items);
    } else {
      forall j | 0 <= j < |t| ensures !ItemOf(x.id)(t[j]) {
        assert legacy[j] in db.invoices && HasLegacyService(legacy[j]);
        var i :| 0 <= i < |db.invoices| && db.invoices[i] == x;
        var i2 :| 0 <= i2 < |db.invoices| && db.invoices[i2] == legacy[j];
        if i < i2 { assert x.id < legacy[j].id; } else if i2 < i { assert legacy[j].id < x.id; }
      }
      FilterKeepsNone(t, ItemOf(x.id));
      var items := OrderedItems(t, x.id);
      assert |multiset(items)| == 0;
    }
  }

  /** The migration keeps the database consistent: every new item belongs to a stored invoice. */
  lemma MigrateKeepsValid(db: Db, legacyColumns: bool)
    requires Valid(db)
    ensures Valid(Migrate(db, legacyColumns).db)
  {
    var r := Migrate(db, legacyColumns);
    if NeedsMigration(db) && r.result.Ok? {
      var legacy := Filter(db.invoices, HasLegacyService);
      assert r.db.items == LegacyItems(legacy, NextId(db.items));
      forall k | 0 <= k < |r.db.items| ensures r.db.items[k].val.invoiceId in Ids(r.db.invoices) {
        assert legacy[k] in db.invoices;
      }
    }
  }
}
