/**
 * The contractor model (models/contractor.py): the single business profile,
 * read as "the first row" and written by an update-or-insert.
 */
module Contractors {
  import opened Wrappers
  import opened Tables
  import opened Schema

  /** The six editable fields of the contractor form. */
  datatype ContractorData = ContractorData(
    name: string, address: string, email: string, phone: string, taxId: string, personalTaxId: string)

  /** `get_contractor`: `SELECT * ... LIMIT 1`, the first row in rowid order. */
  function GetContractor(db: Db): (r: Option<Row<Contractor>>)
    ensures r.None? <==> db.contractors == []
    ensures r.Some? ==> r.value == db.contractors[0]
    ensures r.Some? && Ordered(db.contractors) ==> forall x :: x in db.contractors ==> r.value.id <= x.id
  {
    if db.contractors == [] then None
    else
      assert Ordered(db.contractors) ==> forall x :: x in db.contractors ==> db.contractors[0].id <= x.id by {
        if Ordered(db.contractors) {
          forall x | x in db.contractors ensures db.contractors[0].id <= x.id {
            var k :| 0 <= k < |db.contractors| && db.contractors[k] == x;
            if k > 0 {
              assert db.contractors[0].id < db.contractors[k].id;
            }
          }
        }
      }
      Some(db.contractors[0])
  }

  function WithData(data: ContractorData): Contractor -> Contractor {
    (c: Contractor) => c.(name := data.name, address := data.address, email := data.email,
                          phone := data.phone, taxId := data.taxId, personalTaxId := data.personalTaxId)
  }

  /** The row the form's data and an insert time make. */
  function NewContractor(data: ContractorData, now: string): Contractor {
    Contractor(data.name, data.address, data.email, data.phone, data.taxId, data.personalTaxId, now)
  }

  /**
   * `create_or_update_contractor`: when a contractor exists, overwrite its six
   * fields (the row keeps its id and `created_at`); otherwise insert one.
   */
  function CreateOrUpdateContractor(db: Db, data: ContractorData, now: string): (r: Db)
    ensures r == db.(contractors := r.contractors)
    ensures db.contractors == [] ==> r.contractors == [Row(1, NewContractor(data, now))]
    ensures db.contractors != [] ==>
      && |r.contractors| == |db.contractors|
      && r.contractors[0] == Row(db.contractors[0].id, NewContractor(data, db.contractors[0].val.createdAt))
    ensures db.contractors != [] && Ordered(db.contractors) ==>
      forall k :: 1 <= k < |db.contractors| ==> r.contractors[k] == db.contractors[k]
  {
    match GetContractor(db)
    case Some(existing) =>
      var t := UpdateWhere(db.contractors, WithId(existing.id), WithData(data));
      assert Ordered(db.contractors) ==> forall k :: 1 <= k < |db.contractors| ==> db.contractors[k].id != existing.id by {
        if Ordered(db.contractors) {
          forall k | 1 <= k < |db.contractors| ensures db.contractors[k].id != existing.id {
            assert db.contractors[0].id < db.contractors[k].id;
          }
        }
      }
      db.(contractors := t)
    case None =>
      db.(contractors := Insert(db.contractors, NewContractor(data, now)))
  }

  /** Saving the profile touches only the contractor table, which stays in rowid order. */
  lemma CreateOrUpdateContractorKeepsValid(db: Db, data: ContractorData, now: string)
    requires Valid(db)
    ensures Valid(CreateOrUpdateContractor(db, data, now))
  {
  }

  /** Saving the form any number of times, from the state `init_db` leaves. */
  function SaveAll(db: Db, forms: seq<ContractorData>, now: string): Db
    decreases |forms|
  {
    if forms == [] then db else SaveAll(CreateOrUpdateContractor(db, forms[0], now), forms[1..], now)
  }

  /** The contractor table never grows past one row through the settings page. */
  lemma {:induction false} SaveAllKeepsSingleton(db: Db, forms: seq<ContractorData>, now: string)
    requires |db.contractors| <= 1
    ensures |SaveAll(db, forms, now).contractors| <= 1
    ensures forms != [] ==> |SaveAll(db, forms, now).contractors| == 1
    decreases |forms|
  {
    if forms != [] {
      var next := CreateOrUpdateContractor(db, forms[0], now);
      SaveAllKeepsSingleton(next, forms[1..], now);
    }
  }

  /** `get_contractor_dict`: the first contractor's id and six fields, as the templates use them. */
  datatype ContractorDict = ContractorDict(
    id: int, name: string, address: string, email: string, phone: string, taxId: string, personalTaxId: string)

  function GetContractorDict(db: Db): (r: Option<ContractorDict>)
    ensures r.None? <==> GetContractor(db).None?
    ensures r.Some? ==>
      var c := GetContractor(db).value;
      r.value == ContractorDict(c.id, c.val.name, c.val.address, c.val.email, c.val.phone, c.val.taxId, c.val.personalTaxId)
  {
    match GetContractor(db)
    case None => None
    case Some(c) => Some(ContractorDict(c.id, c.val.name, c.val.address, c.val.email, c.val.phone, c.val.taxId, c.val.personalTaxId))
  }

  /** After saving the form, the profile reads back exactly what was saved, under an unchanged id. */
  lemma SaveThenRead(db: Db, data: ContractorData, now: string)
    ensures var d := GetContractorDict(CreateOrUpdateContractor(db, data, now));
      && d.Some?
      && d.value.id == (if db.contractors == [] then 1 else db.contractors[0].id)
      && d.value.name == data.name && d.value.address == data.address && d.value.email == data.email
      && d.value.phone == data.phone && d.value.taxId == data.taxId && d.value.personalTaxId == data.personalTaxId
  {
  }
}
