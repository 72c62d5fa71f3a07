/**
 * The client model (models/client.py): create, update, the guarded delete, and
 * the name-ordered listing behind the client list and the invoice dropdown.
 */
module Clients {
  import opened Wrappers
  import opened Tables
  import opened Sorting
  import opened Text
  import opened Schema

  /** The form fields a client is created or updated from. */
  datatype ClientData = ClientData(name: string, address: string, email: string, phone: string)

  /** `create_client`: one new row; `created_at` takes the insert time `now`. */
  function CreateClient(db: Db, data: ClientData, now: string): (r: (int, Db))
    ensures r.1.contractors == db.contractors && r.1.invoices == db.invoices
    ensures r.1.items == db.items && r.1.receipts == db.receipts
    ensures |r.1.clients| == |db.clients| + 1 && r.1.clients[..|db.clients|] == db.clients
    ensures r.1.clients[|db.clients|] == Row(r.0, Client(data.name, data.address, data.email, data.phone, now))
    ensures Ordered(db.clients) ==> r.0 !in Ids(db.clients) && Ordered(r.1.clients)
  {
    var id := NextId(db.clients);
    (id, db.(clients := Insert(db.clients, Client(data.name, data.address, data.email, data.phone, now))))
  }

  function WithData(data: ClientData): Client -> Client {
    (c: Client) => c.(name := data.name, address := data.address, email := data.email, phone := data.phone)
  }

  /**
   * `update_client`: the row with the id gets the four form fields; its id and
   * `created_at`, every other client and every other table stay as they were.
   */
  function UpdateClient(db: Db, id: int, data: ClientData): (r: Db)
    ensures r.contractors == db.contractors && r.invoices == db.invoices
    ensures r.items == db.items && r.receipts == db.receipts
    ensures |r.clients| == |db.clients|
    ensures forall k :: 0 <= k < |db.clients| && db.clients[k].id != id ==> r.clients[k] == db.clients[k]
    ensures forall k :: 0 <= k < |db.clients| && db.clients[k].id == id ==>
      r.clients[k] == Row(id, Client(data.name, data.address, data.email, data.phone, db.clients[k].val.createdAt))
  {
    db.(clients := UpdateWhere(db.clients, WithId(id), WithData(data)))
  }

  /** Some invoice names this client. */
  predicate Referenced(db: Db, id: int) {
    exists k :: 0 <= k < |db.invoices| && db.invoices[k].val.clientId == id
  }

  function InvoiceOfClient(id: int): Row<Invoice> -> bool {
    (r: Row<Invoice>) => r.val.clientId == id
  }

  function NotWithId<T>(id: int): Row<T> -> bool {
    (r: Row<T>) => r.id != id
  }

  /** `delete_client`: refused while any invoice names the client; otherwise exactly that client goes. */
  function DeleteClient(db: Db, id: int): (r: Step<()>)
    ensures r.result.Err? <==> Referenced(db, id)
    ensures r.result.Err? ==> r.result.error == HasInvoices && r.db == db
    ensures r.result.Ok? ==>
      && r.db == db.(clients := r.db.clients)
      && forall x :: x in r.db.clients <==> x in db.clients && x.id != id
  {
    var refs := Filter(db.invoices, InvoiceOfClient(id));
    assert Referenced(db, id) <==> refs != [] by {
      if Referenced(db, id) {
        var k :| 0 <= k < |db.invoices| && db.invoices[k].val.clientId == id;
        assert db.invoices[k] in refs;
      }
      if refs != [] {
        assert refs[0] in db.invoices;
      }
    }
    if |refs| > 0 then
      Step(Err(HasInvoices), db)
    else
      Step(Ok(()), db.(clients := Filter(db.clients, NotWithId(id))))
  }

  /** Every invoice's client row exists. */
  predicate ClientsExist(db: Db) {
    forall k :: 0 <= k < |db.invoices| ==> db.invoices[k].val.clientId in Ids(db.clients)
  }

  /** The delete guard keeps every invoice's client in place. */
  lemma DeleteClientKeepsClientsExist(db: Db, id: int)
    requires ClientsExist(db)
    ensures ClientsExist(DeleteClient(db, id).db)
  {
    var r := DeleteClient(db, id);
    if r.result.Ok? {
      forall k | 0 <= k < |db.invoices| ensures db.invoices[k].val.clientId in Ids(r.db.clients) {
        var c :| c in db.clients && c.id == db.invoices[k].val.clientId;
        assert c.id != id;
        assert c in r.db.clients;
      }
    }
  }

  /** The client writes keep the store consistent: they touch only the clients table, which stays in rowid order. */
  lemma CreateClientKeepsValid(db: Db, data: ClientData, now: string)
    requires Valid(db)
    ensures Valid(CreateClient(db, data, now).1)
  {
  }

  lemma UpdateClientKeepsValid(db: Db, id: int, data: ClientData)
    requires Valid(db)
    ensures Valid(UpdateClient(db, id, data))
  {
  }

  lemma DeleteClientKeepsValid(db: Db, id: int)
    requires Valid(db)
    ensures Valid(DeleteClient(db, id).db)
  {
  }

  /** Python's `ORDER BY name`, ties broken by rowid. */
  predicate ClientLe(a: Row<Client>, b: Row<Client>) {
    LexLess(a.val.name, b.val.name) || (a.val.name == b.val.name && a.id <= b.id)
  }

  lemma ClientLeIsTotalPreorder()
    ensures TotalPreorder(ClientLe)
  {
    forall a: Row<Client>, b: Row<Client> ensures ClientLe(a, b) || ClientLe(b, a) {
      LexLessTotal(a.val.name, b.val.name);
    }
    forall a: Row<Client>, b: Row<Client>, c: Row<Client> | ClientLe(a, b) && ClientLe(b, c)
      ensures ClientLe(a, c)
    {
      if LexLess(a.val.name, b.val.name) && LexLess(b.val.name, c.val.name) {
        LexLessTransitive(a.val.name, b.val.name, c.val.name);
      }
    }
  }

  /** `get_all_clients`: every client row once, ordered by name. */
  function GetAllClients(db: Db): (r: seq<Row<Client>>)
    ensures multiset(r) == multiset(db.clients)
    ensures SortedBy(r, ClientLe)
  {
    ClientLeIsTotalPreorder();
    Sort(db.clients, ClientLe)
  }

  /** `get_clients_for_dropdown`: the (id, name) pair of each client, in the listing's order. */
  function GetClientsForDropdown(db: Db): (r: seq<(int, string)>)
    ensures |r| == |GetAllClients(db)|
    ensures forall k :: 0 <= k < |r| ==> r[k] == (GetAllClients(db)[k].id, GetAllClients(db)[k].val.name)
  {
    var all := GetAllClients(db);
    seq(|all|, k requires 0 <= k < |all| => (all[k].id, all[k].val.name))
  }

  /** The dropdown lists every client exactly once, with names in non-decreasing order. */
  lemma DropdownOrderedByName(db: Db)
    ensures |GetClientsForDropdown(db)| == |db.clients|
    ensures forall i, j :: 0 <= i < j < |GetClientsForDropdown(db)| ==>
      LexLessEq(GetClientsForDropdown(db)[i].1, GetClientsForDropdown(db)[j].1)
    ensures forall c :: c in db.clients ==> (c.id, c.val.name) in GetClientsForDropdown(db)
  {
    var all := GetAllClients(db);
    var d := GetClientsForDropdown(db);
    assert |multiset(all)| == |multiset(db.clients)|;
    forall i, j | 0 <= i < j < |d| ensures LexLessEq(d[i].1, d[j].1) {
      assert ClientLe(all[i], all[j]);
    }
    forall c | c in db.clients ensures (c.id, c.val.name) in d {
      assert c in multiset(all);
      var k :| 0 <= k < |all| && all[k] == c;
      assert d[k] == (c.id, c.val.name);
    }
  }
}
