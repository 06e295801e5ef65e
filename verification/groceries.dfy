/** GroceriesController: the five endpoints under /api/groceries over the
    grocery table. */
module Groceries {
  import opened Authorization
  import opened Repository
  import opened Errors
  import Decimal

  /** A grocery row: its identity key and the three fields the controller
      sets. */
  datatype Grocery = Grocery(id: Long, name: string, price: string, expiration: string)

  /** The class name the not-found error and the delete message carry. */
  const TypeName: string := "Grocery"

  /** `new Grocery()`: a row not yet saved. Its key is the default 0, which
      names no stored row. */
  function NewGrocery(): (r: Grocery)
    ensures forall table: map<Long, Grocery> :: WellKeyed(table) ==> FindById(table, r.id).None?
  {
    Grocery(0, "", "", "")
  }

  /** Every row is stored under its own id, and ids are identity keys. */
  ghost predicate WellKeyed(table: map<Long, Grocery>) {
    IdentityKeys(table.Keys) && forall k :: k in table ==> table[k].id == k
  }

  class GroceriesController {
    /** The grocery table, by id. */
    var groceryRepository: map<Long, Grocery>

    ghost predicate Valid()
      reads this
    {
      WellKeyed(groceryRepository)
    }

    /** A controller wired to a table that already holds these rows. */
    constructor (rows: map<Long, Grocery>)
      requires WellKeyed(rows)
      ensures Valid() && groceryRepository == rows
    {
      groceryRepository := rows;
    }

    /** GET /api/groceries/all: every stored grocery, once each. */
    function AllGroceries(roles: set<Role>): (r: Result<seq<Grocery>>)
      reads this
      ensures !Allowed(List, roles) ==> r == Err(Forbidden)
      ensures Allowed(List, roles) ==> r.Ok? && |r.value| == |groceryRepository|
      ensures r.Ok? ==> forall g :: g in r.value <==> g in groceryRepository.Values
    {
      if !Allowed(List, roles) then Err(Forbidden)
      else Ok(FindAll(groceryRepository))
    }

    /** GET /api/groceries?id=..: the stored grocery, or the not-found
        error naming Grocery and the id. */
    function GetById(roles: set<Role>, id: Long): (r: Result<Grocery>)
      requires Valid()
      reads this
      ensures !Allowed(Get, roles) ==> r == Err(Forbidden)
      ensures Allowed(Get, roles) && id !in groceryRepository ==> r == Err(NotFound(TypeName, id))
      ensures Allowed(Get, roles) && id in groceryRepository ==> r == Ok(groceryRepository[id])
      ensures r.Ok? ==> r.value.id == id
    {
      if !Allowed(Get, roles) then Err(Forbidden)
      else match FindById(groceryRepository, id)
        case None => Err(NotFound(TypeName, id))
        case Some(grocery) => Ok(grocery)
    }

    /** POST /api/groceries/post: saves a new row built from exactly the
        three arguments under a key the table did not use, and returns it. */
    method PostGrocery(roles: set<Role>, name: string, price: string, expiration: string)
      returns (r: Result<Grocery>)
      requires Valid()
      modifies this
      ensures Valid()
      ensures !Allowed(Create, roles) ==> r == Err(Forbidden)
      ensures Allowed(Create, roles) ==> (r.Ok? <==> |old(groceryRepository)| < MaxKey)
      ensures r.Err? ==> groceryRepository == old(groceryRepository)
      ensures r.Ok? ==>
        && r.value.id !in old(groceryRepository)
        && r.value == Grocery(r.value.id, name, price, expiration)
        && groceryRepository == old(groceryRepository)[r.value.id := r.value]
    {
      if !Allowed(Create, roles) {
        return Err(Forbidden);
      }
      var grocery := NewGrocery();
      grocery := grocery.(name := name);
      grocery := grocery.(price := price);
      grocery := grocery.(expiration := expiration);

      // save: the identity column hands out a key no row holds
      if |groceryRepository| >= MaxKey {
        return Err(StoreFailure);
      }
      FreeIdentityKey(groceryRepository.Keys);
      var id: Long :| 0 < id && id !in groceryRepository;
      var savedGrocery := grocery.(id := id);
      groceryRepository := groceryRepository[id := savedGrocery];
      return Ok(savedGrocery);
    }

    /** DELETE /api/groceries?id=..: looks the row up first; only a row
        that exists is removed, and nothing else changes. */
    method DeleteGrocery(roles: set<Role>, id: Long) returns (r: Result<string>)
      requires Valid()
      modifies this
      ensures Valid()
      ensures !Allowed(Delete, roles) ==> r == Err(Forbidden)
      ensures Allowed(Delete, roles) && id !in old(groceryRepository) ==> r == Err(NotFound(TypeName, id))
      ensures Allowed(Delete, roles) && id in old(groceryRepository) ==> r == Ok(DeletedMessage(TypeName, id))
      ensures groceryRepository == if r.Ok? then old(groceryRepository) - {id} else old(groceryRepository)
    {
      if !Allowed(Delete, roles) {
        return Err(Forbidden);
      }
      var found := FindById(groceryRepository, id);
      if found.None? {
        return Err(NotFound(TypeName, id));
      }
      var grocery := found.value;
      groceryRepository := groceryRepository - {grocery.id};
      return Ok(DeletedMessage(TypeName, id));
    }

    /** PUT /api/groceries?id=..: looks the row up first, then overwrites
        every field but the key with the incoming one; the key comes from
        the request's id, never from the incoming body. */
    method UpdateGrocery(roles: set<Role>, id: Long, incoming: Grocery) returns (r: Result<Grocery>)
      requires Valid()
      modifies this
      ensures Valid()
      ensures !Allowed(Update, roles) ==> r == Err(Forbidden)
      ensures Allowed(Update, roles) && id !in old(groceryRepository) ==> r == Err(NotFound(TypeName, id))
      ensures Allowed(Update, roles) && id in old(groceryRepository) ==> r == Ok(incoming.(id := id))
      ensures groceryRepository == if r.Ok? then old(groceryRepository)[id := r.value] else old(groceryRepository)
    {
      if !Allowed(Update, roles) {
        return Err(Forbidden);
      }
      var found := FindById(groceryRepository, id);
      if found.None? {
        return Err(NotFound(TypeName, id));
      }
      var grocery := found.value;
      grocery := grocery.(name := incoming.name);
      grocery := grocery.(price := incoming.price);
      grocery := grocery.(expiration := incoming.expiration);
      groceryRepository := groceryRepository[grocery.id := grocery];
      return Ok(grocery);
    }
  }

  /** The life of one grocery as an administrator sees it: created, read
      back, replaced, read back, deleted, then no longer found. */
  method Lifecycle(c: GroceriesController, name: string, price: string, expiration: string, edited: Grocery)
    returns (created: Result<Grocery>, fetched: Result<Grocery>, updated: Result<Grocery>,
             refetched: Result<Grocery>, deleted: Result<string>, gone: Result<Grocery>)
    requires c.Valid()
    modifies c
    ensures c.Valid()
    ensures created.Ok? ==>
      var id := created.value.id;
      && fetched == Ok(Grocery(id, name, price, expiration))
      && updated == Ok(edited.(id := id))
      && refetched == updated
      && deleted == Ok(DeletedMessage(TypeName, id))
      && gone == Err(NotFound(TypeName, id))
      && c.groceryRepository == old(c.groceryRepository)
  {
    var admin := {RoleUser, RoleAdmin};
    created := c.PostGrocery(admin, name, price, expiration);
    if created.Err? {
      // nothing was saved, so no later step runs
      fetched, updated, refetched, gone := created, created, created, created;
      deleted := Err(created.error);
      return;
    }
    var id := created.value.id;
    fetched := c.GetById(admin, id);
    updated := c.UpdateGrocery(admin, id, edited);
    refetched := c.GetById(admin, id);
    deleted := c.DeleteGrocery(admin, id);
    gone := c.GetById(admin, id);
  }

  /** Every row the listing shows can be fetched by its id, and yields
      that same row. */
  lemma ListedRowsAreFetchable(c: GroceriesController, roles: set<Role>)
    requires c.Valid()
    requires Allowed(List, roles) && Allowed(Get, roles)
    ensures forall x :: x in c.AllGroceries(roles).value ==> c.GetById(roles, x.id) == Ok(x)
  {
  }

  /** The not-found text for id 7. */
  lemma NotFoundMessageSample7()
    ensures NotFoundMessage(TypeName, 7) == "Grocery with id 7 not found"
  {
    Decimal.ShowSamples();
    NotFoundMessageSpelled(TypeName, 7, "7");
  }

  /** The not-found text for id 15. */
  lemma NotFoundMessageSample15()
    ensures NotFoundMessage(TypeName, 15) == "Grocery with id 15 not found"
  {
    Decimal.ShowSamples();
    NotFoundMessageSpelled(TypeName, 15, "15");
  }

  /** The not-found text for id 67. */
  lemma NotFoundMessageSample67()
    ensures NotFoundMessage(TypeName, 67) == "Grocery with id 67 not found"
  {
    Decimal.ShowSamples();
    NotFoundMessageSpelled(TypeName, 67, "67");
  }

  /** The delete confirmation for id 15. */
  lemma DeletedMessageSample()
    ensures DeletedMessage(TypeName, 15) == "Grocery with id 15 deleted"
  {
    Decimal.ShowSamples();
    DeletedMessageSpelled(TypeName, 15, "15");
  }
}
