/** GamesController: the five endpoints under /api/games over the
    game table. */
module Games {
  import opened Authorization
  import opened Repository
  import opened Errors
  import Decimal

  /** A game row: its identity key and the three fields the controller
      sets. */
  datatype Game = Game(id: Long, name: string, description: string, genre: string)

  /** The class name the not-found error and the delete message carry. */
  const TypeName: string := "Game"

  /** `new Game()`: a row not yet saved. Its key is the default 0, which
      names no stored row. */
  function NewGame(): (r: Game)
    ensures forall table: map<Long, Game> :: WellKeyed(table) ==> FindById(table, r.id).None?
  {
    Game(0, "", "", "")
  }

  /** Every row is stored under its own id, and ids are identity keys. */
  ghost predicate WellKeyed(table: map<Long, Game>) {
    IdentityKeys(table.Keys) && forall k :: k in table ==> table[k].id == k
  }

  class GamesController {
    /** The game table, by id. */
    var gameRepository: map<Long, Game>

    ghost predicate Valid()
      reads this
    {
      WellKeyed(gameRepository)
    }

    /** A controller wired to a table that already holds these rows. */
    constructor (rows: map<Long, Game>)
      requires WellKeyed(rows)
      ensures Valid() && gameRepository == rows
    {
      gameRepository := rows;
    }

    /** GET /api/games/all: every stored game, once each. */
    function AllGames(roles: set<Role>): (r: Result<seq<Game>>)
      reads this
      ensures !Allowed(List, roles) ==> r == Err(Forbidden)
      ensures Allowed(List, roles) ==> r.Ok? && |r.value| == |gameRepository|
      ensures r.Ok? ==> forall g :: g in r.value <==> g in gameRepository.Values
    {
      if !Allowed(List, roles) then Err(Forbidden)
      else Ok(FindAll(gameRepository))
    }

    /** GET /api/games?id=..: the stored game, or the not-found
        error naming Game and the id. */
    function GetById(roles: set<Role>, id: Long): (r: Result<Game>)
      requires Valid()
      reads this
      ensures !Allowed(Get, roles) ==> r == Err(Forbidden)
      ensures Allowed(Get, roles) && id !in gameRepository ==> r == Err(NotFound(TypeName, id))
      ensures Allowed(Get, roles) && id in gameRepository ==> r == Ok(gameRepository[id])
      ensures r.Ok? ==> r.value.id == id
    {
      if !Allowed(Get, roles) then Err(Forbidden)
      else match FindById(gameRepository, id)
        case None => Err(NotFound(TypeName, id))
        case Some(game) => Ok(game)
    }

    /** POST /api/games/post: saves a new row built from exactly the
        three arguments under a key the table did not use, and returns it. */
    method PostGame(roles: set<Role>, name: string, description: string, genre: string)
      returns (r: Result<Game>)
      requires Valid()
      modifies this
      ensures Valid()
      ensures !Allowed(Create, roles) ==> r == Err(Forbidden)
      ensures Allowed(Create, roles) ==> (r.Ok? <==> |old(gameRepository)| < MaxKey)
      ensures r.Err? ==> gameRepository == old(gameRepository)
      ensures r.Ok? ==>
        && r.value.id !in old(gameRepository)
        && r.value == Game(r.value.id, name, description, genre)
        && gameRepository == old(gameRepository)[r.value.id := r.value]
    {
      if !Allowed(Create, roles) {
        return Err(Forbidden);
      }
      var game := NewGame();
      game := game.(name := name);
      game := game.(description := description);
      game := game.(genre := genre);

      // save: the identity column hands out a key no row holds
      if |gameRepository| >= MaxKey {
        return Err(StoreFailure);
      }
      FreeIdentityKey(gameRepository.Keys);
      var id: Long :| 0 < id && id !in gameRepository;
      var savedGame := game.(id := id);
      gameRepository := gameRepository[id := savedGame];
      return Ok(savedGame);
    }

    /** DELETE /api/games?id=..: looks the row up first; only a row
        that exists is removed, and nothing else changes. */
    method DeleteGame(roles: set<Role>, id: Long) returns (r: Result<string>)
      requires Valid()
      modifies this
      ensures Valid()
      ensures !Allowed(Delete, roles) ==> r == Err(Forbidden)
      ensures Allowed(Delete, roles) && id !in old(gameRepository) ==> r == Err(NotFound(TypeName, id))
      ensures Allowed(Delete, roles) && id in old(gameRepository) ==> r == Ok(DeletedMessage(TypeName, id))
      ensures gameRepository == if r.Ok? then old(gameRepository) - {id} else old(gameRepository)
    {
      if !Allowed(Delete, roles) {
        return Err(Forbidden);
      }
      var found := FindById(gameRepository, id);
      if found.None? {
        return Err(NotFound(TypeName, id));
      }
      var game := found.value;
      gameRepository := gameRepository - {game.id};
      return Ok(DeletedMessage(TypeName, id));
    }

    /** PUT /api/games?id=..: looks the row up first, then overwrites
        every field but the key with the incoming one; the key comes from
        the request's id, never from the incoming body. */
    method UpdateGame(roles: set<Role>, id: Long, incoming: Game) returns (r: Result<Game>)
      requires Valid()
      modifies this
      ensures Valid()
      ensures !Allowed(Update, roles) ==> r == Err(Forbidden)
      ensures Allowed(Update, roles) && id !in old(gameRepository) ==> r == Err(NotFound(TypeName, id))
      ensures Allowed(Update, roles) && id in old(gameRepository) ==> r == Ok(incoming.(id := id))
      ensures gameRepository == if r.Ok? then old(gameRepository)[id := r.value] else old(gameRepository)
    {
      if !Allowed(Update, roles) {
        return Err(Forbidden);
      }
      var found := FindById(gameRepository, id);
      if found.None? {
        return Err(NotFound(TypeName, id));
      }
      var game := found.value;
      game := game.(name := incoming.name);
      game := game.(description := incoming.description);
      game := game.(genre := incoming.genre);
      gameRepository := gameRepository[game.id := game];
      return Ok(game);
    }
  }

  /** The life of one game as an administrator sees it: created, read
      back, replaced, read back, deleted, then no longer found. */
  method Lifecycle(c: GamesController, name: string, description: string, genre: string, edited: Game)
    returns (created: Result<Game>, fetched: Result<Game>, updated: Result<Game>,
             refetched: Result<Game>, deleted: Result<string>, gone: Result<Game>)
    requires c.Valid()
    modifies c
    ensures c.Valid()
    ensures created.Ok? ==>
      var id := created.value.id;
      && fetched == Ok(Game(id, name, description, genre))
      && updated == Ok(edited.(id := id))
      && refetched == updated
      && deleted == Ok(DeletedMessage(TypeName, id))
      && gone == Err(NotFound(TypeName, id))
      && c.gameRepository == old(c.gameRepository)
  {
    var admin := {RoleUser, RoleAdmin};
    created := c.PostGame(admin, name, description, genre);
    if created.Err? {
      // nothing was saved, so no later step runs
      fetched, updated, refetched, gone := created, created, created, created;
      deleted := Err(created.error);
      return;
    }
    var id := created.value.id;
    fetched := c.GetById(admin, id);
    updated := c.UpdateGame(admin, id, edited);
    refetched := c.GetById(admin, id);
    deleted := c.DeleteGame(admin, id);
    gone := c.GetById(admin, id);
  }

  /** Every row the listing shows can be fetched by its id, and yields
      that same row. */
  lemma ListedRowsAreFetchable(c: GamesController, roles: set<Role>)
    requires c.Valid()
    requires Allowed(List, roles) && Allowed(Get, roles)
    ensures forall x :: x in c.AllGames(roles).value ==> c.GetById(roles, x.id) == Ok(x)
  {
  }

  /** The not-found text for id 7. */
  lemma NotFoundMessageSample7()
    ensures NotFoundMessage(TypeName, 7) == "Game with id 7 not found"
  {
    Decimal.ShowSamples();
    NotFoundMessageSpelled(TypeName, 7, "7");
  }

  /** The not-found text for id 15. */
  lemma NotFoundMessageSample15()
    ensures NotFoundMessage(TypeName, 15) == "Game with id 15 not found"
  {
    Decimal.ShowSamples();
    NotFoundMessageSpelled(TypeName, 15, "15");
  }

  /** The not-found text for id 67. */
  lemma NotFoundMessageSample67()
    ensures NotFoundMessage(TypeName, 67) == "Game with id 67 not found"
  {
    Decimal.ShowSamples();
    NotFoundMessageSpelled(TypeName, 67, "67");
  }

  /** The delete confirmation for id 15. */
  lemma DeletedMessageSample()
    ensures DeletedMessage(TypeName, 15) == "Game with id 15 deleted"
  {
    Decimal.ShowSamples();
    DeletedMessageSpelled(TypeName, 15, "15");
  }
}
