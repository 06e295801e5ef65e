/** SongsController: the five endpoints under /api/songs over the
    song table. */
module Songs {
  import opened Authorization
  import opened Repository
  import opened Errors
  import Decimal

  /** Java's `int`: a signed 32-bit integer. */
  type Int32 = x: int | -0x8000_0000 <= x <= 0x7FFF_FFFF

  /** A song row: its identity key and the three fields the controller
      sets. */
  datatype Song = Song(id: Long, artist: string, album: string, year: Int32)

  /** The class name the not-found error and the delete message carry. */
  const TypeName: string := "Song"

  /** `new Song()`: a row not yet saved. Its key is the default 0, which
      names no stored row. */
  function NewSong(): (r: Song)
    ensures forall table: map<Long, Song> :: WellKeyed(table) ==> FindById(table, r.id).None?
  {
    Song(0, "", "", 0)
  }

  /** Every row is stored under its own id, and ids are identity keys. */
  ghost predicate WellKeyed(table: map<Long, Song>) {
    IdentityKeys(table.Keys) && forall k :: k in table ==> table[k].id == k
  }

  class SongsController {
    /** The song table, by id. The controller declares this field as
        `SongRepository` and uses it as `songRepository`; both names stand
        for this one table. */
    var songRepository: map<Long, Song>

    ghost predicate Valid()
      reads this
    {
      WellKeyed(songRepository)
    }

    /** A controller wired to a table that already holds these rows. */
    constructor (rows: map<Long, Song>)
      requires WellKeyed(rows)
      ensures Valid() && songRepository == rows
    {
      songRepository := rows;
    }

    /** GET /api/songs/all: every stored song, once each. */
    function AllSongs(roles: set<Role>): (r: Result<seq<Song>>)
      reads this
      ensures !Allowed(List, roles) ==> r == Err(Forbidden)
      ensures Allowed(List, roles) ==> r.Ok? && |r.value| == |songRepository|
      ensures r.Ok? ==> forall g :: g in r.value <==> g in songRepository.Values
    {
      if !Allowed(List, roles) then Err(Forbidden)
      else Ok(FindAll(songRepository))
    }

    /** GET /api/songs?id=..: the stored song, or the not-found
        error naming Song and the id. */
    function GetById(roles: set<Role>, id: Long): (r: Result<Song>)
      requires Valid()
      reads this
      ensures !Allowed(Get, roles) ==> r == Err(Forbidden)
      ensures Allowed(Get, roles) && id !in songRepository ==> r == Err(NotFound(TypeName, id))
      ensures Allowed(Get, roles) && id in songRepository ==> r == Ok(songRepository[id])
      ensures r.Ok? ==> r.value.id == id
    {
      if !Allowed(Get, roles) then Err(Forbidden)
      else match FindById(songRepository, id)
        case None => Err(NotFound(TypeName, id))
        case Some(song) => Ok(song)
    }

    /** POST /api/songs/post: saves a new row built from exactly the
        three arguments under a key the table did not use, and returns it. */
    method PostSong(roles: set<Role>, artist: string, album: string, year: Int32)
      returns (r: Result<Song>)
      requires Valid()
      modifies this
      ensures Valid()
      ensures !Allowed(Create, roles) ==> r == Err(Forbidden)
      ensures Allowed(Create, roles) ==> (r.Ok? <==> |old(songRepository)| < MaxKey)
      ensures r.Err? ==> songRepository == old(songRepository)
      ensures r.Ok? ==>
        && r.value.id !in old(songRepository)
        && r.value == Song(r.value.id, artist, album, year)
        && songRepository == old(songRepository)[r.value.id := r.value]
    {
      if !Allowed(Create, roles) {
        return Err(Forbidden);
      }
      var song := NewSong();
      song := song.(artist := artist);
      song := song.(album := album);
      song := song.(year := year);

      // save: the identity column hands out a key no row holds
      if |songRepository| >= MaxKey {
        return Err(StoreFailure);
      }
      FreeIdentityKey(songRepository.Keys);
      var id: Long :| 0 < id && id !in songRepository;
      var savedSong := song.(id := id);
      songRepository := songRepository[id := savedSong];
      return Ok(savedSong);
    }

    /** DELETE /api/songs?id=..: looks the row up first; only a row
        that exists is removed, and nothing else changes. */
    method DeleteSong(roles: set<Role>, id: Long) returns (r: Result<string>)
      requires Valid()
      modifies this
      ensures Valid()
      ensures !Allowed(Delete, roles) ==> r == Err(Forbidden)
      ensures Allowed(Delete, roles) && id !in old(songRepository) ==> r == Err(NotFound(TypeName, id))
      ensures Allowed(Delete, roles) && id in old(songRepository) ==> r == Ok(DeletedMessage(TypeName, id))
      ensures songRepository == if r.Ok? then old(songRepository) - {id} else old(songRepository)
    {
      if !Allowed(Delete, roles) {
        return Err(Forbidden);
      }
      var found := FindById(songRepository, id);
      if found.None? {
        return Err(NotFound(TypeName, id));
      }
      var song := found.value;
      songRepository := songRepository - {song.id};
      return Ok(DeletedMessage(TypeName, id));
    }

    /** PUT /api/songs?id=..: looks the row up first, then overwrites
        every field but the key with the incoming one; the key comes from
        the request's id, never from the incoming body. */
    method UpdateSong(roles: set<Role>, id: Long, incoming: Song) returns (r: Result<Song>)
      requires Valid()
      modifies this
      ensures Valid()
      ensures !Allowed(Update, roles) ==> r == Err(Forbidden)
      ensures Allowed(Update, roles) && id !in old(songRepository) ==> r == Err(NotFound(TypeName, id))
      ensures Allowed(Update, roles) && id in old(songRepository) ==> r == Ok(incoming.(id := id))
      ensures songRepository == if r.Ok? then old(songRepository)[id := r.value] else old(songRepository)
    {
      if !Allowed(Update, roles) {
        return Err(Forbidden);
      }
      var found := FindById(songRepository, id);
      if found.None? {
        return Err(NotFound(TypeName, id));
      }
      var song := found.value;
      song := song.(artist := incoming.artist);
      song := song.(album := incoming.album);
      song := song.(year := incoming.year);
      songRepository := songRepository[song.id := song];
      return Ok(song);
    }
  }

  /** The life of one song as an administrator sees it: created, read
      back, replaced, read back, deleted, then no longer found. */
  method Lifecycle(c: SongsController, artist: string, album: string, year: Int32, edited: Song)
    returns (created: Result<Song>, fetched: Result<Song>, updated: Result<Song>,
             refetched: Result<Song>, deleted: Result<string>, gone: Result<Song>)
    requires c.Valid()
    modifies c
    ensures c.Valid()
    ensures created.Ok? ==>
      var id := created.value.id;
      && fetched == Ok(Song(id, artist, album, year))
      && updated == Ok(edited.(id := id))
      && refetched == updated
      && deleted == Ok(DeletedMessage(TypeName, id))
      && gone == Err(NotFound(TypeName, id))
      && c.songRepository == old(c.songRepository)
  {
    var admin := {RoleUser, RoleAdmin};
    created := c.PostSong(admin, artist, album, year);
    if created.Err? {
      // nothing was saved, so no later step runs
      fetched, updated, refetched, gone := created, created, created, created;
      deleted := Err(created.error);
      return;
    }
    var id := created.value.id;
    fetched := c.GetById(admin, id);
    updated := c.UpdateSong(admin, id, edited);
    refetched := c.GetById(admin, id);
    deleted := c.DeleteSong(admin, id);
    gone := c.GetById(admin, id);
  }

  /** Every row the listing shows can be fetched by its id, and yields
      that same row. */
  lemma ListedRowsAreFetchable(c: SongsController, roles: set<Role>)
    requires c.Valid()
    requires Allowed(List, roles) && Allowed(Get, roles)
    ensures forall x :: x in c.AllSongs(roles).value ==> c.GetById(roles, x.id) == Ok(x)
  {
  }

  /** The not-found text for id 7. */
  lemma NotFoundMessageSample7()
    ensures NotFoundMessage(TypeName, 7) == "Song with id 7 not found"
  {
    Decimal.ShowSamples();
    NotFoundMessageSpelled(TypeName, 7, "7");
  }

  /** The not-found text for id 15. */
  lemma NotFoundMessageSample15()
    ensures NotFoundMessage(TypeName, 15) == "Song with id 15 not found"
  {
    Decimal.ShowSamples();
    NotFoundMessageSpelled(TypeName, 15, "15");
  }

  /** The not-found text for id 67. */
  lemma NotFoundMessageSample67()
    ensures NotFoundMessage(TypeName, 67) == "Song with id 67 not found"
  {
    Decimal.ShowSamples();
    NotFoundMessageSpelled(TypeName, 67, "67");
  }

  /** The delete confirmation for id 15. */
  lemma DeletedMessageSample()
    ensures DeletedMessage(TypeName, 15) == "Song with id 15 deleted"
  {
    Decimal.ShowSamples();
    DeletedMessageSpelled(TypeName, 15, "15");
  }
}
