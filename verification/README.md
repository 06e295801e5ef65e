# CRUD controllers for games, groceries and songs — a Dafny model

The application exposes one REST controller per record type. `GamesController`,
`GroceriesController` and `SongsController` each own one table, a Spring Data
`CrudRepository<Entity, Long>`. Each offers the same five endpoints:

- `GET /api/<res>/all` lists every row.
- `GET /api/<res>?id=` returns one row, or fails with `EntityNotFoundException`.
  Its message is "`<Type>` with id `<id>` not found".
- `POST /api/<res>/post` builds a new row from the request parameters and saves it.
- `DELETE /api/<res>?id=` looks the row up, deletes it, and returns
  "`<Type>` with id `<id>` deleted".
- `PUT /api/<res>?id=` looks the row up, overwrites every non-key field from the
  request body, keeps the key, and saves it.

Every endpoint carries a role gate. Reads need `ROLE_USER` and writes need
`ROLE_ADMIN`; a refused call never reaches the table.

The model has these parts:

- `authorization.dfy` (module `Authorization`): the roles, the five operations
  and the gate `Allowed`.
- `repository.dfy` (module `Repository`): Java's `Long`, the table as a
  `map<Long, E>`, `findById`, `findAll` and the existence of a free identity key.
- `decimal.dfy` (module `Decimal`): how Java renders a `Long` inside a
  message, with its inverse.
- `errors.dfy` (module `Errors`): the error outcomes, the `Result` type, the
  two message texts, the HTTP status and the JSON error body.
- `groceries.dfy`, `games.dfy`, `songs.dfy`: one class per controller. The
  class holds the table as a `map` field named like the Java field. The
  controller's methods change that field, and a `Valid()` invariant says
  every row is stored under its own positive id.

Reads (`All…`, `GetById`) are functions that read the controller. Writes
(`Post…`, `Delete…`, `Update…`) are methods. Their postconditions give the new
table in terms of the old one for every outcome: refused, not found, store
failure and success.

Facts of the code the model follows:

- `@PreAuthorize` on the two reads checks `hasRole('ROLE_USER')` alone, and no
  role hierarchy is visible in the code, so a caller holding only `ROLE_ADMIN`
  is refused the reads. The administrator accounts in the tests hold both
  roles (`UserOnlyReads`, `AdminAndUserMayDoAll`).
- The grocery controller sets `name`, `price` and `expiration`, all strings,
  and the model's `Grocery` has exactly those fields besides the key.
- The Song tests build songs with a `name` field. The entity and the controller
  have `artist`, `album` and `year`, and the model uses those.

## Model

| member | source | states |
|---|---|---|
| `Authorization.Required` | src/main/java/edu/ucsb/cs156/example/controllers/GroceriesController.java:37-93 | Reads require ROLE_USER and every write requires ROLE_ADMIN. |
| `Authorization.Allowed` | src/main/java/edu/ucsb/cs156/example/controllers/GamesController.java:36-86 | With no roles every call is refused. A read is allowed iff ROLE_USER is held. A write is allowed iff ROLE_ADMIN is held. |
| `Authorization.UserOnlyReads` | src/test/java/edu/ucsb/cs156/example/controllers/GroceriesControllerTests.java:53-80 | A ROLE_USER-only caller may list and get, and is refused post, put and delete. |
| `Authorization.AdminAndUserMayDoAll` | src/test/java/edu/ucsb/cs156/example/controllers/GroceriesControllerTests.java:166-195 | A caller holding ADMIN and USER, as the admin test users do, may perform all five operations. |
| `Authorization.AllowedMonotone` | src/main/java/edu/ucsb/cs156/example/controllers/SongsController.java:36-89 | Granting more roles never removes a permission. |
| `Decimal.Digits` | src/main/java/edu/ucsb/cs156/example/controllers/GroceriesController.java:88 | The digits of an id are a non-empty string of decimal digits. There is no leading zero except for 0 itself. |
| `Decimal.Show` | src/main/java/edu/ucsb/cs156/example/controllers/GamesController.java:81 | A rendered id starts with '-' exactly when the id is negative; otherwise it is all digits. The magnitude has no leading zero: a rendering starting with '0' is "0" itself, and after a '-' come digits whose first is not '0'. With `ShowRoundTrip` this fixes the text for every id. |
| `Decimal.DigitsRoundTrip` | src/main/java/edu/ucsb/cs156/example/controllers/SongsController.java:84 | Reading the digits back gives the number they were made from. |
| `Decimal.ShowRoundTrip` | src/main/java/edu/ucsb/cs156/example/controllers/GroceriesController.java:88 | Parsing a rendered id gives back the id, negative ids included. |
| `Decimal.ShowInjective` | src/main/java/edu/ucsb/cs156/example/controllers/GamesController.java:81 | Two different ids are never rendered as the same text. |
| `Errors.Status` | src/test/java/edu/ucsb/cs156/example/controllers/GroceriesControllerTests.java:47-120 | A refusal is answered with 403 and only a refusal. A not-found error is answered with 404 and only a not-found error. A store failure is answered with 500. |
| `Errors.Body` | src/test/java/edu/ucsb/cs156/example/controllers/GroceriesControllerTests.java:116-127 | A not-found error's body is exactly `type` = "EntityNotFoundException" and `message` = the not-found message for that type and id. Of the three errors, only the not-found one has a `message` entry. |
| `Errors.IdPhraseDeterminesId` | src/main/java/edu/ucsb/cs156/example/controllers/GroceriesController.java:84-88 | For a fixed type and outcome, the "<Type> with id <id> …" text identifies the id: equal texts mean equal ids. |
| `Errors.NotFoundIsNotDeleted` | src/main/java/edu/ucsb/cs156/example/controllers/SongsController.java:80-84 | The not-found message and the delete confirmation never coincide, whatever the types and ids. |
| `Errors.IdPhrase` | src/main/java/edu/ucsb/cs156/example/controllers/GroceriesController.java:88 | A "<Type> with id <id> <outcome>" text starts with the type name, and the id can be read back out of it: `PhraseId` recovers exactly that id. |
| `Errors.NotFoundMessage` | src/main/java/edu/ucsb/cs156/example/controllers/GroceriesController.java:51 | The not-found message starts with the type name and names the id, which can be read back out of the "<Type> with id <id> not found" text. |
| `Errors.DeletedMessage` | src/main/java/edu/ucsb/cs156/example/controllers/SongsController.java:84 | The delete confirmation starts with the type name and names the id, which can be read back out of the "<Type> with id <id> deleted" text. |
| `Errors.NotFoundMessageSpelled` | src/test/java/edu/ucsb/cs156/example/controllers/GroceriesControllerTests.java:116-127 | The not-found message is the type name, " with id ", the rendered id and " not found", in that order. |
| `Errors.DeletedMessageSpelled` | src/test/java/edu/ucsb/cs156/example/controllers/GroceriesControllerTests.java:205-218 | The delete confirmation is the type name, " with id ", the rendered id and " deleted", in that order. |
| `Decimal.ShowSamples` | src/test/java/edu/ucsb/cs156/example/controllers/GroceriesControllerTests.java:116-127 | The ids 7, 15 and 67 are rendered as "7", "15" and "67". |
| `Repository.FindById` | src/main/java/edu/ucsb/cs156/example/controllers/GroceriesController.java:50-51 | `findById` finds a row iff the key is stored, and then returns that row. |
| `Repository.KeysInOrder` | src/main/java/edu/ucsb/cs156/example/controllers/GroceriesController.java:40-42 | Lists every key of the table exactly once, in strictly ascending order, and nothing else. |
| `Repository.FindAll` | src/main/java/edu/ucsb/cs156/example/controllers/GroceriesController.java:40-42 | `findAll` returns as many rows as the table holds. Every stored row is in it, and everything in it is a stored row. Position i holds the row under the i-th key in ascending order, so each key contributes exactly one entry even when two keys hold equal rows. |
| `Repository.FreeKeyExists` | src/main/java/edu/ucsb/cs156/example/entities/Song.java:19-21 | If every key lies in 1..bound and there are fewer than bound keys, some key in 1..bound is free. |
| `Repository.FreeIdentityKey` | src/main/java/edu/ucsb/cs156/example/controllers/GroceriesController.java:74 | A table of positive Long keys with fewer than 2^63-1 rows leaves a positive key free for `save` to assign. |
| `Groceries.NewGrocery` | src/main/java/edu/ucsb/cs156/example/controllers/GroceriesController.java:69 | A freshly built grocery has a key that finds no row in any well-keyed table, so it can never be mistaken for a stored row before `save` assigns its key. |
| `Groceries.GroceriesController.constructor` | src/main/java/edu/ucsb/cs156/example/controllers/GroceriesController.java:34-35 | The controller starts over a given well-keyed grocery table. |
| `Groceries.GroceriesController.AllGroceries` | src/main/java/edu/ucsb/cs156/example/controllers/GroceriesController.java:37-43 | Without ROLE_USER the call is Forbidden. Otherwise it returns one entry per stored grocery: exactly the stored groceries. It reads and never writes. |
| `Groceries.GroceriesController.GetById` | src/main/java/edu/ucsb/cs156/example/controllers/GroceriesController.java:45-54 | Without ROLE_USER the call is Forbidden. An absent id gives NotFound("Grocery", id). A present id gives exactly the stored grocery, whose id is the requested one. |
| `Groceries.GroceriesController.PostGrocery` | src/main/java/edu/ucsb/cs156/example/controllers/GroceriesController.java:56-77 | Without ROLE_ADMIN the call is Forbidden and nothing changes. Otherwise one row is added under a previously unused key. Its name, price and expiration are the arguments, and that saved row is returned. When the model finds no free positive key it fails, and then nothing changes. |
| `Groceries.GroceriesController.DeleteGrocery` | src/main/java/edu/ucsb/cs156/example/controllers/GroceriesController.java:79-89 | Without ROLE_ADMIN the call is Forbidden. The existence check comes first: an absent id gives NotFound("Grocery", id) and no removal. A present id removes that key only and returns "Grocery with id <id> deleted". |
| `Groceries.GroceriesController.UpdateGrocery` | src/main/java/edu/ucsb/cs156/example/controllers/GroceriesController.java:91-108 | Without ROLE_ADMIN the call is Forbidden. An absent id gives NotFound("Grocery", id) and the table is unchanged. A present id stores and returns the incoming grocery's name, price and expiration under the request's id. This replaces the row rather than merging into it, and changes no other row. |
| `Groceries.Lifecycle` | src/test/java/edu/ucsb/cs156/example/controllers/GroceriesControllerTests.java:166-279 | Create → get returns the posted fields. Update → get returns the incoming fields. Delete returns the confirmation, after which get is NotFound and the table is back to its old contents. |
| `Groceries.ListedRowsAreFetchable` | src/main/java/edu/ucsb/cs156/example/controllers/GroceriesController.java:37-54 | Every grocery the listing returns is fetched unchanged by its own id. |
| `Groceries.NotFoundMessageSample7` | src/test/java/edu/ucsb/cs156/example/controllers/GroceriesControllerTests.java:116-127 | The text is "Grocery with id 7 not found". |
| `Groceries.NotFoundMessageSample15` | src/test/java/edu/ucsb/cs156/example/controllers/GroceriesControllerTests.java:227-238 | The text is "Grocery with id 15 not found". |
| `Groceries.NotFoundMessageSample67` | src/test/java/edu/ucsb/cs156/example/controllers/GroceriesControllerTests.java:295-309 | The text is "Grocery with id 67 not found". |
| `Groceries.DeletedMessageSample` | src/test/java/edu/ucsb/cs156/example/controllers/GroceriesControllerTests.java:205-218 | The text is "Grocery with id 15 deleted". |
| `Games.NewGame` | src/main/java/edu/ucsb/cs156/example/controllers/GamesController.java:63 | A freshly built game has a key that finds no row in any well-keyed table, so it can never be mistaken for a stored row before `save` assigns its key. |
| `Games.GamesController.constructor` | src/main/java/edu/ucsb/cs156/example/controllers/GamesController.java:33-34 | The controller starts over a given well-keyed game table. |
| `Games.GamesController.AllGames` | src/main/java/edu/ucsb/cs156/example/controllers/GamesController.java:36-42 | Without ROLE_USER the call is Forbidden. Otherwise it returns one entry per stored game: exactly the stored games, with no side effect. |
| `Games.GamesController.GetById` | src/main/java/edu/ucsb/cs156/example/controllers/GamesController.java:44-52 | Without ROLE_USER the call is Forbidden. An absent id gives NotFound("Game", id). A present id gives exactly the stored game. |
| `Games.GamesController.PostGame` | src/main/java/edu/ucsb/cs156/example/controllers/GamesController.java:54-71 | Without ROLE_ADMIN the call is Forbidden. Otherwise one row is added under an unused key, with exactly the given name, description and genre, and it is returned. |
| `Games.GamesController.DeleteGame` | src/main/java/edu/ucsb/cs156/example/controllers/GamesController.java:73-82 | Without ROLE_ADMIN the call is Forbidden. An absent id gives NotFound("Game", id) and an unchanged table. A present id removes that key only and returns "Game with id <id> deleted". |
| `Games.GamesController.UpdateGame` | src/main/java/edu/ucsb/cs156/example/controllers/GamesController.java:84-102 | Without ROLE_ADMIN the call is Forbidden. An absent id gives NotFound("Game", id) before any save. A present id stores and returns the incoming name, description and genre under the request's id: the incoming fields, not a merge with the old row. |
| `Games.Lifecycle` | src/test/java/edu/ucsb/cs156/example/controllers/GamesControllerTests.java:164-272 | Create → get returns the posted fields. Update → get returns the incoming fields. Delete returns "Game with id <id> deleted", after which get is NotFound("Game", id). |
| `Games.ListedRowsAreFetchable` | src/main/java/edu/ucsb/cs156/example/controllers/GamesController.java:36-52 | Every game the listing returns is fetched unchanged by its own id. |
| `Games.NotFoundMessageSample7` | src/test/java/edu/ucsb/cs156/example/controllers/GamesControllerTests.java:114-125 | The text is "Game with id 7 not found". |
| `Games.NotFoundMessageSample15` | src/test/java/edu/ucsb/cs156/example/controllers/GamesControllerTests.java:223-234 | The text is "Game with id 15 not found". |
| `Games.NotFoundMessageSample67` | src/test/java/edu/ucsb/cs156/example/controllers/GamesControllerTests.java:288-302 | The text is "Game with id 67 not found". |
| `Games.DeletedMessageSample` | src/test/java/edu/ucsb/cs156/example/controllers/GamesControllerTests.java:201-214 | The text is "Game with id 15 deleted". |
| `Songs.NewSong` | src/main/java/edu/ucsb/cs156/example/controllers/SongsController.java:65 | A freshly built song has a key, the default of the primitive `long id`, that finds no row in any well-keyed table, so it can never be mistaken for a stored row before `save` assigns its key. |
| `Songs.SongsController.constructor` | src/main/java/edu/ucsb/cs156/example/controllers/SongsController.java:33-34 | The controller starts over a given well-keyed song table. |
| `Songs.SongsController.AllSongs` | src/main/java/edu/ucsb/cs156/example/controllers/SongsController.java:36-42 | Without ROLE_USER the call is Forbidden. Otherwise it returns one entry per stored song: exactly the stored songs. |
| `Songs.SongsController.GetById` | src/main/java/edu/ucsb/cs156/example/controllers/SongsController.java:44-53 | Without ROLE_USER the call is Forbidden. An absent id gives NotFound("Song", id). A present id gives exactly the stored song. |
| `Songs.SongsController.PostSong` | src/main/java/edu/ucsb/cs156/example/controllers/SongsController.java:55-73 | Without ROLE_ADMIN the call is Forbidden. Otherwise one row is added under an unused key, with exactly the given artist, album and 32-bit year, and it is returned. |
| `Songs.SongsController.DeleteSong` | src/main/java/edu/ucsb/cs156/example/controllers/SongsController.java:75-85 | Without ROLE_ADMIN the call is Forbidden. An absent id gives NotFound("Song", id) with no removal. A present id removes that key only and returns "Song with id <id> deleted". |
| `Songs.SongsController.UpdateSong` | src/main/java/edu/ucsb/cs156/example/controllers/SongsController.java:87-104 | Without ROLE_ADMIN the call is Forbidden. An absent id gives NotFound("Song", id) and the table is unchanged. A present id stores and returns the incoming artist, album and year under the request's id; the id never changes. |
| `Songs.Lifecycle` | src/test/java/edu/ucsb/cs156/example/controllers/SongsControllerTests.java:163-268 | Create → get returns the posted fields. Update → get returns the incoming fields. Delete returns the confirmation, after which get is NotFound("Song", id). |
| `Songs.ListedRowsAreFetchable` | src/main/java/edu/ucsb/cs156/example/controllers/SongsController.java:36-53 | Every song the listing returns is fetched unchanged by its own id. |
| `Songs.NotFoundMessageSample7` | src/test/java/edu/ucsb/cs156/example/controllers/SongsControllerTests.java:114-125 | The text is "Song with id 7 not found". |
| `Songs.NotFoundMessageSample15` | src/test/java/edu/ucsb/cs156/example/controllers/SongsControllerTests.java:220-231 | The text is "Song with id 15 not found". |
| `Songs.NotFoundMessageSample67` | src/test/java/edu/ucsb/cs156/example/controllers/SongsControllerTests.java:282-296 | The text is "Song with id 67 not found". |
| `Songs.DeletedMessageSample` | src/test/java/edu/ucsb/cs156/example/controllers/SongsControllerTests.java:198-211 | The text is "Song with id 15 deleted". |

## Left out

- Spring wiring is not modelled: routing, request-parameter binding, CSRF tokens,
  Jackson rendering and the Swagger annotations. Only the role rule, the status
  codes and the not-found body are kept.
- `@Valid` validation of the PUT body is not modelled. Neither are the 400
  responses for a missing or malformed parameter. Every request reaching an
  endpoint is taken as well-formed.
- Entities are values. The endpoints change a fetched JPA entity with setters
  and then save it; the model applies the same field updates to a copy and
  stores that. Object identity and aliasing of managed entities are not
  captured.
- `new Grocery()`, `new Game()` and `new Song()` start with null `String`
  fields; the model starts those with empty strings. The setters overwrite
  them before anything is saved. The primitive `long id` and Song's primitive
  `int year` start at 0 in Java, as in the model.
- The database's identity generator is not modelled beyond "some positive key
  not already in the table". The model does not fix which key is chosen, and it
  may hand out a key that a deleted row once held. A real identity column never
  reuses a key, so it can run out of keys while the table is far from full; the
  model fails only when every positive key is in use.
- Store failures are not modelled except the table running out of positive
  `Long` keys, which the model reports as `StoreFailure`. I/O errors and
  constraint violations are left out.
- `Repository.FindAll`: the table promises no order; the model lists rows by
  ascending key, and no property depends on that order.
- `EntityNotFoundException` and `ApiController.genericMessage` are not part of
  this model. They are represented by the `NotFound` error and a message
  string, whose wording follows the messages the controller tests expect.
- Concurrency is not modelled: the model is sequential. The check-then-act
  window between the lookup and the save or delete in update and delete is out
  of scope.
- The Hotels endpoints are not modelled. `HotelsController` is not among the
  files this model follows; its tests exist, and its entity (a generated
  `String` key) disagrees with them (`Long` ids).
- Errors.Body: the bodies of the 403 and 500 responses are not modelled; the
  model shows them as empty maps, so its `message`-iff-not-found clause says
  nothing about what Spring actually sends for those two statuses.
- Mockito call counts (`verify(..., times(1))`) are not modelled. The
  postconditions say instead that each successful write changes exactly one
  key.
