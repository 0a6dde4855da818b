# Record store backend — a verified model

This project models the deterministic core of a record-shop backend written
in Go over SQLite.

- **Tables.** The store keeps users, ensembles, musicians, tracks, records,
  the `record_tracks` links between records and tracks, and the
  `cart_items` of each user.
- **Catalog listings.** Every listing runs the same join-and-assemble
  pipeline:
  - take an ordered list of records and fetch their link rows;
  - group the linked track ids by record, collecting the distinct track ids
    in first-seen order;
  - fetch and name those tracks into a map;
  - give each record a fresh track list in link order.

  The listings are the full catalog, the bestsellers, an ensemble's records
  and a user's cart.
- **Cart.** A small state machine keyed by (user, record). Adding
  accumulates, updating overwrites (or deletes, with quantity 0), removing
  deletes.
- **Admin writes.** They insert a musician, an ensemble or a record. They
  skip track requests that do not qualify, and links to tracks that do not
  exist or are already linked.
- **Schema.** It declares keys, UNIQUE columns, the CHECK that a track has
  exactly one owner, foreign keys, and ON DELETE CASCADE / SET NULL.
- **Authentication.** The `Authorization` header check, the admin role gate,
  self-registration, and the start-up bootstrap of the admin account.

How the model is organised:

- **A table is the sequence of its rows**, in the order the engine returns
  them. `Schema.WellFormed` states every constraint `createTables` declares.
  `Schema.IdsIssued` states what AUTOINCREMENT guarantees about the ids.
- **Handlers that change the database** are methods on `Schema.Store`, the
  connection object. Each keeps `Store.Valid()`, meaning both predicates
  hold, and states the whole new state.
- **Handlers that only read** are methods over a `Schema.Tables` snapshot.
  Each is proved equal to an independent reference definition:
  - `Catalog.RecordView`: a record with its linked tracks, resolved one by
    one;
  - `Cart.CartItemView`: a cart row with its record, if that record exists.
- **Modules**:
  - `Rows`: generic row operations;
  - `Models`: the entities;
  - `Schema`: tables, constraints, deletes and the store;
  - `Names`: the display-name rule;
  - `Catalog`: the pipeline and the listings;
  - `Cart`;
  - `Admin`;
  - `Auth`.

The model follows the code in one place where the design description of the
system differs. That description says a cart item whose record is gone is
dropped from the listing. The handler keeps the item with a nil record
(backend/handlers/handlers.go:645-649), and so does `Cart.GetCart`.

## Model

Some members have no row. `Catalog.RecordView` and `Cart.CartItemView` are
reference definitions: the listings are proved equal to them, and their rows
are those of `Catalog.PipelineIsRecordView`, `Catalog.Assemble`,
`Cart.FilledIsView` and `Cart.GetCart`. `Auth.ToLower` is stated through
`Auth.LowerIsBearer`. `Schema.Store.Assign`, `Schema.Store.Snapshot`, the key
functions and the per-table predicates are helpers.

| member | source | states |
|---|---|---|
| Rows.Find | backend/handlers/handlers.go:420-431 | A `SELECT ... WHERE key = ?` finds a row exactly when some row has that key, and the row it returns has the key |
| Rows.FindUnique | backend/db/db.go:39 | Under a primary key, the row found for a key is the only row with it |
| Rows.FilterKeepsUnique | backend/db/db.go:87 | Deleting rows never creates a key clash |
| Rows.AppendKeepsUnique | backend/db/db.go:39 | A row with a new key keeps the key unique |
| Rows.Distinct | backend/handlers/handlers.go:271-284 | The ids a `trackIDSet`-guarded loop collects have no duplicates and are exactly the ids met |
| Rows.DistinctIsFirstSeenOrder | backend/handlers/handlers.go:280-283 | Those ids are listed in the order of their first occurrence |
| Rows.IndexBy | backend/handlers/handlers.go:363 | A map filled with `m[id] = row` has exactly the ids of the rows as keys, each mapped to a row with that id |
| Rows.IndexByUnique | backend/handlers/handlers.go:363 | Under a unique id, every row is found in that map under its own id |
| Schema.DeleteRecordRows | backend/db/db.go:88-97 | Deleting a record removes exactly its `record_tracks` and `cart_items` rows; tracks and every other table are untouched |
| Schema.DeleteTrackRows | backend/db/db.go:89 | Deleting a track removes exactly its `record_tracks` rows; nothing else changes |
| Schema.DeleteMusicianRows | backend/db/db.go:69 | Deleting a musician removes the tracks they own and those tracks' links, and nothing else |
| Schema.DetachMusicians | backend/db/db.go:59 | ON DELETE SET NULL: the musicians of the deleted ensemble stay, with no ensemble; the others are unchanged |
| Schema.DeleteEnsembleRows | backend/db/db.go:59-70 | Deleting an ensemble removes its tracks with their links, and detaches its musicians without deleting them |
| Schema.DeleteUserRows | backend/db/db.go:96 | Deleting a user removes exactly that user's cart rows |
| Schema.DeleteRecordKeepsWellFormed | backend/db/db.go:72-98 | The record delete with its cascades keeps every key, UNIQUE, CHECK and foreign key |
| Schema.DeleteTrackKeepsWellFormed | backend/db/db.go:61-90 | The track delete with its cascade keeps every constraint |
| Schema.DeleteMusicianKeepsWellFormed | backend/db/db.go:53-70 | The musician delete with its cascade keeps every constraint |
| Schema.DetachKeepsIds | backend/db/db.go:59 | SET NULL changes no musician id |
| Schema.DetachedMusiciansOk | backend/db/db.go:58-59 | After SET NULL, no musician refers to the deleted ensemble |
| Schema.DeleteEnsembleKeepsWellFormed | backend/db/db.go:48-70 | The ensemble delete with its cascade and SET NULL keeps every constraint |
| Schema.DeleteUserKeepsWellFormed | backend/db/db.go:38-47 | The user delete with its cascade keeps every constraint |
| Schema.IdsIssuedShrinks | backend/db/db.go:39 | Tables whose ids are among the old ones keep every id within what AUTOINCREMENT has issued |
| Schema.DeleteRecordKeepsIds | backend/db/db.go:73 | No delete makes an id appear |
| Schema.DeleteTrackKeepsIds | backend/db/db.go:62 | No delete makes an id appear |
| Schema.DeleteMusicianKeepsIds | backend/db/db.go:54 | No delete makes an id appear |
| Schema.DeleteEnsembleKeepsIds | backend/db/db.go:49 | No delete makes an id appear |
| Schema.DeleteUserKeepsIds | backend/db/db.go:39 | No delete makes an id appear |
| Schema.InsertUserKeepsInvariants | backend/db/db.go:38-47 | A user with the next id, a new username, a new email and a valid role keeps every constraint and advances the sequence |
| Schema.InsertEnsembleKeepsInvariants | backend/db/db.go:48-52 | An ensemble with the next id and a new name keeps every constraint |
| Schema.InsertMusicianKeepsInvariants | backend/db/db.go:53-60 | A musician with the next id and an existing or absent ensemble keeps every constraint |
| Schema.InsertTrackKeepsInvariants | backend/db/db.go:61-71 | A track with the next id, exactly one owner and an existing owner keeps every constraint |
| Schema.InsertRecordKeepsInvariants | backend/db/db.go:72-83 | A record with the next id keeps every constraint |
| Schema.InsertLinkKeepsInvariants | backend/db/db.go:84-90 | A new link between an existing record and an existing track keeps the composite key and both foreign keys |
| Schema.Store.constructor | backend/db/db.go:12-30 | A new database has every table empty, every constraint holding, and no id issued |
| Schema.Store.SetCartItems | backend/db/db.go:91-98 | A cart table that keeps the declared constraints is stored, and the store stays valid |
| Schema.Store.SetRecordTracks | backend/db/db.go:84-90 | A link table that keeps the declared constraints is stored, and the store stays valid |
| Schema.Store.DeleteRecord | backend/handlers/handlers.go:1195-1222 | A non-positive id is a bad request; an id without a record is "not found" and changes nothing; otherwise the record is deleted with its cascades, keeping every constraint |
| Schema.Store.DeleteTrack | backend/db/db.go:89 | The store after a track delete is the cascade's result and stays valid |
| Schema.Store.DeleteMusician | backend/db/db.go:69 | The store after a musician delete is the cascade's result and stays valid |
| Schema.Store.DeleteEnsemble | backend/db/db.go:59-70 | The store after an ensemble delete is the cascade and SET NULL result and stays valid |
| Schema.Store.DeleteUser | backend/db/db.go:96 | The store after a user delete is the cascade's result and stays valid |
| Names.TrimLeft | backend/handlers/handlers.go:348 | What is removed is leading white space only, and what is kept is a suffix not starting with white space |
| Names.TrimRight | backend/handlers/handlers.go:348 | What is removed is trailing white space only, and what is kept is a prefix not ending with white space |
| Names.TrimSpace | backend/handlers/handlers.go:348 | `strings.TrimSpace` gives a trimmed string and leaves a trimmed string unchanged |
| Names.TrimSpaceKeepsMiddle | backend/handlers/handlers.go:348 | `strings.TrimSpace` returns a slice of its input with only white space before it and only white space after it |
| Names.TrimSpaceIdempotent | backend/handlers/handlers.go:348 | Trimming twice is trimming once |
| Names.TrimSpaceOfBlank | backend/handlers/handlers.go:348 | A blank string trims to "" |
| Names.TrimLeftAppend | backend/handlers/handlers.go:348 | Leading white space before a non-blank part goes and the rest is kept |
| Names.TrimLeftBlankPrefix | backend/handlers/handlers.go:348 | A blank prefix is trimmed away entirely |
| Names.OrEmpty | backend/handlers/handlers.go:348 | A NULL column reads as "", any other value as itself |
| Names.MusicianName | backend/handlers/handlers.go:347-351 | The musician name is always trimmed, and is "Unknown Musician" when the join found neither name part |
| Names.MusicianNameJoinsParts | backend/handlers/handlers.go:347-348 | Two trimmed non-empty parts are shown as "first last" |
| Names.MusicianNameFirstOnly | backend/handlers/handlers.go:347-348 | With the last name NULL the trimmed first name is shown |
| Names.TrimSpaceOfSpaceTail | backend/handlers/handlers.go:348 | A trailing blank does not change what is kept |
| Names.MusicianNameLastOnly | backend/handlers/handlers.go:347-348 | With the first name NULL the trimmed last name is shown |
| Names.EnsembleName | backend/handlers/handlers.go:356-360 | The ensemble name is the stored name, or "Unknown Ensemble" when the join found none |
| Names.ResolveTrack | backend/handlers/handlers.go:344-361 | The owner ids are copied from the row; a name is filled in only for the owner the track has, by the rules above; the other name stays "" |
| Catalog.IdsOf | backend/handlers/handlers.go:255-262 | The IN-list of the links query holds exactly the ids of the listed records |
| Catalog.FetchLinks | backend/handlers/handlers.go:255-268 | The fetched links are exactly the links of the requested records |
| Catalog.LinkedTrackIds | backend/handlers/handlers.go:280 | A record's linked ids are exactly the track ids its link rows name |
| Catalog.TrackIdColumn | backend/handlers/handlers.go:276-280 | The track id column, row by row |
| Catalog.JoinTrack | backend/handlers/handlers.go:300-321 | The LEFT JOIN finds both musician name parts exactly when the musician exists, and the ensemble name exactly when the ensemble exists |
| Catalog.JoinAll | backend/handlers/handlers.go:300-321 | Every track row is joined, in order |
| Catalog.TracksIn | backend/handlers/handlers.go:300-308 | The tracks query returns exactly the tracks whose ids were requested, and nothing for no ids |
| Catalog.RecordsIn | backend/handlers/handlers.go:494-533 | The records query returns exactly the records whose ids were requested, and nothing for no ids |
| Catalog.FetchTracks | backend/handlers/handlers.go:300-321 | Every fetched row is a requested track of the table, joined |
| Catalog.ResolveAll | backend/handlers/handlers.go:323-364 | Every scanned row is named by the display-name rule, in order |
| Catalog.Attach | backend/handlers/handlers.go:378-384 | The looked-up tracks come from the map in link order, ids not in the map are skipped, and when every id is in the map there is one track per id |
| Catalog.ResolveLinks | backend/handlers/handlers.go:371-385 | Reference: a record's tracks are its linked ids resolved one at a time, dangling ids skipped |
| Catalog.FetchLinksKeepsLinks | backend/handlers/handlers.go:255-285 | Restricting the links to the requested records keeps each requested record's links and their order |
| Catalog.FetchedIdsUnique | backend/db/db.go:62 | Under the tracks key, the fetched tracks have distinct ids |
| Catalog.FetchedTrackMapLookup | backend/handlers/handlers.go:300-364 | For a requested id, the track map holds a track exactly when the table has one, and holds that track's view |
| Catalog.AttachIsResolveLinks | backend/handlers/handlers.go:378-384 | Looking the linked ids up in the fetched map gives the reference track list |
| Catalog.LinkedIdsCollected | backend/handlers/handlers.go:274-285 | Every linked id of a record is among the collected track ids |
| Catalog.PipelineIsRecordView | backend/handlers/handlers.go:255-385 | Under the tracks key, each record the pipeline assembles equals its reference view |
| Catalog.EveryLinkResolves | backend/db/db.go:89 | When no link dangles, a record shows one track per link, in link order, each with the id its link names |
| Catalog.RecordViewShowsEveryLink | backend/db/db.go:84-90 | With every constraint in force, a record shows exactly as many tracks as it has links |
| Catalog.ViewTrackNamesOwner | backend/handlers/handlers.go:344-361 | With every constraint in force, a track never shows a fallback name: it shows its own musician's or ensemble's name, and has exactly one owner |
| Catalog.CollectLinks | backend/handlers/handlers.go:274-285 | The grouping map lists each record's linked ids in row order, and the collected ids are the distinct track ids in first-seen order |
| Catalog.BuildTrackMap | backend/handlers/handlers.go:323-364 | The track map is the named fetched rows indexed by id, a later row replacing an earlier one |
| Catalog.AttachTracks | backend/handlers/handlers.go:371-385 | Every record is kept in order and gets a fresh, non-nil track list: its linked ids looked up in the map |
| Catalog.LinkedTracks | backend/handlers/handlers.go:378-384 | The inner loop builds exactly the looked-up list |
| Catalog.GroupAndFetch | backend/handlers/handlers.go:274-364 | The links are grouped by record, and the map holds the fetched tracks for the collected ids; it is empty when there are none |
| Catalog.Assemble | backend/handlers/handlers.go:250-385 | Every input record appears once, in order, with a non-nil track list; under the tracks key each equals its reference view |
| Catalog.GetRecords | backend/handlers/handlers.go:208-389 | Every record of the table is listed, in table order, as its reference view |
| Catalog.GetBestSellers | backend/handlers/handlers.go:1531-1692 | The listing is a permutation of the records, non-increasing in current-year sales, each record its reference view |
| Catalog.EnsembleTrackIds | backend/handlers/handlers.go:1288-1316 | Exactly the ids of the tracks the ensemble owns |
| Catalog.EnsembleRecords | backend/handlers/handlers.go:1318-1357 | Exactly the records linking one of the ensemble's tracks, in table order |
| Catalog.LinkedRecordIds | backend/handlers/handlers.go:1317-1346 | The record ids are exactly those that some link row ties to one of the given tracks |
| Catalog.SelectEnsembleTrackIds | backend/handlers/handlers.go:1288-1310 | The listed ids are exactly those of the tracks of the ensemble |
| Catalog.SelectLinkedRecordIds | backend/handlers/handlers.go:1317-1351 | The listed record ids are exactly those linked to one of the ensemble's tracks, each once |
| Catalog.GetRecordsByEnsemble | backend/handlers/handlers.go:1264-1528 | A non-positive id is a bad request, an unknown ensemble is "not found", and otherwise the ensemble's records are listed in table order as their reference views |
| Catalog.GetAllTracks | backend/handlers/handlers.go:976-1038 | Every track of the table is listed, in table order, named by the same display-name rule |
| Cart.Qty | backend/db/db.go:91-95 | A quantity is reported exactly when a row with that key exists, and it is that row's |
| Cart.Bump | backend/handlers/handlers.go:433-435 | The row with the key has its quantity grown by `q`; every other row is unchanged |
| Cart.Upsert | backend/handlers/handlers.go:433-435 | After the upsert the key is present, and every row with another key is as before |
| Cart.SetQty | backend/handlers/handlers.go:718-747 | Only the row with the key changes, and only its quantity |
| Cart.RemoveRow | backend/handlers/handlers.go:769-780 | Exactly the rows with the key are gone |
| Cart.QtyOfRow | backend/db/db.go:95 | Under the composite key, a row's quantity is what is reported for its key |
| Cart.QtyOthersAgree | backend/db/db.go:95 | Two carts agreeing outside one key report the same quantity for every other key |
| Cart.UpsertAccumulates | backend/handlers/handlers.go:433-437 | Adding sets the quantity to the old one plus `q` (or `q` for a new row), keeps the key unique, and leaves every other key's quantity alone |
| Cart.BumpAccumulates | backend/handlers/handlers.go:433-435 | On an existing row the quantity becomes old plus `q` |
| Cart.UpsertTwice | backend/handlers/handlers.go:433-435 | Adding `a` then `b` is adding `a + b` once |
| Cart.SetQtyOverwrites | backend/handlers/handlers.go:718-747 | Updating sets the quantity to `q` (not accumulated), leaves the other keys alone, and a second update replaces the first |
| Cart.RemoveRowDeletes | backend/handlers/handlers.go:704-716 | Removing deletes exactly the (user, record) row and leaves every other key alone |
| Cart.UpsertKeepsWellFormed | backend/db/db.go:91-98 | An upsert for an existing user and record keeps every constraint |
| Cart.SetQtyKeepsWellFormed | backend/db/db.go:91-98 | An update of an existing row keeps every constraint |
| Cart.RemoveRowKeepsWellFormed | backend/db/db.go:91-98 | A delete keeps every constraint |
| Cart.WritesKeepQuantitiesPositive | backend/handlers/handlers.go:413-416 | With only positive quantities written, every stored quantity stays at 1 or more, although the schema allows less |
| Cart.AddToCart | backend/handlers/handlers.go:394-445 | Non-positive ids or quantities are a bad request before any state access, and a missing record is "not found"; otherwise the upsert runs. The user's foreign key can refuse it, as a storage error. Every rejection leaves the cart unchanged |
| Cart.UpdateCart | backend/handlers/handlers.go:671-748 | A non-positive id or negative quantity is a bad request. Quantity 0 deletes the row, or reports "item not found". A positive quantity needs the record, then the row, and overwrites; a missing row is never created, and rejections change nothing |
| Cart.RemoveFromCart | backend/handlers/handlers.go:751-783 | A non-positive id is a bad request; an absent row is "item not found" and changes nothing; otherwise exactly that row is deleted |
| Cart.CartOf | backend/handlers/handlers.go:458-487 | The user's cart rows are exactly the rows with that user id, in table order |
| Cart.RecordsInKeepsUnique | backend/db/db.go:73 | The fetched records keep the records key |
| Cart.FetchedRecordLookup | backend/handlers/handlers.go:494-533 | For a requested id, the records map holds it exactly when the table has the record, and under the key holds that row |
| Cart.StartItems | backend/handlers/handlers.go:458-487 | One item per cart row, no record yet, and the record ids the rows name, each once |
| Cart.IndexRecords | backend/handlers/handlers.go:513-533 | The records map is the fetched rows by id, and the fetched ids are its keys, each once |
| Cart.FillItems | backend/handlers/handlers.go:643-665 | Each item gets its record, if fetched, with a fresh track list in link order; others keep a nil record |
| Cart.FilledIsView | backend/handlers/handlers.go:643-665 | An item filled from the fetched maps equals the reference view of its cart row, when record and track ids are unique |
| Cart.AttachRecords | backend/handlers/handlers.go:494-665 | For items that start with no record: each keeps its row's user, record id and quantity, has a record exactly when the record exists, and under the keys equals its reference view |
| Cart.GetCart | backend/handlers/handlers.go:448-668 | One item per cart row of the user, in row order, with its quantity. An item has a record exactly when the record exists, and that record has a track list. Under the keys each item equals its reference view |
| Admin.Kept | backend/handlers/handlers.go:838-851 | The kept requests are exactly those with a name and a positive duration, in request order |
| Admin.InsertedTracksQualify | backend/handlers/handlers.go:838-851 | Every inserted track has a name and positive duration, belongs to the given owner alone, and has its own new id |
| Admin.CollectTrackRows | backend/handlers/handlers.go:838-851 | The rows built are exactly the kept requests, in order, as tracks of the owner with consecutive ids after the last issued one |
| Admin.InsertTrackRowsKeepInvariants | backend/db/db.go:61-71 | Appending those rows for an existing single owner keeps every declared constraint and the issued-id bound |
| Admin.InsertTracks | backend/handlers/handlers.go:838-851 | The tracks table grows by exactly the kept requests, as tracks of the owner with consecutive new ids, and the store stays valid |
| Admin.AddMusician | backend/handlers/handlers.go:788-862 | Missing names are a bad request, and an unknown ensemble fails the insert; rejections change nothing. Otherwise the musician gets the next id and the kept requests become their tracks |
| Admin.AddEnsemble | backend/handlers/handlers.go:865-943 | A missing name is a bad request and a taken name is a conflict; rejections change nothing. Otherwise the ensemble gets the next id and the kept requests become its tracks |
| Admin.LinkableIds | backend/handlers/handlers.go:1106-1121 | The linked ids are exactly the requested ids naming an existing track, each once |
| Admin.LinkableIdsAreDistinctExisting | backend/handlers/handlers.go:1106-1121 | That list is the first-seen distinct list of the existing ids among those requested |
| Admin.LinkOne | backend/handlers/handlers.go:1106-1121 | One id is linked exactly when it names a track and the link is not there yet; the store stays valid |
| Admin.LinkLoopStep | backend/handlers/handlers.go:1106-1121 | For a record with no earlier links, the links made for one more id are those made before plus exactly what one pass adds |
| Admin.LinkTracks | backend/handlers/handlers.go:1106-1121 | The link rows added for the new record are exactly one per linkable id, in that order, and the store stays valid |
| Admin.AddRecord | backend/handlers/handlers.go:1041-1139 | A missing title or negative stock is a bad request and changes nothing. Otherwise the record gets the next id with no sales, and is linked to the linkable ids |
| Auth.Split | backend/auth/auth.go:75 | `strings.Split(s, " ")` yields at least one piece, and no piece holds a space |
| Auth.JoinSplit | backend/auth/auth.go:75 | Joining the pieces with single spaces gives the header back |
| Auth.SplitJoin | backend/auth/auth.go:75 | Pieces without spaces are exactly what splitting their join gives |
| Auth.LowerIsBearer | backend/auth/auth.go:76 | A word lowercases to "bearer" exactly when it spells "bearer" in any mix of cases |
| Auth.ParseAuthHeader | backend/auth/auth.go:67-82 | An empty header and every malformed header are unauthorized, and an accepted token holds no space |
| Auth.BearerHeaderAccepted | backend/auth/auth.go:75-82 | A "bearer" word, one space and a token without spaces is accepted with that token |
| Auth.AcceptedHeaderShape | backend/auth/auth.go:75-82 | Every accepted header is a "bearer" word, one space, and the token |
| Auth.AdminGate | backend/auth/auth.go:124-139 | Only claims with role "admin" pass; no claims is an internal error; any other role is forbidden |
| Auth.RoleFor | backend/handlers/handlers.go:53-59 | The role is "admin" exactly when both admin credentials match, else "user" |
| Auth.Register | backend/handlers/handlers.go:39-91 | An incomplete request is a bad request, and a taken username or email is a conflict; rejections change nothing. Otherwise one user is added with the next id, the hash and the decided role |
| Auth.Bootstrap | backend/auth/auth.go:144-188 | An existing username leaves the users unchanged, whatever its role. Otherwise the admin account is added, unless its email is taken. Afterwards the username or the email is present |
| Auth.BootstrapIdempotent | backend/auth/auth.go:172-187 | Running the bootstrap a second time changes nothing |
| Auth.RegisterAdminUser | backend/auth/auth.go:144-188 | The users become the bootstrap result, and the sequence advances only when a row was added. Success is reported unless the email clash makes the insert fail |

## Left out

- HTTP and JSON: body decoding, URL variables, status codes and response
  bodies. Outcomes are an error class (`Models.ErrorClass`).
- SQL text and `database/sql` iteration. Every query is a function of the
  tables. Scan failures, which are logged and skipped, are not modelled,
  and neither are `rows.Err()` aborts or failures to reach the database.
  The IN-lists built inside raw string literals are modelled as "the rows
  for the requested ids", as the handlers evidently intend.
- Queries without ORDER BY are modelled as returning rows in table order.
  The bestseller order is a parameter: a permutation of the records sorted
  by current-year sales. Ties are in no promised order.
- Transactions: a rejected admin write is modelled as leaving the tables
  unchanged. In most paths the deferred rollback does this. In the
  name-conflict path of `AddEnsembleHandler` it is the engine aborting the
  failed INSERT, and the transaction is never closed. Two cases are not
  modelled: the `err` that `stmt, err :=` shadows in `AddRecordHandler`,
  and the link-insert failures it lets through.
- Concurrency between requests.
- JWT signing, parsing and expiry; `SetJWTSecret` and `GenerateJWT`. The
  token is returned as a string and the claims are a parameter of
  `Auth.AdminGate`.
- Password hashing: the hash is a parameter. The `db == nil` case of
  `RegisterAdminUser` and query errors other than "no rows" are not modelled.
- Environment variables (the admin credentials) are parameters.
- The cart handlers take the user id as a parameter. The InternalError
  returned when the claims are missing from the request context is not
  modelled.
- Login, profile, `GetEnsemblesHandler`, `GetEnsembleTrackCountHandler` and
  `UpdateRecordHandler` are single-query wrappers and are not part of this
  model. `backend/main.go` is route wiring, and the gin/gorm variant is
  `backend/handlers/auth.go` with `backend/models/user.go` and
  `backend/models/databaseSetup.go`; neither is part of this model.
- Prices are floating point in the source. They are carried as `real`
  values and never computed with.
- Integers are unbounded; the source's 64-bit ids never wrap in practice.
- Foreign keys are modelled as enforced, as the schema declares. SQLite
  enforces them only with `PRAGMA foreign_keys = ON`, which `InitDB` does
  not set.
- The LEFT JOINs are modelled as finding the first row with the id. Ids are
  keys, so that row is the only one.
- Nullable TEXT columns other than the joined names are carried as strings.
- `strings.ToLower` is modelled on the ASCII letters. Non-ASCII letters
  never lowercase to the ASCII letters of "bearer", so the header decision
  is the same.
- The schema's default quantity of 1 is never used: every insert gives a
  quantity.
- Catalog.GetRecords, Catalog.GetRecordsByEnsemble: the early returns for
  "no links" and "no records" are modelled; they give the same output as
  the full pipeline on empty inputs.
- Catalog.Assemble, Cart.GetCart: the equality with the reference view is
  stated under the key constraints of the tables involved. Without them,
  only the shape (order, fields, a track list for each record) is stated.
- Admin.InsertTracks: the rows of one request are collected by the loop and
  stored together at the end. Inside the transaction this cannot be told
  apart from inserting them one by one.
- Admin.AddEnsemble: the conflict return (backend/handlers/handlers.go:900-903)
  clears `err` before the deferred function runs. So the transaction is
  neither rolled back nor committed, and it stays open with its connection
  out of the pool and probably its write lock still held. The model treats
  that path as rolled back: only the unchanged tables are stated. What the
  open transaction does to later requests is not modelled.
- Names.TrimSpace: its own contract states only that the result is trimmed,
  no longer than the input, and the input itself when already trimmed. That
  the result is the input minus its leading and trailing white space is the
  lemma `Names.TrimSpaceKeepsMiddle`. It is kept separate so that every use
  of `TrimSpace` does not carry quantifiers over the characters of its input.
