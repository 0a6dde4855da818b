/**
 * The relational state the handlers run against, as `createTables` declares
 * it: seven tables, their keys, UNIQUE columns, the CHECK on track ownership,
 * foreign keys, and what deleting a row does to the rows that refer to it
 * (ON DELETE CASCADE / SET NULL). A table is the sequence of its rows in the
 * order the engine returns them.
 */
module Schema {

  import opened Rows
  import opened Models

  // Key columns, named so that predicates and lemmas can share them.
  function UserIdOf(u: User): int { u.id }
  function UsernameOf(u: User): string { u.username }
  function EmailOf(u: User): string { u.email }
  function EnsembleIdOf(e: Ensemble): int { e.id }
  function EnsembleNameOf(e: Ensemble): string { e.name }
  function MusicianIdOf(m: Musician): int { m.id }
  function TrackIdOf(t: TrackRow): int { t.id }
  function RecordIdOf(r: RecordRow): int { r.id }
  function LinkKey(l: Link): (int, int) { (l.recordId, l.trackId) }
  function CartKey(c: CartRow): (int, int) { (c.userId, c.recordId) }

  /** The whole database at one moment. */
  datatype Tables = Tables(
    users: seq<User>,
    ensembles: seq<Ensemble>,
    musicians: seq<Musician>,
    tracks: seq<TrackRow>,
    records: seq<RecordRow>,
    recordTracks: seq<Link>,
    cartItems: seq<CartRow>)

  /** The CHECK on `tracks`: a musician's track or an ensemble's track, never both, never neither. */
  predicate OwnedByExactlyOne(t: TrackRow) {
    t.musicianId.Some? != t.ensembleId.Some?
  }

  /** `users`: primary key, UNIQUE username, UNIQUE email, CHECK on role. */
  ghost predicate UsersOk(users: seq<User>) {
    && UniqueBy(users, UserIdOf)
    && UniqueBy(users, UsernameOf)
    && UniqueBy(users, EmailOf)
    && (forall u :: u in users ==> u.role == "user" || u.role == "admin")
  }

  /** `ensembles`: primary key and UNIQUE name. */
  ghost predicate EnsemblesOk(ensembles: seq<Ensemble>) {
    UniqueBy(ensembles, EnsembleIdOf) && UniqueBy(ensembles, EnsembleNameOf)
  }

  /** `musicians`: primary key and the foreign key to `ensembles`. */
  ghost predicate MusiciansOk(musicians: seq<Musician>, ensembles: seq<Ensemble>) {
    && UniqueBy(musicians, MusicianIdOf)
    && (forall m :: m in musicians && m.ensembleId.Some? ==>
          m.ensembleId.value in KeySet(ensembles, EnsembleIdOf))
  }

  /** `tracks`: primary key, the ownership CHECK, and the foreign keys to both owners. */
  ghost predicate TracksOk(tracks: seq<TrackRow>, musicians: seq<Musician>, ensembles: seq<Ensemble>) {
    && UniqueBy(tracks, TrackIdOf)
    && (forall t :: t in tracks ==> OwnedByExactlyOne(t))
    && (forall t :: t in tracks && t.musicianId.Some? ==>
          t.musicianId.value in KeySet(musicians, MusicianIdOf))
    && (forall t :: t in tracks && t.ensembleId.Some? ==>
          t.ensembleId.value in KeySet(ensembles, EnsembleIdOf))
  }

  /** `record_tracks`: the composite primary key and both foreign keys. */
  ghost predicate LinksOk(links: seq<Link>, records: seq<RecordRow>, tracks: seq<TrackRow>) {
    && UniqueBy(links, LinkKey)
    && (forall l :: l in links ==>
          l.recordId in KeySet(records, RecordIdOf) && l.trackId in KeySet(tracks, TrackIdOf))
  }

  /** `cart_items`: one row per (user, record), both foreign keys. */
  ghost predicate CartOk(cart: seq<CartRow>, users: seq<User>, records: seq<RecordRow>) {
    && UniqueBy(cart, CartKey)
    && (forall c :: c in cart ==>
          c.userId in KeySet(users, UserIdOf) && c.recordId in KeySet(records, RecordIdOf))
  }

  /** Every constraint `createTables` declares. */
  ghost predicate WellFormed(db: Tables) {
    && UsersOk(db.users)
    && EnsemblesOk(db.ensembles)
    && MusiciansOk(db.musicians, db.ensembles)
    && TracksOk(db.tracks, db.musicians, db.ensembles)
    && UniqueBy(db.records, RecordIdOf)
    && LinksOk(db.recordTracks, db.records, db.tracks)
    && CartOk(db.cartItems, db.users, db.records)
  }

  /**
   * Not a schema constraint (quantity has only NOT NULL DEFAULT 1): the
   * cart handlers keep every stored quantity at 1 or more.
   */
  ghost predicate QuantitiesPositive(cart: seq<CartRow>) {
    forall c :: c in cart ==> c.quantity >= 1
  }

  // ---------------------------------------------------------------------
  // Deletes and what the foreign keys make them do

  /** Deleting a record: its `record_tracks` and `cart_items` rows go with it; tracks stay. */
  function DeleteRecordRows(db: Tables, id: int): (r: Tables)
    ensures r.users == db.users && r.ensembles == db.ensembles
    ensures r.musicians == db.musicians && r.tracks == db.tracks
    ensures forall x :: x in r.records <==> x in db.records && x.id != id
    ensures forall l :: l in r.recordTracks <==> l in db.recordTracks && l.recordId != id
    ensures forall c :: c in r.cartItems <==> c in db.cartItems && c.recordId != id
  {
    db.(records := Filter(db.records, (x: RecordRow) => x.id != id),
        recordTracks := Filter(db.recordTracks, (l: Link) => l.recordId != id),
        cartItems := Filter(db.cartItems, (c: CartRow) => c.recordId != id))
  }

  /** Links that survive deleting the tracks whose ids are in `gone`. */
  function LinksAvoiding(links: seq<Link>, gone: set<int>): (r: seq<Link>)
    ensures forall l :: l in r <==> l in links && l.trackId !in gone
  {
    Filter(links, (l: Link) => l.trackId !in gone)
  }

  lemma LinksAvoidingKeepsUnique(links: seq<Link>, gone: set<int>)
    requires UniqueBy(links, LinkKey)
    ensures UniqueBy(LinksAvoiding(links, gone), LinkKey)
  {
    FilterKeepsUnique(links, (l: Link) => l.trackId !in gone, LinkKey);
  }

  /** Deleting a track: its `record_tracks` rows go with it. */
  function DeleteTrackRows(db: Tables, id: int): (r: Tables)
    ensures r.users == db.users && r.ensembles == db.ensembles && r.musicians == db.musicians
    ensures r.records == db.records && r.cartItems == db.cartItems
    ensures forall t :: t in r.tracks <==> t in db.tracks && t.id != id
    ensures forall l :: l in r.recordTracks <==> l in db.recordTracks && l.trackId != id
  {
    db.(tracks := Filter(db.tracks, (t: TrackRow) => t.id != id),
        recordTracks := LinksAvoiding(db.recordTracks, {id}))
  }

  /** The ids of the tracks `owned` selects. */
  function TrackIdsWhere(tracks: seq<TrackRow>, owned: TrackRow -> bool): set<int> {
    KeySet(Filter(tracks, owned), TrackIdOf)
  }

  /** Deleting a musician: the musician's tracks go, and with them their `record_tracks` rows. */
  function DeleteMusicianRows(db: Tables, id: int): (r: Tables)
    ensures r.users == db.users && r.ensembles == db.ensembles
    ensures r.records == db.records && r.cartItems == db.cartItems
    ensures forall m :: m in r.musicians <==> m in db.musicians && m.id != id
    ensures forall t :: t in r.tracks <==> t in db.tracks && t.musicianId != Some(id)
    ensures forall l :: l in r.recordTracks <==>
      l in db.recordTracks && !(exists t :: t in db.tracks && t.id == l.trackId && t.musicianId == Some(id))
  {
    var owned := (t: TrackRow) => t.musicianId == Some(id);
    db.(musicians := Filter(db.musicians, (m: Musician) => m.id != id),
        tracks := Filter(db.tracks, (t: TrackRow) => t.musicianId != Some(id)),
        recordTracks := LinksAvoiding(db.recordTracks, TrackIdsWhere(db.tracks, owned)))
  }

  /** The musicians of ensemble `id` lose their membership (SET NULL) and stay. */
  function DetachMusicians(ms: seq<Musician>, id: int): (r: seq<Musician>)
    ensures |r| == |ms|
    ensures forall i :: 0 <= i < |ms| ==>
      r[i] == if ms[i].ensembleId == Some(id) then ms[i].(ensembleId := None) else ms[i]
  {
    seq(|ms|, i requires 0 <= i < |ms| =>
      if ms[i].ensembleId == Some(id) then ms[i].(ensembleId := None) else ms[i])
  }

  /** Deleting an ensemble: its tracks go (with their links), its musicians stay without it. */
  function DeleteEnsembleRows(db: Tables, id: int): (r: Tables)
    ensures r.users == db.users && r.records == db.records && r.cartItems == db.cartItems
    ensures forall e :: e in r.ensembles <==> e in db.ensembles && e.id != id
    ensures r.musicians == DetachMusicians(db.musicians, id)
    ensures forall t :: t in r.tracks <==> t in db.tracks && t.ensembleId != Some(id)
    ensures forall l :: l in r.recordTracks <==>
      l in db.recordTracks && !(exists t :: t in db.tracks && t.id == l.trackId && t.ensembleId == Some(id))
  {
    var owned := (t: TrackRow) => t.ensembleId == Some(id);
    db.(ensembles := Filter(db.ensembles, (e: Ensemble) => e.id != id),
        musicians := DetachMusicians(db.musicians, id),
        tracks := Filter(db.tracks, (t: TrackRow) => t.ensembleId != Some(id)),
        recordTracks := LinksAvoiding(db.recordTracks, TrackIdsWhere(db.tracks, owned)))
  }

  /** Deleting a user empties that user's cart. */
  function DeleteUserRows(db: Tables, id: int): (r: Tables)
    ensures r.ensembles == db.ensembles && r.musicians == db.musicians
    ensures r.tracks == db.tracks && r.records == db.records && r.recordTracks == db.recordTracks
    ensures forall u :: u in r.users <==> u in db.users && u.id != id
    ensures forall c :: c in r.cartItems <==> c in db.cartItems && c.userId != id
  {
    db.(users := Filter(db.users, (u: User) => u.id != id),
        cartItems := Filter(db.cartItems, (c: CartRow) => c.userId != id))
  }

  // ---------------------------------------------------------------------
  // The deletes keep every declared constraint

  lemma DeleteRecordKeepsWellFormed(db: Tables, id: int)
    requires WellFormed(db)
    ensures WellFormed(DeleteRecordRows(db, id))
  {
    var r := DeleteRecordRows(db, id);
    FilterKeepsUnique(db.records, (x: RecordRow) => x.id != id, RecordIdOf);
    FilterKeepsUnique(db.recordTracks, (l: Link) => l.recordId != id, LinkKey);
    FilterKeepsUnique(db.cartItems, (c: CartRow) => c.recordId != id, CartKey);
    forall l | l in r.recordTracks ensures l.recordId in KeySet(r.records, RecordIdOf) {
      var x :| x in db.records && x.id == l.recordId;
    }
    forall c | c in r.cartItems ensures c.recordId in KeySet(r.records, RecordIdOf) {
      var x :| x in db.records && x.id == c.recordId;
    }
  }

  lemma DeleteTrackKeepsWellFormed(db: Tables, id: int)
    requires WellFormed(db)
    ensures WellFormed(DeleteTrackRows(db, id))
  {
    var r := DeleteTrackRows(db, id);
    FilterKeepsUnique(db.tracks, (t: TrackRow) => t.id != id, TrackIdOf);
    LinksAvoidingKeepsUnique(db.recordTracks, {id});
    forall l | l in r.recordTracks ensures l.trackId in KeySet(r.tracks, TrackIdOf) {
      var t :| t in db.tracks && t.id == l.trackId;
    }
  }

  lemma DeleteMusicianKeepsWellFormed(db: Tables, id: int)
    requires WellFormed(db)
    ensures WellFormed(DeleteMusicianRows(db, id))
  {
    var r := DeleteMusicianRows(db, id);
    var owned := (t: TrackRow) => t.musicianId == Some(id);
    var gone := TrackIdsWhere(db.tracks, owned);
    FilterKeepsUnique(db.musicians, (m: Musician) => m.id != id, MusicianIdOf);
    FilterKeepsUnique(db.tracks, (t: TrackRow) => t.musicianId != Some(id), TrackIdOf);
    LinksAvoidingKeepsUnique(db.recordTracks, gone);
    forall t | t in r.tracks && t.musicianId.Some?
      ensures t.musicianId.value in KeySet(r.musicians, MusicianIdOf)
    {
      var m :| m in db.musicians && m.id == t.musicianId.value;
    }
    forall l | l in r.recordTracks ensures l.trackId in KeySet(r.tracks, TrackIdOf) {
      var t :| t in db.tracks && t.id == l.trackId;
    }
  }

  /** SET NULL keeps the musicians' ids. */
  lemma DetachKeepsIds(ms: seq<Musician>, id: int)
    ensures KeySet(DetachMusicians(ms, id), MusicianIdOf) == KeySet(ms, MusicianIdOf)
    ensures UniqueBy(ms, MusicianIdOf) ==> UniqueBy(DetachMusicians(ms, id), MusicianIdOf)
  {
    var r := DetachMusicians(ms, id);
    forall k | k in KeySet(ms, MusicianIdOf) ensures k in KeySet(r, MusicianIdOf) {
      var i :| 0 <= i < |ms| && ms[i].id == k;
      assert r[i] in r;
    }
    forall k | k in KeySet(r, MusicianIdOf) ensures k in KeySet(ms, MusicianIdOf) {
      var i :| 0 <= i < |r| && r[i].id == k;
      assert ms[i] in ms;
    }
  }

  /** After SET NULL no musician refers to ensemble `id`, and the others keep their ensemble. */
  lemma DetachedMusiciansOk(db: Tables, id: int)
    requires MusiciansOk(db.musicians, db.ensembles)
    ensures forall m :: m in DetachMusicians(db.musicians, id) && m.ensembleId.Some? ==>
      m.ensembleId.value != id && m.ensembleId.value in KeySet(db.ensembles, EnsembleIdOf)
  {
    var r := DetachMusicians(db.musicians, id);
    forall m | m in r && m.ensembleId.Some?
      ensures m.ensembleId.value != id && m.ensembleId.value in KeySet(db.ensembles, EnsembleIdOf)
    {
      var i :| 0 <= i < |r| && r[i] == m;
      assert db.musicians[i] in db.musicians;
    }
  }

  lemma DeleteEnsembleKeepsWellFormed(db: Tables, id: int)
    requires WellFormed(db)
    ensures WellFormed(DeleteEnsembleRows(db, id))
  {
    var r := DeleteEnsembleRows(db, id);
    var owned := (t: TrackRow) => t.ensembleId == Some(id);
    var gone := TrackIdsWhere(db.tracks, owned);
    FilterKeepsUnique(db.ensembles, (e: Ensemble) => e.id != id, EnsembleIdOf);
    FilterKeepsUnique(db.ensembles, (e: Ensemble) => e.id != id, EnsembleNameOf);
    FilterKeepsUnique(db.tracks, (t: TrackRow) => t.ensembleId != Some(id), TrackIdOf);
    LinksAvoidingKeepsUnique(db.recordTracks, gone);
    DetachKeepsIds(db.musicians, id);
    DetachedMusiciansOk(db, id);
    forall m | m in r.musicians && m.ensembleId.Some?
      ensures m.ensembleId.value in KeySet(r.ensembles, EnsembleIdOf)
    {
      var e :| e in db.ensembles && e.id == m.ensembleId.value;
    }
    forall t | t in r.tracks && t.ensembleId.Some?
      ensures t.ensembleId.value in KeySet(r.ensembles, EnsembleIdOf)
    {
      var e :| e in db.ensembles && e.id == t.ensembleId.value;
    }
    forall l | l in r.recordTracks ensures l.trackId in KeySet(r.tracks, TrackIdOf) {
      var t :| t in db.tracks && t.id == l.trackId;
    }
  }

  lemma DeleteUserKeepsWellFormed(db: Tables, id: int)
    requires WellFormed(db)
    ensures WellFormed(DeleteUserRows(db, id))
  {
    var r := DeleteUserRows(db, id);
    FilterKeepsUnique(db.users, (u: User) => u.id != id, UserIdOf);
    FilterKeepsUnique(db.users, (u: User) => u.id != id, UsernameOf);
    FilterKeepsUnique(db.users, (u: User) => u.id != id, EmailOf);
    FilterKeepsUnique(db.cartItems, (c: CartRow) => c.userId != id, CartKey);
    forall c | c in r.cartItems ensures c.userId in KeySet(r.users, UserIdOf) {
      var u :| u in db.users && u.id == c.userId;
    }
  }

  // ---------------------------------------------------------------------
  // AUTOINCREMENT

  /** The largest id AUTOINCREMENT has handed out per table (`sqlite_sequence`). */
  datatype Counters = Counters(user: nat, ensemble: nat, musician: nat, track: nat, record: nat)

  /** Every id in a table is positive and was handed out by that table's sequence. */
  ghost predicate IdsIssued(db: Tables, c: Counters) {
    && (forall k :: k in KeySet(db.users, UserIdOf) ==> 0 < k <= c.user)
    && (forall k :: k in KeySet(db.ensembles, EnsembleIdOf) ==> 0 < k <= c.ensemble)
    && (forall k :: k in KeySet(db.musicians, MusicianIdOf) ==> 0 < k <= c.musician)
    && (forall k :: k in KeySet(db.tracks, TrackIdOf) ==> 0 < k <= c.track)
    && (forall k :: k in KeySet(db.records, RecordIdOf) ==> 0 < k <= c.record)
  }

  /** A table whose ids are among the old ones' keeps the sequences valid. */
  lemma IdsIssuedShrinks(db: Tables, r: Tables, c: Counters)
    requires IdsIssued(db, c)
    requires KeySet(r.users, UserIdOf) <= KeySet(db.users, UserIdOf)
    requires KeySet(r.ensembles, EnsembleIdOf) <= KeySet(db.ensembles, EnsembleIdOf)
    requires KeySet(r.musicians, MusicianIdOf) <= KeySet(db.musicians, MusicianIdOf)
    requires KeySet(r.tracks, TrackIdOf) <= KeySet(db.tracks, TrackIdOf)
    requires KeySet(r.records, RecordIdOf) <= KeySet(db.records, RecordIdOf)
    ensures IdsIssued(r, c)
  {
  }

  // No delete makes an id appear, so the sequences stay valid.

  lemma DeleteRecordKeepsIds(db: Tables, id: int, c: Counters)
    requires IdsIssued(db, c)
    ensures IdsIssued(DeleteRecordRows(db, id), c)
  {
    IdsIssuedShrinks(db, DeleteRecordRows(db, id), c);
  }

  lemma DeleteTrackKeepsIds(db: Tables, id: int, c: Counters)
    requires IdsIssued(db, c)
    ensures IdsIssued(DeleteTrackRows(db, id), c)
  {
    IdsIssuedShrinks(db, DeleteTrackRows(db, id), c);
  }

  lemma DeleteMusicianKeepsIds(db: Tables, id: int, c: Counters)
    requires IdsIssued(db, c)
    ensures IdsIssued(DeleteMusicianRows(db, id), c)
  {
    IdsIssuedShrinks(db, DeleteMusicianRows(db, id), c);
  }

  lemma DeleteEnsembleKeepsIds(db: Tables, id: int, c: Counters)
    requires IdsIssued(db, c)
    ensures IdsIssued(DeleteEnsembleRows(db, id), c)
  {
    DetachKeepsIds(db.musicians, id);
    IdsIssuedShrinks(db, DeleteEnsembleRows(db, id), c);
  }

  lemma DeleteUserKeepsIds(db: Tables, id: int, c: Counters)
    requires IdsIssued(db, c)
    ensures IdsIssued(DeleteUserRows(db, id), c)
  {
    IdsIssuedShrinks(db, DeleteUserRows(db, id), c);
  }

  // ---------------------------------------------------------------------
  // Inserts: a row takes the next id of its table's sequence

  lemma InsertUserKeepsInvariants(db: Tables, c: Counters, u: User)
    requires WellFormed(db) && IdsIssued(db, c)
    requires u.id == c.user + 1
    requires u.username !in KeySet(db.users, UsernameOf) && u.email !in KeySet(db.users, EmailOf)
    requires u.role == "user" || u.role == "admin"
    ensures WellFormed(db.(users := db.users + [u]))
    ensures IdsIssued(db.(users := db.users + [u]), c.(user := u.id))
  {
    assert u.id !in KeySet(db.users, UserIdOf);
    AppendKeepsUnique(db.users, u, UserIdOf);
    AppendKeepsUnique(db.users, u, UsernameOf);
    AppendKeepsUnique(db.users, u, EmailOf);
    var r := db.(users := db.users + [u]);
    assert KeySet(r.users, UserIdOf) == KeySet(db.users, UserIdOf) + {u.id};
  }

  lemma InsertEnsembleKeepsInvariants(db: Tables, c: Counters, e: Ensemble)
    requires WellFormed(db) && IdsIssued(db, c)
    requires e.id == c.ensemble + 1
    requires e.name !in KeySet(db.ensembles, EnsembleNameOf)
    ensures WellFormed(db.(ensembles := db.ensembles + [e]))
    ensures IdsIssued(db.(ensembles := db.ensembles + [e]), c.(ensemble := e.id))
  {
    assert e.id !in KeySet(db.ensembles, EnsembleIdOf);
    AppendKeepsUnique(db.ensembles, e, EnsembleIdOf);
    AppendKeepsUnique(db.ensembles, e, EnsembleNameOf);
    var r := db.(ensembles := db.ensembles + [e]);
    assert KeySet(r.ensembles, EnsembleIdOf) == KeySet(db.ensembles, EnsembleIdOf) + {e.id};
  }

  lemma InsertMusicianKeepsInvariants(db: Tables, c: Counters, m: Musician)
    requires WellFormed(db) && IdsIssued(db, c)
    requires m.id == c.musician + 1
    requires m.ensembleId.Some? ==> m.ensembleId.value in KeySet(db.ensembles, EnsembleIdOf)
    ensures WellFormed(db.(musicians := db.musicians + [m]))
    ensures IdsIssued(db.(musicians := db.musicians + [m]), c.(musician := m.id))
  {
    assert m.id !in KeySet(db.musicians, MusicianIdOf);
    AppendKeepsUnique(db.musicians, m, MusicianIdOf);
    var r := db.(musicians := db.musicians + [m]);
    assert KeySet(r.musicians, MusicianIdOf) == KeySet(db.musicians, MusicianIdOf) + {m.id};
  }

  lemma InsertTrackKeepsInvariants(db: Tables, c: Counters, t: TrackRow)
    requires WellFormed(db) && IdsIssued(db, c)
    requires t.id == c.track + 1 && OwnedByExactlyOne(t)
    requires t.musicianId.Some? ==> t.musicianId.value in KeySet(db.musicians, MusicianIdOf)
    requires t.ensembleId.Some? ==> t.ensembleId.value in KeySet(db.ensembles, EnsembleIdOf)
    ensures WellFormed(db.(tracks := db.tracks + [t]))
    ensures IdsIssued(db.(tracks := db.tracks + [t]), c.(track := t.id))
  {
    assert t.id !in KeySet(db.tracks, TrackIdOf);
    AppendKeepsUnique(db.tracks, t, TrackIdOf);
    var r := db.(tracks := db.tracks + [t]);
    assert KeySet(r.tracks, TrackIdOf) == KeySet(db.tracks, TrackIdOf) + {t.id};
  }

  lemma InsertRecordKeepsInvariants(db: Tables, c: Counters, rec: RecordRow)
    requires WellFormed(db) && IdsIssued(db, c)
    requires rec.id == c.record + 1
    ensures WellFormed(db.(records := db.records + [rec]))
    ensures IdsIssued(db.(records := db.records + [rec]), c.(record := rec.id))
  {
    assert rec.id !in KeySet(db.records, RecordIdOf);
    AppendKeepsUnique(db.records, rec, RecordIdOf);
    var r := db.(records := db.records + [rec]);
    assert KeySet(r.records, RecordIdOf) == KeySet(db.records, RecordIdOf) + {rec.id};
  }

  /** A link between existing rows that is not there yet keeps the keys and foreign keys. */
  lemma InsertLinkKeepsInvariants(db: Tables, c: Counters, l: Link)
    requires WellFormed(db) && IdsIssued(db, c)
    requires l.recordId in KeySet(db.records, RecordIdOf) && l.trackId in KeySet(db.tracks, TrackIdOf)
    requires LinkKey(l) !in KeySet(db.recordTracks, LinkKey)
    ensures WellFormed(db.(recordTracks := db.recordTracks + [l]))
    ensures IdsIssued(db.(recordTracks := db.recordTracks + [l]), c)
  {
    AppendKeepsUnique(db.recordTracks, l, LinkKey);
  }

  // ---------------------------------------------------------------------
  // The database connection

  /** The SQLite database behind `db.DB`: one field per table, plus the AUTOINCREMENT sequences. */
  class Store {
    var users: seq<User>
    var ensembles: seq<Ensemble>
    var musicians: seq<Musician>
    var tracks: seq<TrackRow>
    var records: seq<RecordRow>
    var recordTracks: seq<Link>
    var cartItems: seq<CartRow>
    var issued: Counters

    function Snapshot(): Tables
      reads this
    {
      Tables(users, ensembles, musicians, tracks, records, recordTracks, cartItems)
    }

    ghost predicate Valid()
      reads this
    {
      WellFormed(Snapshot()) && IdsIssued(Snapshot(), issued)
    }

    /** `InitDB` on a new database file: `createTables` leaves every table empty. */
    constructor ()
      ensures Valid()
      ensures Snapshot() == Tables([], [], [], [], [], [], [])
      ensures issued == Counters(0, 0, 0, 0, 0)
    {
      users, ensembles, musicians, tracks, records, recordTracks, cartItems := [], [], [], [], [], [], [];
      issued := Counters(0, 0, 0, 0, 0);
    }

    /** Copies a snapshot back into the tables. */
    method Assign(db: Tables)
      modifies this`users, this`ensembles, this`musicians, this`tracks
      modifies this`records, this`recordTracks, this`cartItems
      ensures Snapshot() == db
    {
      users, ensembles, musicians, tracks := db.users, db.ensembles, db.musicians, db.tracks;
      records, recordTracks, cartItems := db.records, db.recordTracks, db.cartItems;
    }

    /** Stores a new `cart_items` table that keeps every declared constraint. */
    method SetCartItems(c: seq<CartRow>)
      requires Valid() && WellFormed(Snapshot().(cartItems := c))
      modifies this`cartItems
      ensures Valid() && cartItems == c
    {
      var before := Snapshot();
      cartItems := c;
      assert Snapshot() == before.(cartItems := c);
    }

    /** Stores a new `record_tracks` table that keeps every declared constraint. */
    method SetRecordTracks(links: seq<Link>)
      requires Valid() && WellFormed(Snapshot().(recordTracks := links))
      modifies this`recordTracks
      ensures Valid() && recordTracks == links
    {
      var before := Snapshot();
      recordTracks := links;
      assert Snapshot() == before.(recordTracks := links);
    }

    /**
     * `DeleteRecordHandler`: the id from the URL must be positive; deleting no
     * row is "Record not found"; otherwise the cascades of `DeleteRecordRows`.
     */
    method DeleteRecord(id: int) returns (st: Status)
      requires Valid()
      modifies this`users, this`ensembles, this`musicians, this`tracks
      modifies this`records, this`recordTracks, this`cartItems
      ensures Valid()
      ensures id <= 0 ==> st == Rejected(BadRequest)
      ensures id > 0 && id !in KeySet(old(records), RecordIdOf) ==> st == Rejected(RecordNotFound)
      ensures id > 0 && id in KeySet(old(records), RecordIdOf) ==> st == Done
      ensures st == Done ==> Snapshot() == DeleteRecordRows(old(Snapshot()), id)
      ensures st != Done ==> Snapshot() == old(Snapshot())
    {
      if id <= 0 {
        st := Rejected(BadRequest);
      } else if Find(records, RecordIdOf, id).None? {
        st := Rejected(RecordNotFound);
      } else {
        var db := Snapshot();
        DeleteRecordKeepsWellFormed(db, id);
        DeleteRecordKeepsIds(db, id, issued);
        Assign(DeleteRecordRows(db, id));
        st := Done;
      }
    }

    /** DELETE FROM tracks WHERE id = ?, with its cascade. */
    method DeleteTrack(id: int)
      requires Valid()
      modifies this`users, this`ensembles, this`musicians, this`tracks
      modifies this`records, this`recordTracks, this`cartItems
      ensures Valid()
      ensures Snapshot() == DeleteTrackRows(old(Snapshot()), id)
    {
      DeleteTrackKeepsWellFormed(Snapshot(), id);
      DeleteTrackKeepsIds(Snapshot(), id, issued);
      Assign(DeleteTrackRows(Snapshot(), id));
    }

    /** DELETE FROM musicians WHERE id = ?, with its cascade. */
    method DeleteMusician(id: int)
      requires Valid()
      modifies this`users, this`ensembles, this`musicians, this`tracks
      modifies this`records, this`recordTracks, this`cartItems
      ensures Valid()
      ensures Snapshot() == DeleteMusicianRows(old(Snapshot()), id)
    {
      DeleteMusicianKeepsWellFormed(Snapshot(), id);
      DeleteMusicianKeepsIds(Snapshot(), id, issued);
      Assign(DeleteMusicianRows(Snapshot(), id));
    }

    /** DELETE FROM ensembles WHERE id = ?, with its cascade and SET NULL. */
    method DeleteEnsemble(id: int)
      requires Valid()
      modifies this`users, this`ensembles, this`musicians, this`tracks
      modifies this`records, this`recordTracks, this`cartItems
      ensures Valid()
      ensures Snapshot() == DeleteEnsembleRows(old(Snapshot()), id)
    {
      DeleteEnsembleKeepsWellFormed(Snapshot(), id);
      DeleteEnsembleKeepsIds(Snapshot(), id, issued);
      Assign(DeleteEnsembleRows(Snapshot(), id));
    }

    /** DELETE FROM users WHERE id = ?, with its cascade. */
    method DeleteUser(id: int)
      requires Valid()
      modifies this`users, this`ensembles, this`musicians, this`tracks
      modifies this`records, this`recordTracks, this`cartItems
      ensures Valid()
      ensures Snapshot() == DeleteUserRows(old(Snapshot()), id)
    {
      DeleteUserKeepsWellFormed(Snapshot(), id);
      DeleteUserKeepsIds(Snapshot(), id, issued);
      Assign(DeleteUserRows(Snapshot(), id));
    }
  }
}
