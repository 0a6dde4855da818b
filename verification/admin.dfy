/**
 * The admin write handlers. Each validates its request, inserts the new
 * musician, ensemble or record under the next id of its table, and then
 * inserts what the request lists, silently skipping the entries that do not
 * qualify: track requests without a name or with a non-positive duration,
 * and record links to tracks that do not exist or are already linked.
 * A rejected request leaves the tables as they were: the failed statement
 * changes nothing, and the transaction is rolled back or never committed.
 */
module Admin {

  import opened Rows
  import opened Models
  import opened Schema

  // ---------------------------------------------------------------------
  // Track requests of AddMusician and AddEnsemble

  /** One entry of the `tracks` list of an add-musician or add-ensemble request. */
  datatype TrackRequest = TrackRequest(name: string, duration: int)

  /** The handlers insert a track only when it has a name and a positive duration. */
  predicate Insertable(t: TrackRequest) {
    t.name != "" && t.duration > 0
  }

  /** The requests that get inserted, in request order. */
  function Kept(reqs: seq<TrackRequest>): (r: seq<TrackRequest>)
    ensures |r| <= |reqs|
    ensures forall t :: t in r <==> t in reqs && Insertable(t)
  {
    Filter(reqs, Insertable)
  }

  /** The rows inserted for `kept`: consecutive ids after `last`, in order, all with the given owner. */
  function TrackRows(kept: seq<TrackRequest>, last: int, musicianId: Option<int>, ensembleId: Option<int>): seq<TrackRow> {
    seq(|kept|, i requires 0 <= i < |kept| =>
      TrackRow(last + 1 + i, kept[i].name, kept[i].duration, musicianId, ensembleId))
  }

  /**
   * Every inserted track has a name and a positive duration, belongs to the
   * given owner alone, and has a new id of its own.
   */
  lemma InsertedTracksQualify(reqs: seq<TrackRequest>, last: int, musicianId: Option<int>, ensembleId: Option<int>)
    ensures var rows := TrackRows(Kept(reqs), last, musicianId, ensembleId);
      && |rows| == |Kept(reqs)|
      && UniqueBy(rows, TrackIdOf)
      && forall t :: t in rows ==>
           && t.name != "" && t.duration > 0
           && t.musicianId == musicianId && t.ensembleId == ensembleId
           && last < t.id <= last + |rows|
  {
    var kept := Kept(reqs);
    var rows := TrackRows(kept, last, musicianId, ensembleId);
    forall t | t in rows
      ensures t.name != "" && t.duration > 0 && last < t.id <= last + |rows|
    {
      var i :| 0 <= i < |rows| && rows[i] == t;
      assert kept[i] in kept;
    }
  }

  /** One more request considered: the kept list grows by it exactly when it qualifies. */
  lemma KeptStep(reqs: seq<TrackRequest>, i: nat)
    requires i < |reqs|
    ensures Kept(reqs[..i + 1]) == Kept(reqs[..i]) + (if Insertable(reqs[i]) then [reqs[i]] else [])
  {
    assert reqs[..i + 1] == reqs[..i] + [reqs[i]];
    FilterAppend(reqs[..i], [reqs[i]], Insertable);
    if Insertable(reqs[i]) {
      assert Filter([reqs[i]], Insertable) == [reqs[i]] + Filter([], Insertable);
    } else {
      assert Filter([reqs[i]], Insertable) == Filter([], Insertable);
    }
  }

  lemma TrackRowsAppend(kept: seq<TrackRequest>, t: TrackRequest, last: int, musicianId: Option<int>, ensembleId: Option<int>)
    ensures TrackRows(kept + [t], last, musicianId, ensembleId)
      == TrackRows(kept, last, musicianId, ensembleId) + [TrackRow(last + 1 + |kept|, t.name, t.duration, musicianId, ensembleId)]
  {
    var k := kept + [t];
    assert forall i :: 0 <= i < |kept| ==> k[i] == kept[i];
  }

  /** Inserting the rows of `kept` after the current last track id keeps every constraint. */
  lemma {:induction false} InsertTrackRowsKeepInvariants(db: Tables, c: Counters, kept: seq<TrackRequest>,
                                                         musicianId: Option<int>, ensembleId: Option<int>)
    requires WellFormed(db) && IdsIssued(db, c)
    requires musicianId.Some? != ensembleId.Some?
    requires musicianId.Some? ==> musicianId.value in KeySet(db.musicians, MusicianIdOf)
    requires ensembleId.Some? ==> ensembleId.value in KeySet(db.ensembles, EnsembleIdOf)
    ensures var r := db.(tracks := db.tracks + TrackRows(kept, c.track, musicianId, ensembleId));
      WellFormed(r) && IdsIssued(r, c.(track := c.track + |kept|))
    decreases |kept|
  {
    if kept == [] {
      assert db.tracks + TrackRows(kept, c.track, musicianId, ensembleId) == db.tracks;
      assert c.(track := c.track + |kept|) == c;
    } else {
      var p := kept[..|kept| - 1];
      var t := kept[|kept| - 1];
      assert kept == p + [t];
      InsertTrackRowsKeepInvariants(db, c, p, musicianId, ensembleId);
      var done := TrackRows(p, c.track, musicianId, ensembleId);
      var db1 := db.(tracks := db.tracks + done);
      var c1 := c.(track := c.track + |p|);
      var row := TrackRow(c.track + 1 + |p|, t.name, t.duration, musicianId, ensembleId);
      InsertTrackKeepsInvariants(db1, c1, row);
      TrackRowsAppend(p, t, c.track, musicianId, ensembleId);
      assert db.tracks + (done + [row]) == db.tracks + done + [row];
      assert c1.(track := row.id) == c.(track := c.track + |kept|);
    }
  }

  /**
   * The track loop of `AddMusicianHandler` and `AddEnsembleHandler`: each
   * qualifying request becomes a row of the owner under the next track id,
   * in request order; the others are skipped.
   */
  method CollectTrackRows(reqs: seq<TrackRequest>, last: int, musicianId: Option<int>, ensembleId: Option<int>)
    returns (rows: seq<TrackRow>)
    ensures rows == TrackRows(Kept(reqs), last, musicianId, ensembleId)
  {
    rows := [];
    assert reqs[..0] == [];
    for i := 0 to |reqs|
      invariant rows == TrackRows(Kept(reqs[..i]), last, musicianId, ensembleId)
    {
      var t := reqs[i];
      KeptStep(reqs, i);
      if t.name != "" && t.duration > 0 {
        TrackRowsAppend(Kept(reqs[..i]), t, last, musicianId, ensembleId);
        rows := rows + [TrackRow(last + |rows| + 1, t.name, t.duration, musicianId, ensembleId)];
      }
    }
    assert reqs[..|reqs|] == reqs;
  }

  /**
   * The inserts of that loop: the collected rows are stored after the
   * existing tracks and the track sequence advances past them.
   */
  method InsertTracks(db: Store, reqs: seq<TrackRequest>, musicianId: Option<int>, ensembleId: Option<int>)
    requires db.Valid()
    requires musicianId.Some? != ensembleId.Some?
    requires musicianId.Some? ==> musicianId.value in KeySet(db.musicians, MusicianIdOf)
    requires ensembleId.Some? ==> ensembleId.value in KeySet(db.ensembles, EnsembleIdOf)
    modifies db`tracks, db`issued
    ensures db.Valid()
    ensures db.tracks == old(db.tracks) + TrackRows(Kept(reqs), old(db.issued.track), musicianId, ensembleId)
    ensures db.issued == old(db.issued).(track := old(db.issued.track) + |Kept(reqs)|)
  {
    var rows := CollectTrackRows(reqs, db.issued.track, musicianId, ensembleId);
    var before := db.Snapshot();
    InsertTrackRowsKeepInvariants(before, db.issued, Kept(reqs), musicianId, ensembleId);
    db.tracks := db.tracks + rows;
    db.issued := db.issued.(track := db.issued.track + |rows|);
    assert db.Snapshot() == before.(tracks := db.tracks);
  }

  // ---------------------------------------------------------------------
  // AddMusician and AddEnsemble

  /**
   * `AddMusicianHandler`: both names are required; an ensemble id that names
   * no ensemble makes the insert fail; otherwise the musician gets the next
   * id and each qualifying track request becomes one of their tracks.
   */
  method AddMusician(db: Store, first: string, last: string, role: string, ensembleId: Option<int>, reqs: seq<TrackRequest>)
    returns (res: Result<int>)
    requires db.Valid()
    modifies db`musicians, db`tracks, db`issued
    ensures db.Valid()
    ensures first == "" || last == "" ==> res == Err(BadRequest)
    ensures first != "" && last != "" && ensembleId.Some? && ensembleId.value !in KeySet(db.ensembles, EnsembleIdOf) ==>
      res == Err(StorageError)
    ensures first != "" && last != "" && (ensembleId.Some? ==> ensembleId.value in KeySet(db.ensembles, EnsembleIdOf)) ==>
      res.Ok?
    ensures res.Err? ==>
      db.musicians == old(db.musicians) && db.tracks == old(db.tracks) && db.issued == old(db.issued)
    ensures res.Ok? ==>
      && res.value == old(db.issued.musician) + 1
      && db.musicians == old(db.musicians) + [Musician(res.value, first, last, role, ensembleId)]
      && db.tracks == old(db.tracks) + TrackRows(Kept(reqs), old(db.issued.track), Some(res.value), None)
      && db.issued == old(db.issued).(musician := res.value, track := old(db.issued.track) + |Kept(reqs)|)
  {
    if first == "" || last == "" {
      return Err(BadRequest);
    }
    if ensembleId.Some? && Find(db.ensembles, EnsembleIdOf, ensembleId.value).None? {
      return Err(StorageError);
    }
    var m := Musician(db.issued.musician + 1, first, last, role, ensembleId);
    var before := db.Snapshot();
    InsertMusicianKeepsInvariants(before, db.issued, m);
    db.musicians := db.musicians + [m];
    db.issued := db.issued.(musician := m.id);
    assert db.Snapshot() == before.(musicians := db.musicians);
    assert m in db.musicians;
    InsertTracks(db, reqs, Some(m.id), None);
    res := Ok(m.id);
  }

  /**
   * `AddEnsembleHandler`: a name is required and must not be taken (the
   * UNIQUE constraint, reported as a conflict); otherwise the ensemble gets
   * the next id and each qualifying track request becomes one of its tracks.
   */
  method AddEnsemble(db: Store, name: string, kind: string, reqs: seq<TrackRequest>) returns (res: Result<int>)
    requires db.Valid()
    modifies db`ensembles, db`tracks, db`issued
    ensures db.Valid()
    ensures name == "" ==> res == Err(BadRequest)
    ensures name != "" && name in KeySet(old(db.ensembles), EnsembleNameOf) ==> res == Err(Conflict)
    ensures name != "" && name !in KeySet(old(db.ensembles), EnsembleNameOf) ==> res.Ok?
    ensures res.Err? ==>
      db.ensembles == old(db.ensembles) && db.tracks == old(db.tracks) && db.issued == old(db.issued)
    ensures res.Ok? ==>
      && res.value == old(db.issued.ensemble) + 1
      && db.ensembles == old(db.ensembles) + [Ensemble(res.value, name, kind)]
      && db.tracks == old(db.tracks) + TrackRows(Kept(reqs), old(db.issued.track), None, Some(res.value))
      && db.issued == old(db.issued).(ensemble := res.value, track := old(db.issued.track) + |Kept(reqs)|)
  {
    if name == "" {
      return Err(BadRequest);
    }
    if Find(db.ensembles, EnsembleNameOf, name).Some? {
      return Err(Conflict);
    }
    var e := Ensemble(db.issued.ensemble + 1, name, kind);
    var before := db.Snapshot();
    InsertEnsembleKeepsInvariants(before, db.issued, e);
    db.ensembles := db.ensembles + [e];
    db.issued := db.issued.(ensemble := e.id);
    assert db.Snapshot() == before.(ensembles := db.ensembles);
    assert e in db.ensembles;
    InsertTracks(db, reqs, None, Some(e.id));
    res := Ok(e.id);
  }

  // ---------------------------------------------------------------------
  // AddRecord

  /** The body of an add-record request. */
  datatype RecordRequest = RecordRequest(
    title: string,
    recordLabel: string,
    wholesaleAddress: string,
    wholesalePrice: real,
    retailPrice: real,
    releaseDate: string,
    stock: int,
    trackIds: seq<int>)

  /**
   * The requested track ids that get linked: those naming an existing track
   * (one of `existing`), each once, in the order of their first request.
   */
  function LinkableIds(ids: seq<int>, existing: set<int>): (r: seq<int>)
    ensures NoDup(r)
    ensures forall x :: x in r <==> x in ids && x in existing
  {
    if ids == [] then []
    else
      var p := LinkableIds(ids[..|ids| - 1], existing);
      var x := ids[|ids| - 1];
      assert ids == ids[..|ids| - 1] + [x];
      if x in existing && x !in p then p + [x] else p
  }

  /** Membership in `existing`, as a filter condition. */
  function InSet(existing: set<int>): int -> bool {
    (x: int) => x in existing
  }

  /** `LinkableIds` is the first-seen distinct list of the existing ids among those requested. */
  lemma {:induction false} LinkableIdsAreDistinctExisting(ids: seq<int>, existing: set<int>)
    ensures LinkableIds(ids, existing) == Distinct(Filter(ids, InSet(existing)))
  {
    if ids != [] {
      var p := ids[..|ids| - 1];
      var x := ids[|ids| - 1];
      var keep := InSet(existing);
      assert ids == p + [x];
      LinkableIdsAreDistinctExisting(p, existing);
      LinkableIdsSnoc(p, x, existing);
      FilterSnoc(p, x, keep);
      var fp := Filter(p, keep);
      var lp := LinkableIds(p, existing);
      assert lp == Distinct(fp);
      assert keep(x) <==> x in existing;
      if keep(x) {
        DistinctSnoc(fp, x);
        assert Filter(ids, keep) == fp + [x];
        assert LinkableIds(ids, existing) == if x !in lp then lp + [x] else lp;
      } else {
        assert Filter(ids, keep) == fp;
        assert LinkableIds(ids, existing) == lp;
      }
    }
  }

  /** One more requested id at the end is linked exactly when it names a track and is new. */
  lemma LinkableIdsSnoc(p: seq<int>, x: int, existing: set<int>)
    ensures LinkableIds(p + [x], existing) ==
      if x in existing && x !in LinkableIds(p, existing) then LinkableIds(p, existing) + [x] else LinkableIds(p, existing)
  {
    var t := p + [x];
    assert t[..|t| - 1] == p;
  }

  /** The link rows inserted for record `rid`, one per id, in order. */
  function LinksFor(rid: int, ids: seq<int>): seq<Link> {
    seq(|ids|, i requires 0 <= i < |ids| => Link(rid, ids[i]))
  }

  lemma LinksForAppend(rid: int, ids: seq<int>, x: int)
    ensures LinksFor(rid, ids + [x]) == LinksFor(rid, ids) + [Link(rid, x)]
  {
    var k := ids + [x];
    assert forall i :: 0 <= i < |ids| ==> k[i] == ids[i];
  }

  lemma LinksForHas(rid: int, ids: seq<int>, x: int)
    ensures Link(rid, x) in LinksFor(rid, ids) <==> x in ids
  {
    if x in ids {
      var i :| 0 <= i < |ids| && ids[i] == x;
      assert LinksFor(rid, ids)[i] == Link(rid, x);
    }
  }

  /** One more requested id considered: it is linked exactly when it names a track and is not linked yet. */
  lemma LinkableStep(ids: seq<int>, i: nat, existing: set<int>)
    requires i < |ids|
    ensures var done := LinkableIds(ids[..i], existing);
      LinkableIds(ids[..i + 1], existing) ==
        done + (if ids[i] in existing && ids[i] !in done then [ids[i]] else [])
  {
    assert ids[..i + 1] == ids[..i] + [ids[i]];
    LinkableIdsSnoc(ids[..i], ids[i], existing);
  }

  /** For a record that had no links, the links it has now are those made for `done`. */
  lemma LinkedSoFar(base: seq<Link>, rid: int, done: seq<int>, tid: int)
    requires forall l :: l in base ==> l.recordId != rid
    ensures (rid, tid) in KeySet(base + LinksFor(rid, done), LinkKey) <==> tid in done
  {
    var all := base + LinksFor(rid, done);
    LinksForHas(rid, done, tid);
    if tid in done {
      assert Link(rid, tid) in all;
    }
    if (rid, tid) in KeySet(all, LinkKey) {
      var l :| l in all && LinkKey(l) == (rid, tid);
      assert l !in base;
      assert l == Link(rid, tid);
    }
  }

  /**
   * One pass of the link loop of `AddRecordHandler`: the id is linked when
   * it names a track and the link is not there yet; otherwise it is skipped.
   */
  method LinkOne(db: Store, rid: int, tid: int)
    requires db.Valid()
    requires rid in KeySet(db.records, RecordIdOf)
    modifies db`recordTracks
    ensures db.Valid()
    ensures db.recordTracks == old(db.recordTracks) +
      (if tid in KeySet(db.tracks, TrackIdOf) && (rid, tid) !in KeySet(old(db.recordTracks), LinkKey)
       then [Link(rid, tid)] else [])
  {
    if Find(db.tracks, TrackIdOf, tid).Some? && Find(db.recordTracks, LinkKey, (rid, tid)).None? {
      var l := Link(rid, tid);
      var snap := db.Snapshot();
      InsertLinkKeepsInvariants(snap, db.issued, l);
      db.SetRecordTracks(db.recordTracks + [l]);
    }
  }

  /**
   * The link loop of `AddRecordHandler` for a record with no links yet: each
   * id naming an existing track is linked, unless the same link was just
   * made (the composite key rejects it and the handler skips it).
   */
  method LinkTracks(db: Store, rid: int, ids: seq<int>)
    requires db.Valid()
    requires rid in KeySet(db.records, RecordIdOf)
    requires forall l :: l in db.recordTracks ==> l.recordId != rid
    modifies db`recordTracks
    ensures db.Valid()
    ensures db.recordTracks == old(db.recordTracks) + LinksFor(rid, LinkableIds(ids, KeySet(db.tracks, TrackIdOf)))
  {
    ghost var base := db.recordTracks;
    ghost var existing := KeySet(db.tracks, TrackIdOf);
    assert ids[..0] == [];
    for i := 0 to |ids|
      invariant db.Valid()
      invariant db.recordTracks == base + LinksFor(rid, LinkableIds(ids[..i], existing))
    {
      LinkLoopStep(base, rid, ids, i, existing);
      LinkOne(db, rid, ids[i]);
    }
    assert ids[..|ids|] == ids;
  }

  /**
   * One pass of the link loop, on the link table alone: the links made for
   * one more requested id are those made before plus the one `LinkOne` adds.
   */
  lemma LinkLoopStep(base: seq<Link>, rid: int, ids: seq<int>, i: nat, existing: set<int>)
    requires i < |ids|
    requires forall l :: l in base ==> l.recordId != rid
    ensures var now := base + LinksFor(rid, LinkableIds(ids[..i], existing));
      base + LinksFor(rid, LinkableIds(ids[..i + 1], existing)) ==
        now + (if ids[i] in existing && (rid, ids[i]) !in KeySet(now, LinkKey) then [Link(rid, ids[i])] else [])
  {
    var done := LinkableIds(ids[..i], existing);
    LinkableStep(ids, i, existing);
    LinkedSoFar(base, rid, done, ids[i]);
    LinksForAppend(rid, done, ids[i]);
  }

  /**
   * `AddRecordHandler`: a title is required and the stock must not be
   * negative; the record gets the next id with no sales; then each
   * requested track id is linked, skipping ids with no track and ids
   * already linked.
   */
  method AddRecord(db: Store, req: RecordRequest) returns (res: Result<int>)
    requires db.Valid()
    modifies db`records, db`recordTracks, db`issued
    ensures db.Valid()
    ensures req.title == "" || req.stock < 0 ==> res == Err(BadRequest)
    ensures req.title != "" && req.stock >= 0 ==> res.Ok?
    ensures res.Err? ==>
      db.records == old(db.records) && db.recordTracks == old(db.recordTracks) && db.issued == old(db.issued)
    ensures res.Ok? ==>
      && res.value == old(db.issued.record) + 1
      && db.records == old(db.records) + [RecordRow(res.value, req.title, req.recordLabel, req.wholesaleAddress,
           req.wholesalePrice, req.retailPrice, req.releaseDate, 0, 0, req.stock)]
      && db.recordTracks == old(db.recordTracks) + LinksFor(res.value, LinkableIds(req.trackIds, KeySet(db.tracks, TrackIdOf)))
      && db.issued == old(db.issued).(record := res.value)
  {
    if req.title == "" {
      return Err(BadRequest);
    }
    if req.stock < 0 {
      return Err(BadRequest);
    }
    var rid := db.issued.record + 1;
    var rec := RecordRow(rid, req.title, req.recordLabel, req.wholesaleAddress,
      req.wholesalePrice, req.retailPrice, req.releaseDate, 0, 0, req.stock);
    var before := db.Snapshot();
    InsertRecordKeepsInvariants(before, db.issued, rec);
    // no existing link names the new record: every linked record id was issued before
    forall l | l in db.recordTracks ensures l.recordId != rid {
      assert l.recordId in KeySet(db.records, RecordIdOf);
    }
    db.records := db.records + [rec];
    db.issued := db.issued.(record := rid);
    assert db.Snapshot() == before.(records := db.records);
    assert rec in db.records;
    LinkTracks(db, rid, req.trackIds);
    res := Ok(rid);
  }
}
