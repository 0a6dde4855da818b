/**
 * The join-and-assemble pipeline behind every record listing: take an ordered
 * list of records, fetch the `record_tracks` rows of those records, group the
 * linked track ids by record while collecting the distinct track ids, fetch
 * and name those tracks into a map, and give each record the tracks its links
 * name, in link order. The queries are functions of the tables; the loops the
 * handlers run over their results are methods.
 */
module Catalog {

  import opened Rows
  import opened Models
  import opened Schema
  import opened Names

  // ---------------------------------------------------------------------
  // The queries

  /** The ids of a list of records, as the IN-list of the next query. */
  function IdsOf(recs: seq<RecordRow>): (ids: set<int>)
    ensures forall r :: r in recs ==> r.id in ids
    ensures forall k :: k in ids ==> exists r :: r in recs && r.id == k
  {
    set r | r in recs :: r.id
  }

  /** `SELECT record_id, track_id FROM record_tracks WHERE record_id IN (...)`, in table order. */
  function FetchLinks(links: seq<Link>, recordIds: set<int>): (r: seq<Link>)
    ensures forall l :: l in r <==> l in links && l.recordId in recordIds
  {
    Filter(links, (l: Link) => l.recordId in recordIds)
  }

  /** The track ids that the link rows give record `rid`, in row order. */
  function LinkedTrackIds(links: seq<Link>, rid: int): (r: seq<int>)
    ensures |r| <= |links|
    ensures forall x :: x in r <==> Link(rid, x) in links
  {
    if links == [] then []
    else
      var p := links[..|links| - 1];
      var l := links[|links| - 1];
      assert links == p + [l];
      LinkedTrackIds(p, rid) + (if l.recordId == rid then [l.trackId] else [])
  }

  /** The track id column of the link rows. */
  function TrackIdColumn(links: seq<Link>): (r: seq<int>)
    ensures |r| == |links|
    ensures forall i :: 0 <= i < |links| ==> r[i] == links[i].trackId
  {
    seq(|links|, i requires 0 <= i < |links| => links[i].trackId)
  }

  /**
   * One row of the tracks query: the track LEFT JOINed with its musician and
   * its ensemble (the first row with that id; ids are keys).
   */
  function JoinTrack(db: Tables, t: TrackRow): (row: TrackJoinRow)
    ensures row.track == t
    ensures row.musicianFirstName.Some? <==> row.musicianLastName.Some?
    ensures row.musicianFirstName.Some? <==>
      t.musicianId.Some? && t.musicianId.value in KeySet(db.musicians, MusicianIdOf)
    ensures row.ensembleName.Some? <==>
      t.ensembleId.Some? && t.ensembleId.value in KeySet(db.ensembles, EnsembleIdOf)
  {
    var m := if t.musicianId.Some? then Find(db.musicians, MusicianIdOf, t.musicianId.value) else None;
    var e := if t.ensembleId.Some? then Find(db.ensembles, EnsembleIdOf, t.ensembleId.value) else None;
    TrackJoinRow(
      t,
      if m.Some? then Some(m.value.firstName) else None,
      if m.Some? then Some(m.value.lastName) else None,
      if e.Some? then Some(e.value.name) else None)
  }

  function JoinAll(db: Tables, ts: seq<TrackRow>): (rows: seq<TrackJoinRow>)
    ensures |rows| == |ts|
    ensures forall i :: 0 <= i < |ts| ==> rows[i] == JoinTrack(db, ts[i])
  {
    seq(|ts|, i requires 0 <= i < |ts| => JoinTrack(db, ts[i]))
  }

  /** The tracks whose id is requested, in table order. */
  function TracksIn(tracks: seq<TrackRow>, ids: set<int>): (r: seq<TrackRow>)
    ensures forall t :: t in r <==> t in tracks && t.id in ids
    ensures ids == {} ==> r == []
  {
    var keep := (t: TrackRow) => t.id in ids;
    if ids == {} then FilterNone(tracks, keep); Filter(tracks, keep) else Filter(tracks, keep)
  }

  /** `SELECT ... FROM records WHERE id IN (...)`: the requested records, in table order. */
  function RecordsIn(records: seq<RecordRow>, ids: set<int>): (r: seq<RecordRow>)
    ensures forall x :: x in r <==> x in records && x.id in ids
    ensures ids == {} ==> r == []
  {
    var keep := (x: RecordRow) => x.id in ids;
    if ids == {} then FilterNone(records, keep); Filter(records, keep) else Filter(records, keep)
  }

  /** The tracks query with its two LEFT JOINs, restricted to the requested ids. */
  function FetchTracks(db: Tables, ids: set<int>): (rows: seq<TrackJoinRow>)
    ensures forall row :: row in rows ==>
      row.track in db.tracks && row.track.id in ids && row == JoinTrack(db, row.track)
  {
    var ts := TracksIn(db.tracks, ids);
    var rows := JoinAll(db, ts);
    assert forall row :: row in rows ==> exists i :: 0 <= i < |ts| && row == JoinTrack(db, ts[i]);
    rows
  }

  /** Every scanned row named by the display-name rule, in order. */
  function ResolveAll(rows: seq<TrackJoinRow>): (ts: seq<Track>)
    ensures |ts| == |rows|
    ensures forall i :: 0 <= i < |rows| ==> ts[i] == ResolveTrack(rows[i])
  {
    seq(|rows|, i requires 0 <= i < |rows| => ResolveTrack(rows[i]))
  }

  function TrackOutIdOf(t: Track): int { t.id }

  /** The track ids looked up in `tm`, in order; an id without a track is skipped. */
  function Attach(ids: seq<int>, tm: map<int, Track>): (r: seq<Track>)
    ensures |r| <= |ids|
    ensures forall t :: t in r ==> exists x :: x in ids && x in tm && tm[x] == t
    ensures (forall i :: 0 <= i < |ids| ==> ids[i] in tm) ==>
      |r| == |ids| && forall i :: 0 <= i < |ids| ==> r[i] == tm[ids[i]]
  {
    if ids == [] then []
    else
      var p := ids[..|ids| - 1];
      var x := ids[|ids| - 1];
      assert ids == p + [x];
      Attach(p, tm) + (if x in tm then [tm[x]] else [])
  }

  /** The link list the grouping map holds for a record; no entry means no links. */
  function Linked(byRecord: map<int, seq<int>>, rid: int): seq<int> {
    if rid in byRecord then byRecord[rid] else []
  }

  // ---------------------------------------------------------------------
  // The reference: what a record shows, track by track

  /** A track as every listing shows it. */
  function ViewTrack(db: Tables, t: TrackRow): Track {
    ResolveTrack(JoinTrack(db, t))
  }

  /** The linked track ids looked up one at a time in `tracks`; a dangling id is skipped. */
  function ResolveLinks(ids: seq<int>, db: Tables): (r: seq<Track>)
    ensures |r| <= |ids|
  {
    if ids == [] then []
    else
      var p := ids[..|ids| - 1];
      var x := ids[|ids| - 1];
      var f := Find(db.tracks, TrackIdOf, x);
      ResolveLinks(p, db) + (if f.Some? then [ViewTrack(db, f.value)] else [])
  }

  /** A record as the listings show it: the row and its linked tracks, in link order. */
  function RecordView(rec: RecordRow, db: Tables): Record {
    Record(rec, Some(ResolveLinks(LinkedTrackIds(db.recordTracks, rec.id), db)))
  }

  // ---------------------------------------------------------------------
  // Why the pipeline computes the reference

  /** Restricting the links to a set of records keeps each requested record's links and their order. */
  lemma {:induction false} FetchLinksKeepsLinks(links: seq<Link>, ids: set<int>, rid: int)
    requires rid in ids
    ensures LinkedTrackIds(FetchLinks(links, ids), rid) == LinkedTrackIds(links, rid)
  {
    if links != [] {
      var p := links[..|links| - 1];
      var l := links[|links| - 1];
      assert links == p + [l];
      var keep := (k: Link) => k.recordId in ids;
      FilterAppend(p, [l], keep);
      FetchLinksKeepsLinks(p, ids, rid);
      var fp := FetchLinks(p, ids);
      assert Filter([l], keep) == if keep(l) then [l] else [];
      var f := FetchLinks(links, ids);
      if keep(l) {
        assert f == fp + [l];
        assert f[..|f| - 1] == fp;
      } else {
        assert f == fp;
      }
    }
  }

  /** The track map built from the fetched rows. */
  function FetchedTrackMap(db: Tables, ids: set<int>): map<int, Track> {
    IndexBy(ResolveAll(FetchTracks(db, ids)), TrackOutIdOf)
  }

  lemma FetchedIdsUnique(db: Tables, ids: set<int>)
    requires UniqueBy(db.tracks, TrackIdOf)
    ensures UniqueBy(ResolveAll(FetchTracks(db, ids)), TrackOutIdOf)
  {
    var ts := TracksIn(db.tracks, ids);
    FilterKeepsUnique(db.tracks, (t: TrackRow) => t.id in ids, TrackIdOf);
    var r := ResolveAll(FetchTracks(db, ids));
    forall i, j | 0 <= i < j < |r| ensures TrackOutIdOf(r[i]) != TrackOutIdOf(r[j]) {
      assert r[i].id == ts[i].id && r[j].id == ts[j].id;
    }
  }

  /**
   * For a requested id, the fetched map holds a track exactly when the
   * tracks table has one, and holds that track's view.
   */
  lemma FetchedTrackMapLookup(db: Tables, ids: set<int>, x: int)
    requires UniqueBy(db.tracks, TrackIdOf)
    requires x in ids
    ensures x in FetchedTrackMap(db, ids) <==> Find(db.tracks, TrackIdOf, x).Some?
    ensures x in FetchedTrackMap(db, ids) ==>
      FetchedTrackMap(db, ids)[x] == ViewTrack(db, Find(db.tracks, TrackIdOf, x).value)
  {
    var ts := TracksIn(db.tracks, ids);
    var r := ResolveAll(FetchTracks(db, ids));
    var tm := FetchedTrackMap(db, ids);
    FetchedIdsUnique(db, ids);
    var f := Find(db.tracks, TrackIdOf, x);
    if f.Some? {
      var t := f.value;
      assert t in ts;
      var i :| 0 <= i < |ts| && ts[i] == t;
      assert r[i] == ViewTrack(db, t) && r[i] in r;
      IndexByUnique(r, TrackOutIdOf, r[i]);
    } else {
      forall i | 0 <= i < |r| ensures TrackOutIdOf(r[i]) != x {
        assert r[i].id == ts[i].id && ts[i] in db.tracks;
      }
      assert x !in KeySet(r, TrackOutIdOf);
    }
  }

  /** Looking the linked ids up in the fetched map gives the reference track list. */
  lemma {:induction false} AttachIsResolveLinks(ids: seq<int>, db: Tables, req: set<int>)
    requires UniqueBy(db.tracks, TrackIdOf)
    requires forall x :: x in ids ==> x in req
    ensures Attach(ids, FetchedTrackMap(db, req)) == ResolveLinks(ids, db)
  {
    if ids != [] {
      var p := ids[..|ids| - 1];
      var x := ids[|ids| - 1];
      assert ids == p + [x];
      AttachIsResolveLinks(p, db, req);
      FetchedTrackMapLookup(db, req, x);
    }
  }

  /** Every linked id of a requested record is among the collected track ids. */
  lemma LinkedIdsCollected(links: seq<Link>, rid: int)
    ensures forall x :: x in LinkedTrackIds(links, rid) ==> x in Distinct(TrackIdColumn(links))
  {
    forall x | x in LinkedTrackIds(links, rid) ensures x in Distinct(TrackIdColumn(links)) {
      var i :| 0 <= i < |links| && links[i] == Link(rid, x);
      assert TrackIdColumn(links)[i] == x;
    }
  }

  /**
   * Under the track key, each record the pipeline assembles is its
   * reference view: the links of the record in row order, each resolved
   * through the tracks table, dangling ones skipped.
   */
  lemma PipelineIsRecordView(ids: set<int>, db: Tables, rec: RecordRow)
    requires UniqueBy(db.tracks, TrackIdOf)
    requires rec.id in ids
    ensures
      var links := FetchLinks(db.recordTracks, ids);
      var tm := FetchedTrackMap(db, set x | x in Distinct(TrackIdColumn(links)));
      Record(rec, Some(Attach(LinkedTrackIds(links, rec.id), tm))) == RecordView(rec, db)
  {
    var links := FetchLinks(db.recordTracks, ids);
    var req := set x | x in Distinct(TrackIdColumn(links));
    FetchLinksKeepsLinks(db.recordTracks, ids, rec.id);
    LinkedIdsCollected(links, rec.id);
    AttachIsResolveLinks(LinkedTrackIds(links, rec.id), db, req);
  }

  /**
   * With every constraint in force no link dangles, so a record shows one
   * track per link row, in link order, each the track that row names.
   */
  lemma {:induction false} EveryLinkResolves(ids: seq<int>, db: Tables)
    requires forall x :: x in ids ==> x in KeySet(db.tracks, TrackIdOf)
    ensures |ResolveLinks(ids, db)| == |ids|
    ensures forall i :: 0 <= i < |ids| ==> ResolveLinks(ids, db)[i].id == ids[i]
  {
    if ids != [] {
      var p := ids[..|ids| - 1];
      var x := ids[|ids| - 1];
      assert ids == p + [x];
      EveryLinkResolves(p, db);
    }
  }

  lemma RecordViewShowsEveryLink(rec: RecordRow, db: Tables)
    requires WellFormed(db)
    ensures |RecordView(rec, db).tracks.value| == |LinkedTrackIds(db.recordTracks, rec.id)|
  {
    var ids := LinkedTrackIds(db.recordTracks, rec.id);
    forall x | x in ids ensures x in KeySet(db.tracks, TrackIdOf) {
      assert Link(rec.id, x) in db.recordTracks;
    }
    EveryLinkResolves(ids, db);
  }

  /**
   * With every constraint in force the join always finds the owner, so a
   * track never shows a fallback name: a musician's track shows that
   * musician's name parts, an ensemble's track that ensemble's name.
   */
  lemma ViewTrackNamesOwner(db: Tables, t: TrackRow)
    requires WellFormed(db)
    requires t in db.tracks
    ensures t.musicianId.Some? ==>
      exists m :: m in db.musicians && m.id == t.musicianId.value &&
        ViewTrack(db, t).musicianName == MusicianName(Some(m.firstName), Some(m.lastName))
    ensures t.ensembleId.Some? ==>
      exists e :: e in db.ensembles && e.id == t.ensembleId.value &&
        ViewTrack(db, t).ensembleName == e.name
    ensures t.musicianId.Some? != t.ensembleId.Some?
  {
    if t.musicianId.Some? {
      var m := Find(db.musicians, MusicianIdOf, t.musicianId.value).value;
      assert m in db.musicians;
    }
    if t.ensembleId.Some? {
      var e := Find(db.ensembles, EnsembleIdOf, t.ensembleId.value).value;
      assert e in db.ensembles;
    }
  }

  // ---------------------------------------------------------------------
  // The loops

  /** One more link row: its record's list in the grouping map grows by its track id. */
  lemma GroupStep(links: seq<Link>, i: nat, byRecord: map<int, seq<int>>, next: map<int, seq<int>>)
    requires i < |links|
    requires forall r :: Linked(byRecord, r) == LinkedTrackIds(links[..i], r)
    requires next == byRecord[links[i].recordId := Linked(byRecord, links[i].recordId) + [links[i].trackId]]
    ensures forall r :: Linked(next, r) == LinkedTrackIds(links[..i + 1], r)
  {
    assert links[..i + 1][..i] == links[..i];
  }

  /** One more link row: its track id is collected if it is new. */
  lemma CollectStep(links: seq<Link>, i: nat)
    requires i < |links|
    ensures var d := Distinct(TrackIdColumn(links[..i]));
      Distinct(TrackIdColumn(links[..i + 1])) == if links[i].trackId in d then d else d + [links[i].trackId]
  {
    assert links[..i + 1][..i] == links[..i];
    var c := TrackIdColumn(links[..i + 1]);
    assert c[..i] == TrackIdColumn(links[..i]) && c[i] == links[i].trackId;
  }

  /**
   * Step 2: group the link rows by record (`recordTrackLinks`) and collect the
   * distinct track ids in first-seen order (`trackIDs` with `trackIDSet`).
   */
  method CollectLinks(links: seq<Link>) returns (byRecord: map<int, seq<int>>, trackIds: seq<int>)
    ensures forall r :: Linked(byRecord, r) == LinkedTrackIds(links, r)
    ensures trackIds == Distinct(TrackIdColumn(links))
  {
    byRecord := map[];
    trackIds := [];
    var seen: set<int> := {};
    for i := 0 to |links|
      invariant forall r :: Linked(byRecord, r) == LinkedTrackIds(links[..i], r)
      invariant trackIds == Distinct(TrackIdColumn(links[..i]))
      invariant forall x :: x in seen <==> x in trackIds
    {
      var l := links[i];
      var next := byRecord[l.recordId := Linked(byRecord, l.recordId) + [l.trackId]];
      GroupStep(links, i, byRecord, next);
      CollectStep(links, i);
      byRecord := next;
      if l.trackId !in seen {
        trackIds := trackIds + [l.trackId];
        seen := seen + {l.trackId};
      }
    }
    assert links[..|links|] == links;
  }

  /** Step 3: name every fetched track row and index it by id (`tracksMap`). */
  method BuildTrackMap(rows: seq<TrackJoinRow>) returns (tm: map<int, Track>)
    ensures tm == IndexBy(ResolveAll(rows), TrackOutIdOf)
  {
    tm := map[];
    for i := 0 to |rows|
      invariant tm == IndexBy(ResolveAll(rows[..i]), TrackOutIdOf)
    {
      var t := ResolveTrack(rows[i]);
      var done := ResolveAll(rows[..i + 1]);
      assert done[..i] == ResolveAll(rows[..i]) && done[i] == t;
      tm := tm[t.id := t];
    }
    assert rows[..|rows|] == rows;
  }

  /**
   * Step 4: each record gets a fresh track list, its linked ids looked up in
   * the track map in link order, ids without a track skipped.
   */
  method AttachTracks(records: seq<Record>, byRecord: map<int, seq<int>>, tm: map<int, Track>)
    returns (out: seq<Record>)
    ensures |out| == |records|
    ensures forall i :: 0 <= i < |records| ==>
      out[i] == Record(records[i].row, Some(Attach(Linked(byRecord, records[i].row.id), tm)))
  {
    out := records;
    for i := 0 to |records|
      invariant |out| == |records|
      invariant forall j :: 0 <= j < i ==>
        out[j] == Record(records[j].row, Some(Attach(Linked(byRecord, records[j].row.id), tm)))
      invariant forall j :: i <= j < |records| ==> out[j] == records[j]
    {
      var ts := LinkedTracks(Linked(byRecord, out[i].row.id), tm);
      out := out[i := out[i].(tracks := Some(ts))];
    }
  }

  /** The inner loop of step 4: a fresh list, one track per linked id found in the map. */
  method LinkedTracks(linked: seq<int>, tm: map<int, Track>) returns (ts: seq<Track>)
    ensures ts == Attach(linked, tm)
  {
    ts := [];
    for k := 0 to |linked|
      invariant ts == Attach(linked[..k], tm)
    {
      assert linked[..k + 1][..k] == linked[..k];
      if linked[k] in tm {
        ts := ts + [tm[linked[k]]];
      }
    }
    assert linked[..|linked|] == linked;
  }

  /**
   * Steps 3 and 4 of every listing: the fetched links grouped by record,
   * and the tracks they name fetched into a map by id (no query, and an
   * empty map, when there are no links).
   */
  method GroupAndFetch(links: seq<Link>, db: Tables) returns (byRecord: map<int, seq<int>>, tm: map<int, Track>)
    ensures forall r :: Linked(byRecord, r) == LinkedTrackIds(links, r)
    ensures tm == FetchedTrackMap(db, set x | x in Distinct(TrackIdColumn(links)))
  {
    var trackIds;
    byRecord, trackIds := CollectLinks(links);
    var req := set x | x in trackIds;
    tm := map[];
    if |trackIds| > 0 {
      tm := BuildTrackMap(FetchTracks(db, req));
    } else {
      assert req == {};
    }
  }

  /**
   * The whole pipeline for one list of records: every record is kept, in
   * order, with a non-nil track list; under the track key each is its
   * reference view.
   */
  method Assemble(recs: seq<RecordRow>, db: Tables) returns (out: seq<Record>)
    ensures |out| == |recs|
    ensures forall i :: 0 <= i < |recs| ==> out[i].row == recs[i] && out[i].tracks.Some?
    ensures UniqueBy(db.tracks, TrackIdOf) ==>
      forall i :: 0 <= i < |recs| ==> out[i] == RecordView(recs[i], db)
  {
    var records := seq(|recs|, i requires 0 <= i < |recs| => Record(recs[i], None));
    if |records| == 0 {
      return [];
    }
    var byRecord, tm := GroupAndFetch(FetchLinks(db.recordTracks, IdsOf(recs)), db);
    out := AttachTracks(records, byRecord, tm);
    if UniqueBy(db.tracks, TrackIdOf) {
      forall i | 0 <= i < |recs| ensures out[i] == RecordView(recs[i], db) {
        assert records[i].row == recs[i];
        PipelineIsRecordView(IdsOf(recs), db, recs[i]);
      }
    }
  }

  // ---------------------------------------------------------------------
  // The listings

  /** `GetRecordsHandler`: every record of the table, in table order, assembled. */
  method GetRecords(db: Tables) returns (out: seq<Record>)
    ensures |out| == |db.records|
    ensures forall i :: 0 <= i < |out| ==> out[i].row == db.records[i] && out[i].tracks.Some?
    ensures UniqueBy(db.tracks, TrackIdOf) ==>
      forall i :: 0 <= i < |out| ==> out[i] == RecordView(db.records[i], db)
  {
    out := Assemble(db.records, db);
  }

  /** `ORDER BY sold_current_year DESC`: non-increasing current-year sales. */
  predicate BySalesDesc(s: seq<RecordRow>) {
    forall i, j :: 0 <= i < j < |s| ==> s[i].soldCurrentYear >= s[j].soldCurrentYear
  }

  /**
   * `GetBestSellersHandler`: the records as the engine orders them (a
   * reordering of the table sorted by current-year sales; ties in any order),
   * assembled.
   */
  method GetBestSellers(db: Tables, ordered: seq<RecordRow>) returns (out: seq<Record>)
    requires multiset(ordered) == multiset(db.records) && BySalesDesc(ordered)
    ensures |out| == |ordered| == |db.records|
    ensures multiset(seq(|out|, i requires 0 <= i < |out| => out[i].row)) == multiset(db.records)
    ensures forall i, j :: 0 <= i < j < |out| ==> out[i].row.soldCurrentYear >= out[j].row.soldCurrentYear
    ensures UniqueBy(db.tracks, TrackIdOf) ==>
      forall i :: 0 <= i < |out| ==> out[i] == RecordView(ordered[i], db)
  {
    out := Assemble(ordered, db);
    assert |ordered| == |db.records| by {
      assert |multiset(ordered)| == |multiset(db.records)|;
    }
    assert seq(|out|, i requires 0 <= i < |out| => out[i].row) == ordered;
  }

  /** The tracks of the table that belong to ensemble `eid`, in table order. */
  function EnsembleTrackIds(tracks: seq<TrackRow>, eid: int): (r: set<int>)
    ensures forall x :: x in r <==> exists t :: t in tracks && t.id == x && t.ensembleId == Some(eid)
  {
    set t | t in tracks && t.ensembleId == Some(eid) :: t.id
  }

  /** The records that hold a track of ensemble `eid`, in table order. */
  function EnsembleRecords(db: Tables, eid: int): (r: seq<RecordRow>)
    ensures forall x :: x in r <==>
      (x in db.records &&
       exists l :: l in db.recordTracks && l.recordId == x.id && l.trackId in EnsembleTrackIds(db.tracks, eid))
  {
    RecordsIn(db.records, LinkedRecordIds(db.recordTracks, EnsembleTrackIds(db.tracks, eid)))
  }

  /** The records that the link rows tie to one of the tracks `owned`. */
  function LinkedRecordIds(links: seq<Link>, owned: set<int>): (r: set<int>)
    ensures forall x :: x in r <==> exists l :: l in links && l.recordId == x && l.trackId in owned
  {
    set l | l in links && l.trackId in owned :: l.recordId
  }

  /** Step 1 of `GetRecordsByEnsembleHandler`: `SELECT id FROM tracks WHERE ensemble_id = ?`. */
  method SelectEnsembleTrackIds(tracks: seq<TrackRow>, eid: int) returns (trackIds: seq<int>)
    ensures forall x :: x in trackIds <==> x in EnsembleTrackIds(tracks, eid)
  {
    trackIds := [];
    for i := 0 to |tracks|
      invariant forall x :: x in trackIds <==>
        exists j :: 0 <= j < i && tracks[j].id == x && tracks[j].ensembleId == Some(eid)
    {
      if tracks[i].ensembleId == Some(eid) {
        trackIds := trackIds + [tracks[i].id];
      }
    }
    forall x | x in EnsembleTrackIds(tracks, eid) ensures x in trackIds {
      var t :| t in tracks && t.id == x && t.ensembleId == Some(eid);
      var j :| 0 <= j < |tracks| && tracks[j] == t;
    }
  }

  /**
   * Step 2 of `GetRecordsByEnsembleHandler`: `SELECT DISTINCT record_id FROM
   * record_tracks WHERE track_id IN (...)`, each record once.
   */
  method SelectLinkedRecordIds(links: seq<Link>, owned: set<int>) returns (recordIds: seq<int>)
    ensures forall r :: r in recordIds <==> r in LinkedRecordIds(links, owned)
    ensures NoDup(recordIds)
  {
    recordIds := [];
    var seen: set<int> := {};
    for i := 0 to |links|
      invariant forall r :: r in recordIds <==>
        exists j :: 0 <= j < i && links[j].recordId == r && links[j].trackId in owned
      invariant forall r :: r in seen <==> r in recordIds
      invariant NoDup(recordIds)
    {
      var l := links[i];
      if l.trackId in owned && l.recordId !in seen {
        recordIds := recordIds + [l.recordId];
        seen := seen + {l.recordId};
      }
    }
    forall r | r in recordIds ensures r in LinkedRecordIds(links, owned) {
      var j :| 0 <= j < |links| && links[j].recordId == r && links[j].trackId in owned;
      assert links[j] in links;
    }
    forall r | r in LinkedRecordIds(links, owned) ensures r in recordIds {
      var l :| l in links && l.trackId in owned && l.recordId == r;
      var j :| 0 <= j < |links| && links[j] == l;
    }
  }

  /**
   * `GetRecordsByEnsembleHandler`: the id must be positive and name an
   * ensemble; then the ensemble's tracks, the distinct records linking them,
   * those records in table order, assembled.
   */
  method GetRecordsByEnsemble(db: Tables, eid: int) returns (res: Result<seq<Record>>)
    ensures eid <= 0 ==> res == Err(BadRequest)
    ensures eid > 0 && eid !in KeySet(db.ensembles, EnsembleIdOf) ==> res == Err(EnsembleNotFound)
    ensures eid > 0 && eid in KeySet(db.ensembles, EnsembleIdOf) ==> res.Ok?
    ensures res.Ok? ==> |res.value| == |EnsembleRecords(db, eid)|
    ensures res.Ok? ==> forall i :: 0 <= i < |res.value| ==>
      res.value[i].row == EnsembleRecords(db, eid)[i] && res.value[i].tracks.Some?
    ensures res.Ok? && UniqueBy(db.tracks, TrackIdOf) ==> forall i :: 0 <= i < |res.value| ==>
      res.value[i] == RecordView(EnsembleRecords(db, eid)[i], db)
  {
    if eid <= 0 {
      return Err(BadRequest);
    }
    if Find(db.ensembles, EnsembleIdOf, eid).None? {
      return Err(EnsembleNotFound);
    }
    var trackIds := SelectEnsembleTrackIds(db.tracks, eid);
    var owned := set x | x in trackIds;
    assert owned == EnsembleTrackIds(db.tracks, eid);
    if |trackIds| == 0 {
      assert owned == {};
      assert LinkedRecordIds(db.recordTracks, owned) == {};
      return Ok([]);
    }
    var recordIds := SelectLinkedRecordIds(db.recordTracks, owned);
    var rids := set r | r in recordIds;
    assert rids == LinkedRecordIds(db.recordTracks, owned);
    var recs := RecordsIn(db.records, rids);
    if |recordIds| == 0 {
      assert rids == {};
      return Ok([]);
    }
    // 3. the records in table order, and the shared assembly
    var out := Assemble(recs, db);
    res := Ok(out);
  }

  /** `GetAllTracksHandler`: every track of the table, in table order, named. */
  method GetAllTracks(db: Tables) returns (out: seq<Track>)
    ensures |out| == |db.tracks|
    ensures forall i :: 0 <= i < |out| ==> out[i] == ViewTrack(db, db.tracks[i])
  {
    var rows := JoinAll(db, db.tracks);
    out := [];
    for i := 0 to |rows|
      invariant |out| == i
      invariant forall j :: 0 <= j < i ==> out[j] == ViewTrack(db, db.tracks[j])
    {
      out := out + [ResolveTrack(rows[i])];
    }
  }
}
