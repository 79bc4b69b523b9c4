/**
  The playlist request handlers: create_one with its track check inside a
  transaction, delete_one, and get_all.
 */
module Playlists {
  import opened Wrappers
  import opened Js
  import opened Errors
  import opened Catalog
  import opened Listing

  /** A request body that passed validation: a name and an optional list of track ids. */
  datatype CreateBody = CreateBody(name: string, trackIds: Option<seq<int>>)

  /** A track of the created playlist: the track's fields and its position, without the join row. */
  datatype TrackItem = TrackItem(id: int, title: string, duration: Option<int>, position: int)

  datatype PlaylistView = PlaylistView(id: int, name: string, tracks: seq<TrackItem>)

  datatype PlaylistRow = PlaylistRow(id: int, name: string)

  const PlaylistNotFound := "Playlist not found"
  const PlaylistDeleteFailed := "Failed to delete playlist"

  /** The requested track ids, in request order; an absent list requests none. */
  function Requested(body: CreateBody): (ids: seq<int>)
    ensures body.trackIds.Some? ==> ids == body.trackIds.value
    ensures body.trackIds.None? ==> ids == []
  {
    if body.trackIds.Some? then body.trackIds.value else []
  }

  /** The requested ids the lookup did not find, in request order and with their repetitions. */
  function MissingIds(ids: seq<int>, found: set<int>): (missing: seq<int>)
    ensures |missing| <= |ids|
  {
    if ids == [] then []
    else (if ids[0] in found then [] else [ids[0]]) + MissingIds(ids[1..], found)
  }

  /** An id is reported missing exactly when it was requested and not found. */
  lemma {:induction false} MissingIdsMembers(ids: seq<int>, found: set<int>)
    ensures forall x :: x in MissingIds(ids, found) <==> x in ids && x !in found
  {
    if ids != [] {
      assert ids == [ids[0]] + ids[1..];
      MissingIdsMembers(ids[1..], found);
    }
  }

  /** A missing id is reported as often as it was requested; a found one never. */
  lemma {:induction false} MissingIdsCounts(ids: seq<int>, found: set<int>)
    ensures forall x :: multiset(MissingIds(ids, found))[x] == if x in found then 0 else multiset(ids)[x]
  {
    if ids != [] {
      assert ids == [ids[0]] + ids[1..];
      MissingIdsCounts(ids[1..], found);
    }
  }

  /** Filtering distributes over concatenation of the request. */
  lemma {:induction false} MissingIdsAppend(a: seq<int>, b: seq<int>, found: set<int>)
    ensures MissingIds(a + b, found) == MissingIds(a, found) + MissingIds(b, found)
  {
    if a == [] {
      assert a + b == b;
    } else {
      var ab := a + b;
      assert ab != [] && ab[0] == a[0] && ab[1..] == a[1..] + b;
      var head := if a[0] in found then [] else [a[0]];
      var x, y, z := MissingIds(a[1..], found), MissingIds(b, found), MissingIds(ab[1..], found);
      assert MissingIds(ab, found) == head + z;
      assert MissingIds(a, found) == head + x;
      MissingIdsAppend(a[1..], b, found);
      assert z == x + y;
      assert head + (x + y) == (head + x) + y;
    }
  }

  /**
    Only the requested ids decide the result: the ids `findMany` found may be
    replaced by the whole track table.
   */
  lemma {:induction false} MissingIdsSameOnRequested(ids: seq<int>, f: set<int>, g: set<int>)
    requires forall x :: x in ids ==> (x in f <==> x in g)
    ensures MissingIds(ids, f) == MissingIds(ids, g)
  {
    if ids != [] {
      var y := ids[0];
      assert y in ids;
      assert y in f <==> y in g;
      MissingIdsSameOnRequested(ids[1..], f, g);
    }
  }

  function IdStrings(ids: seq<int>): (strs: seq<string>)
    ensures |strs| == |ids|
    ensures forall i :: 0 <= i < |ids| ==> ParseInt(strs[i]) == Num(ids[i])
  {
    var strs := seq(|ids|, i requires 0 <= i < |ids| => NumberToString(ids[i]));
    assert forall i :: 0 <= i < |ids| ==> ParseInt(strs[i]) == Num(ids[i]) by {
      forall i | 0 <= i < |ids| {
        ParseIntOfNumberToString(ids[i]);
      }
    }
    strs
  }

  /** The NotFoundError message: the missing ids joined with ", ". */
  function TracksNotFound(missing: seq<int>): (msg: string)
    ensures |msg| >= 18 && msg[..18] == "Tracks not found: "
    ensures missing == [] <==> msg == "Tracks not found: "
  {
    "Tracks not found: " + Join(IdStrings(missing), ", ")
  }

  /** The catch block of create_one. */
  function CreateCatch(t: Thrown): (r: Response<PlaylistView>)
    ensures r.body.ErrorJson?
    ensures t.Http? && (InstanceOf(t.err, BadRequest) || InstanceOf(t.err, NotFound)) ==> r == ErrorResponse(t.err)
    ensures t.StructFailure? ==> r == Response(400, ErrorJson("Invalid request body"))
    ensures t.Prisma? || t.Unexpected? || (t.Http? && !InstanceOf(t.err, BadRequest) && !InstanceOf(t.err, NotFound)) ==>
      r == Response(500, ErrorJson("Failed to create playlist"))
  {
    if t.Http? && InstanceOf(t.err, BadRequest) then ErrorResponse(t.err)
    else if t.Http? && InstanceOf(t.err, NotFound) then ErrorResponse(t.err)
    else if t.StructFailure? then ErrorResponse(New(BadRequest, "Invalid request body"))
    else ErrorResponse(New(InternalServer, "Failed to create playlist"))
  }

  /** The tracks of playlist pid as the handler returns them: by ascending position. */
  function PlaylistTracks(s: State, pid: int): (items: seq<TrackItem>)
    requires ValidState(s)
    ensures |items| == |Ordered(s.entries, pid, 1)|
    ensures forall i :: 0 <= i < |items| ==>
      var id := Ordered(s.entries, pid, 1)[i];
      (pid, i + 1) in s.entries && s.entries[(pid, i + 1)] == id &&
      id in s.tracks && items[i] == TrackItem(id, s.tracks[id].title, s.tracks[id].duration, i + 1)
  {
    var order := Ordered(s.entries, pid, 1);
    assert forall i :: 0 <= i < |order| ==> (pid, 1 + i) in s.entries && s.entries[(pid, 1 + i)] == order[i];
    seq(|order|, i requires 0 <= i < |order| =>
      TrackItem(order[i], s.tracks[order[i]].title, s.tracks[order[i]].duration, i + 1))
  }

  /** The requested tracks, each at its 1-based place in the request. */
  function RequestedTracks(ids: seq<int>, tracks: map<int, Track>): (items: seq<TrackItem>)
    requires forall i :: 0 <= i < |ids| ==> ids[i] in tracks
    ensures |items| == |ids|
    ensures forall i :: 0 <= i < |ids| ==>
      items[i] == TrackItem(ids[i], tracks[ids[i]].title, tracks[ids[i]].duration, i + 1)
  {
    seq(|ids|, i requires 0 <= i < |ids| =>
      TrackItem(ids[i], tracks[ids[i]].title, tracks[ids[i]].duration, i + 1))
  }

  /**
    create_one. When some requested track does not exist, the transaction is
    rolled back (the new playlist is gone) and a 404 names the missing ids;
    otherwise a 201 returns the playlist with the tracks in request order at
    positions 1, 2, ...
   */
  method CreateOne(db: Store, body: CreateBody) returns (resp: Response<PlaylistView>)
    requires db.Valid()
    modifies db
    ensures db.Valid()
    ensures var missing := MissingIds(Requested(body), old(db.tracks).Keys);
      missing != [] ==>
        resp == Response(404, ErrorJson(TracksNotFound(missing))) && db.Current() == old(db.Current())
    ensures var ids := Requested(body);
      var pid := old(db.nextPlaylistId);
      MissingIds(ids, old(db.tracks).Keys) == [] ==>
        && (forall i :: 0 <= i < |ids| ==> ids[i] in old(db.tracks))
        && resp == Response(201, Json(PlaylistView(pid, body.name, RequestedTracks(ids, old(db.tracks)))))
        && db.Current() == old(db.Current()).(
             playlists := old(db.playlists)[pid := Playlist(body.name)],
             entries := old(db.entries) + PositionEntries(pid, ids),
             nextPlaylistId := pid + 1)
  {
    var saved := db.Current();
    var ids := Requested(body);
    var pid := db.CreatePlaylist(body.name);
    if body.trackIds.Some? && |body.trackIds.value| > 0 {
      var found := db.FindTracks(ids);
      var missing := MissingIds(ids, found);
      MissingIdsSameOnRequested(ids, found, db.tracks.Keys);
      MissingIdsMembers(ids, found);
      if |missing| > 0 {
        db.Restore(saved);
        resp := CreateCatch(Http(New(NotFound, TracksNotFound(missing))));
        return;
      }
      forall i | 0 <= i < |ids|
        ensures ids[i] in found
      {
        assert forall x :: x in missing <==> x in ids && x !in found;
        assert missing == [] && ids[i] in ids;
      }
      db.CreateEntries(pid, ids);
    }
    OrderedNewRows(saved.entries, pid, ids);
    var tracks := PlaylistTracks(db.Current(), pid);
    assert tracks == RequestedTracks(ids, saved.tracks);
    resp := Response(201, Json(PlaylistView(pid, body.name, tracks)));
  }

  /**
    delete_one, given `Number(req.params.playlist_id)`: 400 for NaN or a
    non-positive id, 404 when no playlist has the id, else 204 with the
    playlist and its track rows deleted.
   */
  method DeleteOne(db: Store, id: Value) returns (resp: Response<PlaylistView>)
    requires id.Num? || id.NaN?
    requires db.Valid()
    modifies db
    ensures db.Valid()
    ensures !IsRowId(id) ==> resp == Response(400, ErrorJson("Invalid playlist_id")) && db.Current() == old(db.Current())
    ensures IsRowId(id) && id.n !in old(db.playlists) ==>
      resp == Response(404, ErrorJson("Playlist not found")) && db.Current() == old(db.Current())
    ensures IsRowId(id) && id.n in old(db.playlists) ==>
      resp == Response(204, NoContent) &&
      db.Current() == old(db.Current()).(playlists := old(db.playlists) - {id.n}, entries := WithoutPlaylist(old(db.entries), id.n))
  {
    if !IsRowId(id) {
      resp := ErrorResponse(DeleteCatch(Http(New(BadRequest, "Invalid playlist_id")), PlaylistNotFound, PlaylistDeleteFailed));
      return;
    }
    var found := db.DeletePlaylist(id.n);
    if !found {
      resp := ErrorResponse(DeleteCatch(Prisma("P2025"), PlaylistNotFound, PlaylistDeleteFailed));
      return;
    }
    resp := Response(204, NoContent);
  }

  /** The listed rows, one per id of `order` and in its order. */
  function Rows(playlists: map<int, Playlist>, order: seq<int>): (rows: seq<PlaylistRow>)
    requires forall i :: 0 <= i < |order| ==> order[i] in playlists
    ensures |rows| == |order|
    ensures forall i :: 0 <= i < |order| ==> rows[i] == PlaylistRow(order[i], playlists[order[i]].name)
    ensures forall r :: r in rows <==> r.id in order && r.id in playlists && r.name == playlists[r.id].name
  {
    var rows := seq(|order|, i requires 0 <= i < |order| => PlaylistRow(order[i], playlists[order[i]].name));
    assert forall r :: r in rows ==> r.id in order by {
      forall r | r in rows
        ensures r.id in order
      {
        var i :| 0 <= i < |rows| && rows[i] == r;
        assert r.id == order[i];
      }
    }
    assert forall r: PlaylistRow :: r.id in order && r.id in playlists && r.name == playlists[r.id].name ==> r in rows by {
      forall r: PlaylistRow | r.id in order && r.id in playlists && r.name == playlists[r.id].name
        ensures r in rows
      {
        var i :| 0 <= i < |order| && order[i] == r.id;
        assert rows[i] == r;
      }
    }
    rows
  }

  /**
    get_all: the playlists whose name contains the `name` query (all of them
    when it is absent or empty), ascending by name, and the X-Total-Count
    header, which reads back as the number of rows listed.
   */
  method GetAll(db: Store, name: Option<string>) returns (resp: Response<seq<PlaylistRow>>, totalCount: string)
    ensures resp.status == 200 && resp.body.Json?
    ensures forall r :: r in resp.body.value <==>
      r.id in db.playlists && r.name == db.playlists[r.id].name && Matches(NameFilter(name), r.name)
    ensures var rows := resp.body.value;
      forall i, j :: 0 <= i < j < |rows| ==> NameLeq(rows[i].name, rows[j].name) && rows[i].id != rows[j].id
    ensures totalCount == NumberToString(|resp.body.value|)
    ensures ParseInt(totalCount) == Num(|resp.body.value|)
  {
    var filter := NameFilter(name);
    var order := db.FindPlaylists(filter);
    var names := PlaylistNames(db.playlists);
    SortedListingIsTheSelection(names, filter, order);
    var rows := Rows(db.playlists, order);
    var count := db.CountPlaylists(filter);
    ParseIntOfNumberToString(count);
    resp := Response(200, Json(rows));
    totalCount := NumberToString(count);
  }
}
