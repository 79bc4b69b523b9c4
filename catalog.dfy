/**
  The relational store behind the handlers (the Prisma client), abstracted
  as maps: tracks, playlists, the playlist-track join rows and genres, with
  the auto-increment counters that hand out new ids. Each method is one
  Prisma call the handlers make; a known request error (P2002, P2003, P2025)
  is the outcome of a map lookup.
 */
module Catalog {
  import opened Wrappers
  import opened Js
  import opened Listing

  datatype Track = Track(title: string, duration: Option<int>)
  datatype Playlist = Playlist(name: string)
  datatype Genre = Genre(name: string, parentId: Option<int>)

  /**
    A snapshot of the whole store. `entries` holds the playlist-track rows,
    keyed by (playlist id, position) and giving the track id.
   */
  datatype State = State(
    tracks: map<int, Track>,
    playlists: map<int, Playlist>,
    entries: map<(int, int), int>,
    genres: map<int, Genre>,
    nextPlaylistId: int,
    nextGenreId: int)

  /**
    The invariant the modelled handlers keep: ids below the counters (so the
    next id is fresh), join rows pointing at existing playlists and tracks,
    parent genres that exist, and unique genre names. That a playlist's
    positions run 1, 2, ... with no gap is not a database constraint: it
    holds because create_one is the only writer of join rows.
   */
  ghost predicate ValidState(s: State)
    ensures ValidState(s) ==> s.nextPlaylistId !in s.playlists && s.nextGenreId !in s.genres
  {
    && s.nextPlaylistId >= 1 && s.nextGenreId >= 1
    && (forall id :: id in s.playlists ==> 1 <= id < s.nextPlaylistId)
    && (forall id :: id in s.genres ==> 1 <= id < s.nextGenreId)
    && (forall k :: k in s.entries ==> k.0 in s.playlists && s.entries[k] in s.tracks && k.1 >= 1)
    && (forall k :: k in s.entries && k.1 > 1 ==> (k.0, k.1 - 1) in s.entries)
    && (forall id :: id in s.genres && s.genres[id].parentId.Some? ==> s.genres[id].parentId.value in s.genres)
    && (forall a, b :: a in s.genres && b in s.genres && s.genres[a].name == s.genres[b].name ==> a == b)
  }

  /** The rows `createMany` inserts for a new playlist: the i-th requested track (0-based) at position i + 1. */
  function PositionEntries(pid: int, ids: seq<int>): (m: map<(int, int), int>)
    ensures forall k :: k in m <==> k.0 == pid && 1 <= k.1 <= |ids|
    ensures forall p :: 1 <= p <= |ids| ==> m[(pid, p)] == ids[p - 1]
  {
    if ids == [] then map[]
    else PositionEntries(pid, ids[..|ids| - 1])[(pid, |ids|) := ids[|ids| - 1]]
  }

  /** The rows of a playlist from position `from` on, as a set; it shrinks as `from` grows. */
  function RowsFrom(entries: map<(int, int), int>, pid: int, from: int): set<(int, int)>
  {
    set k | k in entries && k.0 == pid && k.1 >= from
  }

  lemma RowsFromShrinks(entries: map<(int, int), int>, pid: int, from: int)
    requires (pid, from) in entries
    ensures RowsFrom(entries, pid, from + 1) < RowsFrom(entries, pid, from)
  {
    var later, all := RowsFrom(entries, pid, from + 1), RowsFrom(entries, pid, from);
    forall k | k in later
      ensures k in all
    {
    }
    assert (pid, from) in all && (pid, from) !in later;
  }

  /**
    The track ids of playlist pid in ascending position, starting at `from`
    and stopping at the first missing position.
   */
  function Ordered(entries: map<(int, int), int>, pid: int, from: int): (r: seq<int>)
    ensures forall p :: from <= p < from + |r| ==> (pid, p) in entries && entries[(pid, p)] == r[p - from]
    ensures (pid, from + |r|) !in entries
    decreases RowsFrom(entries, pid, from)
  {
    if (pid, from) in entries then
      RowsFromShrinks(entries, pid, from);
      [entries[(pid, from)]] + Ordered(entries, pid, from + 1)
    else []
  }

  /** The join rows that survive deleting playlist id: all rows of other playlists. */
  function WithoutPlaylist(entries: map<(int, int), int>, id: int): (r: map<(int, int), int>)
    ensures forall k :: k in r <==> k in entries && k.0 != id
    ensures forall k :: k in r ==> r[k] == entries[k]
  {
    map k | k in entries && k.0 != id :: entries[k]
  }

  predicate NameTaken(genres: map<int, Genre>, name: string)
  {
    exists g :: g in genres && genres[g].name == name
  }

  predicate HasChild(genres: map<int, Genre>, id: int)
  {
    exists g :: g in genres && genres[g].parentId == Some(id)
  }

  /** The id parameter rule of the delete handlers: `isNaN(id) || id <= 0` is refused. */
  predicate IsRowId(id: Value)
    ensures id.Num? ==> (IsRowId(id) <==> id.n >= 1)
    ensures id.NaN? ==> !IsRowId(id)
  {
    !(id.NaN? || (id.Num? && id.n <= 0))
  }

  function PlaylistNames(playlists: map<int, Playlist>): (names: map<int, string>)
    ensures names.Keys == playlists.Keys
    ensures forall id :: id in names ==> names[id] == playlists[id].name
  {
    map id | id in playlists :: playlists[id].name
  }

  function GenreNames(genres: map<int, Genre>): (names: map<int, string>)
    ensures names.Keys == genres.Keys
    ensures forall id :: id in names ==> names[id] == genres[id].name
  {
    map id | id in genres :: genres[id].name
  }

  /** The rows of a new playlist, added where it had none, are read back in request order. */
  lemma OrderedNewRows(entries: map<(int, int), int>, pid: int, ids: seq<int>)
    requires forall k :: k in entries ==> k.0 != pid
    ensures Ordered(entries + PositionEntries(pid, ids), pid, 1) == ids
  {
    var all := entries + PositionEntries(pid, ids);
    var r := Ordered(all, pid, 1);
    assert |r| >= |ids|;
    assert (pid, 1 + |ids|) !in all;
    assert |r| <= |ids|;
    forall i | 0 <= i < |ids|
      ensures r[i] == ids[i]
    {
      assert (pid, 1 + i) in all && all[(pid, 1 + i)] == ids[i];
    }
  }

  /** In a valid store, reading positions 1, 2, ... of a playlist reaches every row it has. */
  lemma OrderedReachesAllRows(s: State, pid: int)
    requires ValidState(s)
    ensures forall k :: k in s.entries && k.0 == pid ==> 1 <= k.1 <= |Ordered(s.entries, pid, 1)|
  {
    var n := |Ordered(s.entries, pid, 1)|;
    forall k | k in s.entries && k.0 == pid
      ensures k.1 <= n
    {
      if k.1 > n {
        RowsAreContiguous(s, pid, k.1, n + 1);
      }
    }
  }

  /** Positions have no gaps: a row at position q means rows at every position from 1 to q. */
  lemma {:induction false} RowsAreContiguous(s: State, pid: int, q: int, p: int)
    requires ValidState(s)
    requires (pid, q) in s.entries && 1 <= p <= q
    ensures (pid, p) in s.entries
    decreases q - p
  {
    if p < q {
      assert (pid, q - 1) in s.entries;
      RowsAreContiguous(s, pid, q - 1, p);
    }
  }

  /** The store, updated in place by the handlers' Prisma calls. */
  class Store {
    var tracks: map<int, Track>
    var playlists: map<int, Playlist>
    var entries: map<(int, int), int>
    var genres: map<int, Genre>
    var nextPlaylistId: int
    var nextGenreId: int

    function Current(): State
      reads this
    {
      State(tracks, playlists, entries, genres, nextPlaylistId, nextGenreId)
    }

    ghost predicate Valid()
      reads this
    {
      ValidState(Current())
    }

    /** An empty store over the given tracks (tracks are created outside the modelled handlers). */
    constructor (tracks: map<int, Track>)
      ensures Valid()
      ensures Current() == State(tracks, map[], map[], map[], 1, 1)
    {
      this.tracks := tracks;
      playlists, entries, genres := map[], map[], map[];
      nextPlaylistId, nextGenreId := 1, 1;
    }

    /** A transaction's rollback: the store goes back to the state it began in. */
    method Restore(s: State)
      requires ValidState(s)
      modifies this
      ensures Valid() && Current() == s
    {
      tracks, playlists, entries, genres := s.tracks, s.playlists, s.entries, s.genres;
      nextPlaylistId, nextGenreId := s.nextPlaylistId, s.nextGenreId;
    }

    /** `playlist.create({ data: { name } })`: a fresh id from the counter. */
    method CreatePlaylist(name: string) returns (id: int)
      requires Valid()
      modifies this
      ensures Valid()
      ensures id == old(nextPlaylistId) && id !in old(playlists)
      ensures Current() == old(Current()).(playlists := old(playlists)[id := Playlist(name)], nextPlaylistId := id + 1)
      ensures forall k :: k in entries ==> k.0 != id
    {
      id := nextPlaylistId;
      playlists := playlists[id := Playlist(name)];
      nextPlaylistId := nextPlaylistId + 1;
    }

    /** `track.findMany({ where: { id: { in: ids } } })`, reduced to the ids it finds. */
    function FindTracks(ids: seq<int>): (found: set<int>)
      reads this
      ensures forall id :: id in found <==> id in ids && id in tracks
    {
      set id | id in ids && id in tracks
    }

    /** `playlistTrack.createMany` for a playlist that has no rows yet. */
    method CreateEntries(pid: int, ids: seq<int>)
      requires Valid() && pid in playlists
      requires forall k :: k in entries ==> k.0 != pid
      requires forall i :: 0 <= i < |ids| ==> ids[i] in tracks
      modifies this
      ensures Valid()
      ensures Current() == old(Current()).(entries := old(entries) + PositionEntries(pid, ids))
    {
      entries := entries + PositionEntries(pid, ids);
    }

    /** `playlist.delete({ where: { id } })`, its rows deleted with it; false is the P2025 "record not found" failure. */
    method DeletePlaylist(id: int) returns (found: bool)
      requires Valid()
      modifies this
      ensures Valid()
      ensures found <==> id in old(playlists)
      ensures found ==> Current() == old(Current()).(playlists := old(playlists) - {id}, entries := WithoutPlaylist(old(entries), id))
      ensures !found ==> Current() == old(Current())
    {
      found := id in playlists;
      if found {
        playlists := playlists - {id};
        entries := WithoutPlaylist(entries, id);
      }
    }

    /** `playlist.findMany({ where: filter, orderBy: { name: 'asc' } })`, as the ids of the rows. */
    method FindPlaylists(filter: Option<string>) returns (order: seq<int>)
      ensures multiset(order) == multiset(Selected(PlaylistNames(playlists), filter))
      ensures AllNamed(order, PlaylistNames(playlists)) && SortedByName(order, PlaylistNames(playlists))
    {
      var names := PlaylistNames(playlists);
      order := SortByName(names, Selected(names, filter));
    }

    /**
      `playlist.count({ where: filter })`: the size of the selection that
      FindPlaylists lists, so it equals the length of any listing of it.
     */
    function CountPlaylists(filter: Option<string>): (n: nat)
      reads this
      ensures n == |Selected(PlaylistNames(playlists), filter)|
      ensures forall order: seq<int> :: multiset(order) == multiset(Selected(PlaylistNames(playlists), filter)) ==> |order| == n
    {
      var sel := Selected(PlaylistNames(playlists), filter);
      assert forall order: seq<int> :: multiset(order) == multiset(sel) ==> |order| == |sel| by {
        forall order: seq<int> | multiset(order) == multiset(sel)
          ensures |order| == |sel|
        {
          assert |multiset(order)| == |order|;
        }
      }
      |sel|
    }

    /** `genre.findMany({ where: filter, orderBy: { name: 'asc' } })`, as the ids of the rows. */
    method FindGenres(filter: Option<string>) returns (order: seq<int>)
      ensures multiset(order) == multiset(Selected(GenreNames(genres), filter))
      ensures AllNamed(order, GenreNames(genres)) && SortedByName(order, GenreNames(genres))
    {
      var names := GenreNames(genres);
      order := SortByName(names, Selected(names, filter));
    }

    /**
      `genre.count({ where: filter })`: the size of the selection that
      FindGenres lists, so it equals the length of any listing of it.
     */
    function CountGenres(filter: Option<string>): (n: nat)
      reads this
      ensures n == |Selected(GenreNames(genres), filter)|
      ensures forall order: seq<int> :: multiset(order) == multiset(Selected(GenreNames(genres), filter)) ==> |order| == n
    {
      var sel := Selected(GenreNames(genres), filter);
      assert forall order: seq<int> :: multiset(order) == multiset(sel) ==> |order| == |sel| by {
        forall order: seq<int> | multiset(order) == multiset(sel)
          ensures |order| == |sel|
        {
          assert |multiset(order)| == |order|;
        }
      }
      |sel|
    }

    /** `genre.findFirst({ where: { parentId: id } })`: some child of genre id, or null. */
    method FindFirstChild(id: int) returns (child: Option<int>)
      ensures child.Some? ==> child.value in genres && genres[child.value].parentId == Some(id)
      ensures child.None? <==> !HasChild(genres, id)
    {
      if g :| g in genres && genres[g].parentId == Some(id) {
        child := Some(g);
      } else {
        child := None;
      }
    }

    /**
      `genre.create({ data })`: P2002 when the name is taken (unique
      constraint), otherwise P2003 when the parent does not exist (foreign
      key), otherwise a fresh id.
     */
    method CreateGenre(data: Genre) returns (r: Result<int, string>)
      requires Valid()
      modifies this
      ensures Valid()
      ensures NameTaken(old(genres), data.name) ==> r == Err("P2002") && Current() == old(Current())
      ensures !NameTaken(old(genres), data.name) && data.parentId.Some? && data.parentId.value !in old(genres) ==>
        r == Err("P2003") && Current() == old(Current())
      ensures r.Ok? <==> !NameTaken(old(genres), data.name) && (data.parentId.Some? ==> data.parentId.value in old(genres))
      ensures r.Ok? ==> r.value == old(nextGenreId) && r.value !in old(genres)
      ensures r.Ok? ==> Current() == old(Current()).(genres := old(genres)[r.value := data], nextGenreId := r.value + 1)
    {
      if g :| g in genres && genres[g].name == data.name {
        r := Err("P2002");
      } else if data.parentId.Some? && data.parentId.value !in genres {
        r := Err("P2003");
      } else {
        var id := nextGenreId;
        genres := genres[id := data];
        nextGenreId := nextGenreId + 1;
        r := Ok(id);
      }
    }

    /** `genre.delete({ where: { id } })` for a genre without children; false is P2025. */
    method DeleteGenre(id: int) returns (found: bool)
      requires Valid() && !HasChild(genres, id)
      modifies this
      ensures Valid()
      ensures found <==> id in old(genres)
      ensures found ==> Current() == old(Current()).(genres := old(genres) - {id})
      ensures !found ==> Current() == old(Current())
    {
      found := id in genres;
      if found {
        genres := genres - {id};
      }
    }
  }
}
