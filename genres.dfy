/**
  The genre request handlers: create_one with its database error mapping,
  delete_one with its child check, and get_all.
 */
module Genres {
  import opened Wrappers
  import opened Js
  import opened Errors
  import opened Catalog
  import opened Listing

  /** A request body that passed validation: a name and an optional parent id. */
  datatype CreateBody = CreateBody(name: string, parentId: Option<int>)

  datatype GenreRow = GenreRow(id: int, name: string, parentId: Option<int>)

  const ChildConflictMessage := "Cannot delete genre with child genres"
  const GenreNotFound := "Genre not found"
  const GenreDeleteFailed := "Failed to delete genre"

  /** The catch block of create_one. */
  function CreateCatch(t: Thrown): (r: Response<GenreRow>)
    ensures r.body.ErrorJson?
    ensures t.Http? && InstanceOf(t.err, BadRequest) ==> r == ErrorResponse(t.err)
    ensures t.StructFailure? ==> r == Response(400, ErrorJson("Invalid request body"))
    ensures t == Prisma("P2002") ==> r == Response(409, ErrorJson("Genre with this name already exists"))
    ensures t == Prisma("P2003") ==> r == Response(404, ErrorJson("Parent genre not found"))
    ensures !(t.Http? && InstanceOf(t.err, BadRequest)) && !t.StructFailure? && t != Prisma("P2002") && t != Prisma("P2003") ==>
      r == Response(500, ErrorJson("Failed to create genre"))
  {
    if t.Http? && InstanceOf(t.err, BadRequest) then ErrorResponse(t.err)
    else if t.StructFailure? then ErrorResponse(New(BadRequest, "Invalid request body"))
    else if t.Prisma? && t.code == "P2002" then ErrorResponse(New(Conflict, "Genre with this name already exists"))
    else if t.Prisma? && t.code == "P2003" then ErrorResponse(New(NotFound, "Parent genre not found"))
    else ErrorResponse(New(InternalServer, "Failed to create genre"))
  }

  /**
    The ConflictError thrown for a genre with children carries 409 and its own
    message, yet the client receives 500 "Failed to delete genre".
   */
  lemma ChildConflictSurfacesAs500()
    ensures New(Conflict, ChildConflictMessage).status == 409
    ensures ErrorResponse<GenreRow>(DeleteCatch(Http(New(Conflict, ChildConflictMessage)), GenreNotFound, GenreDeleteFailed)) ==
      Response(500, ErrorJson("Failed to delete genre"))
    ensures HandleError<GenreRow>(AsErrorLike(New(Conflict, ChildConflictMessage))).status == 409
  {
  }

  /**
    create_one: 409 when the name is taken, else 404 when the parent genre does
    not exist, else 201 with the new genre; a refused create changes nothing.
   */
  method CreateOne(db: Store, body: CreateBody) returns (resp: Response<GenreRow>)
    requires db.Valid()
    modifies db
    ensures db.Valid()
    ensures NameTaken(old(db.genres), body.name) ==>
      resp == Response(409, ErrorJson("Genre with this name already exists")) && db.Current() == old(db.Current())
    ensures !NameTaken(old(db.genres), body.name) && body.parentId.Some? && body.parentId.value !in old(db.genres) ==>
      resp == Response(404, ErrorJson("Parent genre not found")) && db.Current() == old(db.Current())
    ensures var id := old(db.nextGenreId);
      !NameTaken(old(db.genres), body.name) && (body.parentId.Some? ==> body.parentId.value in old(db.genres)) ==>
        && resp == Response(201, Json(GenreRow(id, body.name, body.parentId)))
        && id !in old(db.genres)
        && db.Current() == old(db.Current()).(genres := old(db.genres)[id := Genre(body.name, body.parentId)], nextGenreId := id + 1)
  {
    var data := Genre(body.name, body.parentId);
    var r := db.CreateGenre(data);
    match r
    case Ok(id) =>
      resp := Response(201, Json(GenreRow(id, data.name, data.parentId)));
    case Err(code) =>
      resp := CreateCatch(Prisma(code));
  }

  /**
    delete_one, given `Number(req.params.genre_id)`: 400 for NaN or a
    non-positive id, 500 when some genre has it as parent, 404 when no genre
    has the id, else 204 with the genre deleted. Only the last case changes
    the store, so a genre with children is never deleted.
   */
  method DeleteOne(db: Store, id: Value) returns (resp: Response<GenreRow>)
    requires id.Num? || id.NaN?
    requires db.Valid()
    modifies db
    ensures db.Valid()
    ensures !IsRowId(id) ==> resp == Response(400, ErrorJson("Invalid genre_id")) && db.Current() == old(db.Current())
    ensures IsRowId(id) && HasChild(old(db.genres), id.n) ==>
      resp == Response(500, ErrorJson("Failed to delete genre")) && db.Current() == old(db.Current())
    ensures IsRowId(id) && !HasChild(old(db.genres), id.n) && id.n !in old(db.genres) ==>
      resp == Response(404, ErrorJson("Genre not found")) && db.Current() == old(db.Current())
    ensures IsRowId(id) && !HasChild(old(db.genres), id.n) && id.n in old(db.genres) ==>
      resp == Response(204, NoContent) && db.Current() == old(db.Current()).(genres := old(db.genres) - {id.n})
  {
    if !IsRowId(id) {
      resp := ErrorResponse(DeleteCatch(Http(New(BadRequest, "Invalid genre_id")), GenreNotFound, GenreDeleteFailed));
      return;
    }
    var child := db.FindFirstChild(id.n);
    if child.Some? {
      resp := ErrorResponse(DeleteCatch(Http(New(Conflict, ChildConflictMessage)), GenreNotFound, GenreDeleteFailed));
      return;
    }
    var found := db.DeleteGenre(id.n);
    if !found {
      resp := ErrorResponse(DeleteCatch(Prisma("P2025"), GenreNotFound, GenreDeleteFailed));
      return;
    }
    resp := Response(204, NoContent);
  }

  /** The listed rows, one per id of `order` and in its order. */
  function Rows(genres: map<int, Genre>, order: seq<int>): (rows: seq<GenreRow>)
    requires forall i :: 0 <= i < |order| ==> order[i] in genres
    ensures |rows| == |order|
    ensures forall i :: 0 <= i < |order| ==> rows[i] == GenreRow(order[i], genres[order[i]].name, genres[order[i]].parentId)
    ensures forall r :: r in rows <==>
      r.id in order && r.id in genres && r.name == genres[r.id].name && r.parentId == genres[r.id].parentId
  {
    var rows := seq(|order|, i requires 0 <= i < |order| =>
      GenreRow(order[i], genres[order[i]].name, genres[order[i]].parentId));
    assert forall r :: r in rows ==> r.id in order by {
      forall r | r in rows
        ensures r.id in order
      {
        var i :| 0 <= i < |rows| && rows[i] == r;
        assert r.id == order[i];
      }
    }
    assert forall r: GenreRow :: (r.id in order && r.id in genres && r.name == genres[r.id].name &&
      r.parentId == genres[r.id].parentId) ==> r in rows by {
      forall r: GenreRow | r.id in order && r.id in genres && r.name == genres[r.id].name && r.parentId == genres[r.id].parentId
        ensures r in rows
      {
        var i :| 0 <= i < |order| && order[i] == r.id;
        assert rows[i] == r;
      }
    }
    rows
  }

  /**
    get_all: the genres whose name contains the `name` query (all of them
    when it is absent or empty), ascending by name, and the X-Total-Count
    header, which reads back as the number of rows listed.
   */
  method GetAll(db: Store, name: Option<string>) returns (resp: Response<seq<GenreRow>>, totalCount: string)
    ensures resp.status == 200 && resp.body.Json?
    ensures forall r :: r in resp.body.value <==>
      r.id in db.genres && r.name == db.genres[r.id].name && r.parentId == db.genres[r.id].parentId &&
      Matches(NameFilter(name), r.name)
    ensures var rows := resp.body.value;
      forall i, j :: 0 <= i < j < |rows| ==> NameLeq(rows[i].name, rows[j].name) && rows[i].id != rows[j].id
    ensures totalCount == NumberToString(|resp.body.value|)
    ensures ParseInt(totalCount) == Num(|resp.body.value|)
  {
    var filter := NameFilter(name);
    var order := db.FindGenres(filter);
    var names := GenreNames(db.genres);
    SortedListingIsTheSelection(names, filter, order);
    var rows := Rows(db.genres, order);
    var count := db.CountGenres(filter);
    ParseIntOfNumberToString(count);
    resp := Response(200, Json(rows));
    totalCount := NumberToString(count);
  }
}
