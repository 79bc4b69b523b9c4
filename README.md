# WiMusic streaming API: a Dafny model of its request handling core

This project models the part of the WiMusic streaming API that decides what
a request does and what its client receives:

- the HTTP error classes (`HttpError` and its seven subclasses, each with a
  fixed status) and the final Express error middleware, which defaults a
  missing status to 500 and a missing message to "Internal Server Error";
- the multer upload configuration: the `media` destination, the stored file
  name `<uuid>.<extension>`, and the filter that admits only names ending in
  `.mp3`;
- `transformFormData`, the middleware that turns the multipart strings of a
  track body back into numbers (`parseInt`) and a boolean, and the
  `TrackCreateBody` / `TrackConnectBody` field rules;
- the playlist handlers: `create_one` with its transaction (missing tracks
  roll back the new playlist and answer 404 with the missing ids; otherwise
  the tracks are stored at positions 1, 2, ... in request order), `delete_one`
  (400 / 404 / 204) and `get_all` (name filter, order by name, X-Total-Count);
- the genre handlers: `create_one` (unique name → 409, missing parent → 404),
  `delete_one` (id check, the child check, 404 / 204) and `get_all`.

JavaScript values are the datatype `Js.Value`. `String()`, `Number.toString`,
`String.prototype.split`, `Array.prototype.join` and `parseInt` are written
out in `js.dfy`. `parseInt` covers the whitespace skip, the sign, the `0x`
prefix, the longest digit prefix and `NaN`.

The database is a `Catalog.Store` class whose fields are maps: tracks,
playlists, the playlist-track rows keyed by (playlist id, position), and
genres. It also holds the two id counters. Each Prisma call becomes one
method that changes only those fields. A known request error (P2002, P2003,
P2025) becomes the outcome of a map lookup. `Catalog.ValidState` is the
invariant every modelled handler preserves:
- ids are below the counters;
- each row points at an existing playlist and track;
- a playlist's positions start at 1 and have no gaps;
- a genre's parent exists;
- genre names are unique.

The rows' foreign keys, the parent reference and the unique name are what
the database enforces (the P2003 and P2002 failures the handlers catch). The
rule about positions is not a database constraint. It holds because the
modelled `create_one` is the only writer of rows and always numbers them
1..n.

A `$transaction` is modelled as a snapshot of the store taken when it
begins, and `Store.Restore` of that snapshot when the callback throws. Each
handler's result is an `Errors.Response`: a status and a JSON body (`{ error
}` or the payload), or no content. The UUID of an upload, the result of
`Number(req.params.x)` and the validated request body are parameters.

The file `streaming-api/src/utils/error.ts` holds the error classes the
handlers import. `streaming-api/src/error.ts` is a copy of its first two classes
(`HttpError`, `NotFoundError`), imported only by the track and album
handlers, which are left out; it is not part of this model.

## Model

| member | source | states |
|---|---|---|
| Errors.FixedStatus | streaming-api/src/utils/error.ts:10-50 | each subclass's constructor status: 404 exactly for NotFoundError, 400 exactly for ValidationError and BadRequestError, 409 for ConflictError, 403 for ForbiddenError, 500 exactly for DatabaseError and InternalServerError |
| Errors.NewHttpError | streaming-api/src/utils/error.ts:1-8 | the base class keeps the given message and status and is an instance of no subclass |
| Errors.New | streaming-api/src/utils/error.ts:10-50 | a subclass instance carries its message and its class's fixed status, and is an instance of that class only |
| Errors.HandleError | streaming-api/src/index.ts:113-118 | the error middleware never answers status 0; it answers 500 exactly when the status is missing, 0 or 500; a nonzero status is kept; a non-empty message is sent unchanged and an empty one is replaced by "Internal Server Error", so the message sent is never empty |
| Errors.MiddlewareKeepsSubclassStatus | streaming-api/src/index.ts:116-117 | an error built by any subclass reaches the client with that subclass's status and its own message, or the fallback message when it is empty |
| Errors.ErrorResponseAgreesWithMiddleware | streaming-api/src/index.ts:116-117 | for a subclass instance with a message, the handlers' own catch reply and the middleware's reply are the same response |
| Js.NumberToString | streaming-api/src/requestHandlers/playlist.ts:31 | `Number.prototype.toString` of an integer is never empty |
| Js.TrimStart | streaming-api/src/validation/track.ts:8 | parseInt's leading-whitespace skip: a suffix of the input, all skipped characters are whitespace, and the rest does not start with whitespace |
| Js.DigitPrefix | streaming-api/src/validation/track.ts:8 | the longest prefix of digits of the radix: all its characters are digits and the next character is not |
| Js.ParseInt | streaming-api/src/validation/track.ts:8 | `parseInt` of a string is always an integer or NaN |
| Js.ParseIntOfNumberToString | streaming-api/src/validation/track.ts:8-9 | `parseInt(String(n)) == n` for every integer n, negative ones included |
| Js.ParseIntOfDigitPrefix | streaming-api/src/validation/track.ts:8 | a string led by a non-zero digit parses to the value of its longest decimal prefix; the rest is ignored ("1e3" is 1) |
| Js.ParseIntOfLetterIsNaN | streaming-api/src/validation/track.ts:8 | a string starting with a letter parses to NaN |
| Js.DigitsValueOfDecimal | streaming-api/src/validation/track.ts:8 | reading back the decimal spelling of a natural gives that natural |
| Js.Split | streaming-api/src/middleware/upload.ts:17 | `split(sep)` gives at least one part, no part contains sep, and [s] exactly when s has no sep |
| Js.JoinSplit | streaming-api/src/middleware/upload.ts:17 | joining the parts of a split with the separator gives back the string |
| Js.SplitJoin | streaming-api/src/middleware/upload.ts:17 | splitting a join of separator-free parts gives back the parts |
| Js.SplitAfterPart | streaming-api/src/middleware/upload.ts:17 | a separator-free first part, then the separator, splits off as the first part |
| Js.SplitWithoutSeparator | streaming-api/src/middleware/upload.ts:17 | a string without the separator splits into itself alone |
| Upload.LastSegment | streaming-api/src/middleware/upload.ts:17 | `split('.').pop()`: the popped segment never contains '.' |
| Upload.LastSegmentIsTextAfterLastDot | streaming-api/src/middleware/upload.ts:17 | `split('.').pop()` is the dot-free tail of the name: the text after the last '.', or the whole name exactly when it has no '.' |
| Upload.LastSegmentOfTail | streaming-api/src/middleware/upload.ts:17 | how the popped segment of a name relates to that of the name without its first character |
| Upload.LastSegmentAfterDot | streaming-api/src/middleware/upload.ts:17 | after a '.', a dot-free tail is what `pop()` returns, whatever precedes it |
| Upload.Extension | streaming-api/src/middleware/upload.ts:17 | the extension is never empty and never contains '.' |
| Upload.ExtensionFallback | streaming-api/src/middleware/upload.ts:17 | `\|\| 'mp3'` applies exactly when the name is empty or ends in '.'; otherwise the extension is the name's tail |
| Upload.StoredName | streaming-api/src/middleware/upload.ts:18 | defines `${uuid}.${extension}`: the id, one '.', then the dot-free extension |
| Upload.StoredNameShape | streaming-api/src/middleware/upload.ts:18 | for a dot-free id, the stored name splits into exactly the id and the extension |
| Upload.StoredNameKeepsExtension | streaming-api/src/middleware/upload.ts:17-18 | deriving the extension again from the stored name gives the same extension |
| Upload.MatchesMp3Pattern | streaming-api/src/middleware/upload.ts:28 | `/\.(mp3)$/` matches exactly the names ending in ".mp3" |
| Upload.FileFilter | streaming-api/src/middleware/upload.ts:23-36 | accepts exactly the names ending in ".mp3"; a rejection and only a rejection carries the error "Only mp3 files are allowed" |
| Upload.FilterIsCaseSensitive | streaming-api/src/middleware/upload.ts:28 | ".MP3" and ".Mp3" are rejected, ".mp3" accepted |
| Upload.AcceptedFileHasMp3Extension | streaming-api/src/middleware/upload.ts:17-28 | every file the filter admits is stored with the extension "mp3" |
| Upload.Store | streaming-api/src/middleware/upload.ts:6-36 | an upload is stored exactly when its name ends in ".mp3", and then in "media" under `<uuid>.mp3` |
| TrackValidation.CoercedWith | streaming-api/src/validation/track.ts:7-12 | the coercion keeps the set of fields |
| TrackValidation.SequentialAssignments | streaming-api/src/validation/track.ts:8-10 | the three guarded assignments in sequence equal the field-by-field coercion |
| TrackValidation.Coerced | streaming-api/src/validation/track.ts:7-12 | `transformFormData` adds and removes no field |
| TrackValidation.FormRequest.TransformFormData | streaming-api/src/validation/track.ts:7-12 | the request body becomes the coercion of the old body, and `next` is called exactly once |
| TrackValidation.PositiveNumber | streaming-api/src/validation/track.ts:20 | `refine(number(), 'positive', ...)`: a positive number is never NaN and is truthy, so transformFormData always coerces it |
| TrackValidation.ValidCreateBody | streaming-api/src/validation/track.ts:18-23 | TrackCreateBody: only its four fields, with title and artist_id present |
| TrackValidation.ValidConnectBody | streaming-api/src/validation/track.ts:25-27 | TrackConnectBody: exactly the one field album_id |
| TrackValidation.UnknownFieldIsRejected | streaming-api/src/validation/track.ts:18-27 | `object()` is strict: a field outside the schema fails both schemas |
| TrackValidation.CoercionEffects | streaming-api/src/validation/track.ts:8-10 | fields other than the three, and falsy values, are untouched; a truthy hasAlbum becomes `=== 'true'`; a truthy artist_id becomes an integer or NaN |
| TrackValidation.HasAlbumIsExactStringTrue | streaming-api/src/validation/track.ts:10 | hasAlbum becomes true exactly for the string "true"; "false", "TRUE" and the boolean true all become false |
| TrackValidation.FormEncode | streaming-api/src/validation/track.ts:7-12 | form encoding keeps the set of fields |
| TrackValidation.FormRoundTripWith | streaming-api/src/validation/track.ts:7-23 | for any number reading that reads back the id fields, coercion undoes form encoding of a valid create body |
| TrackValidation.CreateBodySurvivesFormEncoding | streaming-api/src/validation/track.ts:7-23 | a valid TrackCreateBody sent as multipart strings comes back from `transformFormData` as itself, and so is still valid |
| TrackValidation.LetterArtistIsRejected | streaming-api/src/validation/track.ts:8-20 | an artist_id that starts with a letter (say "abc") becomes NaN and the body fails TrackCreateBody |
| TrackValidation.DigitArtistIsReadAsPrefix | streaming-api/src/validation/track.ts:8 | an artist_id that starts with a non-zero digit is read as its leading digits alone ("12abc" becomes 12), a positive number |
| Catalog.ValidState | streaming-api/src/requestHandlers/playlist.ts:80-113 | the invariant the handlers keep; in it, the next ids from the counters are fresh |
| Catalog.IsRowId | streaming-api/src/requestHandlers/playlist.ts:174 | `isNaN(id) \|\| id <= 0` is refused: a number passes exactly when it is at least 1, NaN never (genre.ts:128 is the same test) |
| Catalog.PositionEntries | streaming-api/src/requestHandlers/playlist.ts:107-113 | `createMany` rows: exactly the positions 1..n of the playlist, the i-th requested track at position i + 1 |
| Catalog.Ordered | streaming-api/src/requestHandlers/playlist.ts:117-133 | `orderBy: { position: 'asc' }`: the track of each position in turn, up to the first position with no row |
| Catalog.RowsFromShrinks | streaming-api/src/requestHandlers/playlist.ts:117-133 | reading a position removes it from the rows still to read |
| Catalog.OrderedNewRows | streaming-api/src/requestHandlers/playlist.ts:107-133 | the rows created for a new playlist read back by position are the request's track ids in request order |
| Catalog.OrderedReachesAllRows | streaming-api/src/requestHandlers/playlist.ts:117-133 | in a valid store, reading positions 1, 2, ... reaches every row of the playlist |
| Catalog.RowsAreContiguous | streaming-api/src/requestHandlers/playlist.ts:107-113 | in a valid store, a row at position q implies a row at every position 1..q |
| Catalog.Store.Restore | streaming-api/src/requestHandlers/playlist.ts:78-134 | the rollback of a transaction: the store is exactly the snapshot again |
| Catalog.Store.CreatePlaylist | streaming-api/src/requestHandlers/playlist.ts:80-84 | a fresh id from the counter, a playlist under it with the name, no rows, nothing else changed, validity kept |
| Catalog.Store.CreateEntries | streaming-api/src/requestHandlers/playlist.ts:107-113 | exactly the position rows of the request are added, validity kept |
| Catalog.Store.DeletePlaylist | streaming-api/src/requestHandlers/playlist.ts:178-180 | P2025 exactly when the id is not a playlist, then nothing changes; otherwise the playlist and its rows go and nothing else changes |
| Catalog.Store.FindPlaylists | streaming-api/src/requestHandlers/playlist.ts:20-25 | each selected playlist exactly once, ascending by name |
| Catalog.Store.CountPlaylists | streaming-api/src/requestHandlers/playlist.ts:28-30 | the count is the size of the selection FindPlaylists lists, so it equals the length of every listing of that selection |
| Catalog.Store.FindGenres | streaming-api/src/requestHandlers/genre.ts:20-25 | each selected genre exactly once, ascending by name |
| Catalog.Store.CountGenres | streaming-api/src/requestHandlers/genre.ts:28-30 | the count is the size of the selection FindGenres lists, so it equals the length of every listing of that selection |
| Catalog.Store.FindFirstChild | streaming-api/src/requestHandlers/genre.ts:133-135 | a genre whose parent is the id, and null exactly when there is none |
| Catalog.Store.CreateGenre | streaming-api/src/requestHandlers/genre.ts:91-93 | P2002 for a taken name, else P2003 for a missing parent, both changing nothing; success exactly otherwise, with a fresh id |
| Catalog.Store.DeleteGenre | streaming-api/src/requestHandlers/genre.ts:142-144 | P2025 exactly when the id is not a genre, then nothing changes; otherwise only that genre goes |
| Listing.EmptyQueryMatchesEverything | streaming-api/src/requestHandlers/playlist.ts:15-17 | skipping the filter for an empty name loses nothing: every name contains "" |
| Listing.NameLeqTotal | streaming-api/src/requestHandlers/playlist.ts:24 | any two names are ordered one way or the other |
| Listing.NameLeqTransitive | streaming-api/src/requestHandlers/playlist.ts:24 | the name order is transitive |
| Listing.InsertByName | streaming-api/src/requestHandlers/playlist.ts:24 | inserting adds exactly the one id |
| Listing.InsertKeepsSorted | streaming-api/src/requestHandlers/playlist.ts:24 | inserting into an ascending listing keeps it ascending |
| Listing.SortByName | streaming-api/src/requestHandlers/playlist.ts:20-25 | the listing is a permutation of the selected ids, ascending by name |
| Listing.RepeatCountsTwice | streaming-api/src/requestHandlers/playlist.ts:20-25 | an id at two places of a listing occurs at least twice in it |
| Listing.SortedListingIsTheSelection | streaming-api/src/requestHandlers/playlist.ts:20-30 | a listing that is a permutation of the selection lists exactly the matching rows, none twice, as many as the count |
| Playlists.MissingIds | streaming-api/src/requestHandlers/playlist.ts:100 | the `filter` of the requested ids not found: never longer than the request |
| Playlists.MissingIdsMembers | streaming-api/src/requestHandlers/playlist.ts:99-100 | an id is reported missing exactly when it was requested and not found |
| Playlists.MissingIdsCounts | streaming-api/src/requestHandlers/playlist.ts:100 | a missing id is reported as often as requested, a found one never |
| Playlists.MissingIdsAppend | streaming-api/src/requestHandlers/playlist.ts:100 | the missing ids of a concatenated request are the concatenation of the missing ids |
| Playlists.MissingIdsSameOnRequested | streaming-api/src/requestHandlers/playlist.ts:89-100 | only the requested ids decide the result, so the found ids may be replaced by the whole track table |
| Playlists.IdStrings | streaming-api/src/requestHandlers/playlist.ts:103 | each id of the 404 message reads back as that id |
| Playlists.TracksNotFound | streaming-api/src/requestHandlers/playlist.ts:103 | the 404 message starts with "Tracks not found: ", followed by nothing exactly when no id is missing |
| Playlists.CreateCatch | streaming-api/src/requestHandlers/playlist.ts:149-166 | BadRequestError and NotFoundError pass through as they are; a schema failure is 400 "Invalid request body"; everything else is 500 "Failed to create playlist" |
| Playlists.PlaylistTracks | streaming-api/src/requestHandlers/playlist.ts:117-146 | the returned tracks: one per position in position order, the i-th being the track stored at position i + 1 of the playlist, with its id, title, duration and that stored position |
| Playlists.Rows | streaming-api/src/requestHandlers/playlist.ts:20-33 | one row per listed id, in listing order, and the rows are exactly those of listed ids |
| Playlists.CreateOne | streaming-api/src/requestHandlers/playlist.ts:75-167 | missing tracks: 404 "Tracks not found: " with the missing ids, and the store exactly as before; otherwise 201 with the new id, the name and the requested tracks in request order at positions 1..n, the playlist and its rows added, nothing else changed; validity kept |
| Playlists.DeleteOne | streaming-api/src/requestHandlers/playlist.ts:170-199 | NaN or a non-positive id: 400 "Invalid playlist_id"; an unknown id: 404 "Playlist not found"; both change nothing; otherwise 204 with the playlist and its rows deleted |
| Playlists.GetAll | streaming-api/src/requestHandlers/playlist.ts:9-33 | 200 with exactly the playlists whose name contains the query, ascending by name, none twice; X-Total-Count is `String()` of the number of playlists listed and reads back as it |
| Genres.CreateCatch | streaming-api/src/requestHandlers/genre.ts:96-120 | BadRequestError passes through; a schema failure is 400; P2002 is 409 "Genre with this name already exists"; P2003 is 404 "Parent genre not found"; everything else is 500 "Failed to create genre" |
| Genres.ChildConflictSurfacesAs500 | streaming-api/src/requestHandlers/genre.ts:137-162 | the child-genre ConflictError carries 409, and the error middleware would send that 409, yet the client receives 500 "Failed to delete genre" |
| Genres.CreateOne | streaming-api/src/requestHandlers/genre.ts:75-121 | a taken name: 409; else a missing parent: 404; both change nothing; otherwise 201 with the new genre under a fresh id, nothing else changed; validity kept |
| Genres.DeleteOne | streaming-api/src/requestHandlers/genre.ts:124-163 | NaN or a non-positive id: 400; a genre with children: 500; an unknown id: 404; these change nothing, so a genre with children is never deleted; otherwise 204 with only that genre deleted |
| Genres.Rows | streaming-api/src/requestHandlers/genre.ts:20-33 | one row per listed id, in listing order, and the rows are exactly those of listed ids |
| Genres.GetAll | streaming-api/src/requestHandlers/genre.ts:9-33 | 200 with exactly the genres whose name contains the query, ascending by name, none twice; X-Total-Count is `String()` of the number of genres listed and reads back as it |

The delete handler for genres is modelled as written, and
`Genres.ChildConflictSurfacesAs500` records what it does. It throws a
ConflictError for a genre with children, but its catch block re-maps every
HttpError other than BadRequestError to 500. The client therefore never sees
the 409 that the error class carries.

## Definitions

These functions only define a value that other members use. Their properties are stated by the members in the table above.

- `Js.Truthy` (streaming-api/src/validation/track.ts:8-10): ToBoolean, the test behind `if (req.body.x)`, `|| 'mp3'` (upload.ts:17) and `if (name)` (playlist.ts:15).
- `Js.ToString` (streaming-api/src/requestHandlers/playlist.ts:16): `String()` of a body or query value (also `toString()` at playlist.ts:31).
- `Js.ParseIntValue` (streaming-api/src/validation/track.ts:8-9): `parseInt(req.body.x)` applied to a value, which first converts it with `String()`.
- `Js.Join` (streaming-api/src/requestHandlers/playlist.ts:103): `missingTrackIds.join(', ')`.
- `Errors.InstanceOf` (streaming-api/src/requestHandlers/playlist.ts:151-156): `err instanceof C` for one of the HttpError subclasses (also genre.ts:98 and genre.ts:149).
- `TrackValidation.CoercedFieldWith` (streaming-api/src/validation/track.ts:8-10): the value each of the three guarded assignments leaves in one field.
- `Listing.Contains` (streaming-api/src/requestHandlers/playlist.ts:16): Prisma's `contains`, the substring test of the name filter.
- `Listing.NameLeq` (streaming-api/src/requestHandlers/playlist.ts:24): the order of `orderBy: { name: 'asc' }`, compared character by character.
- `Catalog.NameTaken` (streaming-api/src/requestHandlers/genre.ts:105-107): the unique-name condition whose violation is P2002.
- `Catalog.HasChild` (streaming-api/src/requestHandlers/genre.ts:133-139): whether `findFirst({ where: { parentId } })` finds a genre, the `if (hasChildren)` test.
- `Errors.ErrorResponse` (streaming-api/src/requestHandlers/playlist.ts:151-152): `res.status(err.status!).json({ error: err.message })`, the handlers' own error reply.
- `Errors.DeleteCatch` (streaming-api/src/requestHandlers/playlist.ts:183-198): the catch block shared by both delete handlers (genre.ts:147-162 is the same).
- `Catalog.WithoutPlaylist` (streaming-api/src/requestHandlers/playlist.ts:178-180): the join rows left once a playlist and its rows are deleted.
- `Catalog.PlaylistNames` (streaming-api/src/requestHandlers/playlist.ts:20-25): the playlist names the listing filters and orders on.
- `Catalog.Store.FindTracks` (streaming-api/src/requestHandlers/playlist.ts:89-99): `track.findMany({ where: { id: { in: ids } } })`, reduced to the ids it finds.
- `Catalog.GenreNames` (streaming-api/src/requestHandlers/genre.ts:20-25): the genre names the listing filters and orders on.
- `Listing.NameFilter` (streaming-api/src/requestHandlers/playlist.ts:15-17): the `where` clause built from the `name` query.
- `Listing.Selected` (streaming-api/src/requestHandlers/playlist.ts:20-30): the rows a `where` clause selects.
- `Playlists.Requested` (streaming-api/src/requestHandlers/playlist.ts:87): `req.body.trackIds`, or no ids when it is absent.
- `Playlists.RequestedTracks` (streaming-api/src/requestHandlers/playlist.ts:108-112): the tracks of the create reply, the i-th requested track at position i + 1.

## Left out

- Audio streaming: `index.ts:77` routes `/tracks/:track_id/stream` to `track.stream_one`, which `requestHandlers/track.ts` does not define, so there is no streaming code to model.
- The thin handlers for artists, albums, tracks and the seed script, the superstruct wrappers in `middleware.ts`, routing and configuration: wiring around the modelled core.
- `get_one` of playlists and genres: a single lookup with a 404; the core named above does not include it.
- Unexpected store failures: the modelled store methods never throw anything but the P2002, P2003 and P2025 outcomes. The 500 branches of `create_one` ("Failed to create playlist/genre") and `delete_one` ("Failed to delete playlist/genre") are stated in `Playlists.CreateCatch`, `Genres.CreateCatch` and `Errors.DeleteCatch`, but the handler methods never reach them. The same holds for both `get_all` catch blocks (400 "Invalid query parameters", 500), which the model leaves out.
- Catalog.Store.CreateGenre: a `parentId` equal to the id about to be assigned gets P2003, because the parent is looked up before insertion. A database that checks the foreign key after inserting the row would accept such a self-parented genre, which `delete_one` could then never remove. The schema is not part of this model.
- Timestamps (`createdAt`, `updatedAt`) of every returned playlist and genre (the create replies and the `get_all` rows, which `PlaylistRow` and `GenreRow` leave out): they come from the database clock.
- UUID generation, logging (`console.error`), `NODE_ENV` stack traces and `async` scheduling: side effects outside the decision logic.
- `Number()` of request parameters and JS doubles in general: the model takes the result of `Number(param)` as an integer or NaN, with no -0, no fractions, no exponent spelling and no precision limit above 2^53.
- Query parameters given as arrays (`?name=a&name=b`) and `String()` of them: the name query is a string or absent.
- Collation and case-insensitivity of the database's `contains` and `orderBy`: names are compared character by character; rows with equal names come in an unspecified order.
- The Prisma schema, which is not part of the model: duplicate track ids in one create request are accepted as separate rows, and deleting a playlist is taken to delete its rows.
- Catalog.Store.DeleteGenre: requires that the genre has no children; the handler only deletes after the child check, so what the database does with children is not modelled.
- Catalog.Store.CreateGenre: a body whose name is taken and whose parent is missing fails with P2002 in the model; which of P2002 and P2003 the database reports then depends on the order in which it checks constraints, which the source does not fix.
- Body fields sent more than once in a multipart form (which reach `transformFormData` as arrays, and `parseInt(String(array))` reads them): `Js.Value` has no arrays or objects, so every body field is a single value.
- Concurrency: the gap between the child check and the delete in genre `delete_one`, and concurrent transactions, are not modelled; each handler runs alone.
- Auto-increment ids after a rolled-back transaction: the rollback restores the counter too, while a real database may skip the id.
