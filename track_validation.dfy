/**
  Validation of track bodies: `transformFormData`, the middleware that turns
  the string fields of a multipart form back into numbers and a boolean,
  and the field rules of the `TrackCreateBody` and `TrackConnectBody`
  schemas.
 */
module TrackValidation {
  import opened Js

  /** A request body: field name to value. An absent field reads as `undefined`. */
  type Body = map<string, Value>

  function Field(body: Body, key: string): Value
  {
    if key in body then body[key] else Undefined
  }

  /**
    The value transformFormData leaves in one field, for a given reading of
    numbers: a truthy `artist_id` or `album_id` becomes `parse` of it, a
    truthy `hasAlbum` becomes whether it is exactly the string "true"; every
    other field and every falsy value is left alone.
   */
  function CoercedFieldWith(parse: Value -> Value, key: string, v: Value): Value
  {
    if (key == "artist_id" || key == "album_id") && Truthy(v) then parse(v)
    else if key == "hasAlbum" && Truthy(v) then HasAlbumOf(v)
    else v
  }

  function CoercedWith(parse: Value -> Value, body: Body): (r: Body)
    ensures r.Keys == body.Keys
  {
    map k | k in body :: CoercedFieldWith(parse, k, body[k])
  }

  /** One guarded assignment `if (body[key]) body[key] = f(body[key])`. */
  function Assign(body: Body, key: string, f: Value -> Value): Body
  {
    if Truthy(Field(body, key)) then body[key := f(body[key])] else body
  }

  /** `hasAlbum === 'true'`: strict equality with the string "true". */
  function HasAlbumOf(v: Value): Value
  {
    Bool(v == Str("true"))
  }

  /** The three assignments in sequence produce the field-by-field result. */
  lemma SequentialAssignments(parse: Value -> Value, body: Body)
    ensures Assign(Assign(Assign(body, "artist_id", parse), "album_id", parse), "hasAlbum", HasAlbumOf) == CoercedWith(parse, body)
  {
  }

  /** The body after transformFormData, field by field, with numbers read by parseInt. */
  function Coerced(body: Body): (r: Body)
    ensures r.Keys == body.Keys
  {
    CoercedWith(ParseIntValue, body)
  }

  /** The Express request seen by the middleware: its body and how often `next` has been called. */
  class FormRequest {
    var body: Body
    var nextCalls: nat

    constructor (body: Body)
      ensures this.body == body && nextCalls == 0
    {
      this.body := body;
      nextCalls := 0;
    }

    /** `transformFormData`: three guarded in-place assignments, then `next()` exactly once. */
    method TransformFormData()
      modifies this
      ensures body == Coerced(old(body))
      ensures nextCalls == old(nextCalls) + 1
    {
      SequentialAssignments(ParseIntValue, body);
      if Truthy(Field(body, "artist_id")) {
        body := body["artist_id" := ParseIntValue(body["artist_id"])];
      }
      if Truthy(Field(body, "album_id")) {
        body := body["album_id" := ParseIntValue(body["album_id"])];
      }
      if Truthy(Field(body, "hasAlbum")) {
        body := body["hasAlbum" := HasAlbumOf(body["hasAlbum"])];
      }
      nextCalls := nextCalls + 1;
    }
  }

  /** `refine(number(), 'positive', value => value > 0)`: a number (NaN is not one) above zero. */
  predicate PositiveNumber(v: Value)
    ensures PositiveNumber(v) ==> Truthy(v) && v != NaN
  {
    v.Num? && v.n > 0
  }

  /** The fields TrackCreateBody knows; `object()` rejects a body with any other. */
  const CreateFields: set<string> := {"title", "artist_id", "hasAlbum", "album_id"}

  /** TrackCreateBody: only its four fields, each with its rule. */
  predicate ValidCreateBody(body: Body)
    ensures ValidCreateBody(body) ==> "title" in body && "artist_id" in body
  {
    && body.Keys <= CreateFields
    && Field(body, "title").Str?
    && PositiveNumber(Field(body, "artist_id"))
    && (Field(body, "hasAlbum") == Undefined || Field(body, "hasAlbum").Bool?)
    && (Field(body, "album_id") == Undefined || PositiveNumber(Field(body, "album_id")))
  }

  /** TrackConnectBody: only `album_id`, a positive number. */
  predicate ValidConnectBody(body: Body)
    ensures ValidConnectBody(body) ==> body.Keys == {"album_id"}
  {
    body.Keys <= {"album_id"} && PositiveNumber(Field(body, "album_id"))
  }

  /** `object()` is strict: a field outside the schema fails both schemas, whatever the other fields hold. */
  lemma UnknownFieldIsRejected(body: Body, k: string)
    requires k in body && k !in CreateFields
    ensures !ValidCreateBody(body)
    ensures !ValidConnectBody(body)
  {
  }

  /** The three coercions in detail, and that every other field keeps its value. */
  lemma CoercionEffects(body: Body)
    ensures forall k :: k in body && k != "artist_id" && k != "album_id" && k != "hasAlbum" ==> Coerced(body)[k] == body[k]
    ensures forall k :: k in body && !Truthy(body[k]) ==> Coerced(body)[k] == body[k]
    ensures "hasAlbum" in body && Truthy(body["hasAlbum"]) ==>
      Coerced(body)["hasAlbum"] == Bool(body["hasAlbum"] == Str("true"))
    ensures "artist_id" in body && Truthy(body["artist_id"]) ==>
      var a := Coerced(body)["artist_id"]; a.Num? || a.NaN?
  {
  }

  /** Only the exact string "true" turns hasAlbum on: "false", "TRUE" and even the boolean true turn it off. */
  lemma HasAlbumIsExactStringTrue(body: Body)
    requires "hasAlbum" in body
    ensures Coerced(body)["hasAlbum"] == Bool(true) <==> body["hasAlbum"] == Str("true")
    ensures body["hasAlbum"] in {Str("false"), Str("TRUE"), Bool(true)} ==> Coerced(body)["hasAlbum"] == Bool(false)
  {
    var v := body["hasAlbum"];
    assert Coerced(body)["hasAlbum"] == CoercedFieldWith(ParseIntValue, "hasAlbum", v);
    assert Str("true") != Str("false") && Str("true") != Str("TRUE");
  }

  /** A multipart form carries every field as its string form. */
  function FormEncode(body: Body): (r: Body)
    ensures r.Keys == body.Keys
  {
    map k | k in body :: Str(ToString(body[k]))
  }

  /** The round trip for any reading of numbers that reads back the form spelling of the two id fields. */
  lemma {:induction false} FormRoundTripWith(parse: Value -> Value, body: Body)
    requires ValidCreateBody(body)
    requires forall k :: k in body ==> body[k] != Undefined
    requires forall k :: k in body && (k == "artist_id" || k == "album_id") ==> parse(Str(ToString(body[k]))) == body[k]
    ensures CoercedWith(parse, FormEncode(body)) == body
  {
    var form := FormEncode(body);
    forall k | k in body
      ensures CoercedWith(parse, form)[k] == body[k]
    {
      var v := body[k];
      assert CoercedWith(parse, form)[k] == CoercedFieldWith(parse, k, Str(ToString(v)));
      if k == "hasAlbum" {
        assert v.Bool?;
      } else if k == "title" {
        assert v.Str?;
      }
    }
  }

  /**
    The coercion undoes the form encoding: a valid create body that travels as multipart strings comes back as itself, and so
    passes the schema again.
   */
  lemma CreateBodySurvivesFormEncoding(body: Body)
    requires ValidCreateBody(body)
    requires forall k :: k in body ==> body[k] != Undefined
    ensures Coerced(FormEncode(body)) == body
    ensures ValidCreateBody(Coerced(FormEncode(body)))
  {
    forall k | k in body && (k == "artist_id" || k == "album_id")
      ensures ParseIntValue(Str(ToString(body[k]))) == body[k]
    {
      ParseIntOfNumberToString(body[k].n);
    }
    FormRoundTripWith(ParseIntValue, body);
  }

  /** An artist_id that starts with a letter (say "abc") becomes NaN, so the create schema rejects the body. */
  lemma LetterArtistIsRejected(body: Body)
    requires "artist_id" in body && body["artist_id"].Str?
    requires var s := body["artist_id"].s; s != [] && (('a' <= s[0] <= 'z') || ('A' <= s[0] <= 'Z'))
    ensures Coerced(body)["artist_id"] == NaN
    ensures !ValidCreateBody(Coerced(body))
  {
    ParseIntOfLetterIsNaN(body["artist_id"].s);
  }

  /**
    An artist_id that starts with a non-zero digit is read as its leading
    digits alone: "12abc" becomes 12, a positive number the create schema
    accepts as an artist id.
   */
  lemma DigitArtistIsReadAsPrefix(body: Body, d: string, rest: string)
    requires "artist_id" in body && body["artist_id"] == Str(d + rest)
    requires d != [] && '1' <= d[0] <= '9'
    requires forall i :: 0 <= i < |d| ==> IsDecimalDigit(d[i])
    requires rest == [] || !IsDecimalDigit(rest[0])
    ensures Coerced(body)["artist_id"] == Num(DigitsValue(d, 10))
    ensures PositiveNumber(Coerced(body)["artist_id"])
  {
    ParseIntOfDigitPrefix(d, rest);
    assert DigitsValue(d, 10) > 0 by {
      DecimalValuePositive(d);
    }
  }
}
