/**
 * The per-user media tables and the comment handlers of the backend
 * (backend/src/index.js): saving and deleting list and watched items, and
 * creating, deleting and voting on comments. Request fields are JSON values
 * (`Option<Json>`, `None` for a missing field) and go through the same
 * JavaScript conversions the handlers apply (`Number(...)`, truthiness,
 * `String(...)`). Each table is a map from its unique key to the rest of the
 * row, so "one row per key" holds by construction.
 */
module Content {
  import opened Common
  import opened Text
  import opened JsValues
  import opened AccountStore

  datatype MediaType = Movie | Show

  /** `isValidMediaType(t)`: `t === 'movie' || t === 'show'`. */
  function MediaTypeOf(v: Option<Json>): (r: Option<MediaType>)
    ensures r.Some? <==> v == Some(Str("movie")) || v == Some(Str("show"))
  {
    if v == Some(Str("movie")) then Some(Movie)
    else if v == Some(Str("show")) then Some(Show)
    else None
  }

  /** `v ? String(v) : null`. */
  function OptionalText(v: Option<Json>): Option<string> {
    if Truthy(v) then Some(ToStr(v)) else None
  }

  /** SQL `COALESCE(a, b)`. */
  function Coalesce(a: Option<string>, b: Option<string>): Option<string> {
    if a.Some? then a else b
  }

  /** The unique key `(user_id, media_type, tmdb_id)` of `list_items` and `watched_items`. */
  datatype ItemKey = ItemKey(user: UserId, mediaType: MediaType, tmdbId: int)
  datatype ItemRow = ItemRow(title: Option<string>, posterUrl: Option<string>)
  type Items = map<ItemKey, ItemRow>

  /** The status and JSON body of a reply. */
  datatype Answer =
    | Refused(status: int, error: string)
    | Accepted(status: int)
    | CommentCreated(id: CommentId)
    | Voted(value: int)

  /** A handler's result: the table afterwards and the reply. */
  datatype Saved<T> = Saved(table: T, answer: Answer)

  /** The key a request names: a valid media type and a finite `Number(tmdbId)`, or the 400 it
      gets instead. */
  function ItemKeyOf(user: UserId, mediaTypeIn: Option<Json>, tmdbIdIn: Option<Json>): (r: Result<ItemKey, Answer>)
    ensures r.Ok? <==> MediaTypeOf(mediaTypeIn).Some? && ToNumber(tmdbIdIn).Some?
    ensures r.Ok? ==> r.value == ItemKey(user, MediaTypeOf(mediaTypeIn).value, ToNumber(tmdbIdIn).value)
    ensures r.Err? ==> r.error == Refused(400, if MediaTypeOf(mediaTypeIn).None? then "Invalid mediaType" else "Invalid tmdbId")
  {
    match MediaTypeOf(mediaTypeIn)
    case None => Err(Refused(400, "Invalid mediaType"))
    case Some(mediaType) =>
      match ToNumber(tmdbIdIn)
      case None => Err(Refused(400, "Invalid tmdbId"))
      case Some(tmdbId) => Ok(ItemKey(user, mediaType, tmdbId))
  }

  /** POST /me/list and POST /me/watched: the upsert `ON CONFLICT (user_id, media_type, tmdb_id)
      DO UPDATE` that keeps the stored title and poster where the request gives none. */
  function SaveItem(items: Items, user: UserId, mediaTypeIn: Option<Json>, tmdbIdIn: Option<Json>,
                    titleIn: Option<Json>, posterIn: Option<Json>): (o: Saved<Items>)
  {
    var title := OptionalText(titleIn);
    var posterUrl := OptionalText(posterIn);
    match ItemKeyOf(user, mediaTypeIn, tmdbIdIn)
    case Err(refusal) => Saved(items, refusal)
    case Ok(key) =>
      var row :=
        if key in items then ItemRow(Coalesce(title, items[key].title), Coalesce(posterUrl, items[key].posterUrl))
        else ItemRow(title, posterUrl);
      Saved(items[key := row], Accepted(201))
  }

  /** DELETE /me/list and DELETE /me/watched. */
  function DeleteItem(items: Items, user: UserId, mediaTypeIn: Option<Json>, tmdbIdIn: Option<Json>): (o: Saved<Items>)
  {
    match ItemKeyOf(user, mediaTypeIn, tmdbIdIn)
    case Err(refusal) => Saved(items, refusal)
    case Ok(key) => Saved(items - {key}, Accepted(200))
  }

  /** A save refused for its media type or id writes nothing; an accepted one answers 201 and
      leaves exactly one row under the key, with the new title and poster where given and the
      old ones otherwise, and every other row as it was. */
  lemma SaveItemRules(items: Items, user: UserId, mediaTypeIn: Option<Json>, tmdbIdIn: Option<Json>,
                      titleIn: Option<Json>, posterIn: Option<Json>)
    ensures var o := SaveItem(items, user, mediaTypeIn, tmdbIdIn, titleIn, posterIn);
      var k := ItemKeyOf(user, mediaTypeIn, tmdbIdIn);
      && (k.Err? ==> o == Saved(items, k.error))
      && (k.Ok? ==>
            && o.answer == Accepted(201)
            && k.value in o.table
            && o.table - {k.value} == items - {k.value}
            && (Truthy(titleIn) ==> o.table[k.value].title == Some(ToStr(titleIn)))
            && (!Truthy(titleIn) ==> o.table[k.value].title == if k.value in items then items[k.value].title else None)
            && (Truthy(posterIn) ==> o.table[k.value].posterUrl == Some(ToStr(posterIn)))
            && (!Truthy(posterIn) ==>
                  o.table[k.value].posterUrl == if k.value in items then items[k.value].posterUrl else None))
  {
    var o := SaveItem(items, user, mediaTypeIn, tmdbIdIn, titleIn, posterIn);
    var k := ItemKeyOf(user, mediaTypeIn, tmdbIdIn);
    if k.Ok? {
      assert o.table - {k.value} == items - {k.value};
    }
  }

  /** Saving the same item twice leaves the table as saving it once. */
  lemma SaveItemTwice(items: Items, user: UserId, mediaTypeIn: Option<Json>, tmdbIdIn: Option<Json>,
                      titleIn: Option<Json>, posterIn: Option<Json>)
    ensures var once := SaveItem(items, user, mediaTypeIn, tmdbIdIn, titleIn, posterIn);
      SaveItem(once.table, user, mediaTypeIn, tmdbIdIn, titleIn, posterIn) == once
  {
    var once := SaveItem(items, user, mediaTypeIn, tmdbIdIn, titleIn, posterIn);
    var k := ItemKeyOf(user, mediaTypeIn, tmdbIdIn);
    if k.Ok? {
      var row := once.table[k.value];
      assert ItemRow(Coalesce(OptionalText(titleIn), row.title), Coalesce(OptionalText(posterIn), row.posterUrl)) == row;
      assert once.table[k.value := row] == once.table;
    }
  }

  /** A delete refused for its media type or id writes nothing; an accepted one removes the
      row under the key, if any, and nothing else. */
  lemma DeleteItemRules(items: Items, user: UserId, mediaTypeIn: Option<Json>, tmdbIdIn: Option<Json>)
    ensures var o := DeleteItem(items, user, mediaTypeIn, tmdbIdIn);
      var k := ItemKeyOf(user, mediaTypeIn, tmdbIdIn);
      && (k.Err? ==> o == Saved(items, k.error))
      && (k.Ok? ==> o.answer == Accepted(200) && k.value !in o.table
                    && forall key :: key != k.value ==> (key in o.table <==> key in items))
  {
  }

  /** Deleting what was just saved undoes the save, whatever row was there before. */
  lemma DeleteUndoesSave(items: Items, user: UserId, mediaTypeIn: Option<Json>, tmdbIdIn: Option<Json>,
                         titleIn: Option<Json>, posterIn: Option<Json>)
    ensures var saved := SaveItem(items, user, mediaTypeIn, tmdbIdIn, titleIn, posterIn).table;
      var k := ItemKeyOf(user, mediaTypeIn, tmdbIdIn);
      DeleteItem(saved, user, mediaTypeIn, tmdbIdIn).table == if k.Ok? then items - {k.value} else items
  {
    var k := ItemKeyOf(user, mediaTypeIn, tmdbIdIn);
    if k.Ok? {
      var saved := SaveItem(items, user, mediaTypeIn, tmdbIdIn, titleIn, posterIn).table;
      assert saved - {k.value} == items - {k.value};
    }
  }

  /** Comment ids are the uuid strings the database hands out. */
  type CommentId = string

  datatype Comment = Comment(author: UserId, mediaType: MediaType, tmdbId: int, body: string)

  /** The unique key `(comment_id, user_id)` of `comment_votes`. */
  datatype VoteKey = VoteKey(comment: CommentId, voter: UserId)

  datatype Discussion = Discussion(comments: map<CommentId, Comment>, votes: map<VoteKey, int>)

  /** Every stored vote is an up- or a down-vote. */
  predicate VotesWellFormed(d: Discussion) {
    forall k :: k in d.votes ==> d.votes[k] == 1 || d.votes[k] == -1
  }

  /** `String(req.body?.body || '').trim()`. */
  function CommentText(v: Option<Json>): string {
    Trim(if Truthy(v) then ToStr(v) else "")
  }

  /** `String(req.params?.id || '').trim()` for the `:id` route segment. */
  function RouteId(idIn: string): string {
    Trim(idIn)
  }

  /** POST /comments; `newId` is the uuid `gen_random_uuid()` gives the new row. */
  function CreateComment(d: Discussion, user: UserId, mediaTypeIn: Option<Json>, tmdbIdIn: Option<Json>,
                         bodyIn: Option<Json>, newId: CommentId): (o: Saved<Discussion>)
    requires newId !in d.comments
  {
    var body := CommentText(bodyIn);
    match MediaTypeOf(mediaTypeIn)
    case None => Saved(d, Refused(400, "Invalid mediaType"))
    case Some(mediaType) =>
      match ToNumber(tmdbIdIn)
      case None => Saved(d, Refused(400, "Invalid tmdbId"))
      case Some(tmdbId) =>
        if body == "" || Utf16Length(body) < 2 then Saved(d, Refused(400, "Comment too short"))
        else if Utf16Length(body) > 1000 then Saved(d, Refused(400, "Comment too long"))
        else Saved(d.(comments := d.comments[newId := Comment(user, mediaType, tmdbId, body)]), CommentCreated(newId))
  }

  /** A comment is stored exactly when the request is valid and its trimmed text has a `length`
      of 2 to 1000 UTF-16 code units; it is then stored under the new id, authored by the caller, and nothing else
      changes. */
  lemma CreateCommentRules(d: Discussion, user: UserId, mediaTypeIn: Option<Json>, tmdbIdIn: Option<Json>,
                           bodyIn: Option<Json>, newId: CommentId)
    requires newId !in d.comments
    ensures var o := CreateComment(d, user, mediaTypeIn, tmdbIdIn, bodyIn, newId);
      var body := CommentText(bodyIn);
      && (o.answer.CommentCreated? <==>
            MediaTypeOf(mediaTypeIn).Some? && ToNumber(tmdbIdIn).Some? && 2 <= Utf16Length(body) <= 1000)
      && (!o.answer.CommentCreated? ==> o.table == d && o.answer.Refused? && o.answer.status == 400)
      && (o.answer.CommentCreated? ==>
            && o.answer.id == newId
            && o.table.votes == d.votes
            && o.table.comments == d.comments[newId := Comment(user, MediaTypeOf(mediaTypeIn).value,
                                                              ToNumber(tmdbIdIn).value, body)])
  {
  }

  /** A stored comment is never shorter than 2 or longer than 1000 UTF-16 code units, and has no
      white space at either end. */
  lemma CreatedCommentShape(d: Discussion, user: UserId, mediaTypeIn: Option<Json>, tmdbIdIn: Option<Json>,
                            bodyIn: Option<Json>, newId: CommentId)
    requires newId !in d.comments
    requires CreateComment(d, user, mediaTypeIn, tmdbIdIn, bodyIn, newId).answer.CommentCreated?
    ensures var c := CreateComment(d, user, mediaTypeIn, tmdbIdIn, bodyIn, newId).table.comments[newId];
      2 <= Utf16Length(c.body) <= 1000 && !IsSpace(c.body[0]) && !IsSpace(c.body[|c.body| - 1])
  {
  }

  /** DELETE /comments/:id. */
  function DeleteComment(d: Discussion, user: UserId, idIn: string): (o: Saved<Discussion>)
  {
    var id := RouteId(idIn);
    if id == "" then Saved(d, Refused(400, "Invalid id"))
    else if id !in d.comments then Saved(d, Refused(404, "Not found"))
    else if d.comments[id].author != user then Saved(d, Refused(403, "Forbidden"))
    else Saved(d.(comments := d.comments - {id}), Accepted(200))
  }

  /** Only the author deletes a comment; anyone else gets 403 and nothing changes. A deletion
      removes that comment alone. */
  lemma DeleteCommentRules(d: Discussion, user: UserId, idIn: string)
    ensures var o := DeleteComment(d, user, idIn);
      var id := RouteId(idIn);
      && (o.answer == Accepted(200) <==> id != "" && id in d.comments && d.comments[id].author == user)
      && (o.answer != Accepted(200) ==> o.table == d)
      && (id != "" && id in d.comments && d.comments[id].author != user ==> o.answer == Refused(403, "Forbidden"))
      && (id !in d.comments && id != "" ==> o.answer == Refused(404, "Not found"))
      && (o.answer == Accepted(200) ==> o.table.comments == d.comments - {id} && o.table.votes == d.votes)
  {
  }

  /** POST /comments/:id/vote. */
  function Vote(d: Discussion, user: UserId, idIn: string, valueIn: Option<Json>): (o: Saved<Discussion>)
  {
    var id := RouteId(idIn);
    var value := ToNumber(valueIn);
    if id == "" then Saved(d, Refused(400, "Invalid id"))
    else if !(value == Some(-1) || value == Some(0) || value == Some(1)) then Saved(d, Refused(400, "Invalid vote"))
    else if id !in d.comments then Saved(d, Refused(404, "Not found"))
    else if value.value == 0 then Saved(d.(votes := d.votes - {VoteKey(id, user)}), Voted(0))
    else Saved(d.(votes := d.votes[VoteKey(id, user) := value.value]), Voted(value.value))
  }

  /** A vote of 0 withdraws the caller's vote, a vote of 1 or -1 leaves exactly that value under
      (comment, caller); other values, an empty id and an unknown comment change nothing. No
      one else's vote changes, and every stored vote stays 1 or -1. */
  lemma VoteRules(d: Discussion, user: UserId, idIn: string, valueIn: Option<Json>)
    ensures var o := Vote(d, user, idIn, valueIn);
      var id := RouteId(idIn);
      var value := ToNumber(valueIn);
      var key := VoteKey(id, user);
      && (o.answer.Voted? <==>
            id != "" && id in d.comments && (value == Some(-1) || value == Some(0) || value == Some(1)))
      && (!o.answer.Voted? ==> o.table == d)
      && (id != "" && value != Some(-1) && value != Some(0) && value != Some(1) ==>
            o.answer == Refused(400, "Invalid vote"))
      && (o.answer.Voted? ==>
            && o.answer.value == value.value
            && o.table.comments == d.comments
            && (value == Some(0) ==> key !in o.table.votes)
            && (value != Some(0) ==> key in o.table.votes && o.table.votes[key] == value.value)
            && (forall k :: k != key ==> (k in o.table.votes <==> k in d.votes)
                                         && (k in d.votes ==> o.table.votes[k] == d.votes[k])))
      && (VotesWellFormed(d) ==> VotesWellFormed(o.table))
  {
  }

  /** Casting the same vote twice is casting it once. */
  lemma VoteTwice(d: Discussion, user: UserId, idIn: string, valueIn: Option<Json>)
    ensures var once := Vote(d, user, idIn, valueIn);
      Vote(once.table, user, idIn, valueIn) == once
  {
    var once := Vote(d, user, idIn, valueIn);
    var key := VoteKey(RouteId(idIn), user);
    if once.answer.Voted? {
      if once.answer.value == 0 {
        assert once.table.votes - {key} == once.table.votes;
      } else {
        assert once.table.votes[key := once.answer.value] == once.table.votes;
      }
    }
  }

  /** Withdrawing (a vote of 0) right after voting leaves the votes as if the caller had never
      voted on that comment. */
  lemma WithdrawUndoesVote(d: Discussion, user: UserId, idIn: string, valueIn: Option<Json>)
    requires Vote(d, user, idIn, valueIn).answer.Voted?
    ensures Vote(Vote(d, user, idIn, valueIn).table, user, idIn, Some(Num(0))).table.votes
         == d.votes - {VoteKey(RouteId(idIn), user)}
  {
  }

  /** Creating and deleting comments keeps every stored vote at 1 or -1. */
  lemma CommentChangesKeepVotes(d: Discussion, user: UserId, mediaTypeIn: Option<Json>, tmdbIdIn: Option<Json>,
                                bodyIn: Option<Json>, newId: CommentId, idIn: string)
    requires newId !in d.comments && VotesWellFormed(d)
    ensures VotesWellFormed(CreateComment(d, user, mediaTypeIn, tmdbIdIn, bodyIn, newId).table)
    ensures VotesWellFormed(DeleteComment(d, user, idIn).table)
  {
  }
}
