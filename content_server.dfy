/**
 * The list, watched and comment handlers of backend/src/index.js as the server
 * runs them: each table is an object whose rows the handler rewrites in place,
 * after the same validation and early returns as the source. Every method is
 * proved to leave its table and answer as the matching function of module
 * Content says, so the properties proved there carry over. `list_items` and
 * `watched_items` run the same code, so both are an `ItemTable`.
 */
module ContentServer {
  import opened Common
  import opened Text
  import opened JsValues
  import opened AccountStore
  import opened Content

  /** One of `list_items` and `watched_items`. */
  class ItemTable {
    var rows: Items

    constructor()
      ensures rows == map[]
    {
      rows := map[];
    }

    /** POST /me/list, POST /me/watched. */
    method Save(user: UserId, mediaTypeIn: Option<Json>, tmdbIdIn: Option<Json>,
                titleIn: Option<Json>, posterIn: Option<Json>) returns (answer: Answer)
      modifies this
      ensures Saved(rows, answer) == SaveItem(old(rows), user, mediaTypeIn, tmdbIdIn, titleIn, posterIn)
    {
      var title := OptionalText(titleIn);
      var posterUrl := OptionalText(posterIn);
      var key := ItemKeyOf(user, mediaTypeIn, tmdbIdIn);
      if key.Err? {
        return key.error;
      }
      var k := key.value;
      if k in rows {
        rows := rows[k := ItemRow(Coalesce(title, rows[k].title), Coalesce(posterUrl, rows[k].posterUrl))];
      } else {
        rows := rows[k := ItemRow(title, posterUrl)];
      }
      answer := Accepted(201);
    }

    /** DELETE /me/list, DELETE /me/watched. */
    method Delete(user: UserId, mediaTypeIn: Option<Json>, tmdbIdIn: Option<Json>) returns (answer: Answer)
      modifies this
      ensures Saved(rows, answer) == DeleteItem(old(rows), user, mediaTypeIn, tmdbIdIn)
    {
      var key := ItemKeyOf(user, mediaTypeIn, tmdbIdIn);
      if key.Err? {
        return key.error;
      }
      rows := rows - {key.value};
      answer := Accepted(200);
    }
  }

  /** `comments` and `comment_votes`. */
  class CommentBoard {
    var comments: map<CommentId, Comment>
    var votes: map<VoteKey, int>

    function State(): Discussion
      reads this
    {
      Discussion(comments, votes)
    }

    ghost predicate Valid()
      reads this
    {
      VotesWellFormed(State())
    }

    constructor()
      ensures Valid() && State() == Discussion(map[], map[])
    {
      comments := map[];
      votes := map[];
    }

    /** POST /comments. */
    method Create(user: UserId, mediaTypeIn: Option<Json>, tmdbIdIn: Option<Json>, bodyIn: Option<Json>,
                  newId: CommentId) returns (answer: Answer)
      requires Valid() && newId !in comments
      modifies this
      ensures Saved(State(), answer) == CreateComment(old(State()), user, mediaTypeIn, tmdbIdIn, bodyIn, newId)
      ensures Valid()
    {
      var body := CommentText(bodyIn);
      var mediaType := MediaTypeOf(mediaTypeIn);
      if mediaType.None? {
        return Refused(400, "Invalid mediaType");
      }
      var tmdbId := ToNumber(tmdbIdIn);
      if tmdbId.None? {
        return Refused(400, "Invalid tmdbId");
      }
      if body == "" || Utf16Length(body) < 2 {
        return Refused(400, "Comment too short");
      }
      if Utf16Length(body) > 1000 {
        return Refused(400, "Comment too long");
      }
      comments := comments[newId := Comment(user, mediaType.value, tmdbId.value, body)];
      answer := CommentCreated(newId);
    }

    /** DELETE /comments/:id. */
    method Delete(user: UserId, idIn: string) returns (answer: Answer)
      requires Valid()
      modifies this
      ensures Saved(State(), answer) == DeleteComment(old(State()), user, idIn)
      ensures Valid()
    {
      var id := RouteId(idIn);
      if id == "" {
        return Refused(400, "Invalid id");
      }
      if id !in comments {
        return Refused(404, "Not found");
      }
      if comments[id].author != user {
        return Refused(403, "Forbidden");
      }
      comments := comments - {id};
      answer := Accepted(200);
    }

    /** POST /comments/:id/vote. */
    method CastVote(user: UserId, idIn: string, valueIn: Option<Json>) returns (answer: Answer)
      requires Valid()
      modifies this
      ensures Saved(State(), answer) == Vote(old(State()), user, idIn, valueIn)
      ensures Valid()
    {
      var id := RouteId(idIn);
      var value := ToNumber(valueIn);
      if id == "" {
        return Refused(400, "Invalid id");
      }
      if !(value == Some(-1) || value == Some(0) || value == Some(1)) {
        return Refused(400, "Invalid vote");
      }
      if id !in comments {
        return Refused(404, "Not found");
      }
      if value.value == 0 {
        votes := votes - {VoteKey(id, user)};
        return Voted(0);
      }
      votes := votes[VoteKey(id, user) := value.value];
      answer := Voted(value.value);
    }
  }
}
