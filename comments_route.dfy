/**
 * The `/api/comments` endpoints: `GET` lists every comment newest first and
 * `POST` validates, normalises and inserts one. Responses are (status, JSON body)
 * records; the Supabase admin client is obtained through the lazily created
 * instance of `SupabaseServer`.
 */
module CommentsRoute {
  import opened Wrappers
  import opened Strings
  import opened Environment
  import opened CommentStore
  import SupabaseServer

  const TEXT_REQUIRED := "Comment text is required"
  const CREATE_FAILED := "Failed to create comment"
  const FETCH_FAILED := "Failed to fetch comments"
  const GUEST := "Guest"

  /** The JSON request body of `POST`; a missing or `null` field is `None`. */
  datatype CreateBody = CreateBody(name: Option<string>, text: Option<string>, replyTo: Option<string>)

  datatype Json =
    | CommentsJson(comments: seq<Comment>)
    | CommentJson(comment: Comment)
    | ErrorJson(error: string)

  datatype Response = Response(status: int, body: Json)

  /** The negation of `!text || text.trim().length === 0`. */
  predicate HasText(text: Option<string>) {
    TruthyOpt(text) && |Trim(text.value)| != 0
  }

  /** Text is accepted exactly when it is present and not whitespace only. */
  lemma HasTextIff(text: Option<string>)
    ensures HasText(text) <==> text.Some? && !AllWhitespace(text.value)
  {
    if text.Some? {
      TrimBlank(text.value);
    }
  }

  /** `name && name.trim() ? name.trim() : 'Guest'`. */
  function CommentName(name: Option<string>): (r: string)
    ensures r != ""
    ensures name.None? || AllWhitespace(name.value) ==> r == GUEST
    ensures name.Some? && !AllWhitespace(name.value) ==> r == Trim(name.value)
  {
    if TruthyOpt(name) then
      TrimBlank(name.value);
      if Truthy(Trim(name.value)) then Trim(name.value) else GUEST
    else
      GUEST
  }

  /** `reply_to || null`: a truthy reference is stored as given, anything else (the empty string included) as `null`. */
  function StoredReplyTo(replyTo: Option<string>): (r: Option<string>)
    ensures r.None? <==> replyTo.None? || replyTo.value == ""
    ensures r.Some? ==> r == replyTo
  {
    if TruthyOpt(replyTo) then replyTo else None
  }

  /** `GET`: every row newest first, or 500 when the client cannot be obtained or the query fails. */
  method Get(env: Env, admin: SupabaseServer.AdminInstance, table: CommentTable, fault: bool) returns (resp: Response)
    requires admin.Valid() && table.Valid()
    modifies admin
    ensures admin.Valid()
    ensures !SupabaseServer.IsSupabaseAdminConfigured(env) || old(admin.instance).Some? ==>
      admin.instance == old(admin.instance) && admin.creations == old(admin.creations)
    ensures SupabaseServer.IsSupabaseAdminConfigured(env) && old(admin.instance).None? ==>
      admin.instance == Some(SupabaseServer.AdminClient(env.supabaseUrl.value, env.supabaseServiceRoleKey.value, false, false))
    ensures !SupabaseServer.IsSupabaseAdminConfigured(env) || fault ==> resp == Response(500, ErrorJson(FETCH_FAILED))
    ensures SupabaseServer.IsSupabaseAdminConfigured(env) && !fault ==>
      resp.status == 200 && resp.body.CommentsJson? &&
      multiset(resp.body.comments) == multiset(table.rows) && NewestFirst(resp.body.comments)
      && UniqueIds(resp.body.comments)
  {
    var client := admin.GetSupabaseAdmin(env);
    if client.Failure? {
      return Response(500, ErrorJson(FETCH_FAILED));
    }
    var comments := table.SelectNewestFirst(fault);
    if comments.None? {
      return Response(500, ErrorJson(FETCH_FAILED));
    }
    resp := Response(200, CommentsJson(comments.value));
  }

  /**
   * `POST`: rejects missing or blank text with 400 before the database is
   * touched; otherwise inserts the normalised row with no likes and returns it,
   * or answers 500 when the client cannot be obtained or the insert fails.
   * `id` and `now` are what the database generates for the row.
   */
  method Post(env: Env, admin: SupabaseServer.AdminInstance, table: CommentTable, body: CreateBody, id: string, now: int, fault: bool)
    returns (resp: Response)
    requires admin.Valid() && table.Valid()
    modifies admin, table
    ensures admin.Valid() && table.Valid()
    ensures !HasText(body.text) ==>
      && resp == Response(400, ErrorJson(TEXT_REQUIRED)) && table.rows == old(table.rows)
      && admin.instance == old(admin.instance) && admin.creations == old(admin.creations)
    ensures HasText(body.text) && (!SupabaseServer.IsSupabaseAdminConfigured(env) || old(admin.instance).Some?) ==>
      admin.instance == old(admin.instance) && admin.creations == old(admin.creations)
    ensures HasText(body.text) && SupabaseServer.IsSupabaseAdminConfigured(env) && old(admin.instance).None? ==>
      admin.instance == Some(SupabaseServer.AdminClient(env.supabaseUrl.value, env.supabaseServiceRoleKey.value, false, false))
    ensures HasText(body.text) ==>
      var row := Comment(id, CommentName(body.name), Trim(body.text.value), StoredReplyTo(body.replyTo), 0, now);
      var inserted := SupabaseServer.IsSupabaseAdminConfigured(env) && !fault && id !in Ids(old(table.rows));
      && (inserted ==> resp == Response(200, CommentJson(row)) && table.rows == old(table.rows) + [row])
      && (!inserted ==> resp == Response(500, ErrorJson(CREATE_FAILED)) && table.rows == old(table.rows))
  {
    if !HasText(body.text) {
      return Response(400, ErrorJson(TEXT_REQUIRED));
    }
    var commentName := CommentName(body.name);
    var commentText := Trim(body.text.value);
    var client := admin.GetSupabaseAdmin(env);
    if client.Failure? {
      return Response(500, ErrorJson(CREATE_FAILED));
    }
    var comment := table.Insert(commentName, commentText, StoredReplyTo(body.replyTo), 0, id, now, fault);
    if comment.None? {
      return Response(500, ErrorJson(CREATE_FAILED));
    }
    resp := Response(200, CommentJson(comment.value));
  }

  /** A created comment shows up in the next listing: the listing gains exactly that row. */
  lemma ListingAfterInsert(rows: seq<Comment>, row: Comment)
    ensures multiset(OrderNewestFirst(rows + [row])) == multiset(OrderNewestFirst(rows)) + multiset{row}
  {
  }
}
