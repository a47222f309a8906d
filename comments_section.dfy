/**
 * The client state of the comments widget: the fetched list and the form
 * cells, changed by the fetch, submit, like, delete, reply and cancel
 * handlers. Each network call is replaced by its outcome, given as an input.
 */
module CommentsSection {
  import opened Wrappers
  import opened Strings
  import opened CommentStore
  import opened CommentsView
  import CommentsRoute

  const GUEST := "Guest"
  const UNAUTHORIZED := "Unauthorized"

  /** How a `fetch` ended, as a handler sees it: `response.ok`, a non-ok status, or a thrown error. */
  datatype FetchOutcome = Ok | NotOk | Threw

  /** How `fetchComments` ended: the parsed body's `comments` field (possibly missing), or a thrown error. */
  datatype ListOutcome = Listed(comments: Option<seq<Comment>>) | ListThrew

  /** `name.trim() || 'Guest'`. */
  function SubmitName(name: string): (r: string)
    ensures r != ""
    ensures AllWhitespace(name) ==> r == GUEST
    ensures !AllWhitespace(name) ==> r == Trim(name)
  {
    TrimBlank(name);
    if Truthy(Trim(name)) then Trim(name) else GUEST
  }

  /** The JSON body `handleSubmit` posts. */
  function SubmitPayload(name: string, text: string, replyTo: Option<string>): CommentsRoute.CreateBody {
    CommentsRoute.CreateBody(Some(SubmitName(name)), Some(Trim(text)), replyTo)
  }

  /**
   * What the widget submits is what the server stores: the text is accepted,
   * the stored name and text are the ones the widget computed, and the reply
   * target (an id or `null`) is kept.
   */
  lemma SubmittedCommentStored(name: string, text: string, replyTo: Option<string>)
    requires !AllWhitespace(text)
    requires replyTo.Some? ==> replyTo.value != ""
    ensures var body := SubmitPayload(name, text, replyTo);
      && CommentsRoute.HasText(body.text)
      && CommentsRoute.CommentName(body.name) == SubmitName(name)
      && Trim(body.text.value) == Trim(text)
      && CommentsRoute.StoredReplyTo(body.replyTo) == replyTo
  {
    TrimBlank(text);
    TrimIdempotent(text);
    CommentsRoute.HasTextIff(Some(Trim(text)));
    TrimBlank(Trim(text));
    var n := SubmitName(name);
    if AllWhitespace(name) {
      TrimPadded([], GUEST, []);
      assert [] + GUEST + [] == GUEST;
      TrimBlank(GUEST);
    } else {
      TrimIdempotent(name);
      TrimBlank(Trim(name));
    }
  }

  class Widget {
    var comments: seq<Comment>
    var name: string
    var text: string
    var replyTo: Option<string>
    var loading: bool
    var refreshKey: nat

    constructor ()
      ensures comments == [] && name == "" && text == "" && replyTo == None
      ensures !loading && refreshKey == 0
    {
      comments := [];
      name := "";
      text := "";
      replyTo := None;
      loading := false;
      refreshKey := 0;
    }

    /** `fetchComments`: `data.comments || []` replaces the list; a thrown error keeps it. */
    method FetchComments(outcome: ListOutcome)
      modifies this
      ensures outcome == Listed(None) ==> comments == []
      ensures outcome.Listed? && outcome.comments.Some? ==> comments == outcome.comments.value
      ensures outcome.ListThrew? ==> comments == old(comments)
      ensures name == old(name) && text == old(text) && replyTo == old(replyTo)
      ensures loading == old(loading) && refreshKey == old(refreshKey)
    {
      if outcome.Listed? {
        comments := if outcome.comments.Some? then outcome.comments.value else [];
      }
    }

    /** The name input's `onChange`. */
    method ChangeName(value: string)
      modifies this
      ensures name == value
      ensures comments == old(comments) && text == old(text) && replyTo == old(replyTo)
      ensures loading == old(loading) && refreshKey == old(refreshKey)
    {
      name := value;
    }

    /** The comment textarea's `onChange`. */
    method ChangeText(value: string)
      modifies this
      ensures text == value
      ensures comments == old(comments) && name == old(name) && replyTo == old(replyTo)
      ensures loading == old(loading) && refreshKey == old(refreshKey)
    {
      text := value;
    }

    /** `disabled={loading || !text.trim()}`: the button is off while a post is in flight or the text is blank. */
    predicate SubmitDisabled()
      reads this
      ensures SubmitDisabled() <==> loading || AllWhitespace(text)
    {
      TrimBlank(text);
      loading || !Truthy(Trim(text))
    }

    /**
     * `handleSubmit` up to its `fetch`: blank text sends nothing and changes
     * nothing; otherwise the payload is posted and `loading` is set.
     */
    method HandleSubmit() returns (request: Option<CommentsRoute.CreateBody>)
      modifies this
      ensures AllWhitespace(old(text)) ==> request == None && loading == old(loading)
      ensures !AllWhitespace(old(text)) ==> request == Some(SubmitPayload(old(name), old(text), old(replyTo))) && loading
      ensures comments == old(comments) && name == old(name) && text == old(text) && replyTo == old(replyTo)
      ensures refreshKey == old(refreshKey)
    {
      TrimBlank(text);
      if !Truthy(Trim(text)) {
        return None;
      }
      loading := true;
      request := Some(SubmitPayload(name, text, replyTo));
    }

    /**
     * The rest of `handleSubmit`, once the `fetch` has ended: an ok response
     * clears the form and the reply target and bumps `refreshKey`; a non-ok
     * response or a thrown error keeps them. `loading` ends false either way.
     */
    method SubmitSettled(outcome: FetchOutcome)
      modifies this
      ensures !loading
      ensures outcome == Ok ==> text == "" && name == "" && replyTo == None && refreshKey == old(refreshKey) + 1
      ensures outcome != Ok ==>
        text == old(text) && name == old(name) && replyTo == old(replyTo) && refreshKey == old(refreshKey)
      ensures comments == old(comments)
    {
      if outcome == Ok {
        text := "";
        name := "";
        replyTo := None;
        refreshKey := refreshKey + 1;
      }
      loading := false;
    }

    /** `handleLike`: only an ok response bumps `refreshKey`. */
    method HandleLike(outcome: FetchOutcome)
      modifies this
      ensures refreshKey == if outcome == Ok then old(refreshKey) + 1 else old(refreshKey)
      ensures comments == old(comments) && name == old(name) && text == old(text) && replyTo == old(replyTo)
      ensures loading == old(loading)
    {
      if outcome == Ok {
        refreshKey := refreshKey + 1;
      }
    }

    /**
     * `handleDelete`, given what the prompt returned (`None` when cancelled):
     * an empty or cancelled prompt sends nothing; otherwise the password is sent,
     * an ok response bumps `refreshKey` and a non-ok one raises the alert.
     */
    method HandleDelete(password: Option<string>, outcome: FetchOutcome) returns (sent: Option<string>, alert: Option<string>)
      modifies this
      ensures sent == if TruthyOpt(password) then password else None
      ensures alert == if sent.Some? && outcome == NotOk then Some(UNAUTHORIZED) else None
      ensures refreshKey == if sent.Some? && outcome == Ok then old(refreshKey) + 1 else old(refreshKey)
      ensures comments == old(comments) && name == old(name) && text == old(text) && replyTo == old(replyTo)
      ensures loading == old(loading)
    {
      sent, alert := None, None;
      if !TruthyOpt(password) {
        return;
      }
      sent := password;
      if outcome == Ok {
        refreshKey := refreshKey + 1;
      } else if outcome == NotOk {
        alert := Some(UNAUTHORIZED);
      }
    }

    /** The Reply button, which only top-level items carry: the comment becomes the reply target. */
    method ClickReply(c: Comment)
      requires c in ParentComments(comments)
      modifies this
      ensures replyTo == Some(c.id)
      ensures comments == old(comments) && name == old(name) && text == old(text)
      ensures loading == old(loading) && refreshKey == old(refreshKey)
    {
      replyTo := Some(c.id);
    }

    /** The Cancel button of the reply banner: no reply target. */
    method ClickCancel()
      modifies this
      ensures replyTo == None
      ensures comments == old(comments) && name == old(name) && text == old(text)
      ensures loading == old(loading) && refreshKey == old(refreshKey)
    {
      replyTo := None;
    }
  }

  /**
   * A reply composed from the widget is stored pointing at the top-level
   * comment whose Reply button was clicked, with the text as typed, trimmed.
   */
  method ReplyScenario(w: Widget, parent: Comment, typed: string) returns (request: Option<CommentsRoute.CreateBody>)
    requires parent in w.comments && IsTopLevel(parent)
    requires !AllWhitespace(typed) && parent.id != ""
    modifies w
    ensures request.Some?
    ensures CommentsRoute.StoredReplyTo(request.value.replyTo) == Some(parent.id)
    ensures exists p :: p in w.comments && IsTopLevel(p) && CommentsRoute.StoredReplyTo(request.value.replyTo) == Some(p.id)
    ensures request.value.text == Some(Trim(typed))
    ensures w.loading && w.SubmitDisabled()
    ensures w.replyTo == Some(parent.id) && w.text == typed && w.name == old(w.name)
    ensures w.comments == old(w.comments) && w.refreshKey == old(w.refreshKey)
  {
    w.ClickReply(parent);
    w.ChangeText(typed);
    request := w.HandleSubmit();
    SubmittedCommentStored(w.name, typed, Some(parent.id));
  }
}
