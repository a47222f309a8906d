/**
 * The contact-form endpoint: it checks the fields and the Telegram
 * credentials, then relays one message to the Telegram Bot API. The call to
 * Telegram is replaced by its outcome, so the handler is a decision function
 * from (body, environment, Telegram outcome) to (request sent, response).
 */
module ContactRoute {
  import opened Wrappers
  import opened Strings
  import opened Environment

  const FIELDS_REQUIRED := "All fields are required"
  const CONFIGURATION_ERROR := "Server configuration error"
  const SEND_FAILED := "Failed to send message"
  const PROCESSING_ERROR := "An error occurred while processing your request"
  const SENT := "Your message has been sent successfully!"

  /** The first part of the message, up to the sender's name. */
  const HEADER := "\U{1F514} New Contact Form Submission\n\n\U{1F464} Name: "
  const MESSAGE_LABEL := "\n\U{1F4AC} Message:"

  /** The JSON request body; a missing or `null` field is `None`. */
  datatype ContactBody = ContactBody(name: Option<string>, surname: Option<string>, message: Option<string>)

  /** The POST to the Bot API: its URL and the `chat_id`, `text` and `parse_mode` fields of its body. */
  datatype TelegramRequest = TelegramRequest(url: string, chatId: string, text: string, parseMode: string)

  /** How the Telegram call ended: a reply with its `ok` flag, or a thrown error (no connection, or a reply that is not JSON). */
  datatype TelegramReply = Replied(ok: bool) | Threw

  /** `{ success: true, message }` or `{ success: false, error }`. */
  datatype ContactJson = Delivered(message: string) | Rejected(error: string)

  datatype ContactResponse = ContactResponse(status: int, body: ContactJson)

  /** What the handler sent to Telegram, if anything, and what it answered. */
  datatype Outcome = Outcome(request: Option<TelegramRequest>, response: ContactResponse)

  /** The message template, trimmed at both ends. */
  function TelegramText(name: string, surname: string, message: string): string {
    Trim("\n" + HEADER + name + " " + surname + MESSAGE_LABEL + " " + message + "\n    ")
  }

  function TelegramUrl(botToken: string): string {
    "https://api.telegram.org/bot" + botToken + "/sendMessage"
  }

  predicate FieldsPresent(body: ContactBody) {
    TruthyOpt(body.name) && TruthyOpt(body.surname) && TruthyOpt(body.message)
  }

  predicate CredentialsPresent(env: Env) {
    TruthyOpt(env.botToken) && TruthyOpt(env.chatId)
  }

  /** `POST /api/contact`: success is reported only for a message that was sent and accepted. */
  function HandleContact(body: ContactBody, env: Env, reply: TelegramReply): (o: Outcome)
    ensures o.response.status == 200 <==> o.request.Some? && reply == Replied(true)
  {
    if !FieldsPresent(body) then
      Outcome(None, ContactResponse(400, Rejected(FIELDS_REQUIRED)))
    else if !CredentialsPresent(env) then
      Outcome(None, ContactResponse(500, Rejected(CONFIGURATION_ERROR)))
    else
      var request := TelegramRequest(
        TelegramUrl(env.botToken.value),
        env.chatId.value,
        TelegramText(body.name.value, body.surname.value, body.message.value),
        "HTML");
      var response :=
        match reply
        case Threw => ContactResponse(500, Rejected(PROCESSING_ERROR))
        case Replied(ok) =>
          if ok then ContactResponse(200, Delivered(SENT)) else ContactResponse(500, Rejected(SEND_FAILED));
      Outcome(Some(request), response)
  }

  /**
   * The field check comes first: a missing or empty field gives 400 and nothing
   * is sent, whatever the credentials and Telegram would do; with the fields
   * present, missing credentials give 500 and nothing is sent.
   */
  lemma GuardOrder(body: ContactBody, env: Env, reply: TelegramReply)
    ensures !FieldsPresent(body) ==> HandleContact(body, env, reply) == Outcome(None, ContactResponse(400, Rejected(FIELDS_REQUIRED)))
    ensures FieldsPresent(body) && !CredentialsPresent(env) ==>
      HandleContact(body, env, reply) == Outcome(None, ContactResponse(500, Rejected(CONFIGURATION_ERROR)))
  {
  }

  /**
   * A message is sent exactly when the fields and the credentials are present;
   * it goes to the bot's `sendMessage` URL with the chat id, the filled-in
   * template and HTML parse mode.
   */
  lemma SentIff(body: ContactBody, env: Env, reply: TelegramReply)
    ensures var o := HandleContact(body, env, reply);
      && (o.request.Some? <==> FieldsPresent(body) && CredentialsPresent(env))
      && (o.request.Some? ==> o.request.value == TelegramRequest(
            "https://api.telegram.org/bot" + env.botToken.value + "/sendMessage",
            env.chatId.value,
            TelegramText(body.name.value, body.surname.value, body.message.value),
            "HTML"))
  {
  }

  /**
   * Once sent, only an ok reply gives success (200 with the fixed message); a
   * non-ok reply gives 500 "Failed to send message" and a thrown error the
   * generic 500.
   */
  lemma ReplyMapping(body: ContactBody, env: Env, reply: TelegramReply)
    requires FieldsPresent(body) && CredentialsPresent(env)
    ensures var r := HandleContact(body, env, reply).response;
      && (r.status == 200 <==> reply == Replied(true))
      && (r.status == 200 ==> r.body == Delivered(SENT))
      && (reply == Replied(false) ==> r == ContactResponse(500, Rejected(SEND_FAILED)))
      && (reply == Threw ==> r == ContactResponse(500, Rejected(PROCESSING_ERROR)))
  {
  }

  /** Fields are not trimmed before the check: whitespace-only fields are sent. */
  lemma WhitespaceFieldsAccepted(env: Env, reply: TelegramReply)
    requires CredentialsPresent(env)
    ensures HandleContact(ContactBody(Some(" "), Some(" "), Some(" ")), env, reply).request.Some?
  {
  }

  /** When the message ends in a non-whitespace character, the text is the template without its surrounding blank lines. */
  lemma TelegramTextPlain(name: string, surname: string, message: string)
    requires message != [] && !IsWhitespace(message[|message| - 1])
    ensures TelegramText(name, surname, message) == HEADER + name + " " + surname + MESSAGE_LABEL + " " + message
  {
    var core := HEADER + name + " " + surname + MESSAGE_LABEL + " " + message;
    assert core[0] == HEADER[0];
    assert core[|core| - 1] == message[|message| - 1];
    TrimPadded("\n", core, "\n    ");
    assert "\n" + core + "\n    " == "\n" + HEADER + name + " " + surname + MESSAGE_LABEL + " " + message + "\n    ";
  }

  /** A whitespace-only message is trimmed away together with the space after the label. */
  lemma TelegramTextBlankMessage(name: string, surname: string, message: string)
    requires AllWhitespace(message)
    ensures TelegramText(name, surname, message) == HEADER + name + " " + surname + MESSAGE_LABEL
  {
    var core := HEADER + name + " " + surname + MESSAGE_LABEL;
    var post := " " + message + "\n    ";
    assert core[0] == HEADER[0];
    assert core[|core| - 1] == ':';
    assert AllWhitespace(post) by {
      forall i | 0 <= i < |post| ensures IsWhitespace(post[i]) {
        if 1 <= i < 1 + |message| {
          assert post[i] == message[i - 1];
        }
      }
    }
    TrimPadded("\n", core, post);
    assert "\n" + core + post == "\n" + HEADER + name + " " + surname + MESSAGE_LABEL + " " + message + "\n    ";
  }
}
