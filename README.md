# GetGrowth site core, modelled in Dafny

This project models the logic of the GetGrowth marketing site (a Next.js
application) and proves properties of that model:

- **Threaded comments.**
  - The comments API creates and lists comments (`app/api/comments/route.ts`). The Supabase `comments` table is a class that owns a sequence of rows, with `id` as the primary key.
  - The comments widget (`components/CommentsSection.tsx`) covers several things:
    - relative-time labels;
    - the split into top-level comments and one level of replies;
    - the form's state cells, which the submit, like, delete, reply and cancel handlers update.
- **Locale paths.**
  - The middleware adds the default locale to unlocalized paths.
  - The language switcher rewrites the current path for another locale.
  - The translation dictionaries fall back to English.
  - The permanent redirects declared in `next.config.js`.
- **Contact relay.** The contact endpoint checks the form fields and the Telegram credentials, fills in the message template, and maps Telegram's answer to a response.
- **Supabase configuration.** The URL and key guards, and the lazily created, module-level admin and browser clients.

Modules follow the source files. The shared helpers are:

- `Wrappers`: `Option` and `Result`.
- `Strings`: JavaScript truthiness, `trim` and `startsWith`.
- `Environment`: the `process.env` variables, with the credential check that both Supabase guards share.

Inputs are taken as parameters:

- Time is an integer number of milliseconds; `Math.floor` of a division by a positive constant is Dafny's `/`.
- Generated row ids, insert timestamps and database errors are inputs to the table methods.
- The outcome of each `fetch` (ok, not ok, or thrown) is an input to the widget's handlers.
- Telegram's reply is an input to the contact handler.
- The environment is an `Env` value.

Asynchronous handlers are split at their `await`. For example, `handleSubmit` becomes `HandleSubmit`, which runs up to the request and returns its body, and `SubmitSettled`, which applies the outcome.

## Model

| member | source | states |
|---|---|---|
| Strings.Trim | app/api/comments/route.ts:43-44 | `trim` never lengthens a string, and its result is empty or starts and ends with a non-whitespace character |
| Strings.TrimBlank | app/api/comments/route.ts:36 | `s.trim()` is empty exactly when `s` is whitespace only |
| Strings.TrimPadded | app/api/comments/route.ts:43-44 | `trim` returns the core of any whitespace-padded string whose core starts and ends with non-whitespace |
| Strings.TrimIdempotent | app/api/comments/route.ts:43-44 | trimming twice is trimming once |
| Environment.SupabaseCredentialsValidIff | lib/supabase/server.ts:3-10 | the guard holds exactly for an `https://` URL and a key of at least 21 characters; the truthiness tests are implied |
| Environment.TwentyCharacterKeyRefused | lib/supabase/server.ts:8 | a key of exactly 20 characters is refused whatever the URL |
| SupabaseServer.IsSupabaseAdminConfigured | lib/supabase/server.ts:3-10 | definition: the URL and the service-role key pass the credential check; properties in SupabaseCredentialsValidIff and TwentyCharacterKeyRefused |
| SupabaseClient.IsSupabaseConfigured | lib/supabase/client.ts:3-10 | definition: the URL and the anonymous key pass the same credential check; properties in SupabaseCredentialsValidIff and TwentyCharacterKeyRefused |
| SupabaseServer.AdminInstance.GetSupabaseAdmin | lib/supabase/server.ts:14-33 | unconfigured: fails with "Supabase admin is not configured" and leaves the cached instance unchanged; configured: the first call creates one client with the URL, the service-role key, `autoRefreshToken` and `persistSession` off, and later calls return that same instance; the count of `createClient` calls goes up by one on the first configured call only and otherwise stays put, so at most one client is ever created; the guard runs before the cache is consulted |
| SupabaseClient.ClientInstance.GetSupabaseClient | lib/supabase/client.ts:14-27 | unconfigured: fails with "Supabase is not configured" and leaves the cached instance unchanged; configured: the first call creates one client with the URL and the anonymous key, and later calls return that same instance; the count of `createClient` calls goes up by one on the first configured call only and otherwise stays put, so at most one client is ever created |
| CommentStore.InsertNewestFirst | app/api/comments/route.ts:8-11 | inserting one row adds exactly that row, and the list starts with the new row or with the old first row |
| CommentStore.InsertKeepsNewestFirst | app/api/comments/route.ts:8-11 | inserting one row into a newest-first list keeps it newest first |
| CommentStore.UniqueIdsCons | app/api/comments/route.ts:48-57 | a row can go in front of a list with unique ids exactly when its id is not already there |
| CommentStore.InsertKeepsUniqueIds | app/api/comments/route.ts:8-11 | inserting a row with a fresh id keeps the ids unique |
| CommentStore.OrderKeepsUniqueIds | app/api/comments/route.ts:8-11 | ordering newest first keeps the primary key unique in the listing |
| CommentStore.OrderNewestFirst | app/api/comments/route.ts:8-11 | `order('created_at', { ascending: false })` returns a permutation of the rows in which no row is newer than one before it |
| CommentStore.CommentTable.Insert | app/api/comments/route.ts:48-57 | an insert either appends exactly the given row and returns it, or fails and changes nothing; it fails on a database error or a duplicate id, and the table's ids stay unique |
| CommentStore.CommentTable.SelectNewestFirst | app/api/comments/route.ts:8-11 | the select fails exactly on a database error; otherwise it returns every row and nothing else, newest first, with the ids still unique |
| CommentsRoute.HasText | app/api/comments/route.ts:36 | definition of the accepted text; properties in HasTextIff |
| CommentsRoute.HasTextIff | app/api/comments/route.ts:36 | text is accepted exactly when it is present and not whitespace only (the empty string included) |
| CommentsRoute.CommentName | app/api/comments/route.ts:43 | the stored name is never empty: "Guest" for a missing or blank name, the trimmed name otherwise |
| CommentsRoute.StoredReplyTo | app/api/comments/route.ts:53 | the stored reference is null exactly when the given one is missing, null or empty; otherwise it is kept as given, without checking that the parent exists |
| CommentsRoute.Get | app/api/comments/route.ts:4-29 | 500 "Failed to fetch comments" when the client cannot be obtained or the query fails; otherwise 200 with every row of the table, newest first, no two sharing an id; the admin client cache is left as it was unless this is the first configured call, which creates the client |
| CommentsRoute.Post | app/api/comments/route.ts:31-75 | blank or missing text: 400 "Comment text is required", checked before the client is requested, with no row added and the client cache untouched; otherwise the row (id, normalised name, trimmed text, coerced reply, 0 likes, the insert time) is appended and returned with 200, or, on an unconfigured client, database error or duplicate id, 500 "Failed to create comment" with the table unchanged; the admin client cache is left as it was unless this is the first configured call with valid text, which creates the client |
| CommentsRoute.ListingAfterInsert | app/api/comments/route.ts:4-75 | after a successful create, the next listing holds exactly the previous rows plus the new one |
| CommentsView.GetTimeAgo | components/CommentsSection.tsx:126-135 | the label is "just now" for an age under a minute, future times included; otherwise it is the largest unit the age reaches: 1..59 minutes, 1..23 hours or at least one day; the count is the number of whole units in the age |
| CommentsView.FloorDivBounds | components/CommentsSection.tsx:129-134 | the floored minute, hour and day counts bracket the age |
| CommentsView.Decimal | components/CommentsSection.tsx:132-134 | the printed count is a non-empty string of decimal digits without a leading zero |
| CommentsView.DecimalRoundTrip | components/CommentsSection.tsx:132-134 | reading the printed count back gives the count |
| CommentsView.TimeAgoText | components/CommentsSection.tsx:131-134 | definition of the label text; properties in TimeAgoTextShape and DecimalRoundTrip |
| CommentsView.TimeAgoTextShape | components/CommentsSection.tsx:131-134 | the label is the translated "just now", or the count, a space and the translated unit |
| CommentsView.Filter | components/CommentsSection.tsx:137-138 | `filter` keeps exactly the rows that pass the test, and never lengthens the list |
| CommentsView.FilterAppend | components/CommentsSection.tsx:137-138 | `filter` keeps list order: it distributes over concatenation |
| CommentsView.FilterPartition | components/CommentsSection.tsx:137-138 | a test and its negation split the list between them |
| CommentsView.ParentComments | components/CommentsSection.tsx:137 | the top-level comments are exactly the fetched rows with a null or empty `reply_to` |
| CommentsView.Replies | components/CommentsSection.tsx:138 | the replies of a comment are exactly the rows whose `reply_to` is its id |
| CommentsView.Thread | components/CommentsSection.tsx:140-185 | one rendered item per top-level comment, in fetched order, each holding exactly the replies to it |
| CommentsView.DisplayedIff | components/CommentsSection.tsx:161-185 | a fetched row is on screen exactly when it is top-level or replies directly to a top-level row |
| CommentsView.ReplyToReplyHidden | components/CommentsSection.tsx:161-185 | when the ids are unique (as every listing's are) and the parent's id is non-empty, a row that replies to a reply is never on screen |
| CommentsView.DisplayedOnlyIf | components/CommentsSection.tsx:181-183 | an on-screen row is fetched, and is top-level or a reply to a top-level row |
| CommentsView.ShownAsItem | components/CommentsSection.tsx:181-183 | every top-level row is shown, and every row that replies to one is shown under it |
| CommentsView.NoCommentsIff | components/CommentsSection.tsx:247-248 | "no comments" is shown exactly when no fetched row is top-level |
| CommentsView.TotalCountsReplies | components/CommentsSection.tsx:196 | the total shown counts the top-level rows and every reply, including the replies that are not displayed |
| CommentsSection.SubmitName | components/CommentsSection.tsx:73 | the submitted name is never empty: "Guest" for a blank name, the trimmed name otherwise |
| CommentsSection.SubmitPayload | components/CommentsSection.tsx:72-76 | definition of the posted body; properties in SubmittedCommentStored |
| CommentsSection.SubmittedCommentStored | components/CommentsSection.tsx:72-76 | whatever the widget submits for non-blank text passes the server's check, and the server stores the same name, text and reply target |
| CommentsSection.Widget.constructor | components/CommentsSection.tsx:38-43 | no comments, empty name and text, no reply target, not loading, refresh key 0 |
| CommentsSection.Widget.FetchComments | components/CommentsSection.tsx:53-61 | the list becomes the fetched `comments`, or `[]` when the field is missing; a thrown error keeps the old list; no other cell changes |
| CommentsSection.Widget.ChangeName | components/CommentsSection.tsx:220 | the name cell becomes the typed value; nothing else changes |
| CommentsSection.Widget.ChangeText | components/CommentsSection.tsx:229 | the text cell becomes the typed value; nothing else changes |
| CommentsSection.Widget.SubmitDisabled | components/CommentsSection.tsx:239 | the submit button is disabled exactly while loading or when the text is blank |
| CommentsSection.Widget.HandleSubmit | components/CommentsSection.tsx:63-77 | blank text: no request and no state change; otherwise `loading` turns on and the request body is the trimmed-or-Guest name, the trimmed text and the current reply target |
| CommentsSection.Widget.SubmitSettled | components/CommentsSection.tsx:79-89 | `loading` always ends false; an ok response clears text, name and reply target and bumps `refreshKey` by one; a non-ok or thrown one keeps them |
| CommentsSection.Widget.HandleLike | components/CommentsSection.tsx:92-103 | `refreshKey` goes up by one exactly when the response is ok; nothing else changes |
| CommentsSection.Widget.HandleDelete | components/CommentsSection.tsx:105-124 | an empty or cancelled prompt sends nothing; otherwise the password is sent, an ok response bumps `refreshKey` and a non-ok one alerts "Unauthorized"; a thrown error does neither |
| CommentsSection.Widget.ClickReply | components/CommentsSection.tsx:161-171 | offered only on a top-level item, whose comment becomes the reply target; nothing else changes |
| CommentsSection.Widget.ClickCancel | components/CommentsSection.tsx:208 | the reply target is cleared; nothing else changes |
| CommentsSection.ReplyScenario | components/CommentsSection.tsx:63-77 | a reply submitted right after clicking Reply on a top-level comment and typing is stored pointing at that comment; the button is disabled while the request is in flight; the widget then holds that reply target and the typed text, with the list, the name and the refresh key unchanged. Between the click and the submit the target can leave the list (a poll after another visitor deletes it), and the server stores the reply without checking its parent |
| I18n.GetTranslations | lib/i18n.ts:14-16 | a known language gets its own dictionary; any other code gets the default's |
| I18n.SupportedLanguagesAreKeys | lib/i18n.ts:5-12 | the supported languages are exactly the dictionary keys, and the default is one of them |
| I18n.GetTranslationsTable | lib/i18n.ts:5-16 | en, ru and uz each get their own dictionary; every other code, the empty one included, gets English |
| Middleware.Middleware | middleware.ts:7-24 | a redirect always goes under `/en` and never to the path it came from; the full behaviour is in RedirectTargets, HasLocaleIff and NoRedirectLoop |
| Middleware.FirstSegment | middleware.ts:12 | the first segment is the longest slash-free prefix of the path |
| Middleware.HasPrefixIff | middleware.ts:12 | for a slash-free locale, the prefix test holds exactly when the path's first segment is that locale |
| Middleware.HasLocaleIff | middleware.ts:11-13 | a path is localized exactly when it is `/` followed by a first segment that is a supported locale |
| Middleware.SomeSupported | middleware.ts:11-13 | the `some` over the locale list is the test against `/en`, `/ru` and `/uz`, with or without further segments |
| Middleware.NotALocale | middleware.ts:12 | `/english` and `/rush` are not localized, and are redirected to `/en/english` and `/en/rush` |
| Middleware.NotALocaleAt | middleware.ts:11-23 | a path of one segment that is not a locale is redirected under `/en` |
| Middleware.RedirectTargets | middleware.ts:15-23 | localized paths pass; `/` goes to `/en`; every other path goes to `/en` followed by the path |
| Middleware.NoRedirectLoop | middleware.ts:11-23 | for a path starting with `/`, the redirect target passes the middleware |
| Middleware.AtMostTwoRedirects | middleware.ts:11-23 | any path reaches a path the middleware lets through after at most two redirects |
| Middleware.SameLocalesAsI18n | middleware.ts:4-5 | the middleware's locales and default are those of the translation module |
| LanguageSwitcher.LanguagesTable | components/LanguageSwitcher.tsx:9-13 | the buttons are en, ru and uz in that order; at most one is highlighted, and one is exactly when the page language is supported |
| LanguageSwitcher.SwitchLanguage | components/LanguageSwitcher.tsx:19-24 | the new path starts with `/` and the new code; the rest is in SwitchShape, SwitchSegments, SwitchTwice and NoTrailingSlash |
| LanguageSwitcher.Split | components/LanguageSwitcher.tsx:20 | `split('/')` gives at least one piece, and no piece contains `/` |
| LanguageSwitcher.NonEmpty | components/LanguageSwitcher.tsx:20 | `filter(Boolean)` keeps exactly the non-empty pieces |
| LanguageSwitcher.SplitJoin | components/LanguageSwitcher.tsx:20-21 | splitting a join of slash-free pieces gives the pieces back |
| LanguageSwitcher.SegmentsJoin | components/LanguageSwitcher.tsx:20-22 | a path joined from proper segments has exactly those segments |
| LanguageSwitcher.SegmentsProper | components/LanguageSwitcher.tsx:20 | every segment of a path is non-empty and slash-free, so double and trailing slashes are dropped |
| LanguageSwitcher.SwitchShape | components/LanguageSwitcher.tsx:19-24 | the new path is `/`, the new code, then the segments after the first one, joined with `/` |
| LanguageSwitcher.SwitchSegments | components/LanguageSwitcher.tsx:20-22 | the new path's segments are the new code followed by the old segments after the first, in order |
| LanguageSwitcher.SwitchTwice | components/LanguageSwitcher.tsx:19-24 | switching to one code and then to another lands where switching straight to the second does |
| LanguageSwitcher.NoTrailingSlash | components/LanguageSwitcher.tsx:22 | a switch to a non-empty code never leaves a trailing slash |
| LanguageSwitcher.FirstSegmentDropped | components/LanguageSwitcher.tsx:20-22 | the first segment is dropped without a locale check: `/services` switched to `ru` is `/ru` |
| LanguageSwitcher.SwitchPassesMiddleware | components/LanguageSwitcher.tsx:19-24 | a switch to a supported language lands on a path the middleware lets through |
| Redirects.Match | next.config.js:16-33 | a path matches a pattern only if it has the same length, equal literals, and a non-empty segment for each parameter |
| Redirects.Substitute | next.config.js:16-33 | a filled-in destination has one segment per pattern piece |
| Redirects.FindRedirect | next.config.js:16-33 | definition: the first rule of the table (`RULES`) whose source matches decides the redirect; properties in FindRedirectTable and RedirectedIff |
| Redirects.Resolve | next.config.js:16-33 | definition of where a request ends up; properties in ResolveIdempotent |
| Redirects.FindRedirectTable | next.config.js:16-33 | the first-match search over the three rules sends exactly the three source shapes to their destinations |
| Redirects.BlogRedirect | next.config.js:18-22 | `/:lang/blog` goes permanently to `/:lang/about/blog` |
| Redirects.BlogPostRedirect | next.config.js:23-27 | `/:lang/blog/:slug` goes permanently to `/:lang/about/blog/:slug` |
| Redirects.CommentsRedirect | next.config.js:28-32 | `/:lang/comments` goes permanently to `/:lang/testimonials` |
| Redirects.RedirectedIff | next.config.js:17-33 | exactly the paths of the three source shapes are redirected, and every redirect is permanent |
| Redirects.ResolveIdempotent | next.config.js:17-33 | no destination matches a source, so applying the table twice is applying it once; an unmatched path is unchanged |
| ContactRoute.HandleContact | app/api/contact/route.ts:3-68 | success is reported exactly when a message was sent and Telegram answered ok; the guards and replies are in GuardOrder, SentIff and ReplyMapping |
| ContactRoute.TelegramText | app/api/contact/route.ts:26-31 | definition of the trimmed template; properties in TelegramTextPlain and TelegramTextBlankMessage |
| ContactRoute.GuardOrder | app/api/contact/route.ts:8-24 | a missing or empty field gives 400 "All fields are required" whatever the credentials and Telegram would do; with the fields present, a missing bot token or chat id gives 500 "Server configuration error"; neither case sends anything |
| ContactRoute.SentIff | app/api/contact/route.ts:8-45 | a message is sent exactly when all fields and both credentials are present, to the bot's `sendMessage` URL, with the chat id, the filled-in template and HTML parse mode |
| ContactRoute.ReplyMapping | app/api/contact/route.ts:47-67 | once sent, 200 with "Your message has been sent successfully!" exactly when Telegram answers ok; a non-ok answer gives 500 "Failed to send message"; a thrown error gives 500 with the generic error |
| ContactRoute.WhitespaceFieldsAccepted | app/api/contact/route.ts:8 | fields are not trimmed before the check, so whitespace-only fields are sent |
| ContactRoute.TelegramTextPlain | app/api/contact/route.ts:26-31 | when the message ends in non-whitespace, the text is the template without its surrounding blank lines |
| ContactRoute.TelegramTextBlankMessage | app/api/contact/route.ts:26-31 | a whitespace-only message is trimmed away together with the space after the "Message:" label |

## Left out

- I/O is abstracted: `fetch`, JSON parsing, `NextResponse` and `URL` construction, and console logging. Responses are (status, body) records. A request body that is not JSON is not modelled.
- The Supabase and Telegram client libraries are replaced by a table class and by reply outcomes.
- Concurrency: the table is used by one request at a time.
- ISO date parsing: `created_at` and the current time are integer milliseconds.
- The order of rows with equal `created_at` is not specified by the database; the model fixes one order. The listing properties hold for any order of ties.
- The widget's effects are not modelled: the 10-second polling timer and its cleanup, the refetch that a changed `refreshKey` triggers, `window.scrollTo`, and the text of the `prompt` and `alert` dialogs. The prompt's answer and the alert text are a parameter and a result.
- The URLs of the like and delete requests. The like and delete server handlers are not part of this model; the widget sees only their ok, not-ok or thrown outcome.
- The "Replying to" banner's name lookup and the rest of the markup; the like counter badge.
- The dictionaries' contents (`locales/*.json` is not part of this model). They are three distinct values, and `translations['constructor']`-style prototype lookups are not modelled.
- The middleware `matcher` pattern, and the webpack and dev options of `next.config.js`. The framework interprets them.
- In the redirect table, a `:param` matches exactly one non-empty segment. Other Next.js path-matching features are not modelled.
- Non-string request fields, which would make `.trim()` throw, are not modelled. String lengths count characters (code points), not UTF-16 units; the two agree on the ASCII keys the guards are used with.
