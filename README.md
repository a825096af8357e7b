# archiver, modelled in Dafny

archiver keeps a mail archive in PostgreSQL and delivers each archived mail to
every consumer it is dispatched to over a small HTTP API. This project models
the core of that system and proves properties of the model:

- **the tables** (`archiver/database.py`): `mail`, `attachment`, `consumer` and
  `dispatch` as maps keyed by their primary keys, the inserts that their keys,
  foreign keys and server defaults govern, a mail's attachments in number order,
  and `Mail.consumer_select`, the join through `dispatch` that decides what a
  consumer may see (`records.dfy`);
- **the frozen resources** (`archiver/resource.py`): `Target` with its `__str__`
  and its two-way `__eq__`, and the attachment and mail resources
  (`resource.dfy`);
- **the loader** (`archiver/loader.py`): `load_mail_record`, whose attachment
  loop re-estimates generic types, decodes text and re-encodes it;
  `load_mail_resource`, which post-processes the headers; and `unroll`, which
  removes repeated addresses (`loader.dfy`, with the Python string functions it
  relies on in `text.dfy`);
- **authentication** (`archiver/wsgi.py`, `authenticate`): bearer token, JWT
  subject `consumer_id=<digits>`, and the 401/403 outcomes (`auth.dfy`);
- **the web layer** (`archiver/wsgi.py`): acknowledgement (`delete_mail`), the
  batch claim (`select_mail_as_json`), the streaming claim (`stream_mail`, with
  its drain loop and its notification loop), and the dispatch-gated lookups of
  a mail and of an attachment with content negotiation (`wsgi.dfy`). The
  database a handler sees is the `db` field of the class `Wsgi.Server`. Each
  handler's commit is one update of that field.

Time is an integer number of seconds and the one-hour lease is `Hour = 3600`.
`NOW()` is a parameter: one value for a bulk claim or for one drain, and one per
notification. The JWT signature check, Werkzeug's `best_match`, libmagic and the
codec registry are collaborators whose results arrive as function parameters.

The central property is the lease. A claim, whether bulk, one drained row or one
notification, sets `last_time` to the claim time and `next_time` an hour later.
The model proves the following:

- A drain emits every due dispatch exactly once, oldest-due first, and leaves
  the table exactly as the bulk claim does, provided every mail's resource
  can be built (see "Left out").
- Within an hour of a stream's start, no mail is streamed twice.
- No claim touches another consumer's rows.
- Claims keep the store consistent and keep `last_time < next_time` on every
  delivered row.
- An acknowledgement hides a mail from its consumer only.

Two facts about the code shape the model. The (consumer, mail) pair is the
primary key of `dispatch`, so enqueuing the same pair twice fails with a unique
violation (`Records.SecondDispatchInsertFails`). There is no backoff and no
failure path: every claim gives the same fixed one-hour lease (`Wsgi.Claim`),
and since no constraint in `archiver/database.py` enforces
`last_time < next_time`, the model proves that every operation keeps it
(`Wsgi.LeaseInvariant`).

## Model

| member | source | states |
|---|---|---|
| `Records.InsertMail` | archiver/database.py:13-19 | an insert succeeds exactly when the message id is new (primary key), and then adds just that row |
| `Records.InsertConsumer` | archiver/database.py:61-72 | an insert succeeds exactly when the consumer id is new, and then adds just that row; otherwise it is a unique violation |
| `Records.InsertAttachment` | archiver/database.py:44-55 | succeeds exactly when (mail id, number) is new and the mail exists, and then adds just that row; the mail, dispatch and consumer tables are unchanged; an existing key is a unique violation, and otherwise a missing mail a foreign-key violation |
| `Records.InsertDispatch` | archiver/database.py:75-89 | a duplicate pair is a unique violation, and a missing consumer or mail a foreign-key violation; otherwise one row is added with `last_time` null and `next_time = created_at = now`, and nothing else changes |
| `Records.InsertsPreserveValid` | archiver/database.py:44-89 | every successful insert keeps the keys matching the rows and every foreign key resolving |
| `Records.SecondDispatchInsertFails` | archiver/database.py:78-87 | the (consumer, mail) pair is the key: a second insert of the same pair fails, and the first row is due at once |
| `Records.ConsumerSelect` | archiver/database.py:36-41 | a mail is selected for a consumer iff the consumer has a dispatch for it and the mail row exists |
| `Records.ConsumerSelectIsDispatched` | archiver/database.py:36-41 | in a consistent store, a consumer sees exactly the mails it has a dispatch for |
| `Records.AttachmentsOf` | archiver/database.py:21-25 | a mail's attachments in strictly ascending number order: each is that mail's row under its number, and every row of the mail is listed |
| `Records.SameDispatchKeysPreserveValid` | archiver/database.py:75-84 | rewriting dispatch rows without adding or removing a key keeps the foreign keys resolving |
| `Resource.Format` | archiver/resource.py:35-36 | `str(target)` is the display name (`None` when absent), then a space, then the address in angle brackets |
| `Resource.Compare` | archiver/resource.py:38-45 | against a string, equality is equality with the formatted target; against a `Target`, field-wise equality; against anything else, `NotImplemented` and only then |
| `Resource.StringEqualityIsCoarser` | archiver/resource.py:35-45 | a target with no display name and one named `None` differ as targets, yet both equal the same string |
| `Resource.AttachmentView` | archiver/resource.py:13-19 | the attachment resource carries the row's key, name, type and charset |
| `Loader.Dedup` | archiver/loader.py:119-124 | the result has no duplicates, holds exactly the input's elements, and is no longer than the input |
| `Loader.DedupKeepsFirstOccurrenceOrder` | archiver/loader.py:119-124 | kept elements appear in the order of their first occurrence in the input |
| `Loader.Unroll` | archiver/loader.py:116-124 | the loop's result is `Dedup` of the header's targets: no repeated target, and a target is listed iff some address of the header gives it |
| `Loader.CharsetOr` | archiver/loader.py:46 | `code or "utf-8"`: a non-empty charset is kept; an absent or empty one gives `"utf-8"` |
| `Loader.LoadAttachment` | archiver/loader.py:38-54 | (corrected, see Findings) number and name are copied; a charset is recorded only for a text type; a non-generic type is kept; text that arrived decoded is stored as its UTF-8 encoding |
| `Loader.TypeReestimation` | archiver/loader.py:41-42 | a generic type takes libmagic's guess when there is one, and otherwise keeps its type |
| `Loader.LoadAttachmentAsWritten` | archiver/loader.py:38-54 | the attachment row as the code builds it: number and name copied, a charset only for a text type, and text that arrived decoded encoded with its own charset (`code or "utf-8"`) yet labelled UTF-8 |
| `Loader.CharsetLabelMatchesData` | archiver/loader.py:44-54 | the charset column is set iff the final type is textual and text was decoded or a charset survived; decoded text is stored as UTF-8 and labelled UTF-8, and undecoded bytes are stored as they came |
| `Loader.AsWrittenMislabelsCharset` | archiver/loader.py:48-49 | as written, an ISO-8859-1 part holding é is stored as byte 0xE9 but labelled UTF-8; the corrected loader stores 0xC3 0xA9 |
| `Loader.LoadMailRecord` | archiver/loader.py:20-58 | (corrected, see Findings) the mail keeps the original bytes, the unquoted Message-ID and the stripped text; there is one attachment per scrubber entry, in order, each as `LoadAttachment` builds it |
| `Loader.UnrollHeader` | archiver/loader.py:66-83 | an absent address header stays absent; a present one is unrolled without duplicates |
| `Loader.MessageIds` | archiver/loader.py:85-89 | an absent header stays absent; a present one gives one identifier per whitespace-separated token, in order, each the unquoted token, none containing whitespace |
| `Loader.MessageIdsRoundTrip` | archiver/loader.py:85-89 | identifiers without whitespace, written as `<id>` and joined by spaces, are read back exactly |
| `Loader.LoadMailResource` | archiver/loader.py:61-113 | the resource keeps the mail's id, date and text; address headers are unrolled, message-id headers split and unquoted, and the subject stripped; an absent header stays absent; there is one attachment resource per attachment, in order, each carrying that row's mail id, number, name, type and charset |
| `Text.Strip` | archiver/loader.py:29 | `str.strip()`: the result is a slice of the input with only whitespace cut on each side, and it neither starts nor ends with whitespace |
| `Text.StripIdempotent` | archiver/loader.py:29 | stripping twice is stripping once |
| `Text.Split` | archiver/loader.py:86 | `str.split()`: every token is non-empty and free of whitespace |
| `Text.SplitIsMaximalRuns` | archiver/loader.py:86 | the tokens of `str.split()` are exactly the maximal runs of non-whitespace characters, in order of position: each token is the text of one run bounded by whitespace or the ends, runs are separated, and every non-whitespace character lies in some run |
| `Text.SplitJoinSpaced` | archiver/loader.py:86-89 | non-empty tokens without whitespace, joined by single spaces, split back into the same tokens |
| `Text.Unquote` | archiver/loader.py:25 | `email.utils.unquote`: never longer than its input; `<x>` gives `x`; an unquoted string is unchanged; a quoted one without backslashes loses its quotes; whitespace is never introduced |
| `Text.UnquoteAngle` | archiver/loader.py:25 | unquoting `<id>` gives `id` |
| `Auth.ParseSubject` | archiver/wsgi.py:69-73 | the subject is accepted iff it is `consumer_id=` followed by one or more ASCII digits, and the id read is the decimal value of those digits |
| `Auth.ParseSubjectAsWritten` | archiver/wsgi.py:69-72 | the subject check as `re.match` runs it: a subject ending in a newline is read as if the newline were absent, and any other subject as the exact check reads it |
| `Auth.SubjectRoundTrip` | archiver/wsgi.py:69-73 | `consumer_id=` followed by the decimal form of any id is accepted and gives that id |
| `Auth.AsWrittenAcceptsTrailingNewline` | archiver/wsgi.py:69 | the pattern as `re.match` runs it agrees with the exact check except on a final newline: `consumer_id=7\n` is accepted as written and refused when corrected |
| `Auth.SubjectExamples` | test/test_wsgi.py:56-60 | the subject `id=1` is refused, an empty number is refused, and leading zeros are read as the number |
| `Auth.Authenticate` | archiver/wsgi.py:47-84 | (corrected, see Findings) a routing failure passes untouched, and only then; no bearer header is a bare 401; an empty token is `invalid_request`; an undecodable token or a bad subject is `invalid_token`; an unknown consumer is 403; the realm is always the host; a 401 carries no error code, `invalid_request` or `invalid_token` and nothing else, so a well-formed subject always ends in authentication or 403 |
| `Auth.ValidTokenAuthenticates` | archiver/wsgi.py:59-75 | a token whose subject is `consumer_id=<id>` authenticates consumer `id` when it exists and is forbidden otherwise |
| `Auth.DigitSubjectAuthenticates` | archiver/wsgi.py:69-74 | a token whose subject is `consumer_id=` and any non-empty run of digits, leading zeros included, authenticates the consumer those digits denote when it exists, and is forbidden otherwise |
| `Wsgi.DueKeys` | archiver/wsgi.py:260-261 | a row is due for a consumer at `now` iff it is that consumer's and its `next_time` is at most `now` |
| `Wsgi.Claim` | archiver/wsgi.py:258-259 | a claim sets `last_time` to the claim time and `next_time` one hour later, and keeps `created_at` |
| `Wsgi.ClaimAll` | archiver/wsgi.py:255-264 | the bulk update claims exactly the consumer's due rows and leaves every other row, including every row of other consumers, unchanged; no row is added or removed |
| `Wsgi.ClaimedRowsRest` | archiver/wsgi.py:255-264 | within the hour after a claim, the rows due are those due anyway minus those just claimed; a second claim at the same time finds nothing |
| `Wsgi.ClaimAllGivesOneLease` | archiver/wsgi.py:255-266 | all rows of one bulk claim get the same `next_time`, so the batch's `ORDER BY next_time` imposes no order |
| `Wsgi.ClaimAllPreserves` | archiver/wsgi.py:255-264 | a bulk claim keeps the store consistent, keeps `last_time < next_time`, and changes no consumer's visible mails |
| `Wsgi.Acknowledge` | archiver/wsgi.py:138-142 | exactly the caller's dispatch for the mail is removed; all other rows are unchanged |
| `Wsgi.AcknowledgeStatus` | archiver/wsgi.py:141-144 | 200 iff a row was deleted, 404 otherwise |
| `Wsgi.AcknowledgeTwice` | archiver/wsgi.py:134-144 | acknowledging twice removes nothing more and answers 404 the second time |
| `Wsgi.AcknowledgeHidesFromCallerOnly` | archiver/wsgi.py:134-144 | after an acknowledgement the caller no longer sees the mail; every other consumer sees what it saw; the mail stays archived; consistency and the lease invariant hold |
| `Wsgi.NotifyStep` | archiver/wsgi.py:364-376 | a notification claims and emits its mail iff the consumer's dispatch for it exists and is due; otherwise nothing changes |
| `Wsgi.NotifyAll` | archiver/wsgi.py:364-379 | handling notifications adds and removes no row and emits at most one mail per notification |
| `Wsgi.NotifyAllOnlyClaims` | archiver/wsgi.py:364-379 | every mail emitted was dispatched to the consumer; other consumers' rows are untouched; the lease invariant is kept |
| `Wsgi.NotifyAllWithinHour` | archiver/wsgi.py:364-379 | within one hour, no mail is emitted twice, nor one already resting; every emitted mail then rests until the hour is over |
| `Wsgi.StreamAll` | archiver/wsgi.py:340-379 | the rounds of the stream add and remove no row |
| `Wsgi.DueMails` | archiver/wsgi.py:350-360 | the mails a drain emits: a mail is in it iff the consumer's dispatch for it is due |
| `Wsgi.StreamEmittedDispatched` | archiver/wsgi.py:340-379 | every mail the stream emits, by drain or by notification, is one dispatched to the consumer |
| `Wsgi.StreamAllPreserves` | archiver/wsgi.py:340-379 | streaming keeps the lease invariant and never changes another consumer's rows |
| `Wsgi.SelectEarliestDue` | archiver/wsgi.py:332-352 | `ORDER BY next_time LIMIT 1`: none iff nothing is due, and otherwise a due row whose `next_time` is least |
| `Wsgi.Negotiate` | archiver/wsgi.py:171-174 | without an `Accept` header the type is JSON, and otherwise it is `best_match` over the offered types |
| `Wsgi.AttachmentCandidates` | archiver/wsgi.py:166-169 | the attachment's own type first, then JSON, then plain text exactly when the type starts with `text/`, and raw bytes last |
| `Wsgi.FindAttachment` | archiver/wsgi.py:151-164 | an attachment is found iff the caller has a dispatch for the mail, the mail exists and it has an attachment with that number |
| `Wsgi.RetrieveAttachment` | archiver/wsgi.py:147-188 | 404 iff the lookup finds nothing; a served attachment is the one found, in the representation matching the negotiated type, with its own type taking precedence |
| `Wsgi.OfferedTypesAreServed` | archiver/wsgi.py:166-188 | when the negotiated type is one of the candidates, the attachment is served and not refused with 406; without `Accept` it is served as JSON or natively |
| `Wsgi.AcknowledgedAttachmentsHidden` | archiver/wsgi.py:151-164 | after an acknowledgement, the mail's attachments are 404 to that consumer whatever it asks for |
| `Wsgi.RetrieveMail` | archiver/wsgi.py:87-131 | 404 iff the mail is outside `consumer_select`; the stored bytes are served as text or `message/rfc822` only when that is the negotiated type, and the mail as JSON only when JSON is; 406 iff the mail is visible and the negotiated type is none of the three |
| `Wsgi.SelectMailMode` | archiver/wsgi.py:230-247 | JSON gives the batch, NDJSON the stream, anything else 406; no `Accept` header gives the batch |
| `Wsgi.ClaimedMails` | archiver/wsgi.py:255-265 | the batch returns the mails of exactly the consumer's due dispatches whose mail exists |
| `Wsgi.ClaimedMailsVisibleOnce` | archiver/wsgi.py:255-274 | the batch returns only mails the consumer may see, and a second batch at the same time returns nothing |
| `Wsgi.JoinMails` | archiver/wsgi.py:265-273 | each selected mail once with its row, and nothing else |
| `Wsgi.Server.DeleteMail` | archiver/wsgi.py:134-144 | the new store is the old one with the acknowledgement applied; the status is 200 iff a row was deleted; consistency and the lease invariant are kept |
| `Wsgi.Server.SelectMailAsJson` | archiver/wsgi.py:250-276 | the table ends as `ClaimAll` leaves it; the mails returned are exactly the claimed ones, each once with its row; consistency and the lease invariant are kept |
| `Wsgi.Server.DrainDue` | archiver/wsgi.py:350-360 | every row due on entry is emitted exactly once, in non-decreasing order of its original `next_time`, and the table ends exactly as the bulk claim leaves it |
| `Wsgi.Server.HandleNotifications` | archiver/wsgi.py:364-379 | the loop's table and output are those of `NotifyAll` |
| `Wsgi.Server.StreamMail` | archiver/wsgi.py:279-379 | the mails streamed are, as a set and in number, those `StreamEmitted` gives: each round's due rows, then the notified mails whose dispatch is due at their time; the table ends as `StreamAll` says; only mails dispatched to the consumer are streamed; when all times lie within an hour of the start, none is streamed twice; consistency and the lease invariant are kept |

## Left out

- JSON Web Token decoding (signature, algorithm, the required `sub` claim) is a parameter `decode` that yields the subject or nothing. A `sub` that is not a string is not modelled.
- Werkzeug's header parsing is not modelled. The scheme arrives already lower-cased, and `accept_mimetypes.best_match` is a parameter. An empty `Accept` header counts as absent, as in the code.
- libmagic (`estimate_type`) and the codec registry are parameters. An unknown charset (`LookupError`) and an encoding failure are not modelled; only the suppressed `ValueError` of a decode is.
- MIME parsing, the mailman scrubber and `email.headerregistry` are outside the model. Their results are the `ParsedMessage` and `Headers` records. A missing `Message-ID` or `Date` header, which makes the loader raise, is not modelled.
- Serialisation is not modelled: pydantic's `model_dump`, the computed `self` URLs, JSON and NDJSON bodies, response headers and `get_content_type`.
- The UTF-8 decode of the stored bytes when a mail is served as text is not modelled. The model serves the bytes themselves.
- The attachment-serving helpers (`retrieve_attachment_as_*`) and the deferred loading of `data` are represented only by the chosen `Representation`.
- Transactions, row locks, sessions, `LISTEN`/`NOTIFY`, rollback and every form of concurrency are not modelled. Each commit is one atomic update of `Server.db`, and requests run one at a time. A notification whose dispatch is not found is skipped with `continue` before the `rollback` (archiver/wsgi.py:369-371), so its transaction stays open into the next notification, whose due check then sees the same `now()`; the model gives each notification its own time. The source notes that `ORDER BY ... FOR NO KEY UPDATE` can return rows out of order under concurrency; the drain's order is proved for a single client only.
- Within one drain, `NOW()` is one fixed time; in the database it is the time of each transaction.
- The stream's endless outer `while True` and its 60-second notification timeout are modelled as a finite sequence of rounds. Each round is a drain time and the notifications that arrived before the timeout.
- Wsgi.Server.StreamMail: the no-duplicates guarantee is stated only for rounds that all lie within one hour of the stream's start. After an hour a mail is due again and the code streams it again, by design.
- Wsgi.Server.SelectMailAsJson: returns the claimed mail rows, not the resources built from them. `load_mail_resource` is `Loader.LoadMailResource`, whose headers come from parsing the stored bytes, which is not modelled.
- Wsgi.ClaimAll, Wsgi.Server.DrainDue and Wsgi.Server.HandleNotifications: building the resource (`load_mail_resource`) is assumed to succeed. In the code it runs before `database.commit()` in all three claim paths (archiver/wsgi.py:273-274, 355-356, 375-376), so an exception there, such as `sender.address` raising `ValueError` on a Sender header with several addresses (archiver/loader.py:70), rolls the claim back and fails the request. A drain then meets the same earliest due row again on every later stream, so "every due dispatch is emitted exactly once" holds only when every resource builds.
- Identity generation for `consumer.id` is not modelled; an insert names the id.
- The `passive_deletes` relationships and the absence of `ON DELETE` rules are not modelled. Rows are never deleted except dispatches.
- `Records.AttachmentsOf` is a stand-alone specification of the `Mail.attachments` relationship order. No handler of the model uses it: `Loader.LoadMailResource` takes the attachment list as a parameter.
- Auth.ParseSubject: reads any number of digits as an unbounded natural. From Python 3.11, `int()` raises `ValueError` on a string of more than 4300 digits; the code does not catch it, so such a subject gives a 500 response, where the model authenticates the id or answers 403.
- The database's 32-bit identity column for `consumer.id` is not modelled; ids are unbounded naturals.

## Findings

| source | as written | input that shows it | evidently intended | confidence | as-written member | corrected member |
|---|---|---|---|---|---|---|
| archiver/wsgi.py:69 | `re.match(r"^consumer_id=([0-9]+)$", sub)`: `$` also matches just before a final newline | a token whose subject is `consumer_id=7\n` authenticates consumer 7 | only `consumer_id=<digits>` exactly is accepted (`re.fullmatch` or `\Z`) | not executed; follows from the documented semantics of `$` in Python's `re` | `Auth.AsWrittenAcceptsTrailingNewline` | `Auth.SubjectRoundTrip` |
| archiver/loader.py:48-49 | decoded text is encoded again with `code or "utf-8"`, and the charset is then recorded as `"utf-8"` | a `text/html; charset=iso-8859-1` part holding byte 0xE9 (é) is stored as 0xE9 and labelled UTF-8 | text is stored as UTF-8 when it is labelled UTF-8 (`data.encode("utf-8")`) | not executed; follows from the two assignments on line 49 | `Loader.AsWrittenMislabelsCharset` | `Loader.CharsetLabelMatchesData` |
