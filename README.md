# Mailbox ingestion worker: IMAP service and authentication handlers

This project models, in Dafny, the two parts of the worker that hold logic of their own.

**The IMAP ingestion service** (`ImapService`) keeps one boolean, `isConnected`, that
guards `connect` and `disconnect`. It reacts to the mailbox client's signals:

- `ready` marks the service connected and opens the inbox.
- `error` re-emits the error.
- `end` clears the flag, emits `end` and schedules a reconnect after 5000 ms.

Every successful inbox open registers one more `mail` listener on the client and then
searches for `UNSEEN` messages. A non-empty result is fetched. Each fetched message is
parsed, turned into a `Mail` record, saved, and announced with `newMail` once saved. The
record's tenant `address` comes from the joined recipient string by the rule
`/@(.+?)>/`, falling back to `to.split('@')[0]`.

**The authentication routes** (`/register`, `/login`) run an ordered chain of checks:

- both fields given;
- password length at least 6 (register only);
- email format (register only);
- existing user (register) or user and password (login).

They then sign a token whose payload is the stored user's id and email.

Files:

- `optional.dfy`: the `Option` type used for missing values and for foreign calls that throw.
- `text.dfy`: JavaScript's `join(", ")`, its inverse `split(", ")`, and the regular-expression
  character classes `.` and `\s`.
- `mail_record.dfy`: the parsed envelope, the `Mail` record (the columns of
  `src/entities/Mail.ts`), the column rules and the tenant-address rule. The joined
  columns are tied to their addresses by a split round trip, and the tenant address to
  a description of the regular expression's match.
- `imap_session.dfy`: the service and its collaborators as one value, with one transition
  function per public call or client signal, and the invariants every reachable state keeps.
- `imap_service.dfy`: the service as classes. `ImapService` holds `isConnected`, the pending
  reconnects and the emitted events. `ImapTransport` stands for the mailbox client and
  records the commands and listeners it receives. `MailRepository` stands for the store.
  Every method is proved to make exactly the transition of `imap_session.dfy`.
- `auth.dfy`: the two route handlers, with the user table as a map from email to user and
  bcrypt and jsonwebtoken as functions.

Collaborators that cannot be seen are given as functions fixed when the objects are built:

- whether the n-th inbox open succeeds;
- the reply to the n-th search;
- the parsed message for a message identifier (UID, as `search` answers and `fetch` takes);
- whether the store accepts a record;
- bcrypt's `hash` and `compare` and jsonwebtoken's `sign`;
- whether the user table's lookup or save throws.

Callbacks of the client are taken to complete in the order they are issued.

The model keeps these behaviours of the code, which a reader might expect to be otherwise:

- There is no attempt limit, no failed state and no attempt counter. Every `end`
  schedules one more reconnect (`ImapSession.EndsAccumulate`).
- `connect` is not idempotent before `ready`, because `isConnected` is set only by
  `ready` (`ImapSession.ConnectNotIdempotentBeforeReady`).
- `disconnect` does not cancel a scheduled reconnect
  (`ImapSession.DisconnectKeepsScheduledReconnect`).
- `mail` listeners are not deduplicated. After n successful opens one new-mail signal
  runs n searches (`ImapSession.NewMailFanOut`).
- A bare recipient `user@acme.io` yields `user`, not `acme.io`. The address may be empty
  (`@acme.io` yields the empty string).
- A failed inbox open, search or save emits no `error` event; it is only logged. A
  failed parse, or a TypeError while building `to`, `from` or `cc`, is not even logged:
  it rejects the promise of the stream's `end` callback and nobody handles it.

## Model

| member | source | states |
|---|---|---|
| `MailRecord.FirstAddressesSpec` | src/services/imap_service.ts:127-128 | the first addresses of a list of recipient headers exist exactly when every header has a mailbox, and are each header's first address, in order |
| `MailRecord.ToField` | src/services/imap_service.ts:127-129 | `to` is `''` without a recipient header, the first address of a single header, and fails (TypeError) exactly when that header has no mailbox |
| `MailRecord.ToFieldOfManyHeaders` | src/services/imap_service.ts:127-128 | for several recipient headers `to` fails exactly when one has no mailbox, and otherwise splitting it at `", "` gives back every header's first address |
| `MailRecord.FromField` | src/services/imap_service.ts:138 | `from` is the sender header's first address (a missing one as `''`), `''` without a sender header, and fails exactly when the sender header has no mailbox |
| `MailRecord.CcField` | src/services/imap_service.ts:140 | `cc` is `''` without a cc header or with an empty one, the address itself for a one-mailbox header, and fails exactly when the cc field is a list of headers |
| `MailRecord.CcFieldOfOneHeader` | src/services/imap_service.ts:140 | for a single cc header `cc` keeps every address: splitting it at `", "` gives back each mailbox's address, in order, for comma-free addresses |
| `MailRecord.CloseFromSpec` | src/services/imap_service.ts:132 | the lazy group `.+?` is closed by the nearest `>` reached without a line terminator, and by none when no such `>` exists |
| `MailRecord.FindMatchSpec` | src/services/imap_service.ts:132 | the match found is the leftmost `@` that starts any match of `/@(.+?)>/`, with its nearest closing `>`; none is found only when no match exists |
| `MailRecord.BeforeFirstAt` | src/services/imap_service.ts:133 | the result holds no `@` and is either all of the input or the prefix ending just before its first `@` |
| `MailRecord.TenantAddressSpec` | src/services/imap_service.ts:132-133 | the address is total: the text between the first matching `@` and its nearest `>` when `/@(.+?)>/` matches, otherwise the prefix before the first `@`, and the whole string when it has no `@` |
| `MailRecord.TenantAddressOfDisplayName` | src/services/imap_service.ts:132-133 | `"Jane <jane@tenantA.example.com>"` yields `"tenantA.example.com"` |
| `MailRecord.TenantAddressOfBareAddress` | src/services/imap_service.ts:132-133 | `"user@acme.io"` yields `"user"`, not the domain |
| `MailRecord.TenantAddressMayBeEmpty` | src/services/imap_service.ts:133 | `"@acme.io"` yields the empty address |
| `MailRecord.TenantAddressWithoutAt` | src/services/imap_service.ts:133 | `"noatsign"` yields `"noatsign"` |
| `MailRecord.BuildRecord` | src/services/imap_service.ts:127-146 | a record is built exactly when `to`, `from` and `cc` can be derived; its address is derived from its `to`; subject and bodies default to `''`; attachments and headers pass through |
| `Text.SplitJoin` | src/services/imap_service.ts:128 | joining comma-free addresses with `", "` loses nothing: splitting the result gives them back |
| `ImapSession.Initial` | src/services/imap_service.ts:12-27 | a new service is not connected, has no pending reconnect, has emitted and saved nothing, and has registered the `ready`, `error` and `end` listeners in that order |
| `ImapSession.ConnectCall` | src/services/imap_service.ts:30-34 | `connect` issues one client connect exactly when not connected and otherwise changes nothing |
| `ImapSession.DisconnectCall` | src/services/imap_service.ts:37-41 | `disconnect` issues one client end exactly when connected and otherwise changes nothing; pending reconnects stay |
| `ImapSession.OnReady` | src/services/imap_service.ts:44-48 | `ready` leaves the service connected and opens the inbox exactly once |
| `ImapSession.OnError` | src/services/imap_service.ts:51-54 | `error` emits the same error and changes nothing else |
| `ImapSession.OnEnd` | src/services/imap_service.ts:57-67 | `end` clears `isConnected`, emits `end` and adds exactly one pending reconnect |
| `ImapSession.OnTimer` | src/services/imap_service.ts:63-66 | a scheduled reconnect that fires goes through the guarded `connect` |
| `ImapSession.OpenInbox` | src/services/imap_service.ts:70-83 | a successful open appends one `mail` listener and searches once; a failed open registers nothing and searches nothing |
| `ImapSession.SearchUnread` | src/services/imap_service.ts:91-105 | one search; its result is fetched, unchanged, only when the search succeeds with a non-empty result |
| `ImapSession.FetchEmails` | src/services/imap_service.ts:108-165 | the batch is fetched once; the store gains exactly the accepted records, in batch order, and one `newMail` event is emitted per accepted record |
| `ImapSession.IngestOne` | src/services/imap_service.ts:148-153 | a record is announced only after the store accepts it; a rejected or unbuilt record changes nothing |
| `ImapSession.IngestSaves` | src/services/imap_service.ts:114-153 | ingesting a batch saves exactly its records that were built and accepted, in order |
| `ImapSession.IngestAnnounces` | src/services/imap_service.ts:148-153 | ingesting a batch emits `newMail` for exactly the saved records, in order |
| `ImapSession.BatchWithOneParseFailure` | src/services/imap_service.ts:114-153 | a batch of three whose second message fails to parse stores and announces the other two and emits no error |
| `ImapSession.Dispatch` | src/services/imap_service.ts:86-88 | running the `mail` listeners leaves the listeners and connection state as they were and keeps saved and announced records in step |
| `ImapSession.OnMailSearchesPerListener` | src/services/imap_service.ts:78-88 | one new-mail signal runs one unread search per registered `mail` listener |
| `ImapSession.StepKeepsInv` | src/services/imap_service.ts:30-105 | every call and signal keeps the invariant: announced records equal saved records, and there is one `mail` listener per successful open |
| `ImapSession.RunKeepsInv` | src/services/imap_service.ts:30-105 | every sequence of calls and signals keeps that invariant |
| `ImapSession.NewMailFanOut` | src/services/imap_service.ts:70-88 | in every reachable state, every saved record was announced once, and one new-mail signal runs one search per successful inbox open so far |
| `ImapSession.EndsAccumulate` | src/services/imap_service.ts:57-67 | n `end` signals leave n more reconnects pending: there is no attempt limit |
| `ImapSession.ConnectNotIdempotentBeforeReady` | src/services/imap_service.ts:30-34 | two `connect` calls before `ready` issue two client connects |
| `ImapSession.DisconnectKeepsScheduledReconnect` | src/services/imap_service.ts:37-67 | `end`, `disconnect`, timer: the scheduled reconnect still issues a client connect, and no client end is issued |
| `ImapServiceObjects.ImapService.constructor` | src/services/imap_service.ts:12-27 | the new service's state is `ImapSession.Initial` |
| `ImapServiceObjects.ImapService.Connect` | src/services/imap_service.ts:30-34 | the object makes the `ConnectCall` transition |
| `ImapServiceObjects.ImapService.Disconnect` | src/services/imap_service.ts:37-41 | the object makes the `DisconnectCall` transition |
| `ImapServiceObjects.ImapService.OnReady` | src/services/imap_service.ts:44-48 | the object makes the `OnReady` transition |
| `ImapServiceObjects.ImapService.OnError` | src/services/imap_service.ts:51-54 | the object makes the `OnError` transition |
| `ImapServiceObjects.ImapService.OnEnd` | src/services/imap_service.ts:57-67 | the object makes the `OnEnd` transition |
| `ImapServiceObjects.ImapService.OnReconnectTimer` | src/services/imap_service.ts:63-66 | the object makes the `OnTimer` transition |
| `ImapServiceObjects.ImapService.OpenInbox` | src/services/imap_service.ts:70-83 | the object makes the `OpenInbox` transition |
| `ImapServiceObjects.ImapService.OnNewMail` | src/services/imap_service.ts:86-88 | the `mail` listener makes the `SearchUnread` transition |
| `ImapServiceObjects.ImapService.DeliverMail` | src/services/imap_service.ts:78-88 | a new-mail signal runs every registered `mail` listener in order (`OnMail`) |
| `ImapServiceObjects.ImapService.SearchUnread` | src/services/imap_service.ts:91-105 | the object makes the `SearchUnread` transition |
| `ImapServiceObjects.ImapService.FetchEmails` | src/services/imap_service.ts:108-165 | the loop over the batch makes the `FetchEmails` transition |
| `ImapServiceObjects.MailRepository.Save` | src/services/imap_service.ts:149 | the store appends the record exactly when it accepts it |
| `Auth.Utf16Length` | src/routes/auth.ts:20 | `password.length` counts UTF-16 code units: between one and two per character, and exactly one per character when none lies outside the Basic Multilingual Plane |
| `Auth.EmailFormatIsPattern` | src/routes/auth.ts:25-28 | the format check (no whitespace, exactly one `@`, a non-empty local part, a `.` inside the domain part) accepts exactly the strings `^[^\s@]+@[^\s@]+\.[^\s@]+$` matches |
| `Auth.PlainAddressOk` | src/routes/auth.ts:25-26 | `local@host.tld` with non-empty visible-ASCII parts passes the format check |
| `Auth.EmailFormatNeedsInnerDot` | src/routes/auth.ts:25-26 | `user@acme` and `user@.io` fail the format check |
| `Auth.EmailFormatNeedsLocalPart` | src/routes/auth.ts:25-26 | `@acme.io` fails the format check |
| `Auth.EmailFormatNeedsOneAt` | src/routes/auth.ts:25-26 | `a@b@acme.io` fails the format check |
| `Auth.EmailFormatRejectsSpace` | src/routes/auth.ts:25-26 | `us er@acme.io` fails the format check |
| `Auth.RegisterInputCheck` | src/routes/auth.ts:16-28 | the input checks pass exactly when both fields are given, the password has at least 6 code units and the email has the right format; otherwise the reply is a 400 |
| `Auth.RegisterRequiresFieldsFirst` | src/routes/auth.ts:16-18 | a missing or empty field is answered 400 "Email and password are required" before any other check, and the table is unchanged |
| `Auth.RegisterPasswordLength` | src/routes/auth.ts:20-22 | with both fields given, the short-password 400 comes exactly when the password is under 6 code units, and then nothing is saved |
| `Auth.AstralPasswordLongEnough` | src/routes/auth.ts:20-22 | three characters outside the Basic Multilingual Plane already pass the length check |
| `Auth.RegisterEmailFormat` | src/routes/auth.ts:24-28 | after the first two checks pass, the invalid-format 400 comes exactly when the email does not match the pattern |
| `Auth.RegisterExistingUser` | src/routes/auth.ts:30-37 | an email already in the table gives 400 "User already exists" and leaves the table unchanged |
| `Auth.RegisterAddsOneUser` | src/routes/auth.ts:39-57 | the table either stays as it was or gains one user under the request's new email with the next id and the password's hash; a token is issued only after that and signs that user's id and email |
| `Auth.RegisterErrorReplies` | src/routes/auth.ts:10-61 | every register error is 500 "Failed to register user" or a 400 with one of the four check messages |
| `Auth.RegisterFaultGives500` | src/routes/auth.ts:31-61 | after the input checks, a failing lookup, hash, save or sign is answered 500 "Failed to register user"; the table is unchanged, except that a sign failing after the save keeps the new user |
| `Auth.LoginFaultGives500` | src/routes/auth.ts:76-101 | after the field check, a failing lookup, compare or sign is answered 500 "Failed to login" |
| `Auth.RegisterSucceeds` | src/routes/auth.ts:39-57 | a well-formed registration of a new email with no failing call adds exactly that user, with the next id and the password's hash, and replies with the token signed for its `{userId, email}` |
| `Auth.RegisterKeepsStoreValid` | src/routes/auth.ts:30-48 | register keeps every user under its own email and every id distinct and below the next id |
| `Auth.LoginRequiresFieldsFirst` | src/routes/auth.ts:71-73 | a missing or empty email or password is answered 400 "Email and password are required", before any lookup |
| `Auth.LoginUnknownEmail` | src/routes/auth.ts:80-82 | an email the table does not hold is answered 401 "Invalid credentials", whatever the password and the foreign calls |
| `Auth.LoginWrongPassword` | src/routes/auth.ts:85-88 | a stored email whose hash does not match the password is answered 401 "Invalid credentials" |
| `Auth.LoginDoesNotRevealUsers` | src/routes/auth.ts:80-88 | an unknown email and a wrong password get the identical 401 "Invalid credentials" |
| `Auth.LoginTokenClaims` | src/routes/auth.ts:76-97 | a login token is issued only for a stored user whose hash matches the password, and signs that user's id and email |
| `Auth.LoginSucceeds` | src/routes/auth.ts:76-97 | a stored user whose hash matches the password, with no failing call, gets the token signed for its `{userId, email}` |
| `Auth.LoginErrorReplies` | src/routes/auth.ts:65-101 | every login error is 400 for a missing field, 401 "Invalid credentials", or 500 "Failed to login" |
| `Auth.RegisterThenLogin` | src/routes/auth.ts:39-97 | when bcrypt recognises its own hash, logging in right after a successful registration signs the same `{userId, email}` payload |
| `Auth.UserTable.FindOne` | src/routes/auth.ts:31-33 | the lookup finds a user exactly when the email is in the table, and returns that user |
| `Auth.UserTable.Save` | src/routes/auth.ts:43-48 | saving stores the user under its email with the next generated id |
| `Auth.Register` | src/routes/auth.ts:10-61 | the handler's reply and the table afterwards are those of `RegisterSpec` |
| `Auth.Login` | src/routes/auth.ts:65-102 | the handler only reads the table and its reply is that of `LoginSpec` |

## Left out

- IMAP wire protocol and MIME parsing (`imap`, `simpleParser`). Inbox opens, searches, fetches and parses are replies fixed in advance, indexed by call number or message UID.
- Stream chunk buffering (`chunks`, `Buffer.concat`). It is byte plumbing with no behaviour of its own, so a fetched message goes straight to its parsed form.
- Real time and asynchronous interleaving. The 5000 ms `setTimeout` is a pending-reconnect counter, and callbacks complete in the order they are issued. Searches started by several `mail` listeners at once are therefore not interleaved, and the duplicate fetches such interleaving can cause are not modelled.
- A parse failure or a throwing record construction rejects a promise nobody handles. It is modelled as the message being neither saved nor announced and the service carrying on. Node.js ends the process on an unhandled rejection by default (since version 15), so `ImapSession.BatchWithOneParseFailure` describes the batch only on a runtime that survives an unhandled rejection.
- The identifier and timestamps the store assigns to a saved record, and the record object it mutates before `newMail` carries it, are not modelled. The announced record is the one built.
- Console logging; the client configuration read from the environment in the constructor (user, password, host, port, TLS options). The code does not validate them.
- The `error` event throwing when no listener is registered. The service's caller always registers one.
- The JWT secret, the 24-hour expiry and the `iat` issue time `jwt.sign` adds to every token. Only the signed `{userId, email}` payload is modelled, so two tokens for the same user are equal in the model though they may differ in their timestamps.
- Request-body fields that are not strings (numbers, objects). A field is either missing or a string.
- Strings are sequences of Unicode scalar values, so a request field holding a lone UTF-16 surrogate (a JSON body with `"\ud800"`) cannot be represented. `Auth.Utf16Length` and the two regular-expression models are exact for well-formed UTF-16 only.
- The user's `is_admin` and `telegram_id` columns and its timestamps. The handlers never set them.
- How the service reaches its repository. src/services/imap_service.ts:3 imports `AppDataSource` from src/server.ts, which exports nothing and imports the service back, so as written the field initializer at src/services/imap_service.ts:10 has no data source to ask. The model assumes a working repository, as the code evidently intends.
- src/routes/mails.ts, src/server.ts, src/data-source.ts: routing, wiring and configuration. They are not part of this model.
