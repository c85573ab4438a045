# A verified model of fips-dropbox

fips-dropbox lets a shop send a customer's files to a vendor: an administrator uploads a print, the vendor
gets a link by mail and an access code by phone, and everything that happens is written to a hash-chained
audit log. This project models the parts of it that have to be right together, and proves what they are for.

* **The audit log** (`Hex`, `Json`, `JsonValue`, `AuditEvent`, `AuditChain`, `AuditLog`, `AuditRuns`). Events are
  printed and read as serde_json does (RFC 8259), chained by SHA-256, appended as lines and read back. The log
  object is a class whose methods are proved against functions on the file's text.
* **The tables and the service** (`Clock`, `Crypto`, `Mac`, `Requests`, `Tables`, `Service`, `Storage`, `Lookups`,
  `ServiceApp`). `Tables` gives each storage statement as a function on rows and `Storage` the store as an object
  that is changed statement by statement, any of which may fail. `Service` gives each operation as a store half
  and an audit half, and `ServiceApp` carries the operations out with their early exits, on the store and the log.
* **Outcomes** (`Outcomes`, `ShareOutcomes`). Every exit of every operation on the rows, the line and the answer
  themselves, without the functions the operations are made of.
* **Whole runs** (`ShareSafety`, `ShareOrigin`, `StoreIntegrity`, `SessionOrigin`, `PurgeInvisible`, `ShareStatus`,
  `RunLog`, `Lifetimes`). What every sequence of operations with any failures, in any number of process
  lifetimes, keeps true.
* **Threads** (`Concurrency`, `ConcurrentSafety`). Any number of threads take the store lock, then the audit lock;
  every schedule is serialisable in store-lock order, and none gets stuck.
* **Printers, parsers and loops** (`Csv`, `AuditExport`, `Cookie`, `Multipart`, `AccessCode`).

Verify with `dafny verify dfyconfig.toml`.

## Assumptions and representation

* SHA-256 is an arbitrary function. Nothing is assumed of it; where two hashes would have to differ, a
  collision or a preimage of the genesis value is handed over instead.
* AES-256-GCM is a pair of arbitrary functions. `Crypto.Correct` says that what a run sealed opens again, and
  `Crypto.Authentic` that nothing else does (sections 7.1 and 7.2 of NIST SP 800-38D, idealised); each is a
  hypothesis only of the lemmas that name it.
* Randomness is drawn into the operation (`Service.Draw`), the clock is an input to each (`Service.Moment`), and
  every I/O, SQL or provider call may be the one that fails (`Tables.Call`, `AuditLog.WriteFault`). A statement
  that fails has not been applied. One instant stands for the several readings of the clock in an operation.
* UUIDs are their text, instants in event lines are their RFC 3339 text, JSON numbers are their printed text, and
  what is hashed is text (UTF-8 being injective).
* A run starts with empty vendor, print, share or session tables where a lemma says so, and ids are drawn new
  (UUIDv7) where a lemma says so.

## What turned out otherwise than documented

* serde_json refuses more than 127 nested brackets, but prints any depth. An event whose target or meta nests
  deeper is written and hashed, and from then on the whole file cannot be read, nor reopened while it is last.
  `AuditLog.ReadBack` and `AuditLog.ResumeWritten` give the exact condition, `AuditLog.DeepEventSpoils` one such
  event; `RunLog.RunReadsBack` shows that no event the service writes meets it.
* `shares::purge_expired` takes a u64 grace period `as i64`; from 2^64 - 253402300799 seconds up it deletes shares
  that could still be redeemed, from the epoch on (`ShareStatus.PurgeRemovesOnlyExpired`, both directions).
* The shares page and the redemption disagree at the instant equal to the stored expiry, and before the epoch
  (`ShareStatus.StatusAgrees`, `ShareStatus.StatusDiffers`).
* Creating a share and logging in are not all-or-nothing. The row is committed before the line is written, so
  where writing the line reports a failure the caller gets an error for a share, or a session, that is stored and
  active; `ShareOrigin.CreatedExactly` and `SessionOrigin.LoggedInExactly` give the exact condition, and
  `ShareOrigin.UnrecordedShareStays` such shares. A revocation is stamped, and a download slot used, in the same way
  (`ShareSafety.RunSafety`).
* A failed append leaves the log pointing at a hash that is not in the file, so the next event that does land
  breaks the chain unless the log is reopened first (`AuditRuns.RunVerdict`, `Lifetimes.LifetimeVerdict`, with one
  such run in `AuditRuns.LostLineBreaks`).
* The comment on `access_code` shows four groups; fifteen characters make five groups and nineteen characters.
* The browser form takes the mere presence of the attestation field for consent, the API reads its value
  (`Multipart.HandlersAgree`).

## Model

| member | source | states |
|---|---|---|
| Json.ParsePrinted | crates/audit/src/lib.rs:83-91 | Parsing a printed JSON value gives it back, strings with quotes, backslashes, newlines and control characters included, exactly when its depth is within the reader's limit |
| Json.PrintInjective | crates/audit/src/lib.rs:84 | Two values that print alike are the same value, whatever their depth |
| Json.WrittenOneLine | crates/audit/src/lib.rs:89 | Printed JSON holds no raw line feed or other control character |
| JsonValue.NormalizeValue | crates/audit/src/lib.rs:53-55 | Rebuilding a `serde_json::Value` from its own members, sorted and with later duplicates winning, changes nothing |
| JsonValue.NormalizeIsValue | crates/audit/src/lib.rs:53-55 | Any parsed JSON normalises to a well-formed sorted value |
| AuditEvent.DecodeEncode | crates/audit/src/lib.rs:46-58 | Decoding an encoded event gives it back if and only if target and meta nest less than the limit, and fails otherwise |
| AuditEvent.CanonicalInjective | crates/audit/src/lib.rs:84 | Events with the same hashed bytes differ at most in the hash field |
| AuditEvent.EncodeOneLine | crates/audit/src/lib.rs:89-94 | An encoded event is one line and opens with a brace |
| Hex.EncodeInjective | crates/audit/src/lib.rs:86 | Digests with the same hex text are equal |
| AuditChain.VerifyChain | crates/audit/src/lib.rs:129-158 | The loop reports index i exactly when the first i events are a chain from genesis and event i does not extend it, and validity exactly for whole chains |
| AuditChain.VerdictUnique | crates/audit/src/lib.rs:129-158 | Every list has at most one verdict: the first break is unique |
| AuditChain.VerdictConcat | crates/audit/src/lib.rs:129-158 | Verifying a concatenation is verifying the first part, then the second from the first's last hash with its index shifted |
| AuditChain.ChainConcat | crates/audit/src/lib.rs:129-158 | A concatenation is a chain if and only if its first part is and its second is from the first's last hash |
| AuditChain.PrefixOfChain | crates/audit/src/lib.rs:129-158 | Every prefix of a valid chain is valid |
| AuditChain.Extract | crates/audit/src/lib.rs:79-97 | From two different lists that both verify and end in the same hash, a terminating procedure returns two of their events with different hashed bytes and equal SHA-256, or one that hashes to the genesis value |
| AuditChain.LastHashDetermines | crates/audit/src/lib.rs:129-158 | Absent such a witness, two verified lists end in the same hash if and only if they are equal |
| AuditLog.FileLines | crates/audit/src/lib.rs:89-94 | The lines of a written file are the encoded events, one each, in order |
| AuditLog.LinesExact | crates/audit/src/lib.rs:107-109 | A line of any text runs to its line feed or the end, less one carriage return before the feed |
| AuditLog.BlankPassed | crates/audit/src/lib.rs:110-112 | A line of nothing but white space is passed over, by the reader and on resuming |
| AuditLog.ReadBack | crates/audit/src/lib.rs:102-116 | Reading a written file back returns the events in order if every one nests within the limit, and an error otherwise |
| AuditLog.DeepEventSpoils | crates/audit/src/lib.rs:102-116 | An event whose meta nests 127 arrays is written and makes the file unreadable; with 126 it reads back |
| AuditLog.ResumeAgrees | crates/audit/src/lib.rs:160-175 | On any text that reads back at all, resuming finds the hash of the last event read, or genesis if there is none |
| AuditLog.ResumeWritten | crates/audit/src/lib.rs:160-175 | On a written file resuming depends on the last event alone and gives its hash exactly when it can be read |
| AuditLog.WriteEventText | crates/audit/src/lib.rs:89-95 | A write appends to the file exactly the line of the event it adds to the log's state, or nothing |
| AuditLog.Log.Open | crates/audit/src/lib.rs:66-73 | Opening fails on an I/O error or an unreadable last line, and otherwise points at the hash found there |
| AuditLog.Log.Write | crates/audit/src/lib.rs:79-97 | The hash to point at moves on before the append; the file gains the sealed event's line when the append lands and is left alone otherwise; the result says which call failed |
| AuditLog.Log.ReadAll | crates/audit/src/lib.rs:102-116 | The loop over lines returns one event per non-blank line, or an error if any of them does not decode |
| AuditLog.BadLineStays | crates/audit/src/lib.rs:113 | Once a line fails to decode, every longer file fails to read |
| AuditRuns.RunVerdict | crates/audit/src/lib.rs:66-97 | Over any run of opens, writes and failures, the file verifies when no write landed after a lost line without a reopen, and otherwise breaks exactly at the first event that did, unless the run's own events hold a collision or genesis preimage |
| AuditRuns.ReopenRepairs | crates/audit/src/lib.rs:66-73 | A write that directly follows a successful reopen extends the file's last event and makes no new gap |
| AuditRuns.OpenIsNext | crates/audit/src/lib.rs:66-73 | Opening the text of the logged events leaves the handle that the run semantics says |
| AuditRuns.GapExact | crates/audit/src/lib.rs:79-97 | With the log held open, a gap opens if and only if a line lands after a lost one |
| AuditRuns.OneProcess | crates/audit/src/lib.rs:66-97 | A process that opens a verifying file and writes leaves it verifying if no line lands after a lost one, and else broken exactly at the gap, or a forgery is at hand |
| AuditRuns.LostLineBreaks | crates/audit/src/lib.rs:79-97 | For a hash that tells the texts apart, one lost append and one more write break the chain at index 0 without any collision or genesis preimage |
| Csv.RowsRound | crates/web/src/lib.rs:366-397 | A reader after section 2 of RFC 4180 gets back exactly the rows and fields written, whatever they contain |
| Csv.QuotedExactly | crates/web/src/lib.rs:366-373 | A field is quoted exactly where it holds a comma, a quote, a line feed or a carriage return, and written as it is otherwise |
| AuditExport.BuildView | crates/service/src/lib.rs:434-456 | Without a prefix, the last `limit` events backwards; with one, exactly the newest events whose name has it, in strictly descending places of the file, anything left out being older and the page full; and the verdict on the whole file and its length |
| AuditExport.NewestFirst | crates/service/src/lib.rs:439-450 | Filtering, cutting to the last `limit` and reversing gives the newest wanted events first |
| AuditExport.ReversePage | crates/service/src/lib.rs:450 | The in-place loop reverses the page |
| AuditExport.Select | crates/service/src/lib.rs:439-445 | The filtering loop keeps, in order, the events whose name has the prefix, or all where there is none |
| AuditExport.FilterExact | crates/service/src/lib.rs:439-445 | The filter keeps every event with the prefix as often as it occurs, and no other |
| AuditExport.ExportCsv | crates/web/src/lib.rs:338-343 | The export loop writes the header and then the page oldest first: the service's reverse and its own cancel |
| AuditExport.ExportRoundTrip | crates/web/src/lib.rs:330-343 | Reading the export gives the ten column names and, for each of the newest 100000 wanted events, oldest first, its ten cells in their order |
| Cookie.CookieValue | crates/web/src/lib.rs:928-940 | The loop returns the value of the first part that is a pair of that name |
| Cookie.CookieRoundTrip | crates/web/src/lib.rs:928-940 | On a header written as in section 4.2.1 of RFC 6265 it returns the value of the first pair of that name, or none |
| Cookie.SessionTokenReturns | crates/web/src/lib.rs:942-953 | A base64url session token set as a cookie, stored as in section 5.2 of RFC 6265 and sent back among others, comes back unchanged |
| Multipart.ShareNewPost | crates/web/src/lib.rs:572-659 | The form handler's loop and checks come to exactly the judgement of `HandledExactly`: the same request, or the same refusal |
| Multipart.ApiSharesPost | crates/web/src/lib.rs:721-840 | The API handler's loop and checks come to exactly the judgement of `HandledExactly`: the same request, or the same refusal |
| Multipart.FoldMeans | crates/web/src/lib.rs:588-630 | The loops fail exactly when some field cannot be read, and otherwise hold the last field of each name in whatever order they came, blanks as none and the stated defaults for missing or unreadable numbers |
| Multipart.HandledExactly | crates/web/src/lib.rs:588-672 | Exactly when a request is accepted and why it is refused otherwise; file and name, address lower-cased and trimmed, display name trimmed, phone, note, hours and downloads each come from the last field of their own name |
| Multipart.NumberRound | crates/web/src/lib.rs:613-620 | A printed number below 2^32 parses to itself, with or without a plus sign, and a larger one to the default |
| Multipart.NotANumber | crates/web/src/lib.rs:613-620 | Anything but digits after an optional plus sign gives the default |
| Multipart.HandlersAgree | crates/web/src/lib.rs:588-824 | The API accepts if and only if the form does and the last attestation field, trimmed, is one of 1, true, yes and on; and then both build the same request |
| Multipart.AcceptedIsComplete | crates/web/src/lib.rs:632-659 | An accepted request is attested, has a non-empty file with its name from one field, and a non-empty trimmed name and email |
| AccessCode.MakeCode | crates/crypto/src/token.rs:14-25 | The loop's output is the grouped letters of the bytes |
| AccessCode.CodeShape | crates/crypto/src/token.rs:17-23 | Length n + (n-1)/3, dashes exactly at every fourth place, and without them the bytes mod 31 through the alphabet |
| AccessCode.PreimageBound | crates/crypto/src/token.rs:14-25 | Of the 256^n byte strings of length n at most 9^n give any one code, and at least 8^n if any does |
| AccessCode.CodeProbability | crates/crypto/src/token.rs:14-25 | At fifteen bytes any one code has probability at most 2^-72 |
| Mac.ConstantTimeEq | crates/crypto/src/mac.rs:15-24 | The XOR/OR loop returns true exactly for equal byte strings, of any lengths |
| Mac.Verify | crates/crypto/src/mac.rs:9-12 | Accepts exactly the recomputed tag |
| Mac.VerifyAccessCode | crates/storage/src/shares.rs:170-173 | Accepts exactly the candidates whose hash is the stored one |
| Clock.MillisAfter | crates/storage/src/shares.rs:331-338 | From the epoch on, comparing stored milliseconds and comparing instants agree |
| Clock.MillisTruncates | crates/storage/src/shares.rs:331-338 | From the epoch on a stored instant read back is at most the original and less than a millisecond before it; up to the epoch, at least the original and less than a millisecond after it |
| Crypto.WrapDek | crates/crypto/src/kek.rs:60-68 | The buffer built piece by piece is nonce, tag, ciphertext |
| Crypto.UnwrapWrapped | crates/crypto/src/kek.rs:60-87 | A wrapped key is sixty bytes and unwraps to itself |
| Crypto.UnwrapAuthentic | crates/crypto/src/kek.rs:71-87 | Whatever unwraps is sixty bytes whose nonce, with the key it yields, was recorded as wrapped under the KEK |
| Tables.BlobPathInjective | crates/storage/src/prints.rs:68-73 | Different ids have different blob paths |
| Storage.Store.VerifyPassword | crates/storage/src/users.rs:120-149 | Answers the user exactly when the address is that user's, the account is enabled, and PBKDF2 of the password with the row's salt and count is the row's hash |
| Storage.Store.FindVendorByEmail | crates/storage/src/vendors.rs:68-78 | Finds an active vendor with the address if and only if there is one |
| Storage.Store.CreateVendor | crates/storage/src/vendors.rs:21-54 | Adds the row, or changes nothing and fails |
| Storage.Store.DisableVendor | crates/storage/src/vendors.rs:94-105 | Stamps the active row, or changes nothing and fails |
| Storage.Store.CreateShare | crates/storage/src/shares.rs:86-140 | Adds the row if its print, vendor, creator and new token allow it, or changes nothing and fails |
| Storage.Store.FindShareByTokenHash | crates/storage/src/shares.rs:156-166 | Finds a share with the token hash if and only if there is one |
| Storage.Store.TryConsumeDownload | crates/storage/src/shares.rs:179-191 | Counts the row up and says so, or leaves it and says so, by revocation, expiry and limit at once |
| Storage.Store.RevokeShare | crates/storage/src/shares.rs:193-204 | Stamps the row once; a second revocation fails |
| Storage.Store.PurgeExpiredShares | crates/storage/src/shares.rs:271-279 | Deletes exactly the rows expired before the cutoff and returns their number |
| Storage.Store.CreateSession | crates/storage/src/sessions.rs:34-79 | Adds the row or changes nothing and fails |
| Storage.Store.FindValidSession | crates/storage/src/sessions.rs:83-101 | Returns the unexpired session as it was and stamps its row, or nothing |
| Storage.Store.RevokeSession | crates/storage/src/sessions.rs:103-110 | Deletes the token's row and no other |
| Storage.Store.RevokeAllForUser | crates/storage/src/sessions.rs:112-117 | Deletes exactly the user's rows and returns their number |
| Storage.Store.PurgeExpiredSessions | crates/storage/src/sessions.rs:119-125 | Deletes exactly the expired rows and returns their number |
| Storage.Store.InsertPrint | crates/storage/src/prints.rs:53-116 | File first, then row, and the file away again if the row fails: tables and directory as specified at whichever call fails |
| Storage.Store.ReadBlob | crates/storage/src/prints.rs:132-148 | Reads, unwraps, opens and checks the hash, with the error of the first call that fails |
| Storage.Store.DeletePrint | crates/storage/src/prints.rs:150-159 | Row first, refused while a share refers to it, then the file at best effort |
| ServiceApp.App.Login | crates/service/src/lib.rs:119-171 | Tables, log and reply are one `Login` step of a run, which `Outcomes.LoginOutcome` spells out |
| ServiceApp.App.Logout | crates/service/src/lib.rs:173-197 | Tables, log and reply are one `Logout` step of a run, which `Outcomes.LogoutOutcome` spells out |
| ServiceApp.App.FindAuthenticated | crates/service/src/lib.rs:199-221 | Tables and reply are one `Authenticate` step of a run; the log is untouched |
| ServiceApp.App.CreateShare | crates/service/src/lib.rs:225-289 | Tables, blob directory, log and reply are one `CreateShare` step, however far it gets, which `ShareOutcomes.CreateOutcome` spells out |
| ServiceApp.App.RedeemShare | crates/service/src/lib.rs:333-424 | Tables, log and reply are one `RedeemShare` step, at every exit, which `ShareOutcomes.RedeemOutcome` spells out |
| ServiceApp.App.RevokeShare | crates/service/src/lib.rs:568-597 | Tables, log and reply are one `RevokeShare` step of a run, which `Outcomes.RevokedExactly` spells out |
| ServiceApp.App.Record | crates/service/src/lib.rs:617-643 | The line is put to the file and the reply stands, or becomes the log's error |
| ServiceApp.App.ListAuditEvents | crates/service/src/lib.rs:427-459 | On a file of any text, edited or not: the error of reading it, or the newest wanted events up to the limit, newest first, with the verdict on all that was read; timestamps count as the text they are |
| ServiceApp.LinkedReads | crates/service/src/lib.rs:434-437 | Where nobody else has written to the file, it reads as exactly the events logged, unless one of them nests too deep |
| ServiceApp.DidApply | crates/service/src/lib.rs:118-597 | What the methods promise is exactly one step of the run semantics, reply included |
| Outcomes.LoginOutcome | crates/service/src/lib.rs:119-171 | Every exit of a login: granted exactly where an enabled user has the address and the password derives to the hash in the row, then one twelve-hour session with the client's ip and user agent; the line's actor, target, outcome and reason, granted or denied |
| Outcomes.LogoutOutcome | crates/service/src/lib.rs:173-197 | Every exit of a logout: the token's row goes, and the line names its user exactly if the session was still valid |
| Outcomes.AuthenticateOutcome | crates/service/src/lib.rs:199-221 | Every exit of a session lookup: the session and its enabled user while it lasts, the row stamped with the time, and the log untouched |
| Outcomes.RevokedExactly | crates/service/src/lib.rs:568-597 | A revocation stamps every share not revoked yet, whatever its downloads, changes nothing else and records the administrator; in every other case it fails and changes nothing |
| Outcomes.DisableOutcome | crates/storage/src/vendors.rs:94-105 | Disabling stamps every vendor still active and changes nothing else; otherwise it fails and changes nothing |
| Outcomes.DeletionOutcome | crates/storage/src/shares.rs:271-279 | Which rows the purges and the ending of a user's sessions keep, exactly; a purge of shares takes its grace period as an i64 |
| Outcomes.DeletePrintOutcome | crates/storage/src/prints.rs:150-160 | A print no share refers to goes, with its file at best effort; any other stays and the call fails |
| ShareOutcomes.RedeemOutcome | crates/service/src/lib.rs:333-424 | Every exit of a redemption in its order: unknown token, wrong code, unavailable, slot used and file lost, file handed over; with answer, row and line, and the reason of every refusal |
| ShareOutcomes.CreateOutcome | crates/service/src/lib.rs:225-289 | Every exit of a creation in its order: the vendor known or new with the phone asked for, the file and its row, the share's row, the line with target and meta; what each failure leaves behind |
| Lookups.KeepsDetermined | migrations/0001_initial.sql:21-61 | No operation, wherever it fails, leaves two active vendors for one address or two shares for one token hash |
| Lookups.RunDetermined | crates/service/src/lib.rs:232-241 | So over every run a lookup by address or token has one answer, although the vendor index is not unique |
| Lookups.OnlyUser | crates/storage/src/users.rs:120-149 | With unique addresses the password check answers for the one user there is |
| ShareSafety.RunSafety | crates/service/src/lib.rs:333-424 | After any run, a share's Success redemption lines are exactly its slots used whose answer was the file, or an error only in syncing the line; all slots used, its deliveries plus the error exits after consumption, equal its download count and never exceed its limit; no redemption line follows its revocation line, and the row is stamped as revoked if and only if a revocation is on the log or answered an error because its line was lost |
| ShareSafety.EveryShareStep | crates/storage/src/shares.rs:179-204 | What each operation may do to the share table, and what its line and slot then say |
| ShareOrigin.RunOrigins | crates/service/src/lib.rs:225-289 | In every reachable state each share's row, its vendor's address and its print are those of the request that created it |
| ShareOrigin.CreatedExactly | crates/service/src/lib.rs:225-289 | A creation answers with its id and secrets if and only if it has stored the share and the write of its line reported no failure; where that write failed the answer is an error and the share stays; where no share was stored the shares are as they were |
| ShareOrigin.UnrecordedShareStays | crates/service/src/lib.rs:258-289 | With nothing failing but the write of the line, the creation answers an error and leaves a share that can be redeemed until the hours asked for run out, if downloads were allowed at all |
| ShareOrigin.CreationSucceeds | crates/service/src/lib.rs:225-289 | With no call of the store half failing, everything drawn new and the expiry within the calendar it does store the share, for a vendor with the address asked for, and succeeds if and only if the write of the line does |
| ShareOrigin.LinkOpensUpload | crates/service/src/lib.rs:333-424 | While its row is there, a share's link and code hand over exactly the uploaded bytes if and only if it is not revoked, has downloads left and the hours asked for have not run out; a wrong code is refused whatever else holds |
| SessionOrigin.RunFromLogins | crates/storage/src/sessions.rs:34-79 | Every session row comes from a login to an enabled account whose hash is the one the password derives to, and lasts twelve hours from it |
| SessionOrigin.AuthenticatedLoggedIn | crates/service/src/lib.rs:199-221 | Whoever is authenticated presents a token that a login of the run drew less than twelve hours before, with that user's address and a password that derives to the hash in the user's row, and the account is not disabled |
| SessionOrigin.LoggedInExactly | crates/service/src/lib.rs:119-171 | A login is answered with its session if and only if the session was stored and the write of its line reported no failure; where that write failed the answer is an error and the session stays; where none was stored no table changed |
| SessionOrigin.LoginAnswers | crates/service/src/lib.rs:119-171 | With nothing failing a login yields a stored twelve-hour session if and only if some enabled user has the address and the password derives to the hash in that row; unknown address, wrong password and disabled account are refused alike and no table changes |
| SessionOrigin.LoginLasts | crates/service/src/lib.rs:119-221 | After a login answered with its session, through any further run that neither logs it out nor ends the user's sessions, its token identifies the user until the twelve hours are over |
| StoreIntegrity.RunIntegrity | crates/storage/src/prints.rs:53-160 | After any run with any failures every share's print and vendor exist, one active vendor per address, and every print row has its file and reads back as what was uploaded under its id |
| StoreIntegrity.RunLeavesOnlyUploads | crates/storage/src/prints.rs:68-101 | Only orphans can remain: after any run every file was there before or stands at the path of an upload of the run, with no assumption on ids or cryptography |
| StoreIntegrity.ReferencedPrintStays | crates/storage/src/prints.rs:150-160 | Deleting a print that a share refers to changes neither row nor file |
| StoreIntegrity.TransplantRejected | crates/storage/src/prints.rs:132-148 | Whatever became of files and of the key, nonce and tag columns, reading an id fails or returns the file uploaded under that id |
| StoreIntegrity.ReadExactly | crates/storage/src/prints.rs:132-148 | Every exit of reading a print: what opens under the row's own id is returned if and only if it has the hash in the row |
| StoreIntegrity.InsertKeepsPrints | crates/storage/src/prints.rs:53-116 | An upload, wherever it fails, leaves every print row with its file and readable |
| StoreIntegrity.DeleteKeepsInv | crates/storage/src/prints.rs:150-160 | A deletion, wherever it fails, leaves every other row with its file and every reference intact |
| PurgeInvisible.PurgesUnseen | crates/storage/src/shares.rs:271-279 | Erasing every purge from a run leaves all answers to logins, logouts, session lookups and creations and all successful redemptions as they were, and the log with the same lines in the same order, up to links, but for refused redemptions and revocations |
| PurgeInvisible.NeverFoundAgain | crates/storage/src/sessions.rs:83-125 | A session once expired or revoked is never found again, in any further run |
| PurgeInvisible.LogoutEnds | crates/storage/src/sessions.rs:103-117 | Logging out and ending a user's sessions remove them |
| ShareStatus.StatusAgrees | crates/storage/src/shares.rs:53-68 | From the epoch on a consumable share is shown active, a share shown active is consumable except at its stored expiry, and consuming implies the unrounded expiry is ahead |
| ShareStatus.StatusDiffers | crates/storage/src/shares.rs:53-68 | For every instant, exactly when a share is shown active and refused |
| ShareStatus.LabelPrecedence | crates/storage/src/shares.rs:70-84 | Exactly when each of the four labels is shown: revocation comes before expiry and expiry before exhaustion |
| ShareStatus.PurgeRemovesOnlyExpired | crates/storage/src/shares.rs:271-279 | From the epoch on a purge deletes no share that could still be redeemed if and only if the grace period is below the value at which its cast to i64 reaches into the future |
| RunLog.EveryLine | crates/service/src/lib.rs:617-643 | Every line the service writes nests within the reader's limit |
| RunLog.RunReadsBack | crates/service/src/lib.rs:617-643 | The file any run leaves reads back as exactly the events logged, and a restart resumes after the last |
| RunLog.RunIsSteps | crates/service/src/lib.rs:617-643 | The log of a run of the service is that of a run of log writes, fault for fault |
| RunLog.RunChain | crates/service/src/lib.rs:617-643 | From a verifying file the log of a run verifies if no line lands after a lost one, and else breaks exactly at the first that does, or a forgery is at hand |
| RunLog.LosslessRunVerifies | crates/service/src/lib.rs:617-643 | Where no append of the run is lost, its log verifies |
| RunLog.NothingUnrecorded | crates/service/src/lib.rs:617-643 | In every run the successful operations of each kind are at most the lines recording them, and exactly as many where no append landed and was reported as failed |
| Concurrency.Serialisable | crates/service/src/lib.rs:118-597 | Under any schedule, answers, tables and log are those of the operations run one after another in store-lock order, and every listing is a prefix of that log; inside an operation they are those of the serial run without it, or with it but for its line |
| Concurrency.StepInv | crates/service/src/lib.rs:123-168 | Every step of every thread keeps lock ownership, the tables and the log in step with the serial run |
| Concurrency.ExecGrows | crates/audit/src/lib.rs:79-97 | Later steps only append to the log and to the lock order |
| Concurrency.Progress | crates/service/src/lib.rs:123-168 | While a thread is unfinished some thread can move |
| Concurrency.CanFinish | crates/service/src/lib.rs:123-168 | From every reachable configuration some schedule finishes every thread |
| ConcurrentSafety.ConcurrentRunsAreSafe | crates/service/src/lib.rs:118-597 | The share limits, revocation, references and print contents hold under every interleaving, at every moment, inside operations and between them |
| ConcurrentSafety.ConcurrentLogVerdict | crates/service/src/lib.rs:118-597 | Under every schedule, at every moment, the verdict on the log and on what any thread listing it has read is the one the serial run's writes foretell: valid where no line landed after a lost one, else broken exactly at the first that did, or a forgery is at hand |
| Lifetimes.RestartsUnseen | crates/audit/src/lib.rs:66-73 | However the operations are divided among process lifetimes, every answer, the tables and what the log's lines say are those of one uninterrupted run; only the links may differ |
| Lifetimes.LifetimeSafety | crates/service/src/lib.rs:333-424 | The account of every share's redemptions, slots, limit and revocation holds over any number of lifetimes |
| Lifetimes.LifetimeVerdict | crates/audit/src/lib.rs:66-97 | From a verifying file the log verifies after any number of lifetimes if in none of them a line landed after a lost one, and else breaks exactly at the first that did, or a forgery is at hand |

## Left out

- crates/cng, crates/notifier, the sender agent, HTTP routing, templates, configuration and the command line: foreign calls, I/O and user interface.
- API tokens (`mint_api_token`, `verify_api_token`): the same shape as sessions without an expiry, so only easy members.
- User creation, password rotation and enabling or disabling of users: users do not change during a run; passwords are compared through an arbitrary PBKDF2.
- The mail and SMS sent after a share is created: they change neither tables nor log.
- `list_recent`, `list_by_vendor`, `list_active` and the row decoders: queries that only copy columns.
- `urlencode`, `sanitize_filename` and the `short_*` helpers of the web crate: display only.
- Mutex poisoning, panics (byte slicing of a non-ASCII token in `short_token`, instants outside years -9999 to 9999) and the async runtime.
- Torn lines in the audit file: an append is there in full or not at all, and each may return an error. Torn blob files are modelled.
- Schedules of threads over several process lifetimes: `Lifetimes` restarts serial runs, and a process that dies inside an operation leaves there what the operation leaves when the call it had reached fails.
- CreationSucceeds: assumes that the expiry lies within the calendar; the source panics past year 9999, holding the store lock, and panics are not modelled.
- ListAuditEvents: keeps an event's time as text, because the calendar is left out; the source refuses a malformed one and reads two spellings of an instant alike, so such an edit still verifies there.
- The calendar behind RFC 3339 text: an event keeps the text it has.
- Floating-point numbers in target and meta: serde_json reads a fraction or an exponent into an f64, which need not print back alike, so the JSON round trip is claimed only for values whose numbers are integers of 64 bits; the service writes no others.
- Other JSON spellings of an event that serde accepts, such as an array for a struct or an object for an outcome: the program never writes them.
- Timing of the comparison loops and the quality of the random source: only what the loops return, and how many byte strings give one code.
- The header line of the CSV export is modelled as a row of its ten names, which need no quoting.
