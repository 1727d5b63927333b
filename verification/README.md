# Talk in Dafny

A model of Talk, a small mail system: the ZSMTP daemon-to-daemon protocol, the IMAP4rev1 server and the SQLite mail
store with its transaction ledger. `dafny verify dfyconfig.toml` checks everything.

The layers, each a module per file:

- **Text and bytes.** `Utf8`, `Text`: UTF-8 with its lossy decoding, and the string operations of Rust's standard
  library that the code is built from.
- **ZSMTP.** `Framing` (lines and blobs on a byte stream), `Codec` (command lines), `Handshake` (challenge wire form and
  hashed preimages), `ZsmtpServer` (the session and its safety), `ZsmtpServing` (the server loop over bytes), `ZsmtpLink`
  (the client, and the two sides in lock-step), `ZsmtpTrust` (what must verify before a letter is sent),
  `ZsmtpCut` (connections that break), `ZsmtpHeard` (what the server hears of an invoice, and when success and failure
  can be believed).
- **Store and ledger.** `MailStore` (tables, statements, constraints), `SqliteStore` (the object), `Listing` (the joined
  listing), `UserDeletion`, `UidRuns` (appends and deletions as two steps, many sessions interleaved), `Ledger` (deliveries, sends,
  retries and their rows), `LedgerRecords` (what each leaves in the store), `LedgerActions` (the objects that do them), `Federation` (two daemons over connections that
  break).
- **IMAP.** `ImapTokens` and `ImapReader` (tokenizer and chunked reader), `ImapLiterals` (commands in pieces), `SequenceSet`,
  `FetchItems`, `FetchReply`, `FetchLiterals`, `FetchHeaders` and `FetchMeaning` (what a FETCH tells the client), `ImapSession` (the session object over the store), `ImapService` (a connection
  from bytes to replies), `ImapCuttings` and `CutStreams` (when the cutting of its bytes into reads shows), `Login`,
  `SessionIsolation`, `SessionPieces`, `SessionDispatch`, `SessionFlags`, `SessionNumbers`, `FlagWords`, `StoreMeaning`,
  `FetchSelection`.

Values and pure code are datatypes and functions. What the code updates in place is a class (`Channel`, `ZsmptSession`,
`ZsmptClient`, `CommandReader`, `SqliteMailStore`, `StoreDeliverySink`, `ImapConnection`) or a method with the loop the
code has, proved against a specification function; the theorems are about those functions and about runs of them.
Tables are maps by row id; a new row id is one more than the largest in use, as an `INTEGER PRIMARY KEY` without
AUTOINCREMENT issues it. Signatures, hashing, base64, JSON, password checks and date formats are function parameters,
with the usual round-trip laws where a property needs them.

## Where the code is narrower than its documentation

Each of these is a lemma below, and each property is stated with the exact condition under which it holds.

- The line writer allows 4096 bytes, the reader 4094: `Framing.LineReadsBack`.
- The client checks that the challenge it gets back verifies, not that it is the one it sent:
  `ZsmtpTrust.AuthenticatedExactly`.
- A closing parenthesis outside a list stops the tokenizer's loop for good: `ImapTokens.ProgressExactly`.
- Commands already read in a `feed` that ends in an error are lost with it: `ImapReader.CommandLostWithError`,
  `CutStreams.LostWithError`; chunk independence is therefore stated for streams that parse.
- The server reads no further than a literal's marker until more bytes arrive, and takes an empty read for the end: what
  stands behind the marker is then lost, `CutStreams.HeldCommandIsLost`. It answers IDLE itself, with the replies to the
  commands of the same read withheld, `CutStreams.ReplyWithheld`, and then drops what it reads until a DONE, while a DONE
  read along with the IDLE is not seen, `CutStreams.PipelinedDoneIsMissed`. When the cutting of a stream into reads
  shows is `ImapCuttings.CuttingExactly` and `ImapCuttings.SeamlessExactly`.
- An invoice id is not checked to be one word, and bytes left over from a line that was cut are run as further commands:
  success and failure can be believed exactly as `ZsmtpHeard.CredibleExactly` and `ZsmtpHeard.FailureExactly` say;
  `ZsmtpHeard.SuccessWithoutDelivery`, `ZsmtpHeard.FailureWithDelivery`.
- A literal that arrives in pieces is asked for again after each piece: `ImapService.AskedAgain`.
- UIDs are documented as never reused. Two appends to one mailbox that overlap share a UID: `UidRuns.OverlapSharesUid`;
  the exact condition is `UidRuns.UidsIncreaseExactly`.
- An append that overlaps the deletion of its user can store the message in the mailbox of the next user registered:
  `UidRuns.DeletedUsersMailReachesAnother`, and can leave a UID at its counter:
  `UidRuns.LateCommitReachesCounter`, `UidRuns.AlwaysBelowExactly`.
- A deletion looks its user up under one lock and deletes by id under another, and ids are issued again:
  `UidRuns.StaleDeletionReachesAnother`, `UidRuns.VictimExactly`.
- Deleting a user deletes ledger rows by a LIKE pattern in which `_` and `%` of the name are wildcards:
  `UserDeletion.WildcardNameReachesFurther`, `UserDeletion.SenderPatternExactly`; without wildcards, too, it takes the rows
  of mail other users had from a namesake anywhere: `UserDeletion.OthersRowsExactly`.
- An expunge leaves ledger links behind, and row ids are issued again: `Ledger.ReissuedRowListedTwice`,
  `Ledger.RunsLinkExactly`, `Listing.ListedOnce`.
- `tx fail` does not check the direction, against its help text: `Ledger.FailExactly`.
- A second recipient for a message id moves the first recipient's row: `Federation.SecondRecipientMisrecorded`,
  `Federation.SureExactly`.
- `*` and sequence numbers are compared with the message count and with UIDs: `SequenceSet.UidSelectionExact`,
  `SequenceSet.SequenceSelectionExact`.
- An earlier item that starts with BODY swallows what stands before the section: `FetchItems.RecognisedExactly`.
- A literal's count is of the bytes, its text the lossy decoding: `FetchReply.LiteralFramedExactly`.
- CLOSE always expunges the INBOX: `SessionFlags.CloseExactly`. An empty mailbox reports UIDVALIDITY 1:
  `SessionFlags.ValidityExactly`. EXAMINE does not make the session read-only, and STORE without a sign adds flags
  rather than replacing them: both are as `ImapSession` has them.

## Model

The first rows are the results: what holds of every input, every run or every interleaving. The last rows, from
`Framing.Channel.WriteLine` on, are the objects and loops, each proved to do what the function it is specified by says.

| member | source | states |
|---|---|---|
| `Utf8.DecodeEncode` | crates/talk-imap/src/session.rs:975-975 | UTF-8 decoding undoes encoding for every text; the wire is bytes, the server works on text |
| `Utf8.EncodeDecode` | crates/talk-protocol/src/framing.rs:26-44 | a byte string that decodes is the encoding of what it decodes to, so no two texts share bytes |
| `Utf8.LossyOfText` | crates/talk-imap/src/session.rs:975-975 | `from_utf8_lossy` replaces nothing in well-formed text |
| `Framing.LineReadsBack` | crates/talk-protocol/src/framing.rs:22-57 | reading undoes writing and leaves exactly the rest if and only if the line is LF-free and at most 4094 bytes: 4095 and 4096 can be written and are refused |
| `Framing.LineWithLfIsCut` | crates/talk-protocol/src/framing.rs:26-57 | a line that holds a line feed is never read back whole |
| `Framing.BlobReadsBack` | crates/talk-protocol/src/framing.rs:59-87 | every blob of at most 1 MiB, whatever its bytes, is read back and the rest is left |
| `Framing.FramesReadBack` | crates/talk-protocol/src/framing.rs:26-87 | any interleaving of lines and blobs is read back in order and leaves exactly the rest of the stream |
| `Framing.FramingUnique` | crates/talk-protocol/src/framing.rs:26-87 | two sequences of frames of the same kinds with the same bytes are the same sequence, with the same rest |
| `Framing.LineOfPrefix` | crates/talk-protocol/src/framing.rs:26-44 | what is read of the beginning of a stream is what is read of the stream: more bytes change nothing but the rest |
| `Framing.BlobOfPrefix` | crates/talk-protocol/src/framing.rs:59-74 | the same for blobs |
| `Codec.DecodeEncodeLine` | crates/talk-protocol/src/codec.rs:60-164 | `decode_line` undoes `encode_line` if and only if a HELLO domain has no space, an INVOICE's sender and message id are single words (its body travels as a blob) and a status code fits 16 bits |
| `Codec.DecodedInvoiceIsClean` | crates/talk-protocol/src/codec.rs:129-147 | whatever line decodes to an INVOICE, its sender and message id are single words |
| `Handshake.HexReadsBack` | crates/talk-protocol/src/handshake.rs:173-190 | decoding undoes hexadecimal printing for every byte string |
| `Handshake.WireRoundTrip` | crates/talk-protocol/src/handshake.rs:73-100 | a challenge's wire form reads back if and only if neither domain holds a bar |
| `Handshake.AuthReplyRoundTrip` | crates/talk-protocol/src/client.rs:120-130 | the AUTH reply, cut at its last bar, gives back challenge and signature if and only if neither domain holds a bar |
| `Handshake.ChallengePreimageInjective` | crates/talk-protocol/src/handshake.rs:60-70 | the bytes hashed for a challenge determine it, for NUL-free domains |
| `Handshake.AttestationPreimageInjective` | crates/talk-protocol/src/attestation.rs:79-96 | the bytes hashed for an address attestation determine every field, for NUL-free fields |
| `Handshake.RegistrationPreimageInjective` | crates/talk-protocol/src/attestation.rs:207-220 | the bytes hashed for a registration determine it, up to an absent against an empty viewing key |
| `Handshake.PreimageKindsDisjoint` | crates/talk-protocol/src/attestation.rs:79-220 | no challenge, attestation and registration can hash the same bytes, whatever their fields |
| `Handshake.NulFieldsCollide` | crates/talk-protocol/src/attestation.rs:79-96 | why NUL-free: moving a NUL between domain and user gives two different attestations with the same bytes |
| `ZsmtpServer.HandleStep` | crates/talk-protocol/src/session.rs:181-394 | states move forward one at a time, a recorded peer domain stays, and a command not answered 250 changes nothing |
| `ZsmtpServer.SessionReflectsHistory` | crates/talk-protocol/src/session.rs:181-394 | after every sequence of commands the session is what its history says: one accepted HELLO, one accepted AUTH, the latest accepted ADDR, whose user the directory knew |
| `ZsmtpServer.SinkCallsJustified` | crates/talk-protocol/src/session.rs:342-394 | in every run each sink call goes to the user of the latest accepted ADDR, from the domain of the one accepted AUTH, with what the INVOICE carried |
| `ZsmtpServer.PeerDomainSetOnce` | crates/talk-protocol/src/session.rs:270-293 | the peer domain, once recorded, is the one every later state of the run holds |
| `ZsmtpServer.InvoiceExactly` | crates/talk-protocol/src/session.rs:342-394 | in any run an INVOICE calls the sink if and only if there is a sink, an agreed ADDR before it and a message id, and is answered 250 if and only if those two hold and the sink, if any, accepted |
| `ZsmtpServing.ServeIsRun` | crates/talk-protocol/src/session.rs:204-251 | serving a byte stream is running the commands it decodes to: same session, same sink calls |
| `ZsmtpServing.ServedCallsJustified` | crates/talk-protocol/src/session.rs:204-394 | for every byte stream a peer can send, every sink call the server makes is justified by the session's history before it |
| `ZsmtpLink.ConnectInStep` | crates/talk-protocol/src/client.rs:68-86 | after `connect` both channels are empty and the two sides correspond |
| `ZsmtpLink.HelloInStep` | crates/talk-protocol/src/client.rs:88-101 | after `hello` both channels are empty and the two sides correspond |
| `ZsmtpLink.AuthInStep` | crates/talk-protocol/src/client.rs:103-136 | after `authenticate` with a fresh clock both channels are empty, both sides are authenticated and the server holds the client's domain |
| `ZsmtpLink.AddrInStep` | crates/talk-protocol/src/client.rs:139-166 | `request_address` succeeds exactly for known users, both channels are empty after it and the sides correspond |
| `ZsmtpLink.InvoiceInStep` | crates/talk-protocol/src/client.rs:169-195 | `send_invoice` reports what the sink said, as the matching error class, and the sink was called once with exactly that invoice |
| `ZsmtpLink.QuitKeepsCalls` | crates/talk-protocol/src/client.rs:197-205 | `quit` closes the connection and causes no delivery |
| `ZsmtpLink.SendInvoiceInStep` | crates/talk-protocol/src/client.rs:263-282 | `send_invoice_over` is Ok if and only if the recipient is known and the sink accepted; the sink was called exactly once with exactly that letter, or not at all; rejected and retry-later outcomes become the matching client error |
| `ZsmtpLink.StatusErrorClass` | crates/talk-protocol/src/client.rs:207-218 | a status line of class 4 becomes retry-later, every other becomes rejected |
| `ZsmtpLink.AuthOutcome` | crates/talk-protocol/src/client.rs:103-136 | with any key and any clock, authentication comes to the verdict on the signed challenge, the server has recorded the client's domain and nothing is left in flight |
| `ZsmtpLink.AddrOutcome` | crates/talk-protocol/src/client.rs:139-166 | with any key, the lookup comes to the verdict on the user and then on the attestation, and nothing is left in flight |
| `ZsmtpTrust.GreetedExactly` | crates/talk-protocol/src/client.rs:68-86 | a connection is greeted if and only if its first line is the protocol's name and a non-empty domain, which the client then deals with |
| `ZsmtpTrust.AuthenticatedExactly` | crates/talk-protocol/src/client.rs:103-136 | whatever is at the other end: the client is authenticated if and only if it was waiting to be, a blob came back, and the blob is some challenge between named domains, at most 300 seconds old, with a 64-byte signature that verifies under the key given |
| `ZsmtpTrust.AddressedExactly` | crates/talk-protocol/src/client.rs:139-166 | an address is taken if and only if the blob is an attestation for the greeted domain whose signature verifies under the key given |
| `ZsmtpTrust.KeyDecides` | crates/talk-protocol/src/handshake.rs:122-143 | with a server in step, authentication succeeds if and only if the server's own signature of the challenge verifies under the client's key and the clock is fresh |
| `ZsmtpTrust.KeyDecidesAddress` | crates/talk-protocol/src/attestation.rs:55-116 | with a server in step, an address is taken if and only if the user is named and known and the server's own signature of the attestation verifies under the client's key |
| `ZsmtpTrust.LetterNeedsKey` | crates/talk-protocol/src/client.rs:263-282 | with any key and any clock, the letter is delivered, once, if and only if both signatures verify under the key, the clock is fresh and the recipient is known, and success is reported if and only if the sink also accepted; a server that signs with another key is never given the letter |
| `ZsmtpCut.TurnOfPrefix` | crates/talk-protocol/src/session.rs:212-250 | a server turn on the beginning of a stream is the turn on the whole stream, or the server hangs up having done nothing |
| `ZsmtpCut.AskCut` | crates/talk-protocol/src/client.rs:88-101 | over a connection that breaks at any byte either way, a client satisfied with a status had its request carried whole and read the status of the unbroken connection |
| `ZsmtpCut.SuccessIsCredible` | crates/talk-protocol/src/client.rs:263-282 | over a connection that breaks at any byte either way, with any key and any clock, the sink is called with exactly the letter or not at all, and success is reported only if it was called and accepted |
| `ZsmtpHeard.HeardOutcome` | crates/talk-protocol/src/session.rs:212-250 | for any sender and id, words or not: the client is told of success if and only if the server hears an invoice in the client's own bytes; the calls its loop makes are one for what was heard and then those of the bytes left over, run as further commands, and of whatever the client sends later |
| `ZsmtpHeard.CredibleExactly` | crates/talk-protocol/src/client.rs:169-195 | success means that the server's loop made exactly this delivery of these bytes, and goes on with what is sent later, if and only if it hears of them this invoice or nothing |
| `ZsmtpHeard.FailureExactly` | crates/talk-protocol/src/session.rs:212-250 | for a line that fits: failure means that the loop delivered nothing, if and only if sender and id come to two words between them or the blob, run as commands, delivers nothing |
| `ZsmtpHeard.NothingLeft` | crates/talk-protocol/src/session.rs:212-250 | of a line that fits nothing is left over when an invoice is heard, and otherwise exactly the blob |
| `ZsmtpHeard.CredibleWords` | crates/talk-protocol/src/codec.rs:129-147 | for a line that fits, that is so if and only if sender and id are single words or do not come to two words between them |
| `ZsmtpHeard.LineFeedIdMisheard` | crates/talk-protocol/src/framing.rs:46-57 | an id with line feeds in it is heard as a shorter id with an empty body |
| `ZsmtpHeard.SuccessWithoutDelivery` | crates/talk-protocol/src/client.rs:169-195 | with such an id the client is told of success, the sink was given another message, and the end of the line and the blob are run as commands |
| `ZsmtpHeard.FailureWithDelivery` | crates/talk-protocol/src/session.rs:212-250 | an id with a line feed that carries a second invoice: the client is told of failure, and the sink gets that invoice, from another sender |
| `ZsmtpHeard.FailureWithForgedDelivery` | crates/talk-protocol/src/session.rs:212-250 | the same with an empty blob in the id: the sink gets a letter with an empty body, and what is left over is run as well |
| `ImapTokens.ProgressExactly` | crates/talk-imap/src/parse.rs:208-219 | a turn of the loop stands still if and only if it meets a closing parenthesis that nothing opened |
| `ImapTokens.TokenizerVerdict` | crates/talk-imap/src/parse.rs:154-222 | against an independent one-pass scanner: a line is tokenized, refused as unclosed or never finished exactly as the scanner says |
| `ImapTokens.ListTokenBalanced` | crates/talk-imap/src/parse.rs:166-182 | a parenthesised token is balanced and closes nothing early |
| `ImapTokens.TokensCover` | crates/talk-imap/src/parse.rs:154-222 | on every line that is finished the tokens come from disjoint, ordered, non-empty stretches that cover every non-whitespace character |
| `ImapTokens.QuoteIsOneToken` | crates/talk-imap/src/response.rs:61-72 | the tokenizer reads a quoted string back as one token with its original text, whatever follows |
| `ImapTokens.PrintedTokens` | crates/talk-imap/src/parse.rs:154-222 | a printed command line tokenizes to tag, name and exactly the arguments |
| `ImapReader.LiteralCount` | crates/talk-imap/src/parse.rs:114-127 | a literal count is at most 1 MiB and its marker at least two bytes of the line |
| `ImapReader.TurnDescends` | crates/talk-imap/src/parse.rs:55-104 | every turn that does not stop the loop lowers the pair of buffer length and literal pending, so `feed` terminates |
| `ImapReader.PauseAnnounces` | crates/talk-imap/src/parse.rs:106-108 | whenever the loop stops for a literal, the literal is outstanding, so a continuation is asked for |
| `ImapReader.DrainMore` | crates/talk-imap/src/parse.rs:55-104 | bytes that arrive later are read as if they had been there: draining the reader with more bytes is draining it first and the rest after |
| `ImapReader.FeedsAreDrain` | crates/talk-imap/src/parse.rs:55-104 | any sequence of feeds followed by empty feeds yields the commands of one drain of all the bytes, until the first error |
| `ImapReader.ChunkIndependence` | crates/talk-imap/src/parse.rs:55-108 | two ways of cutting the same bytes into feeds yield the same commands, in the same order, and leave the same reader |
| `ImapReader.CommandLostWithError` | crates/talk-imap/src/parse.rs:55-104 | a good line and a bad one: fed together the command is lost with the error, fed one after the other it is returned first |
| `ImapReader.PrintedCommandReadsBack` | crates/talk-imap/src/parse.rs:55-222 | feeding a printed command line yields exactly one command with that tag, the uppercased name and exactly those arguments, and announces no literal |
| `ImapLiterals.PiecesReadBack` | crates/talk-imap/src/parse.rs:55-104 | a command with any number of literals and text between them, cut into reads anywhere, is read as its texts and literals parse as one line: the command, or the error |
| `ImapLiterals.ScriptReadsBack` | crates/talk-imap/src/parse.rs:55-108 | any number of such commands come back exactly, in order, with nothing held back |
| `ImapLiterals.LoginWithLiterals` | crates/talk-imap/src/parse.rs:80-100 | a LOGIN with name and password as literals is the one command with exactly those two arguments |
| `MailStore.NextId` | crates/talk-mailstore/src/sqlite.rs:86-99 | a new row id is above every id in use and issues the newest again once it is gone |
| `MailStore.InsertMessageSound` | crates/talk-mailstore/src/sqlite.rs:565-598 | an insert keeps the uniqueness constraints and foreign keys |
| `MailStore.CreateUserSound` | crates/talk-mailstore/src/sqlite.rs:176-220 | registration keeps the uniqueness constraints and foreign keys |
| `LedgerRecords.RegisterExactly` | crates/talk-mailstore/src/sqlite.rs:176-220 | a new user has the name and hash given and two empty mailboxes with the time as validity; a name in use is refused; nothing else changes |
| `MailStore.TxCreateSound` | crates/talk-mailstore/src/sqlite.rs:351-388 | a new ledger row keeps one row per direction and message id |
| `MailStore.LedgerUpdatesSound` | crates/talk-mailstore/src/sqlite.rs:391-494 | linking, moving and binding a ledger row keep the constraints |
| `MailStore.SetFlagsSound` | crates/talk-mailstore/src/sqlite.rs:838-860 | changing flags keeps the constraints |
| `MailStore.ExpungeSound` | crates/talk-mailstore/src/sqlite.rs:868-886 | an expunge keeps the constraints |
| `SqliteStore.ExpungeRemoves` | crates/talk-mailstore/src/sqlite.rs:881-884 | an expunge removes exactly the messages marked deleted in its mailbox and leaves every other as it was |
| `SqliteStore.ExpungeReportsRemoved` | crates/talk-mailstore/src/sqlite.rs:871-885 | a number is reported for each removed message, in ascending order when UIDs fit 32 bits |
| `Listing.ByUidOrdered` | crates/talk-mailstore/src/sqlite.rs:634-634 | the listing order holds every message once, UIDs descending |
| `Listing.ListedOnce` | crates/talk-mailstore/src/sqlite.rs:628-635 | the LEFT JOIN lists every message of the mailbox exactly once, newest first, if and only if no message has two ledger rows linked to it |
| `Listing.ListingShows` | crates/talk-mailstore/src/sqlite.rs:621-647 | every entry shows its message exactly as stored, with the state of a ledger row linked to it; every message of the mailbox is listed, and with each ledger row linked to it |
| `Listing.AppendedIsListed` | crates/talk-mailstore/src/sqlite.rs:558-647 | what is appended is stored and listed with its own subject, sender, size, date, flags and trust state, under the UID the mailbox was at |
| `UserDeletion.EveryStatementKeepsForeignKeys` | crates/talk-mailstore/src/sqlite.rs:312-333 | after each of the six statements every foreign key still holds |
| `UserDeletion.DeletionIsContained` | crates/talk-mailstore/src/sqlite.rs:305-344 | every other user's row, shares, keyring, mailboxes and messages are as before and nothing of the user's is left in these tables |
| `UserDeletion.OthersRowsExactly` | crates/talk-mailstore/src/sqlite.rs:318-324 | of the ledger rows linked to no message of the user's, for a name without SQL wildcards, exactly those sent from that name go, in either direction and at any domain; every other stays as it was |
| `UserDeletion.NamesakesMailLosesItsRow` | crates/talk-mailstore/src/sqlite.rs:318-324 | another user's message received from a namesake at any domain stays, and its ledger row goes |
| `UserDeletion.SenderPatternExactly` | crates/talk-mailstore/src/sqlite.rs:318-324 | the LIKE pattern matches exactly the senders whose text before the `@` is the username, ignoring ASCII case, if and only if the username has no SQL wildcard |
| `UserDeletion.WildcardNameReachesFurther` | crates/talk-mailstore/src/sqlite.rs:318-324 | a user named with an underscore: deleting them also deletes a ledger row another user sent |
| `UidRuns.EveryRunKeepsInv` | crates/talk-mailstore/src/sqlite.rs:558-613 | with no user deleted while an append to their mailbox is in flight, the counter is also above every stored UID and a UID falls behind its turn exactly when its append was overtaken |
| `UidRuns.EveryRunCounts` | crates/talk-mailstore/src/sqlite.rs:558-613 | in EVERY interleaving, lookups and inserts apart: the counter is one more than the appends committed, and message ids are unique in a mailbox |
| `UidRuns.AlwaysBelowExactly` | crates/talk-mailstore/src/sqlite.rs:564-598 | in EVERY interleaving: every stored UID is below its counter at every moment if and only if no append is committed holding a UID above the counter it finds |
| `UidRuns.LateCommitReachesCounter` | crates/talk-mailstore/src/sqlite.rs:305-344 | a run that breaks the bound: an append holding UID 2 outlives its user, and the next user's INBOX holds UID 2 with its counter at 2 |
| `UidRuns.UidsIncreaseExactly` | crates/talk-mailstore/src/sqlite.rs:549-613 | with no user deleted under an append, the UIDs a mailbox gives out strictly increase, and so are never reused even after expunge, if and only if no append to it was overtaken between lookup and insert |
| `UidRuns.CounterNeverFalls` | crates/talk-mailstore/src/sqlite.rs:595-598 | no step lowers a mailbox's counter or raises it by more than one |
| `UidRuns.CounterNeverFallsInRuns` | crates/talk-mailstore/src/sqlite.rs:595-598 | in EVERY interleaving the counter of a mailbox that is not deleted never decreases |
| `UidRuns.OverlapSharesUid` | crates/talk-mailstore/src/sqlite.rs:564-565 | two appends to one mailbox whose lookups both come first store two messages under one UID |
| `UidRuns.CommitBoundExactly` | crates/talk-mailstore/src/sqlite.rs:574-598 | a commit keeps every UID below the counter if and only if the UID it holds is not above it |
| `UidRuns.DeletedUsersMailReachesAnother` | crates/talk-mailstore/src/sqlite.rs:305-344 | a run in which a user is deleted between the lookup and the insert of an append, row ids are issued again, and the message is stored in another user's INBOX |
| `UidRuns.VictimExactly` | crates/talk-mailstore/src/sqlite.rs:306-311 | a deletion, whose lookup and statements are apart, removes a user other than the one it names if and only if the id it holds is by then that user's |
| `UidRuns.StaleDeletionReachesAnother` | crates/talk-mailstore/src/sqlite.rs:306-311 | two deletions of one user look the user up before either deletes; a new user is given the id in between, and the second deletion deletes the new user |
| `Ledger.StepInOrder` | crates/talkd/src/secure.rs:133-216 | every step keeps the ledger in order and every row's parties, body and payload |
| `Ledger.StepSound` | crates/talk-mailstore/src/sqlite.rs:51-126 | every step of delivery, sending, retrying and settling keeps the uniqueness constraints and foreign keys, whatever rows it is applied to |
| `Ledger.RunsAreDisciplined` | crates/talk-ctl/src/remote.rs:218-294 | in every run one row per direction and message id, inbound rows opaque, resolved or spent, outbound rows sent, failed or retrying, parties and body those of the first recording, and one copy per mailbox and message id |
| `Ledger.FailExactly` | crates/talk-ctl/src/tx.rs:51-56 | failing a row keeps the ledger in order if and only if the row is not inbound |
| `Ledger.DeedLinksExactly` | crates/talkd/src/sink.rs:209-234 | over a delivery, send, retry, settlement, flag change, expunge or user deletion links stay distinct if and only if the step links to a message row no other ledger row points at |
| `Ledger.RunsLinkExactly` | crates/talk-mailstore/src/sqlite.rs:391-398 | over every run of those, each message row has at most one ledger row at every moment if and only if no step links to a row id issued again while another ledger row still pointed at it |
| `Ledger.ReissuedRowListedTwice` | crates/talk-mailstore/src/sqlite.rs:881-884 | receive, mark deleted, expunge, receive: the second message takes the first one's row id, has two ledger rows, and is listed twice |
| `Ledger.RunsLinkOnce` | crates/talkd/src/sink.rs:209-234 | and then every mailbox lists each of its messages exactly once |
| `LedgerRecords.DeliverExactly` | crates/talkd/src/sink.rs:239-300 | a delivery is accepted if and only if the recipient is a user whose INBOX lacks the id; then exactly that message and one inbound row of those parties, linked to it, are added; otherwise nothing changes; only a missing INBOX is worth a retry |
| `LedgerRecords.OutboundExactly` | crates/talkd/src/secure.rs:133-216 | recording an attempt leaves its letter in the ledger, in the state, or moves the row there is; and one copy in the sender's Sent, or none; nothing else changes |
| `LedgerRecords.RefusedRecordsNothing` | crates/talkd/src/secure.rs:221-245 | a send without a sender or to a recipient without a domain records nothing, and every other is recorded |
| `LedgerRecords.SettleExactly` | crates/talk-ctl/src/tx.rs:42-135 | resolving, spending and failing by hand change one row, of the right direction, and of it the state and binding alone |
| `LedgerRecords.VerdictRecorded` | crates/talkd/src/secure.rs:300-332 | a send is recorded Sent if the sink accepted, Retrying if it asked to be tried later, Failed if it refused or the recipient is unknown |
| `LedgerRecords.UnreachedRecorded` | crates/talk-ctl/src/remote.rs:157-214 | which other endings are retried, which failed and which not recorded, by the daemon and by the command line |
| `Federation.SentMeansReceivedOnce` | crates/talkd/src/secure.rs:221-332 | two daemons, every connection breaking at any byte either way, any mix of sends and retries, letters whose sender and id are words within the size bounds, one recipient per message id, no expunge at the receiver: at every moment a Sent row's message is in its recipient's INBOX |
| `Federation.AgreedMeansReceived` | crates/talkd/src/secure.rs:221-332 | the same without a fixed recipient per message id, if every success finds under its id a row that names its recipient or says Sent already: a test on the sender's own store |
| `Federation.SureExactly` | crates/talkd/src/secure.rs:147-156 | recording a success keeps that for every receiver's store consistent with what the sender knows, if and only if the row found passes this test |
| `Federation.SentMeansReceivedExactly` | crates/talkd/src/secure.rs:221-332 | without the one-recipient hypothesis: that holds at every moment if and only if no row is marked Sent while the recipient it names has not got the message |
| `Federation.RunsKeepBase` | crates/talk-mailstore/src/sqlite.rs:98-98 | in every such run no mailbox of the receiver holds two copies of a message id, and what a sink accepted is in the recipient's INBOX |
| `Federation.TalkIsCredible` | crates/talk-ctl/src/remote.rs:157-214 | connect and send over a connection cut anywhere: the sink is called with exactly the letter or not at all, and the sender learns of success only if it accepted |
| `Federation.FinishExactly` | crates/talkd/src/secure.rs:307-330 | recording how an attempt ended keeps Sent-means-received if and only if the row of the message id, when it becomes Sent, names a recipient who has the message |
| `Federation.DeliverGrows` | crates/talkd/src/sink.rs:181-205 | a delivery loses no mail, and an accepted one is in the recipient's INBOX |
| `Federation.OutboundRows` | crates/talkd/src/secure.rs:133-174 | recording moves exactly the row of that message id, keeps its recipient, and changes no other |
| `Federation.SecondRecipientMisrecorded` | crates/talkd/src/secure.rs:147-156 | a run of two stores: the id is sent again to somebody else and that succeeds; the row says Sent, still names the first recipient, and the first recipient's INBOX has nothing |
| `Federation.RetryCarriesRow` | crates/talk-ctl/src/tx.rs:137-164 | every sink call of a retry, whatever its connection carries, has the row's sender at the domain, its message id, its recipient, its stored body and its payload |
| `Federation.RetryIsTheLetter` | crates/talk-ctl/src/tx.rs:137-164 | of a row recorded for a failed send, that is the letter first sent |
| `SequenceSet.PrintedSetSelects` | crates/talk-imap/src/session.rs:569-591 | for every well-formed set, the printed form selects exactly the numbers it denotes, reversed ranges included, with `*` read as the message count |
| `SequenceSet.NumbersRead` | crates/talk-imap/src/session.rs:585-591 | a star is the count, a number up to 32 bits itself, and anything else 1 |
| `SequenceSet.UidSelectionExact` | crates/talk-imap/src/session.rs:585-591 | in a mailbox of distinct UIDs, selection by UID is right for every set if and only if the UIDs are exactly 1 to the number of messages |
| `SequenceSet.UidSelectionByTop` | crates/talk-imap/src/session.rs:585-591 | in any mailbox, selection by UID is right for every set if and only if the largest UID is the number of messages |
| `SequenceSet.SequenceSelectionExact` | crates/talk-imap/src/session.rs:348-351 | selection by sequence number is right for every set if and only if the UIDs are exactly 1 to the number of messages |
| `SequenceSet.StarFreeSelection` | crates/talk-imap/src/session.rs:569-591 | a set without `*` selects by UID correctly in every mailbox |
| `SequenceSet.StarAfterExpunge` | crates/talk-imap/src/session.rs:585-591 | with UID 2 alone left, `*` selects nothing |
| `FetchSelection.RunsFiled` | crates/talk-mailstore/src/sqlite.rs:558-613 | in EVERY interleaving without an expunge, each mailbox holds exactly the messages of the appends committed to it, one for one |
| `FetchSelection.DenseExactly` | crates/talk-mailstore/src/sqlite.rs:564-598 | there the message with sequence number k has UID k, for every k, if and only if no append to the mailbox was overtaken |
| `FetchSelection.SelectsByPlaceExactly` | crates/talk-imap/src/session.rs:348-351 | in every interleaving of appends without an expunge, without a user deleted under an append, and with each message listed once: every sequence set selects right if and only if no append to the mailbox was overtaken |
| `FetchSelection.SelectsDenoted` | crates/talk-imap/src/session.rs:348-351 | and when none was overtaken, FETCH, UID FETCH, STORE and UID STORE choose a message if and only if the set denotes it, with `*` the largest number |
| `FetchItems.ParseInnerExactly` | crates/talk-imap/src/session.rs:828-865 | parsing what a section prints between its brackets gives it back if and only if field names are words, none mentions `.NOT` unless negated, and other names are not taken for a keyword |
| `FetchItems.LabelReadsBackExactly` | crates/talk-imap/src/session.rs:665-679 | extracting and parsing a section's label gives the section and consumes it entirely if and only if it is readable and its brackets match |
| `FetchItems.LabelTokenizes` | crates/talk-imap/src/parse.rs:154-222 | the tokenizer cuts a label at its field list, whatever follows |
| `FetchItems.RejoinedReadsBack` | crates/talk-imap/src/session.rs:312-331 | cut into tokens and rejoined with spaces, the label still gives the section, is consumed entirely and leaves what followed |
| `FetchItems.ExtractAmongItems` | crates/talk-imap/src/session.rs:782-825 | with items on both sides the section is found, and exactly the items from the first earlier one starting with BODY are lost |
| `FetchItems.RequestAmongItems` | crates/talk-imap/src/session.rs:723-778 | a FETCH list with a section asks for that section, the trio, and the other items that are not lost |
| `FetchItems.RecognisedExactly` | crates/talk-imap/src/session.rs:757-769 | the request of a FETCH list with a section is the one its items ask for if and only if each item lost to an earlier one starting with BODY is asked for elsewhere, is one of the trio, or is no item; with none starting with BODY it always is |
| `FetchItems.BodystructureOrder` | crates/talk-imap/src/session.rs:786-822 | BODYSTRUCTURE before a section is lost, after it is not |
| `FetchItems.ItemsAsk` | crates/talk-imap/src/session.rs:752-778 | each item asks for its own metadata, in any case of letters; with a section, flags, UID and size are always told |
| `FetchItems.MacrosAsk` | crates/talk-imap/src/session.rs:723-760 | what FAST, ALL, FULL, a star and nothing ask for, in any case of letters |
| `FetchReply.MarkerReadsBack` | crates/talk-imap/src/parse.rs:114-127 | the written `{n}` reads back as exactly n, by the server's own reader up to 1 MiB and by a client without limit |
| `FetchReply.LiteralFramedExactly` | crates/talk-imap/src/session.rs:964-977 | a client reading `{n}`, n bytes and `)` CRLF recovers the content and stands at what follows if and only if the content is valid UTF-8 |
| `FetchReply.RepliesReadBack` | crates/talk-imap/src/session.rs:964-977 | for any number of literals in one reply every content is recovered |
| `FetchReply.HeadOnOneLine` | crates/talk-imap/src/session.rs:928-973 | LF-free metadata gives a head on one line |
| `FetchReply.ContentIsText` | crates/talk-imap/src/session.rs:682-700 | synthesized headers are always valid UTF-8, stored sections when the body is |
| `FetchLiterals.FetchReadsBack` | crates/talk-imap/src/session.rs:347-373 | a whole FETCH reply over any number of messages is read back: every message's literal, which for BODY[], BODY[TEXT] and other sections is the stored body, and then exactly what follows |
| `FetchHeaders.HeadersServed` | crates/talk-imap/src/session.rs:870-920 | a header section is text in which a client reads exactly the fields asked for, by name in any case of letters or all but those named; From and To are the sender and the user's own address, the other way round in Sent |
| `FetchMeaning.FetchServes` | crates/talk-imap/src/session.rs:305-374 | FETCH of a section as the client reads it: for each message in the set a line with exactly the metadata asked for, as the store holds it, and a literal that is the section |
| `FetchMeaning.FetchTells` | crates/talk-imap/src/session.rs:922-975 | FETCH of metadata alone: for each message in the set exactly the items asked for, as the store holds them |
| `ImapCuttings.CuttingExactly` | crates/talk-imap/src/server.rs:183-249 | under any cutting into reads that do not mix an IDLE with the commands around it, `serve_connection` writes the replies, and leaves the session and the store, of the commands one at a time, if and only if no command that matters is held back behind a literal's marker when the stream ends |
| `ImapCuttings.ServiceIndependent` | crates/talk-imap/src/server.rs:170-250 | two such cuttings of one stream, one of them with nothing held back, give the same replies, session and store, if and only if the other holds nothing back |
| `ImapCuttings.SeamlessReads` | crates/talk-imap/src/server.rs:170-250 | every cutting, of whatever stream that parses, is the commands one at a time if one read of it all returns every command and no IDLE comes after a command or before a DONE, up to a LOGOUT |
| `ImapCuttings.SeamlessExactly` | crates/talk-imap/src/server.rs:170-250 | of a stream that parses and fits one read, all cuttings agree if and only if that is so |
| `ImapCuttings.BytewiseReads` | crates/talk-imap/src/server.rs:183-249 | byte by byte a stream that parses is always its commands one at a time |
| `ImapCuttings.OneReadReturnsLeast` | crates/talk-imap/src/parse.rs:55-104 | however a stream is cut, the reads return at least what one read of it all returns |
| `CutStreams.HeldCommandIsLost` | crates/talk-imap/src/server.rs:184-187 | a command with a literal: handled when the literal comes in a read of its own, lost at the end of the stream when all of it comes in one |
| `CutStreams.HeldNoopIsLost` | crates/talk-imap/src/server.rs:184-187 | such a stream: a NOOP with an empty literal, answered once or not at all |
| `CutStreams.ReplyWithheld` | crates/talk-imap/src/server.rs:219-237 | a command and an IDLE: in two reads the reply is written, in one it is withheld while the server idles |
| `CutStreams.WithheldUntilDone` | crates/talk-imap/src/server.rs:219-245 | the replies withheld are written when the DONE comes, then the end of the IDLE, then the reply to what was read behind it |
| `CutStreams.PipelinedDoneIsMissed` | crates/talk-imap/src/server.rs:219-237 | IDLE, DONE and a command: in three reads the command is handled, in one read the DONE is kept behind the IDLE and the command is not handled |
| `CutStreams.LostWithError` | crates/talk-imap/src/server.rs:193-211 | NOOP and an unclosed list in one read: the NOOP is lost with the error |
| `ImapService.AskedAgain` | crates/talk-imap/src/server.rs:213-217 | a read that leaves a literal unfinished leaves it announced, so the client is asked to go on again after every piece |
| `ImapService.ErrorTold` | crates/talk-imap/src/server.rs:193-211 | a read that does not parse brings a complaint, and the end of the connection if the line was not ended properly; while idling, the end alone |
| `Login.LocalUsernameExactly` | crates/talk-mailstore/src/lib.rs:280-298 | a name at a domain is accepted if and only if the domain is the local one, ignoring ASCII case |
| `Login.LocalNameExactly` | crates/talk-mailstore/src/lib.rs:280-298 | a login name is a user's if and only if, trimmed, it is the bare name or the name at the local domain |
| `Login.PlainToken` | crates/talk-imap/src/session.rs:117-124 | a SASL PLAIN token carries the name and the password between its NUL bytes |
| `Login.AuthExactly` | crates/talk-imap/src/session.rs:98-217 | a login succeeds if and only if it names a user and the password proves it: against the stored hash, by local group, or by unlocking one of the user's shares that is not revoked; and the session is then that user's |
| `Login.LoggedInByCommand` | crates/talk-imap/src/session.rs:98-217 | whoever a session is logged in as after a run, some command of the run carried that user's name and a password that proves the user, and the user is in the store |
| `SessionIsolation.CommandIsContained` | crates/talk-imap/src/session.rs:55-553 | a command before login changes nothing in the store; after it only flags and presence of the user's own messages change, no mailbox row and no other table; the user never changes |
| `SessionIsolation.RunIsContained` | crates/talk-imap/src/session.rs:55-553 | the same over every sequence of commands: the user is set at most once, a run without login leaves the store alone, no UIDNEXT changes |
| `SessionIsolation.RunsAreIsolated` | crates/talk-imap/src/session.rs:219-553 | two stores that agree on the user's mailboxes, messages and linked ledger rows give identical replies to every command sequence and still agree after it |
| `SessionIsolation.OthersAreInvisible` | crates/talk-imap/src/session.rs:219-553 | commands of other users' sessions, interleaved command by command in any way, do not change a single reply |
| `SessionPieces.FetchInPieces` | crates/talk-imap/src/session.rs:332-371 | a FETCH that lists at one moment and reads each body at another, while others change whatever is not the user's, replies as if undisturbed |
| `SessionPieces.StoreInPieces` | crates/talk-imap/src/session.rs:440-475 | however others' changes fall between the updates of a STORE, the user's part of the store ends as if undisturbed |
| `SessionPieces.OthersAgree` | crates/talk-imap/src/session.rs:55-553 | a command of another user's session is such a change |
| `SessionFlags.SetAllIs` | crates/talk-mailstore/src/sqlite.rs:838-860 | setting flags row by row, repeats included, changes exactly the rows named, each once, and nothing else |
| `SessionFlags.ListingAfterStore` | crates/talk-imap/src/session.rs:452-475 | after a STORE the mailbox lists as before, with the flags of exactly the chosen messages changed |
| `SessionFlags.StoreThenFetch` | crates/talk-imap/src/session.rs:410-478 | what STORE answers for each message is word for word what a FETCH of the flags of the same set then answers, and what the store holds |
| `SessionFlags.StoreLeavesOthers` | crates/talk-imap/src/session.rs:452-475 | a message outside the set or in another mailbox is untouched |
| `StoreMeaning.StoreSets` | crates/talk-imap/src/session.rs:410-478 | after a STORE every message of the selected mailbox in the set has each flag the list names, or has it no longer if the mode begins with a minus; every other flag, field, message and table is as before |
| `StoreMeaning.StoreTells` | crates/talk-imap/src/session.rs:452-477 | the reply has for each of them a line with its UID and exactly the flags the store now holds |
| `FlagWords.ListExactly` | crates/talk-imap/src/session.rs:594-607 | a flag list asks for exactly the flags its words name, in any case of letters and with marks around them |
| `SessionDispatch.Dispatches` | crates/talk-imap/src/session.rs:55-84 | every command on the selected mailbox goes to its own step, also as a UID command, and is refused when none is selected |
| `SessionFlags.UnseenCountsAgree` | crates/talk-imap/src/session.rs:231-232 | SEARCH UNSEEN lists as many numbers as STATUS and SELECT report unseen, and with each message listed once as many as the store holds |
| `SessionFlags.CloseExactly` | crates/talk-imap/src/session.rs:544-553 | CLOSE removes exactly the deleted messages of the selected mailbox if and only if that is the INBOX or neither has any |
| `SessionFlags.ValidityExactly` | crates/talk-imap/src/session.rs:233-233 | SELECT and STATUS report the mailbox's UIDVALIDITY if and only if it holds a message or the value is 1 |
| `SessionNumbers.SelectTells` | crates/talk-imap/src/session.rs:219-251 | SELECT opens the mailbox and tells count, unseen, UIDVALIDITY and UIDNEXT, each under its own name |
| `SessionNumbers.StatusTells` | crates/talk-imap/src/session.rs:278-303 | STATUS tells the same numbers of the mailbox it names and changes nothing |
| `SessionNumbers.SearchFinds` | crates/talk-imap/src/session.rs:480-525 | SEARCH lists the UIDs of exactly the messages that meet the criteria: all, if there is none or an ALL with nothing stricter behind it, the unseen if asked for, and otherwise none |
| `SessionNumbers.ExpungeTells` | crates/talk-imap/src/session.rs:527-542 | EXPUNGE removes exactly the deleted messages of the selected mailbox and tells a UID for each |
| `SessionNumbers.CloseTells` | crates/talk-imap/src/session.rs:544-553 | CLOSE leaves the selected state, clears the INBOX and tells nothing more |
| `SessionNumbers.ListTells` | crates/talk-imap/src/session.rs:253-267 | LIST lists each of the two mailboxes the pattern names, and both when it is missing, empty or a star |
| `SessionNumbers.PlainTells` | crates/talk-imap/src/session.rs:86-96 | NOOP, CAPABILITY and LOGOUT change nothing and say what they should |
| `FlagWords.FlagsReadBack` | crates/talk-imap/src/session.rs:594-624 | the flags FETCH prints, given to STORE, name exactly the flags the message has |
| `Framing.Channel.WriteLine` | crates/talk-protocol/src/framing.rs:46-57 | a line of at most 4096 bytes is appended with CRLF, a longer one is refused and nothing is written |
| `Framing.Channel.WriteBlob` | crates/talk-protocol/src/framing.rs:76-87 | a blob of at most 1 MiB is appended behind its header, a larger one is refused and nothing is written |
| `Framing.Channel.ReadLine` | crates/talk-protocol/src/framing.rs:26-44 | the scanning loop takes exactly the line the specification takes, with every error case, and leaves exactly the rest |
| `Framing.Channel.ReadBlob` | crates/talk-protocol/src/framing.rs:59-74 | header, size bound and body are taken as specified, with every error case, leaving exactly the rest |
| `Handshake.Unhex` | crates/talk-protocol/src/handshake.rs:177-190 | the filling loop decodes texts of 32 bytes pair by pair as specified, and refuses any other length or digit |
| `ZsmtpServer.ZsmptSession.HandleHello` | crates/talk-protocol/src/session.rs:253-267 | the greeting step as specified: when it moves the state, and otherwise nothing changes |
| `ZsmtpServer.ZsmptSession.HandleAuth` | crates/talk-protocol/src/session.rs:270-293 | the authentication step as specified: signature over the challenge, peer domain recorded |
| `ZsmtpServer.ZsmptSession.HandleAddr` | crates/talk-protocol/src/session.rs:296-339 | the address step as specified: unknown users refused, otherwise a signed attestation and the address user |
| `ZsmtpServer.ZsmptSession.HandleInvoice` | crates/talk-protocol/src/session.rs:342-394 | the delivery step as specified: the sink is called at most once, with exactly these arguments |
| `ZsmtpServer.ZsmptSession.HandleCommand` | crates/talk-protocol/src/session.rs:181-200 | dispatch to the steps; state, answer and sink calls are those of the specification |
| `ZsmtpServing.ServeOnce` | crates/talk-protocol/src/session.rs:212-250 | one turn of the loop on session and channels: what is read, what is left on the stream, written and called, and whether the loop goes on |
| `ZsmtpServing.RunSession` | crates/talk-protocol/src/session.rs:204-251 | greeting and loop until QUIT or the end of the stream: final session, all output and all sink calls are those of the recursive specification |
| `ZsmtpLink.ZsmptClient.AwaitGreeting` | crates/talk-protocol/src/client.rs:68-86 | reading the greeting from the stream is the specified step |
| `ZsmtpLink.ZsmptClient.PeerTurn` | crates/talk-protocol/src/session.rs:212-250 | while the client waits for its answer the peer takes the turn that answers it |
| `ZsmtpLink.ZsmptClient.AwaitStatus` | crates/talk-protocol/src/client.rs:88-101 | a status line is read and matched against the expected code, or becomes the error of its class |
| `ZsmtpLink.ZsmptClient.Ask` | crates/talk-protocol/src/client.rs:88-101 | a request line is written, answered and its status read, as specified, or refused as too long |
| `ZsmtpLink.ZsmptClient.SayHello` | crates/talk-protocol/src/client.rs:88-101 | the object's HELLO is the specified step on client state and both channels |
| `ZsmtpLink.ZsmptClient.RequireAuth` | crates/talk-protocol/src/client.rs:103-136 | the object's AUTH is the specified step: challenge, reply, signature and freshness check |
| `ZsmtpLink.ZsmptClient.AskAddress` | crates/talk-protocol/src/client.rs:139-166 | the object's ADDR is the specified step: status, blob, attestation check |
| `ZsmtpLink.ZsmptClient.PostInvoice` | crates/talk-protocol/src/client.rs:169-195 | the object's INVOICE is the specified step: line, blob, status |
| `ZsmtpLink.ZsmptClient.Send` | crates/talk-protocol/src/client.rs:263-282 | outcome and sink calls of the whole exchange are those of the specified composition of its steps |
| `ImapTokens.ListEnd` | crates/talk-imap/src/parse.rs:166-182 | the depth-counting loop ends exactly where the parentheses close, or runs off the line |
| `ImapTokens.QuotedEnd` | crates/talk-imap/src/parse.rs:183-207 | the quoted-string loop unescapes and ends exactly at the closing quote, or runs off the line |
| `ImapTokens.AtomEnd` | crates/talk-imap/src/parse.rs:208-219 | the bare-atom loop stops exactly at whitespace, a parenthesis or a quote |
| `ImapTokens.Tokenize` | crates/talk-imap/src/parse.rs:154-222 | the index loop yields exactly the specified tokens, or the error, or stands still |
| `ImapTokens.QuoteString` | crates/talk-imap/src/response.rs:61-72 | the quoting loop prints exactly the quoted form |
| `ImapReader.CommandReader.TakeTurn` | crates/talk-imap/src/parse.rs:59-102 | one turn of the loop on buffer, pending line and literal is the specified turn |
| `ImapReader.CommandReader.FeedBytes` | crates/talk-imap/src/parse.rs:55-104 | `feed` returns exactly the specified commands, or the error and none of them, and leaves the specified reader |
| `SqliteStore.SqliteMailStore.FindUser` | crates/talk-mailstore/src/sqlite.rs:223-239 | the one user of that name, or none |
| `SqliteStore.SqliteMailStore.FindMailbox` | crates/talk-mailstore/src/sqlite.rs:536-547 | the one mailbox of that user and name, or none |
| `SqliteStore.SqliteMailStore.Register` | crates/talk-mailstore/src/sqlite.rs:176-220 | a taken name changes nothing; otherwise the user and both mailboxes are added and the schema holds |
| `SqliteStore.SqliteMailStore.AppendMessageTo` | crates/talk-mailstore/src/sqlite.rs:558-613 | lookup, then the insert: new contents and outcome are those of the specification, and the schema holds |
| `SqliteStore.SqliteMailStore.InsertInto` | crates/talk-mailstore/src/sqlite.rs:565-598 | the second half alone: duplicate refused, missing mailbox refused, otherwise row and counter |
| `SqliteStore.SqliteMailStore.ListMessagesIn` | crates/talk-mailstore/src/sqlite.rs:621-640 | the joined listing of the mailbox, or the missing-mailbox error |
| `SqliteStore.SqliteMailStore.FetchBodyIn` | crates/talk-mailstore/src/sqlite.rs:798-824 | the body if the row is in the user's mailbox of that name, and only then |
| `SqliteStore.SqliteMailStore.UidnextIn` | crates/talk-mailstore/src/sqlite.rs:649-652 | the mailbox's counter as a 32-bit number |
| `SqliteStore.SqliteMailStore.SetFlagsIn` | crates/talk-mailstore/src/sqlite.rs:838-860 | exactly that row's flags change, if it is in the mailbox |
| `SqliteStore.SqliteMailStore.ExpungeIn` | crates/talk-mailstore/src/sqlite.rs:868-886 | the reported UIDs and the removal are those of the specification |
| `SqliteStore.SqliteMailStore.DeleteUser` | crates/talk-mailstore/src/sqlite.rs:305-344 | the six statements in order have the specified effect and the schema holds after them |
| `SqliteStore.SqliteMailStore.FindTx` | crates/talk-mailstore/src/sqlite.rs:416-432 | the one ledger row of that direction and message id, or none |
| `SqliteStore.SqliteMailStore.CreateTx` | crates/talk-mailstore/src/sqlite.rs:351-388 | a second row for a direction and message id is refused and changes nothing |
| `SqliteStore.SqliteMailStore.LinkTx` | crates/talk-mailstore/src/sqlite.rs:391-398 | exactly that row's link changes |
| `SqliteStore.SqliteMailStore.TransitionTx` | crates/talk-mailstore/src/sqlite.rs:470-480 | exactly that row's state changes; a missing row is reported |
| `SqliteStore.SqliteMailStore.BindTx` | crates/talk-mailstore/src/sqlite.rs:483-493 | exactly that row's binding changes; a missing row is reported |
| `LedgerActions.StoreDeliverySink.RecipientUser` | crates/talkd/src/sink.rs:153-177 | the user before the first `@`, or the refusal every delivery to that recipient gets |
| `LedgerActions.StoreDeliverySink.RecordInboundTx` | crates/talkd/src/sink.rs:209-234 | row and link are made, or the refused row leaves the ledger alone |
| `LedgerActions.StoreDeliverySink.DeliverTo` | crates/talkd/src/sink.rs:239-300 | append, ledger row and link in sequence have the specified effect and outcome, in every case |
| `LedgerActions.RecordOutboundTx` | crates/talkd/src/secure.rs:133-216 | row found or made, Sent copy, link: the specified effect |
| `LedgerActions.SendInvoice` | crates/talkd/src/secure.rs:221-332 | how the attempt ended decides the recorded state; an empty sender or a recipient without domain records nothing |
| `LedgerActions.RetryTx` | crates/talk-ctl/src/tx.rs:137-164 | a retry records the outcome on the row of its message id; rows that cannot be retried are left alone |
| `LedgerActions.ResolveTx` | crates/talk-ctl/src/tx.rs:124-135 | only inbound rows are resolved, with the binding if given |
| `LedgerActions.MarkTxSpent` | crates/talk-ctl/src/tx.rs:42-50 | only inbound rows are spent |
| `LedgerActions.FailTx` | crates/talk-ctl/src/tx.rs:51-56 | any row is failed, of either direction |
| `SequenceSet.SelectedBy` | crates/talk-imap/src/session.rs:569-583 | the loop over the parts answers exactly whether some part holds the number |
| `FetchItems.ExtractBodySection` | crates/talk-imap/src/session.rs:782-825 | the three nested index loops extract exactly the specified section and rest |
| `FetchItems.ParseFetchItems` | crates/talk-imap/src/session.rs:723-778 | macros, section and the loop over the other items give exactly the specified request |
| `FetchReply.HeaderLines` | crates/talk-imap/src/session.rs:905-919 | the loop prints exactly the kept headers in order and the empty line |
| `ImapSession.ImapConnection.LogInAs` | crates/talk-imap/src/session.rs:133-217 | session and reply after a login attempt are the specified ones; the store is unchanged |
| `ImapSession.ImapConnection.CmdAuth` | crates/talk-imap/src/session.rs:98-131 | LOGIN and AUTHENTICATE PLAIN, with every refusal, as specified |
| `ImapSession.ImapConnection.CmdSelect` | crates/talk-imap/src/session.rs:219-251 | SELECT and EXAMINE as specified; the mailbox is selected only when it is listed |
| `ImapSession.ImapConnection.CmdStatus` | crates/talk-imap/src/session.rs:278-303 | STATUS as specified |
| `ImapSession.ImapConnection.CmdFetch` | crates/talk-imap/src/session.rs:305-374 | FETCH and UID FETCH as specified |
| `ImapSession.ImapConnection.FetchEach` | crates/talk-imap/src/session.rs:347-371 | the loop answers exactly the chosen messages, in listing order |
| `ImapSession.ImapConnection.CmdStore` | crates/talk-imap/src/session.rs:410-478 | STORE and UID STORE as specified: reply and store |
| `ImapSession.ImapConnection.StoreEach` | crates/talk-imap/src/session.rs:452-475 | the loop updates and answers exactly the chosen messages, in listing order |
| `ImapSession.ImapConnection.CmdSearch` | crates/talk-imap/src/session.rs:480-525 | SEARCH and UID SEARCH as specified |
| `ImapSession.ImapConnection.CmdExpunge` | crates/talk-imap/src/session.rs:527-542 | EXPUNGE as specified: one line per removed message, and the removal |
| `ImapSession.ImapConnection.CmdClose` | crates/talk-imap/src/session.rs:544-553 | CLOSE as specified: the INBOX is expunged and the session leaves the selected state |
| `ImapSession.ImapConnection.CmdUid` | crates/talk-imap/src/session.rs:395-408 | UID dispatch as specified |
| `ImapSession.ImapConnection.HandleCommand` | crates/talk-imap/src/session.rs:55-84 | every command: reply, session and store are those of the specification, and the schema holds |
| `ImapSession.ParseFlags` | crates/talk-imap/src/session.rs:594-607 | the loop computes exactly the union of the named flags |
| `ImapSession.Criteria` | crates/talk-imap/src/session.rs:508-516 | the loop over search criteria decides exactly as specified |
| `ImapService.ServeRead` | crates/talk-imap/src/server.rs:183-289 | one turn of the connection loop, or of the idle loop inside it, on reader and session: complaints, replies until LOGOUT or IDLE, or the search for DONE, exactly as specified |
| `ImapService.HandleEach` | crates/talk-imap/src/server.rs:219-245 | the loop over the commands of a read, until LOGOUT or IDLE, is the specified one |

## Left out

- TLS, sockets, accept loops, the capture wrapper, the lightwalletd client: input and output only. A stream is a byte
  sequence that ends where the peer stops sending.
- Cryptography, base64, JSON and password hashing: parameters. Hashing is modelled by the byte string hashed, as a
  function, not by the incremental calls to the hasher.
- DNS-over-HTTPS and endpoint lookup: how a sending attempt ended is a parameter of the step that records it.
- The secure-mailbox line protocol: a smaller copy of the ZSMTP lock-step argument.
- Templates, dates and rendering: arbitrary functions of the message.
- Mailbox events during IDLE: they depend on a broadcast channel that may drop events; the reading half of the idle loop
  is modelled.
- Storage failures and lock poisoning, other than uniqueness, foreign-key and missing-row cases.
- Interleaving inside one locked section or between processes sharing the database file; `UidRuns` interleaves
  appends and deletions at the points where the lock is dropped.
- Columns the properties do not read: created and updated times, public keys, attestations and keyring details; the
  keyring and shares are kept by key.
- The order of rows with equal UIDs, which the query leaves open: the later row first.
- 64-bit overflow of counters and row ids.
- Keyring, share, setting and user-summary queries, and listing the ledger: simple reads.
- ZsmtpLink.ZsmptClient.PeerTurn: one turn, the one that answers the request; that the server's loop then runs the bytes
  left over as further commands is in `ZsmtpServing.Serve`, on which `ZsmtpHeard` is stated. A server that writes before
  reading is not modelled.
- Requests to go on (for a literal, for an IDLE) are not among the replies compared in `ImapCuttings`: they are what shows
  a client how its bytes were cut.
- ImapCuttings.SeamlessExactly: for a stream longer than the connection's buffer of 4096 bytes, not all of it can come in one
  read; there `ImapCuttings.SeamlessReads` gives the sufficient half, and `ImapCuttings.CuttingExactly` the exact condition
  cutting by cutting.
- ImapTokens.Tokenize: where the code's loop never returns, the model returns `Stuck`.
- A delivery's append and a user's deletion are one step in `Ledger` and `Federation`; in two steps they are in `UidRuns`.
- A user's own other sessions and deliveries to the user are not among the disturbances of `SessionIsolation` and
  `SessionPieces`: they are meant to be noticed.
