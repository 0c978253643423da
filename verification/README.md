# Verdant server: verified model

A Dafny model of the parts of the Verdant server whose correctness spans many functions or
whole runs, with proofs of what those parts promise.

- **Federation.** A server turns a local event into an envelope with a deterministic id,
  queues it in an outbox table, and posts it, signed, to other servers. The receiver checks
  the signature and clock, reserves the nonce, parses and gates the envelope, drops
  duplicates and turns the rest into a typed command. Tables are maps, SQL statements are
  atomic steps, and every "in every run" statement quantifies over all interleavings of those
  steps. Modules: `NonceTable`, `Replay`, `RequestAuth`, `Outbox`, `ErrorCode`, `Dispatchers`,
  `DispatchCycle`, `Retries`, `OutboundPeers`, `EventKind`, `Json`, `JsonObject`, `Protocol`, `Runtime`,
  `Producer`, `Delivery`, `Identity`.
- **Snowflake ids.** The lock-free generator as interleaved loads and compare-exchanges, and
  the audit log's decoder. Modules: `Snowflake`, `AuditPage`.
- **Image writer.** CRC-32, Adler-32, stored deflate blocks, PNG chunks and the gradient image,
  each with a reader to undo it. Modules: `ByteOrder`, `ShiftRegister`, `Crc32`,
  `PolynomialCrc`, `Adler32`, `Zlib`, `Chunks`, `Png`, `Gradient`.
- **Timed keys.** Login lock-out, second-factor tickets, and single-use email tokens. Modules:
  `TimedKeys`, `LoginLockout`, `SecondFactor`, `EmailVerify`.
- **Loops.** Channel names and load-test sharding. Modules: `ChannelName`, `Loadtest`.

`Basics`, `Text` and `SqlOrder` hold what several of these share. `dafny verify dfyconfig.toml`
checks everything.

Code that updates state in place is modelled as methods, on classes where the state is shared,
and each is proved against a function of the old state; the properties of runs are proved about
those functions, and lemmas tie the sequential forms to the interleaved machines as runs of
them. A bit-vector is used where the source works on bits (the CRC register), and integers with
explicit ranges elsewhere: the low fields of a shifted word are zero, so `|` is written as `+`.

## What the proofs found

- **Replay protection has no slack.** The clock check and the nonce reservation are separate
  steps of the event handler. No request is ever accepted twice exactly when the nonce lifetime is
  at least twice the skew *plus* the time between those steps. The deployed lifetime is exactly
  twice the skew, so the guarantee is exact only when both steps carry the same clock reading
  (`Replay.DeployedReplaySafeIff`); the strict `<` in the pruner is needed for even that
  (`Replay.StrictPruneIsNeeded`).
- **A snowflake timestamp is read once, before the retry loop.** A late exchange with an old
  timestamp resets the word, and ids can then repeat. `Snowflake.RunDistinctIff` gives the exact
  condition, including one harmless return to the epoch's first millisecond, and
  `Snowflake.StaleTimestampRepeatsAnId` a run that breaks it.
- **An event id does not contain the time.** A member who leaves and joins the same server again
  sends no second join: the outbox already holds that identity (`Delivery.DuplicateIff`).
- **The audit log shows only its newest `2 * limit` entries,** however long a client follows the
  cursor (`AuditPage.FollowShowsTwoPages`).
- **No block is written for empty data,** so `zlib_store(&[])` is not a readable stream and a PNG
  without rows is not a readable image (`Zlib.StoredReadsBackIff`, `Gradient.GradientReadsBackIff`).
- **Retrying an event to death takes at least 91 seconds, and exactly that when every claim is
  punctual** (`Dispatchers.EighthClaimIsLate`, `Retries.EightPostsFit`).
- **Nine failed logins fit into 900 seconds and a tenth never does**
  (`LoginLockout.AtMostNineFailuresInAnyWindow`). The window that holds the tenth opens at least 900
  seconds after an earlier one. `LoginLockout.NineFailuresFit` gives a run with nine: four in the last
  millisecond of one window and five in the first of the next.
- **Adler-32 misses exactly the exchanges over multiples of 65521 places**
  (`Adler32.ChecksumSeesExchange`), because that modulus is prime.
- `server-rs/tests/federation_producer.rs` (line 61) lists an `inviteCode` in the join payload; the
  code sends only the hash (`server-rs/src/federation/producer.rs:640-660`). The model follows the
  code.

## Model

| member | source | states |
|---|---|---|
| `NonceTable.PruneForgetsOldestFirst` | server-rs/src/federation/storage.rs:154-165 | a pruned nonce expired, and earlier (or with a lower id) than any expired nonce left behind |
| `NonceTable.PruneFillsItsBatch` | server-rs/src/federation/storage.rs:622-633 | a prune removes the batch limit or everything expired, whichever is less |
| `NonceTable.PrunedIff` | server-rs/src/federation/storage.rs:154-165 | a prune removes exactly the rows with an expiry before the cutoff that have fewer rows before them than the batch has places, 1 to 10000 |
| `NonceTable.NonceStore.Reserve` | server-rs/src/federation/storage.rs:590-620 | true exactly for a nonce not yet in the table, which then holds it with a saturating ten-minute expiry; a clash of primary keys changes nothing |
| `NonceTable.NonceStore.Prune` | server-rs/src/federation/storage.rs:622-633 | the table after a prune and the number of rows deleted |
| `Replay.RunKeepsInv` | server-rs/src/handlers/federation.rs:925-957 | with enough lifetime, every run keeps: each accepted request is still remembered or past its expiry, and none was accepted twice |
| `Replay.ReplaySafeIff` | server-rs/src/federation/auth.rs:202-277 | no run accepts a request twice if and only if the nonce lifetime covers both halves of the clock window and the gap between check and reservation |
| `Replay.DeployedReplaySafeIff` | server-rs/src/federation/storage.rs:14 | with the deployed 300 seconds of skew and 600 seconds of lifetime that holds if and only if the gap is zero |
| `Replay.StrictPruneIsNeeded` | server-rs/src/federation/storage.rs:154-165 | pruning a nonce in the millisecond it expires would allow a second acceptance where the strict comparison does not |
| `Replay.VerifiedRequestsEnter` | server-rs/src/federation/auth.rs:227-277 | whatever the signature verifier accepts at the current time satisfies the clock check of the run model |
| `Replay.SameTextSameRequest` | server-rs/src/federation/auth.rs:430-452 | two valid requests with one canonical text are the same request to the replay check |
| `RequestAuth.CanonicalInjective` | server-rs/src/federation/auth.rs:430-452 | on all inputs that pass the validators the canonical text determines every field |
| `RequestAuth.StoreKeyInjective` | server-rs/src/federation/auth.rs:365-376 | the key `peer:nonce` determines peer and nonce although peer ids may contain colons |
| `RequestAuth.SignedRequestOutcome` | server-rs/src/federation/auth.rs:129-170 | signing valid input succeeds, and a destination that knows the key accepts exactly the signed fields, unless the time is more than 300 seconds off the clock, before the key's `validAfter`, or at or after its `validUntil`, each with its own error |
| `RequestAuth.SigningSucceedsIff` | server-rs/src/federation/auth.rs:129-170 | signing succeeds if and only if method, path, destination and nonce are valid and the time is positive |
| `RequestAuth.AcceptedMeetsEveryCheck` | server-rs/src/federation/auth.rs:227-335 | whatever is accepted names this destination, hashes this body, is within 300 seconds of the clock, and carries in the named headers a signature that passes under the key stored for its source and key id, which was valid at the request's own time |
| `RequestAuth.RetiredKeyAcceptsNothing` | server-rs/src/federation/auth.rs:290-303 | a key with an end opens nothing stamped at or after it, and nothing at all 300 seconds later |
| `RequestAuth.CanonicalText` | server-rs/src/federation/auth.rs:430-452 | the signed text is the version tag and the eight fields, one to a line, in the stated order |
| `RequestAuth.AcceptedWasSigned` | server-rs/src/federation/auth.rs:227-277 | an accepted request whose signature is no forgery is one the signer made: method, path, destination, time, nonce and body hash agree |
| `Outbox.RetryDelayTable` | server-rs/src/federation/storage.rs:254-260 | for every attempt count the product fits 64 bits and the delay is 1, 2, 4, 8, 16, then 30 seconds |
| `Outbox.RetryWaits` | server-rs/src/federation/storage.rs:254-275 | on all i64 clocks and i32 counts the retry time is monotone in the count, 1 to 30 seconds ahead, and cut short only at the i64 maximum |
| `Outbox.AnswersSorted` | server-rs/src/federation/outbox.rs:63-95 | delivered is 200 to 299; worth a retry are a failed transport, 408, 409, 425, 429 and 500 to 599; each other answer is final, and every code recorded is the stated text |
| `ErrorCode.SanitizeErrorCode` | server-rs/src/federation/storage.rs:277-302 | the loop with early exit computes collapse, then cut, then trim, then the fallback |
| `ErrorCode.RunBecomesOneUnderscore` | server-rs/src/federation/storage.rs:277-295 | a maximal run of other characters, wherever it stands, becomes one underscore between the collapsed texts around it |
| `ErrorCode.NothingLeft` | server-rs/src/federation/storage.rs:296-301 | a text without letter, digit or dash becomes the fallback code |
| `ErrorCode.SanitizedIsWellFormed` | server-rs/src/federation/storage.rs:277-302 | the code is 1 to 96 characters of letters, digits, `_`, `-` with no underscore at an edge |
| `ErrorCode.WellFormedIffFixed` | server-rs/src/federation/storage.rs:277-302 | the well-formed codes are exactly the ones left unchanged |
| `ErrorCode.SanitizeIsIdempotent` | server-rs/src/federation/storage.rs:277-302 | sanitising twice is sanitising once |
| `Dispatchers.RunKeepsInv` | server-rs/src/federation/storage.rs:63-112 | every interleaving of claiming, posting, recording and stopping dispatchers keeps rows, counters, retry gaps and holders consistent |
| `Dispatchers.RowsHaveOneHolder` | server-rs/src/federation/storage.rs:63-85 | in every run a row has at most one holder, and what is held is `sending` |
| `Dispatchers.OneRowPerEvent` | server-rs/src/federation/storage.rs:671-701 | in every run there is one row per destination and event id, and a row never changes either |
| `Dispatchers.AtMostEightPosts` | server-rs/src/federation/outbox.rs:97-209 | in every run a row is posted at most once per claim and at most eight times, and its attempt count is the number of recorded failures |
| `Dispatchers.FinishedRowsAreFinal` | server-rs/src/federation/storage.rs:87-112 | a sent or dead row never changes again |
| `Dispatchers.EighthClaimIsLate` | server-rs/src/federation/storage.rs:254-275 | in every run the eighth claim of a row carries a time at least 91 seconds after its first |
| `Dispatchers.RetriedToDeathMeansEightClaims` | server-rs/src/federation/storage.rs:262-275 | a row dead by reaching the attempt limit was claimed exactly eight times |
| `DispatchCycle.ReportMatchesTable` | server-rs/src/federation/outbox.rs:97-209 | for every outcome the row ends in the status the report counts, and no other row changes |
| `DispatchCycle.ClaimIsAllowed` | server-rs/src/federation/storage.rs:703-714 | the claim in due order, clamped to 1..100 rows, is one of the choices the interleaved model allows |
| `DispatchCycle.ClaimedIff` | server-rs/src/federation/storage.rs:63-85 | a claim takes exactly the pending and failed rows whose retry time has come and that have fewer such rows before them, by time and then id, than the limit, which is 1 to 100 |
| `DispatchCycle.OutboxTable.ClaimDue` | server-rs/src/federation/storage.rs:63-85 | as many pending or failed rows with a retry time that has come as the limit allows become `sending`, nothing else about them or any other row changes, and they are handed out with their attempt counts in order of retry time and id, ahead of every such row left behind |
| `DispatchCycle.OutboxTable.DispatchClaimed` | server-rs/src/federation/outbox.rs:97-209 | the table and the reported outcome for one row, over every lookup, body and answer |
| `DispatchCycle.OutboxTable.DispatchDue` | server-rs/src/federation/outbox.rs:211-232 | an Ok cycle has claimed = sent + failed + dead with every row in its named status; an early error leaves the failing row and all later ones `sending`, except that a row with an invalid body is dead |
| `DispatchCycle.DispatchIsARun` | server-rs/src/federation/outbox.rs:97-232 | from any reachable state a whole dispatch cycle, whatever its outcomes, is a run of the interleaved machine ending in the same table |
| `Retries.EffectOnTheRow` | server-rs/src/federation/outbox.rs:97-209 | for every lookup, body and answer the one row that changes and what it becomes: sent, failed with a retry time 1, 2, 4, 8, 16 or 30 seconds on, or dead, with its error code |
| `Retries.OutcomeNamesTheRow` | server-rs/src/federation/outbox.rs:97-209 | the outcome reported for a row is the status and code the row ends up with |
| `Retries.FailedRowIsTriedAgain` | server-rs/src/federation/storage.rs:63-85 | in every run a failed row has one to seven failures, waits exactly their delay from its latest claim, and is taken by a claim if and only if that time has come and the batch has room for it |
| `Retries.PendingRowIsTried` | server-rs/src/federation/storage.rs:63-85 | in every run the same holds of a row never tried yet |
| `Retries.RetryableFailureIsPlanned` | server-rs/src/federation/storage.rs:262-275 | in every run recording a retryable failure leaves the row failed with that retry time, or dead if it was the eighth |
| `Retries.EightPostsFit` | server-rs/src/federation/storage.rs:254-275 | for every retryable answer a run in which one row is claimed and posted eight times, the eighth claim exactly 91 seconds after the first, and then is dead |
| `EventKind.NameReadsBack` | server-rs/src/federation/protocol.rs:168-212 | a parsed kind prints as the text it was parsed from, so nothing but the forty names parses |
| `EventKind.KindReadsBack` | server-rs/src/federation/protocol.rs:55-98 | every kind's name parses to that kind |
| `EventKind.NamesDiffer` | server-rs/src/federation/protocol.rs:55-98 | no two kinds share a name |
| `Json.PrintableIff` | server-rs/src/federation/protocol.rs:126-154 | the printable documents are exactly the ones some text parses to, and printing one and parsing it returns it |
| `JsonObject.ObjectOfLooksUp` | server-rs/src/federation/producer.rs:613-710 | an object built field by field answers every lookup with the last value written |
| `JsonObject.TextRoundTrip` | server-rs/src/federation/producer.rs:378-427 | a document with its keys in order, floats included, survives text: printed, parsed and normalised it is unchanged |
| `JsonObject.LessIff` | server-rs/src/federation/producer.rs:373-375 | keys and peer ids are ordered by their first difference |
| `Protocol.EnvelopeTextRoundTrip` | server-rs/src/federation/protocol.rs:126-154 | reading an envelope's printed text validates exactly the seven values printed |
| `Protocol.AcceptedEnvelope` | server-rs/src/federation/protocol.rs:126-166 | an accepted envelope has version 1, ids of the stated lengths and characters, a positive time and a valid object as payload |
| `Protocol.EnvelopeIsWhatWasSent` | server-rs/src/federation/protocol.rs:126-166 | each of the seven keys stands in an accepted object exactly once, with the envelope's value |
| `Protocol.UnknownFieldsAreRefused` | server-rs/src/federation/protocol.rs:449-588 | a valid payload of a permitted kind holds no field but those listed for its kind |
| `Protocol.UnknownKindIff` | server-rs/src/federation/protocol.rs:168-212 | a kind is unknown if and only if no kind has that name |
| `Runtime.GatesOpenTogether` | server-rs/src/federation/ingress.rs:28-52 | ingress accepts an envelope if and only if its source and destination are the verified ones, its kind is one of seven and its payload an object, and then decides for exactly those peers, id, kind and payload hash; the runtime accepts the same seven kinds |
| `Runtime.CommandIsWhatWasSent` | server-rs/src/federation/runtime.rs:62-207 | a command acts for the envelope's source and for nobody else, and each of its parts comes from the named payload field |
| `Runtime.ProfileIsAcceptedIff` | server-rs/src/federation/identity.rs:87-108 | a profile becomes a command if and only if it names a user and its name, display name and picture, where given, are 1 to 120 plain characters, at most 120 on one line, and a safe link |
| `Runtime.CommandFailsExactlyWhen` | server-rs/src/federation/runtime.rs:62-207 | for every text that parses to a permitted kind, the command is refused exactly when a local id is not a positive decimal, a join names neither code nor hash, or the profile breaks the stricter rules |
| `Producer.BuildOutcome` | server-rs/src/federation/producer.rs:378-427 | an envelope is built exactly for permitted events with valid peers, a positive time and text within bounds; unsupported and disabled events get their own errors |
| `Producer.NothingElseIsBuilt` | server-rs/src/federation/producer.rs:378-393 | nothing is built from an inbound event or for a disabled kind |
| `Producer.BuiltEnvelopeRoundTrip` | server-rs/src/federation/producer.rs:613-710 | whatever is built is read back as the same envelope and becomes the command carrying exactly the event's ids and optional fields, an empty reason becoming absent |
| `Producer.JoinSendsOnlyTheHash` | server-rs/src/federation/producer.rs:635-660 | a join carries the given invite hash, or else the hash of the code, and never the code |
| `Delivery.PreImageInjective` | server-rs/src/federation/producer.rs:1356-1372 | the hashed text determines source, destination, kind and ids |
| `Delivery.SameEventIdIff` | server-rs/src/federation/producer.rs:394-400 | without a hash collision two envelopes share an event id if and only if source, destination, kind and integer identity agree |
| `Delivery.DeliveryIsFaithful` | server-rs/src/handlers/federation.rs:959-972 | a queued row delivered to its destination yields its own peers, event id, kind, payload hash and the command its event stands for, or is refused exactly when that command is |
| `Delivery.ReceivedSpeaksForItsPeer` | server-rs/src/handlers/federation.rs:945-960 | whatever text arrives under whatever verified identity, what is received is from and to the verified peers, says what the envelope says, and acts for no server but the verified source |
| `Delivery.OneRowPerIdentity` | server-rs/src/federation/storage.rs:671-701 | in every run each event identity has at most one outbox row per destination |
| `Delivery.AppliedAtMostOnce` | server-rs/src/federation/storage.rs:635-654 | over any number of deliveries, and whatever else is presented, a queued event is delivered and applied at most once, as exactly its command |
| `Delivery.FirstDeliveryApplies` | server-rs/src/handlers/federation.rs:960-1000 | in every run the first delivery of a queued row applies its command, and later ones and refused events change nothing |
| `Delivery.PeersActForThemselves` | server-rs/src/federation/ingress.rs:28-52 | in every run in which peers present arbitrary texts, a command is applied only for the peer whose key proved it and at most once per event id of that peer |
| `Delivery.PresentingAddsOwnEvents` | server-rs/src/handlers/federation.rs:945-1000 | presenting a text adds nothing or one new event of the presenting peer's own |
| `Delivery.DuplicateIff` | server-rs/src/federation/storage.rs:671-701 | without collisions an event is a duplicate if and only if its own identity was queued before |
| `OutboundPeers.SelectOutboundPeers` | server-rs/src/federation/producer.rs:350-376 | the strictly ascending list of the active, other peers with a matching route; nothing for an inbound event |
| `OutboundPeers.ListingIsUnique` | server-rs/src/federation/producer.rs:373-375 | that list is determined by the set of peers, not by candidate order or repetition |
| `OutboundPeers.ScopeReadsBack` | server-rs/src/federation/storage.rs:560-588 | a stored scope reads back as itself and matches itself alone |
| `OutboundPeers.SentToIff` | server-rs/src/federation/storage.rs:500-558 | after any history of route changes an event goes to exactly the other peers with an active key whose route was last set and not revoked |
| `Identity.SameAddressIff` | server-rs/src/federation/identity.rs:53-69 | without a collision of the shortened hash, read without regard to case, two remote users share a derived address if and only if server and user agree |
| `Identity.LoweredIff` | server-rs/src/federation/storage.rs:17-43 | addresses are the same if and only if they differ at most in the case of letters |
| `Identity.Directory.Upsert` | server-rs/src/federation/storage.rs:304-386 | a remote user gets an account if and only if it has one or one is free for it, keeps it in every later transaction, a failed transaction changes nothing, and no account stands for two users |
| `Snowflake.IdReadsBack` | server-rs/src/snowflake.rs:50-57 | an id's three fields read back as timestamp, worker and sequence |
| `Snowflake.AuditTimeIsGenerationTime` | server-rs/src/handlers/audit.rs:91-93 | `(id >> 22) + 1735689600000` is the generation time, or the epoch for a clock before it |
| `Snowflake.SnowflakeGenerator.Attempt` | server-rs/src/snowflake.rs:34-59 | one turn of the retry loop yields an id unless the millisecond is full at 4095, the word has changed or the exchange fails spuriously; then id and word are time, worker and next serial in place |
| `Snowflake.TurnIsAStep` | server-rs/src/snowflake.rs:34-59 | whatever a turn of the loop does with a loaded word is one step of the interleaved machine |
| `Snowflake.RunAscendingIff` | server-rs/src/snowflake.rs:28-60 | over every interleaving ids strictly increase if and only if the timestamps of successful exchanges never fall |
| `Snowflake.RunDistinctIff` | server-rs/src/snowflake.rs:28-60 | over every interleaving ids are distinct if and only if no exchange returns to a millisecond already left, one harmless return to the first millisecond aside |
| `Snowflake.RunIdsArePositive` | server-rs/src/snowflake.rs:34-58 | while timestamps never fall every id is positive, even in millisecond zero on worker zero |
| `Snowflake.WorkersNeverCollide` | server-rs/src/snowflake.rs:18-26 | generators with different worker ids never issue the same id, whatever their clocks do |
| `Snowflake.StaleTimestampRepeatsAnId` | server-rs/src/snowflake.rs:29-33 | a concrete legal run in which a late exchange makes one worker issue an id twice |
| `AuditPage.GetAuditLog` | server-rs/src/handlers/audit.rs:41-131 | the loop with its actor cache shows exactly the first `limit` fetched records below the cursor, with all their fields, actors looked up directly |
| `AuditPage.EntryComesFromItsFields` | server-rs/src/handlers/audit.rs:76-129 | which stored field each part of a shown entry comes from |
| `AuditPage.EntryShowsItsActor` | server-rs/src/handlers/audit.rs:97-127 | whose name and picture an entry shows, and when it shows none |
| `AuditPage.CursorMeans` | server-rs/src/handlers/audit.rs:42-83 | a cursor that is no number is ignored, and one that is shows only older records of the stream |
| `AuditPage.CursorReadsBack` | server-rs/src/handlers/audit.rs:42 | a cursor given out as text is read back as the id it stands for |
| `AuditPage.PageAfter` | server-rs/src/handlers/audit.rs:54-80 | the page after a record is the next slice of the stream, as far as the newest `2 * limit` records go |
| `AuditPage.FollowShowsTwoPages` | server-rs/src/handlers/audit.rs:54-131 | following the cursor gives two consecutive slices and then nothing, for any number of requests |
| `Crc32.ComputeCrc32` | server-rs/src/bin/seed_flutter_media_fixture.rs:814-824 | the byte and bit loops compute the shift-register checksum |
| `PolynomialCrc.RemainderIff` | server-rs/src/bin/seed_flutter_media_fixture.rs:814-824 | long division by the 33-bit generator finds the one remainder for which the dividend is a multiple of the generator plus it |
| `PolynomialCrc.ChecksumIsTheRemainder` | server-rs/src/bin/seed_flutter_media_fixture.rs:814-824 | the checksum is the complement of the remainder of the text, 32 zeros appended and its first 32 bits complemented, divided by the polynomial of RFC 2083 |
| `PolynomialCrc.ChecksumOfEnd` | server-rs/src/bin/seed_flutter_media_fixture.rs:814-824 | the checksum of `IEND` is ae426082 |
| `Crc32.FeedByTable` | server-rs/src/bin/seed_flutter_media_fixture.rs:816-822 | eight bit steps equal the byte-at-a-time table update of RFC 2083 |
| `Crc32.ChecksumAffine` | server-rs/src/bin/seed_flutter_media_fixture.rs:814-824 | for three texts of one length the checksum of their sum over GF(2) is the sum of their checksums |
| `Crc32.BitStepIsBijective` | server-rs/src/bin/seed_flutter_media_fixture.rs:818-821 | every register is the result of a bit step from exactly one register |
| `Crc32.FeedIsBijective` | server-rs/src/bin/seed_flutter_media_fixture.rs:816-822 | for every byte, every register is the result of that byte's step from exactly one register |
| `Crc32.ChecksumSeesBurst` | server-rs/src/bin/seed_flutter_media_fixture.rs:814-824 | texts that differ only within four consecutive bytes have different checksums |
| `Adler32.ComputeAdler32` | server-rs/src/bin/seed_flutter_media_fixture.rs:803-812 | the loop computes the closed form (1 + sum, length + weighted sum, both mod 65521) with no 32-bit overflow at any turn |
| `Adler32.ChecksumOneByteOn` | server-rs/src/bin/seed_flutter_media_fixture.rs:803-812 | from 1 on, one more byte takes the halves s1, s2 to s1 + byte and s2 + s1 modulo 65521, s2 being the upper half, as RFC 1950 says |
| `Adler32.ChecksumSeesByte` | server-rs/src/bin/seed_flutter_media_fixture.rs:803-812 | changing any single byte changes the checksum |
| `Adler32.ChecksumSeesExchange` | server-rs/src/bin/seed_flutter_media_fixture.rs:803-812 | exchanging two bytes leaves the checksum unchanged if and only if they are equal or a multiple of 65521 places apart |
| `Zlib.ZlibStore` | server-rs/src/bin/seed_flutter_media_fixture.rs:779-791 | the chunk loop writes header, blocks cut from the front of the data, and trailer |
| `Zlib.StreamInBytes` | server-rs/src/bin/seed_flutter_media_fixture.rs:779-791 | the header bytes, the first block with its final flag, length, complement and bytes, and the big-endian trailer |
| `Zlib.StretchesAreTheData` | server-rs/src/bin/seed_flutter_media_fixture.rs:781-788 | the blocks are as many as the length calls for, all full but the last, which alone is final, and join to the data |
| `Zlib.BlocksReadBack` | server-rs/src/bin/seed_flutter_media_fixture.rs:781-788 | a reader that checks type and complement of every block recovers those blocks and stops behind the final one |
| `Zlib.StoredReadsBackIff` | server-rs/src/bin/seed_flutter_media_fixture.rs:779-791 | a zlib reader that checks header and Adler trailer recovers the data if and only if there is some |
| `Zlib.StoredLength` | server-rs/src/bin/seed_flutter_media_fixture.rs:779-791 | five bytes per block and six around them |
| `Png.WriteChunk` | server-rs/src/bin/seed_flutter_media_fixture.rs:793-801 | appends the chunk the format prescribes for a name and data |
| `Png.FileInBytes` | server-rs/src/bin/seed_flutter_media_fixture.rs:760-770 | the whole file byte for byte: signature, header chunk, one data chunk and the twelve bytes of the end chunk |
| `Png.DamagedChunkIsRefused` | server-rs/src/bin/seed_flutter_media_fixture.rs:793-801 | a chunk whose name and data may be damaged within four consecutive bytes is read if and only if it is not damaged |
| `Chunks.ChunksReadBack` | server-rs/src/bin/seed_flutter_media_fixture.rs:793-801 | any number of chunks written one after another are read back |
| `Png.FileReadsBack` | server-rs/src/bin/seed_flutter_media_fixture.rs:760-770 | a reader of the file gets the written dimensions and exactly what the compressed stream holds |
| `Gradient.InterpolateStaysBetween` | server-rs/src/bin/seed_flutter_media_fixture.rs:772-777 | rounding toward zero in either direction, interpolation starts and ends exactly at the given levels, and stays between them while the denominator is a positive i32 |
| `Gradient.InterpolateRounds` | server-rs/src/bin/seed_flutter_media_fixture.rs:772-777 | in between, a level has moved by its share of the way rounded down to whole steps |
| `Gradient.RowColour` | server-rs/src/bin/seed_flutter_media_fixture.rs:748-753 | that is the base colour of every row of a picture with at least two |
| `Gradient.PngGradient` | server-rs/src/bin/seed_flutter_media_fixture.rs:744-770 | for all dimensions and colours the loops produce the file of the specified scanlines, or stop exactly when a checked 32-bit operation overflows |
| `Gradient.SmallPicturesFit` | server-rs/src/bin/seed_flutter_media_fixture.rs:744-777 | no operation overflows for dimensions within simple bounds, whatever the colours |
| `Gradient.FitsIff` | server-rs/src/bin/seed_flutter_media_fixture.rs:744-777 | exactly which pictures with a column can be drawn without overflow |
| `Gradient.PixelAt` | server-rs/src/bin/seed_flutter_media_fixture.rs:746-759 | where each pixel lies among the scanlines and its colour; first and last row have the end colours as base |
| `Gradient.GradientReadsBackIff` | server-rs/src/bin/seed_flutter_media_fixture.rs:744-770 | a PNG reader recovers the dimensions and all `h * (1 + 3w)` bytes if and only if there is a row |
| `TimedKeys.Cache.Count` | server-rs/src/handlers/auth.rs:1456-1462 | increment and first-time expiry together: the new store and count |
| `LoginLockout.Login` | server-rs/src/handlers/auth.rs:641-737 | the reply and the lock counters after one login, for every result of the password check |
| `LoginLockout.LockedIff` | server-rs/src/handlers/auth.rs:641-737 | in every run a login is refused unchecked exactly while five failures since the last success share a window younger than 900 seconds, and otherwise gets the reply of its password check, the same for an unknown address as for a wrong password |
| `LoginLockout.FiveFailuresLock` | server-rs/src/handlers/auth.rs:641-685 | in every run a fifth failure within 900 seconds of a streak's first locks the address until they are over |
| `LoginLockout.FailuresArePaced` | server-rs/src/handlers/auth.rs:1456-1462 | in every run failed checks come at most five per 900 seconds from the first of a streak, and from any other one with one window of grace |
| `LoginLockout.AtMostNineFailuresInAnyWindow` | server-rs/src/handlers/auth.rs:641-737 | no 900 seconds, however placed, hold ten failed checks without a success |
| `LoginLockout.NineFailuresFit` | server-rs/src/handlers/auth.rs:1456-1462 | a run in which nine failed checks fall into one such span, so the bound is met |
| `SecondFactor.TicketDesk.Submit` | server-rs/src/handlers/auth.rs:1217-1352 | the reply, tickets and counters after one code submission, for every result of the steps behind it |
| `SecondFactor.ReplyFollowsFromHistory` | server-rs/src/handlers/auth.rs:1217-1385 | in every run the reply to any submission follows from when and for whom the ticket was issued and how many submissions were answered on it |
| `SecondFactor.SessionIsForTheTicketsUser` | server-rs/src/handlers/auth.rs:1235-1385 | in every run a session is for the user its ticket was issued to, within 300 seconds of that, on a right code |
| `SecondFactor.RightCodeOpensTheSession` | server-rs/src/handlers/auth.rs:1235-1385 | in every run a right code on a younger, unused ticket with fewer than five counted submissions opens that session |
| `SecondFactor.IssuedIsRemembered` | server-rs/src/handlers/auth.rs:774-785 | in every run the user and time of a ticket are those it was issued with |
| `SecondFactor.RunKeepsInv` | server-rs/src/handlers/auth.rs:1236-1256 | in every run the attempt counter of a usable ticket has seen every check and does not expire before the ticket |
| `SecondFactor.SoundIff` | server-rs/src/handlers/auth.rs:1239-1256 | every ticket buys at most five checks and one session in every run if and only if the counter lives at least as long as the ticket |
| `SecondFactor.DeployedIsSound` | server-rs/src/handlers/auth.rs:774-785 | that holds for the deployed 300 seconds each |
| `SecondFactor.UsedTicketIsDead` | server-rs/src/handlers/auth.rs:1350-1352 | once a ticket bought a session nothing submitted with it is checked |
| `EmailVerify.Verifier.Consume` | server-rs/src/handlers/email_verify.rs:24-57 | for one caller: which user results, when the token is used up, and who becomes verified |
| `EmailVerify.DeadTokenYieldsNothing` | server-rs/src/handlers/email_verify.rs:24-50 | an expired, used or unknown token lets no call go on, at either step |
| `EmailVerify.UndisturbedCallIsARun` | server-rs/src/handlers/email_verify.rs:24-57 | from any reachable state the one-caller form is a run of the interleaved machine with the same result, keys and verified users |
| `EmailVerify.TokenIsSingleUse` | server-rs/src/handlers/email_verify.rs:24-57 | in every interleaving a call that yields a user yields the stored one, and no other call on that token yields any |
| `EmailVerify.VerifiedUsersHadTokens` | server-rs/src/handlers/email_verify.rs:39-50 | a user is marked verified only through a token stored for that user |
| `ChannelName.NormalizeChannelName` | server-rs/src/handlers/channels.rs:29-53 | the flag-driven loop computes the words between separators, lower-cased, joined by dashes |
| `ChannelName.NameKeepsLetters` | server-rs/src/handlers/channels.rs:29-53 | a name keeps every typed letter, digit and underscore in order, capitals made small, and adds nothing but dashes |
| `ChannelName.NamesAreTheFixedPoints` | server-rs/src/handlers/channels.rs:29-53 | every result is in `[a-z0-9_-]` without leading, trailing or doubled dash and no longer than its input; such names are exactly the ones left unchanged |
| `Loadtest.Setup` | server-rs/src/handlers/admin_loadtest.rs:100-284 | the range errors, and otherwise every user's server and channel and the servers created |
| `Loadtest.MembersShape` | server-rs/src/handlers/admin_loadtest.rs:170-173 | server `k` gets exactly the users with remainder `k`, the one at place `t` in round `t`, and how many they are |
| `Loadtest.SharesAreEven` | server-rs/src/handlers/admin_loadtest.rs:170-173 | server sizes differ by at most one, and only servers beyond the number of users stay empty |
| `Loadtest.PlacesAreCreated` | server-rs/src/handlers/admin_loadtest.rs:182-285 | every user is on a created server and in one of its channels |
| `Loadtest.InfosAreTheUsedServers` | server-rs/src/handlers/admin_loadtest.rs:176-285 | the servers reported are the first ones, as many as have users, each with its channels |
| `Loadtest.ChannelOfMember` | server-rs/src/handlers/admin_loadtest.rs:271-274 | within a server the channels are dealt round in the same even way |

## Left out

- Ed25519, SHA-256, HMAC, password hashing and one-time codes: abstract functions. Hash injectivity is assumed only for the texts compared, never in general.
- HTTP, DNS, URL parsing and rate limits. Whether a profile URL is safe is an opaque predicate.
- The UTF-8 byte layer under JSON text, and serde's float formatting: a float keeps the text it was read from.
- Payload rules of the 33 event kinds the propagation gate refuses: an opaque predicate, since no accepted envelope reaches them.
- NonceTable.NonceStore.Reserve: the storage errors modelled are clashes of primary keys; lost connections are not.
- DispatchCycle.OutboxTable.ClaimDue: PostgreSQL does not promise the order in which the claim returns its rows; the class uses due order, while `Dispatchers` allows any.
- DispatchCycle.OutboxTable.DispatchClaimed: network and database outcomes are a parameter, one fate per row.
- Dispatchers.EighthClaimIsLate: a claim made at the largest representable time is excepted, because there the retry time saturates.
- Termination of the generator's spin in a full millisecond: the clock is not read again there, so no claim is made.
- Delivery.AppliedAtMostOnce: a command that fails while being applied is not retried in the model; the inbound row already exists, so a later delivery is a duplicate.
- Delivery.PeersActForThemselves: the identity a text is presented under is a parameter; what proves it is the subject of `RequestAuth`.
- OutboundPeers.SentToIff: key rotation enters only as the set of peers with an active key.
- Identity.Directory.Upsert: profile columns are not modelled, and lower-casing is that of ASCII, which derived addresses are in.
- Gradient.PngGradient: an overflow stops the writer, as it does in the development profile the tool is run in; the wrapped picture of a release build is not modelled.
- Gradient.GradientReadsBackIff: streams of 4 GiB and more, whose length field is cut, are excluded.
- Retries.EffectOnTheRow: HTTP statuses have three digits, and a held row has 0 to 7 attempts, which `Dispatchers.RunKeepsInv` proves of every run.
- LoginLockout.Login: one request at a time with the cache available; the session that follows a success is not modelled.
- SecondFactor.TicketDesk.Submit: one request at a time with the cache available; the replay key for one-time codes and backup codes are part of the abstract code check.
- EmailVerify.TokenIsSingleUse: a token is stored once, since tokens are random.
- AuditPage.GetAuditLog: the users table, the text of a time and the link for an avatar are parameters; a failed lookup is one that finds nobody.
- Loadtest.Setup: ids are drawn beforehand instead of inside the loop, and database errors are not modelled.
- The handlers for accounts, bots, announcements, direct messages and categories, configuration parsing, and generated protocol buffers.
