# Verification models of the bank and its vehicle telemetry

This project models the parts of the repository where a mistake is hardest to see and proves what they
are relied on for. It covers five areas.

**Money movement** (`Bank*.dfy`, `Sums.dfy`). Transfers are accepted as idempotent pending rows, queued,
and executed inside a transaction that locks two account rows in sorted order. `BankProtocol` is a
small-step system: tables, row locks, job queue, and processes whose steps are single statements, with
READ COMMITTED visibility, crashes at every point, redelivered jobs and repeated requests. `BankSafety`
is the invariant every step keeps. `BankLedger` states where the money is: conservation and non-negative
balances hold in every interleaving, also when attempts on one transfer overlap; that a transfer has
moved exactly when its row is `completed` needs attempts that do not overlap, and `BankOverlap` shows,
for every deposit and amount, runs in which they do and it fails. `BankConcurrency` is about account
locks and waiting, `BankSubmission` about idempotency, `BankExecutor` holds the services as imperative
code and ties them to the small steps, `BankServices` says over several calls what the rows themselves
come to, and `BankRuns` holds the pieces of runs.

**The Teltonika protocol** (`Bytes`, `Crc`, `CrcBursts`, `CrcPolynomial`, `Cursor`, `Avl`, `Encoder`,
`RoundTrip`, `ParserCost`, `Imei`, `Framer`, `WireLayout`, `EncoderLayout`, `Stream`). The parser's loops
over a moving cursor and the encoder's parts are proved against functions on offsets; the functions are
proved inverse to each other, and the parser accepts exactly the bytes that `WireLayout` describes in
numbers. The checksum is proved to be the remainder modulo x^16 + x^15 + x^2 + 1, linear and faithful,
and the framer is proved to depend on the bytes of a stream and not on its chunks.

**From device to table** (`Publishing`, `Ingest`, `IngestAnswers`, `Device`, `FirstWins`, `Writers`,
`Topics`, `Vehicles`). One connection of the ingest server, a stop-and-wait device with flash memory on
the other side of a wire that loses and damages, the split into topics, and consumers that read one log
or several at least once. The bytes between device and server are the encoder's and the framer's own,
taken in any chunks. Handling a chunk waits only for the broker, so a connection lost meanwhile is seen
when a publish resolves (`hangUp`); one lost between chunks, by the idle timeout for instance, is a
shorter list of chunks.

**Per-vehicle state** (`AlertRules`, `Alerting`, `AlertBatches`, `Engine`, `EngineReports`,
`EngineHandler`). Edge-triggered alerts with a cooldown, and ignition and movement transitions with
different rules for live and backlog readings.

**Merging OpenAPI documents** (`Json`, `Merge`, `MergeMeaning`, `MergeReach`, `MergeNames`, `Merger`).
Components that collide are renamed and references rewritten; the components and references are those of
sections 4.8.7 and 4.8.23 of the OpenAPI Specification 3.1.0. What a reference means is the tree it
unfolds to.

`Paging` follows the cursor of an account's transfer history. `Wrappers` holds the result types.

Each imperative part is a class or method proved equal to a function of its inputs and old state; the
laws are lemmas about those functions. Environment choices (crashes, broker answers, clocks, database
ids) are parameters or actions that a statement quantifies over. `dafny verify dfyconfig.toml` checks
everything.

Properties that the code does not have without a condition, each with its exact one:

- *Ledger agreement.* The `pending` check stands outside the transaction and the executor does not repeat
  it. `BankLedger.AgreementExactly` says that money and rows agree throughout a run exactly when no
  attempt commits or writes a failure for a row that is already `completed`. One worker handling one job
  at a time (packages/queue/src/transfers.ts:53-63) is what keeps attempts apart; the executor's comment,
  which calls it safe with several processes, holds for conservation and account locks but not for this.
- *Terminal statuses.* For the same reason a completed row can become failed, and nothing in the executor
  keeps a failed one from becoming completed. `BankLedger.TerminalExactly` says that the status and
  failure reason of terminal rows never change in a run exactly when no attempt writes a verdict over a
  different terminal status. `BankLedger.DecidedOnce` says that without overlapping attempts no verdict
  at all is written on a decided row.
- *Meaning of merged references.* Components are compared before the renames of their own and later
  sections are made. `MergeReach.PathReachExactly` says that a kept path reaches the same components as
  in its own document, under their final names, exactly when no de-duplicated component that it reaches
  refers to one renamed after the comparison, and `MergeReach.MeaningPreserved` that it then unfolds to
  the same tree. `MergeReach.DedupSafeEverywhere` gives the condition for everything a document could
  refer to at once: none of its de-duplicated components refers to a component renamed later.
  `MergeReach.DedupLosesMeaning` is a family of documents in which a path changes its meaning. The
  comment of `mergeOpenApiDocuments` promises matching references without this condition.
- *Names without a reference.* A security requirement names its scheme by key and a discriminator may
  name a schema by its plain name; merging rewrites neither. `MergeNames.NamedExactly` says that, for
  documents whose references resolve, the merged document has the extra's rewritten component under its
  old name exactly when the component was neither renamed nor de-duplicated against one that refers to a
  component renamed later. After a collision such a name silently means the other document's component
  (`MergeNames.RenamedDiffers`).
- *The handshake's bytes.* Reading as ASCII drops high bits, so an accepted handshake need not be the
  encoding of its IMEI. `Imei.AcceptedIsEncoding` says that it is exactly when no digit has its high bit
  set.
- *Long packets.* The record count is one byte: `RoundTrip.FrameRoundTrip` holds exactly up to 255
  records.

## Model

| member | source | states |
|---|---|---|
| BankLedger.RunSafe | packages/shared/src/transfers/executor.ts:50-109 | in every state of every run the row-lock table is exact, every open attempt's reads are current, and the ledger invariant holds |
| BankLedger.Conservation | packages/shared/src/transfers/executor.ts:51-100 | in every interleaving, overlap and crashes included, committed balances sum to the opening deposits and none is negative |
| BankLedger.LedgerAgreement | packages/shared/src/transfers/processor.ts:21-45 | without overlapping attempts a transfer's money moved once if its row is completed and otherwise never, and each balance is completed money in minus completed money out |
| BankLedger.TerminalForever | packages/shared/src/transfers/processor.ts:30-33 | without overlapping attempts a completed or failed row is never changed again |
| BankLedger.ActionOverturns | packages/shared/src/transfers/executor.ts:93-107 | one action leaves the status and failure reason of every terminal row as they are if and only if it does not write a verdict over a different terminal status |
| BankLedger.TerminalExactly | packages/shared/src/transfers/executor.ts:50-109 | over any run at all, no terminal row's status or failure reason ever changes if and only if no such verdict is written |
| BankLedger.DecidedOnce | packages/shared/src/transfers/executor.ts:93-107 | without overlapping attempts no verdict is ever written on a decided row, not even the one it has |
| BankLedger.DecisionExact | packages/shared/src/transfers/executor.ts:93-107 | a commit or failure write keeps counts and rows in agreement if and only if the row was not completed already |
| BankLedger.AgreementExactly | packages/shared/src/transfers/executor.ts:50-109 | over any run at all, counts and rows agree throughout if and only if nothing is ever decided on a completed row |
| BankOverlap.TwoAttempts | packages/shared/src/transfers/processor.ts:23-33 | from any state in which two attempts on one transfer have begun and it would go through, running both moves the money twice if the balance covers it, and otherwise once with the row marked failed |
| BankOverlap.OverlapBreaksAgreement | packages/shared/src/transfers/executor.ts:101-107 | for every deposit and amount that it covers there is a run from the empty bank that ends so |
| BankConcurrency.CompletesUnlocked | packages/shared/src/transfers/executor.ts:66-77 | when a transfer commits, neither account has an active lock |
| BankConcurrency.LockSafety | apps/app-apis/src/modules/locks/service.ts:15-28 | from the commit of a lock until its release no transfer touching the account commits, in any interleaving |
| BankConcurrency.WaitsUpwards | packages/shared/src/transfers/executor.ts:53-64 | a holder that waits itself waits for a later account |
| BankConcurrency.DeadlockFreedom | packages/shared/src/transfers/executor.ts:53-64 | in every state of every run, waiting for row locks has no cycle |
| BankConcurrency.Progress | packages/shared/src/transfers/executor.ts:53-64 | while any process is unfinished, some unfinished process can take its next step |
| BankSubmission.IdempotentSubmission | apps/app-apis/src/modules/transfers/service.ts:58-119 | with one key: at most one row, every successful reply names it and was for its payload, at most one says it created it |
| BankSubmission.SubmissionChangesNoRow | apps/app-apis/src/modules/transfers/service.ts:58-119 | no statement of a submission changes an existing row |
| BankSubmission.RowIdentityForever | packages/db/src/schema/transfers.ts:19-52 | a row's key, payload and accounts stay what they were inserted with, over any run |
| BankExecutor.Outcome | packages/shared/src/transfers/executor.ts:51-100 | for a row within the table's checks the outcome is the rejection that applies, or else the tables with the amount moved and the row completed |
| BankExecutor.Database.Transact | packages/shared/src/transfers/executor.ts:51-100 | the statements of the transaction come to the specified outcome for every row: first missing account in lock order, active lock, too little money, violated balance check, missing row, or commit |
| BankExecutor.Database.Execute | packages/shared/src/transfers/executor.ts:44-110 | for every row: the committed tables and the completed row, or the error with the failure written for a business rejection only and nothing changed otherwise |
| BankExecutor.Database.Process | packages/shared/src/transfers/processor.ts:32-45 | for every transfer id: tables and retry of one delivery, with a retry only for unchanged tables and never for a business rejection |
| BankExecutor.Database.CreateTransfer | apps/app-apis/src/modules/transfers/service.ts:58-88 | each error if and only if its cause holds and no earlier one does; a new key gets exactly one pending row and its job; a known key gets the replay, and the queue changes only for a pending row |
| BankExecutor.Database.Replay | apps/app-apis/src/modules/transfers/service.ts:99-119 | a known key returns its row or refuses another payload, and re-adding a job changes nothing |
| BankExecutor.Database.CreateAccount | apps/app-apis/src/modules/accounts/service.ts:17-41 | for an existing customer account and completed deposit row appear together, a zero deposit leaving no row; otherwise the error and no change |
| BankExecutor.Database.CreateLock | apps/app-apis/src/modules/locks/service.ts:15-28 | an active lock row for an existing account, refused only for a missing account |
| BankExecutor.Database.ReleaseLock | apps/app-apis/src/modules/locks/service.ts:44-68 | exactly an active lock of this account is released and kept as a row; each error with its cause |
| BankExecutor.ProcessedTwice | packages/shared/src/transfers/processor.ts:30-33 | redelivering a job handled to the end changes nothing |
| BankExecutor.SoloAttempt | packages/shared/src/transfers/executor.ts:50-109 | an attempt left alone ends, and its small steps do to the tables what the executor's call does |
| BankExecutor.SoloRunIsProcess | packages/shared/src/transfers/processor.ts:21-45 | a job picked up and left alone leaves the tables as one call of the processor does |
| BankServices.OutcomeExactly | packages/shared/src/transfers/executor.ts:51-100 | for any row: the transaction commits if and only if both accounts exist without an unreleased lock row, the source covers the amount, the destination does not fall below zero and the row is there, and then exactly the amount has moved; each error with its exact cause, and the first missing account in lock order |
| BankServices.HandledDecides | packages/shared/src/transfers/processor.ts:21-45 | one job for a pending row between existing accounts is never retried, and decides it by its lock rows and its balance: failed as locked, failed as not covered, or completed with the amount moved |
| BankServices.RetriedExactly | packages/shared/src/transfers/processor.ts:21-45 | a delivery leaves a missing or decided row alone, and a pending row's job is retried, with nothing changed, if and only if the row has no source, an account is missing, or a covered and unlocked amount would leave the destination below zero |
| BankServices.Pay | apps/app-apis/src/modules/transfers/service.ts:58-88 | a request under a new key and then its job: the row from the source to the destination of the request, completed with the money moved that way if neither account has an unreleased lock and the amount is covered, failed with its reason otherwise |
| BankServices.PayLocked | packages/shared/src/transfers/executor.ts:66-77 | once a lock is created on either account, a transfer of it fails as locked and moves nothing |
| BankServices.PayReleased | apps/app-apis/src/modules/locks/service.ts:44-57 | once the only unreleased lock of the two accounts is released, a covered transfer goes through, however many released lock rows there are |
| BankServices.SendAgain | apps/app-apis/src/modules/transfers/service.ts:99-119 | under a known key no row changes: the same payload is told of the row, whose job is queued again exactly while the row is pending and no job has the key, and another payload is refused |
| BankServices.PayTwice | apps/app-apis/src/modules/transfers/service.ts:58-119 | sent and processed twice, a transfer moves its money once |
| BankServices.LoneTransfer | packages/shared/src/transfers/executor.ts:50-109 | a job picked up and left alone decides its transfer by its lock rows and its balance in the same way |
| BankServices.SoloSubmit | apps/app-apis/src/modules/transfers/service.ts:58-119 | a request left alone leaves rows, queue and reply as one call of the service does |
| BankServices.SoloLocker | apps/app-apis/src/modules/locks/service.ts:15-28 | a lock request left alone leaves the tables as one call of the service does |
| Bytes.ReadWritten | packages/teltonika/src/cursor.ts:35-49 | a number that fits reads back from its big-endian bytes |
| Bytes.WriteRead | packages/teltonika/src/cursor.ts:35-49 | bytes are the big-endian writing of the number read from them |
| Cursors.Cursor.Take | packages/teltonika/src/cursor.ts:23-33 | reserves exactly the bytes that remain, or fails naming field, offset and shortage without moving |
| Cursors.Cursor.ReadValue | packages/teltonika/src/cursor.ts:59-63 | the copied bytes and the new offset, or the same failure as the function on offsets |
| Avl.ReadRecord | packages/teltonika/src/avl.ts:70-127 | the loops over the cursor read the record that the function on offsets describes, or fail at the same field |
| Avl.ParseAvlPacket | packages/teltonika/src/avl.ts:134-176 | the parser's result is the specified one on every byte string: packet, failed checksum, or the exact error |
| Encoder.WriteGroup | packages/teltonika/src/testing.ts:109-115 | the elements of one width, in order, behind their count |
| Encoder.WriteRecord | packages/teltonika/src/testing.ts:86-128 | the parts pushed one after the other hold the specified bytes, the GPS element written into its buffer in place, or writing fails where a value does not fit |
| Encoder.EncodeAvlFrame | packages/teltonika/src/testing.ts:131-150 | the frame with every override, or the failure of a value that does not fit |
| RoundTrip.EncodesExactly | packages/teltonika/src/testing.ts:86-128 | a record encodes if and only if every field fits its width |
| RoundTrip.OfWidthExactly | packages/teltonika/src/testing.ts:109-110 | a group of one width has exactly the elements of that width, in order |
| RoundTrip.FoldIoLastWins | packages/teltonika/src/avl.ts:92-99 | an id maps to the value of its last element, and to none if it has none |
| RoundTrip.FoldGroupsIsOneFold | packages/teltonika/src/avl.ts:93-99 | reading width by width is one last-wins fold over the elements grouped by width |
| RoundTrip.RecordRoundTrip | packages/teltonika/src/avl.ts:70-127 | wherever its bytes stand in a buffer, an encoded record parses to its decoded form and ends where they end |
| RoundTrip.FrameRoundTrip | packages/teltonika/src/testing.ts:131-150 | an encoded frame parses back to its records if and only if there are at most 255 |
| RoundTrip.WrongTrailerRejected | packages/teltonika/src/avl.ts:168-173 | a trailing count that differs modulo 256 is an error naming both counts |
| RoundTrip.DamageReported | packages/teltonika/src/avl.ts:150-157 | a data field whose checksum differs parses to a failed packet with both checksums and no records |
| RoundTrip.CorruptionCaught | packages/teltonika/src/avl.ts:150-157 | damage to a data field within sixteen consecutive bits, or of an odd number of bits, is always reported as a failed checksum |
| Crc.Crc16Ibm | packages/teltonika/src/crc.ts:6-15 | the nested loops compute the checksum defined over whole bytes |
| Crc.ChecksumLinear | packages/teltonika/src/crc.ts:6-15 | the checksum is XOR-linear over data of one length |
| Crc.ShiftBijective | packages/teltonika/src/crc.ts:10-12 | the register step is one-to-one and onto |
| CrcBursts.BitSerial | packages/teltonika/src/crc.ts:8-13 | mixing in whole bytes is feeding their bits one by one, lowest first |
| CrcBursts.BurstDetected | packages/teltonika/src/crc.ts:6-15 | data of one length that differ only within sixteen consecutive bits have different checksums |
| CrcBursts.PairIsBurst | packages/teltonika/src/crc.ts:6-15 | a difference within two adjacent bytes is such a burst |
| CrcPolynomial.ChecksumExactly | packages/teltonika/src/crc.ts:1-15 | the checksum is the one word of sixteen bits that is the remainder of the data's polynomial times x^16 modulo x^16 + x^15 + x^2 + 1, a byte's lowest bit being the coefficient of its highest power |
| CrcPolynomial.CheckValue | packages/teltonika/tests/crc.test.ts:16-18 | the checksum of "123456789" is 0xbb3d |
| Crc.ChecksumCarriesParity | packages/teltonika/src/crc.ts:6-15 | the checksum has the parity of the data's bits |
| Crc.OddDamageDetected | packages/teltonika/src/crc.ts:6-15 | flipping an odd number of bits changes the checksum |
| ParserCost.PacketCost | packages/teltonika/src/avl.ts:159-175 | parsing stays inside the data field, which is at least 3+30n or 3+38n bytes, plus 2 or 3 for each IO entry returned |
| WireLayout.RecordLayout | packages/teltonika/src/avl.ts:70-127 | a record is read if and only if one stands there: every field at its offset, most significant byte first and in two's complement where signed, IO groups of 1, 2, 4 and 8 bytes, and in Codec 8 Extended the elements of variable length |
| WireLayout.LastWinsMeans | packages/teltonika/src/avl.ts:92-99 | in a group an id has the value of its last element |
| WireLayout.DataLayout | packages/teltonika/src/avl.ts:159-175 | a data field is accepted if and only if it is 0x08 or 0x8e, a count, that many records and the count again; any other first byte is refused by its value |
| WireLayout.TrailerLayout | packages/teltonika/src/avl.ts:167-173 | a missing count behind the records is an error, and a different one is the error with both counts |
| WireLayout.NextElement | packages/teltonika/src/avl.ts:93-99 | an IO element cut off is the error that names its id or its value, its width, its offset and the bytes left |
| WireLayout.NextVariable | packages/teltonika/src/avl.ts:104-115 | the same for an element of variable length: its id, its length or its value |
| WireLayout.FrameLayout | packages/teltonika/src/avl.ts:134-157 | for every byte string: the errors of preamble and length with their numbers, in order, the corrupt packet of a wrong checksum, or the outcome of the data field |
| WireLayout.CutNames | packages/teltonika/src/avl.ts:76-90 | a record cut off before its IO elements is the error that names the field it was cut in, its width, its offset and the bytes left |
| WireLayout.PacketLayout | packages/teltonika/src/framer.ts:79-114 | what a buffer of packets comes to: wait, a bad preamble, a frame above the limit, or the parser's outcome for one whole frame |
| WireLayout.DefaultLimit | packages/teltonika/src/framer.ts:6-6 | the frame limit that is used by default is 1048576 bytes |
| WireLayout.HandshakeLayout | packages/teltonika/src/imei.ts:19-39 | for every buffer: accepted if and only if two bytes say 15 and fifteen ASCII digits follow, high bits not counted; each refusal with its cause, and otherwise wait |
| EncoderLayout.FrameWritten | packages/teltonika/src/testing.ts:131-150 | where preamble, length, data field and checksum of an encoded frame stand, each the computed value or its override, and the codec and count bytes |
| EncoderLayout.RecordWritten | packages/teltonika/src/testing.ts:86-128 | every field of the record at its offset in the encoded bytes, zeros without a fix, and the total number of elements |
| Imei.HandshakeStable | packages/teltonika/src/imei.ts:19-39 | a decided handshake is unchanged by later bytes |
| Imei.ImeiRoundTrip | packages/teltonika/src/testing.ts:153-157 | every valid IMEI is read back from its 17-byte frame |
| Imei.AcceptedIsEncoding | packages/teltonika/src/imei.ts:33-38 | an accepted handshake is the encoding of its IMEI if and only if none of its fifteen digit bytes has its high bit set |
| Imei.HighBitIgnored | packages/teltonika/src/imei.ts:33-33 | every valid IMEI has accepted frames that are not its encoding: set the high bit of any digit |
| Framer.TeltonikaFramer.Push | packages/teltonika/src/framer.ts:41-57 | events, state and buffer are those of draining the old buffer and the chunk; a failed framer ignores input |
| Framer.TeltonikaFramer.NextPacket | packages/teltonika/src/framer.ts:79-114 | one turn waits, fails with its detail, or consumes exactly one frame, as decided from the buffer |
| Framer.TeltonikaFramer.NextHandshake | packages/teltonika/src/framer.ts:65-77 | waits, fails, or consumes the handshake and starts streaming, as decided from the buffer |
| Stream.DecisionStable | packages/teltonika/src/framer.ts:60-114 | a decision other than to wait is unchanged by appended bytes |
| Stream.ChunkingIndependence | packages/teltonika/src/framer.ts:41-57 | any chunks of a stream, empty ones included, give the events, details and final state of one push |
| Stream.SameStreamSameEvents | packages/teltonika/src/framer.ts:41-57 | two ways of cutting one stream give the same events |
| Stream.BytesAccounted | packages/teltonika/src/framer.ts:92-118 | until an error the stream is the frames of the events and the buffer; each frame has at least 12 bytes and alone makes its event |
| Stream.BufferBounded | packages/teltonika/src/framer.ts:79-101 | after every push the buffer is shorter than the larger of 17 and the frame limit |
| Stream.OneFaultLast | packages/teltonika/src/framer.ts:50-54 | at most one error, and it is last; the IMEI comes first and once |
| Stream.TrafficRoundTrip | packages/teltonika/src/framer.ts:41-114 | an IMEI frame and encoded frames within the limits give exactly the IMEI and those packets, however cut |
| Publishing.BuildTelemetryEvents | packages/events/src/build.ts:12-41 | one event for each record, in order, with the IMEI, codec and arrival time of the packet, no two with the same dedup key |
| Publishing.PublishTelemetry | packages/events/src/client.ts:98-119 | one request: each topic once, with exactly its events in packet order, and no topic with events missing |
| Publishing.TopicsPartition | packages/events/src/client.ts:109-115 | the two topics' messages together are the packet's events, each once |
| Publishing.ForTopicInOrder | packages/events/src/client.ts:109-115 | the events of a topic stand in packet order |
| Publishing.ForTopicExactly | packages/events/src/client.ts:82-88 | an event is on the backfill topic if and only if it arrived later than the threshold after it was recorded, and on the live topic otherwise |
| Ingest.RecordAckReadBack | packages/teltonika/src/ack.ts:14-18 | the device reads back the count that was written |
| Ingest.DeviceConnection.HandlePacket | apps/telemetry-ingest/src/server.ts:61-96 | connection and log after one packet: ack 0 for a failed checksum, no ack and a dropped connection for a failed publish, the record count otherwise |
| Ingest.DeviceConnection.HandleEvent | apps/telemetry-ingest/src/server.ts:98-122 | connection and log after one event: handshake accepted, packet handled, or the connection dropped and a bad IMEI refused |
| Ingest.DeviceConnection.HandleChunk | apps/telemetry-ingest/src/server.ts:98-122 | one chunk pushes the framer and serves its events in turn, stopping once the socket is destroyed |
| Ingest.AcksIndependentOfChunking | apps/telemetry-ingest/src/server.ts:98-133 | acknowledgements and log do not depend on how the stream is cut |
| Ingest.AcknowledgedInOrder | apps/telemetry-ingest/src/server.ts:61-96 | the k-th acknowledgement answers the k-th packet with its record count or 0, and every acknowledged record is in the log |
| Ingest.ConnectionAnswers | apps/telemetry-ingest/src/server.ts:61-133 | the same for the bytes of any connection, whatever the chunks and the broker's answers |
| IngestAnswers.DroppedExactly | apps/telemetry-ingest/src/server.ts:61-122 | a connection is dropped if and only if it met an error of the framer, a packet before its handshake, records that could not be published, or was gone when an intact packet had been |
| IngestAnswers.UnbrokenServed | apps/telemetry-ingest/src/server.ts:61-96 | until then it is open, has answered every handshake and packet in order, with 0 for a failed checksum, and has published the records of exactly the intact packets |
| IngestAnswers.BrokenServed | apps/telemetry-ingest/src/server.ts:98-122 | dropping writes nothing more, except the refusal of an IMEI |
| IngestAnswers.AnswerBytes | packages/teltonika/src/ack.ts:5-18 | the bytes of every answer: 1 or 0, or the count in four bytes, most significant first |
| Device.DamageInPlace | packages/teltonika/src/avl.ts:141-157 | what arrives damaged has the length and header of the frame that was sent |
| Device.WireDecided | packages/teltonika/src/framer.ts:79-114 | a sent frame, whole or damaged in its data field or checksum, is taken off the wire as one packet or one failed checksum |
| Device.StepSafe | apps/telemetry-ingest/src/server.ts:61-133 | every step of device, wire, server and broker keeps: deleted records are stored, replies fit what was sent |
| Device.AcknowledgedMeansStored | apps/telemetry-ingest/src/server.ts:78-96 | over every run with losses, resends, partial publishes and detected damage, every record deleted from flash is in the log, and deleted and held records are all that were captured, in order |
| Device.RepliesFit | apps/telemetry-ingest/src/server.ts:98-122 | the device only ever reads the reply it waits for: acceptance, its own record count, or 0 |
| Device.UndisturbedPacket | apps/telemetry-ingest/src/server.ts:61-96 | an undisturbed packet is published whole, acknowledged with its count and dropped from flash |
| Device.DamagedPacket | apps/telemetry-ingest/src/server.ts:68-76 | a damaged packet is answered with 0 whatever the broker does: the device is ready again on the same connection, with flash memory and log unchanged |
| FirstWins.InsertAllExactly | packages/db-telemetry/src/schema/telemetry.ts:30-33 | after an insert a key holds its old row, or else the first inserted one |
| Writers.TelemetryConsumer.EachBatch | packages/events/src/client.ts:214-232 | dead letters, failures and the one insert of a batch are those of a step of the schedule |
| Writers.TelemetryConsumer.Handle | apps/telemetry-consumers/src/consumers/locations.ts:21-53 | all rows of the events in one insert, or none |
| Writers.ExactlyOnce | apps/telemetry-consumers/src/consumers/fuel.ts:18-41 | for any one log and at-least-once schedule the table is that of reading the log once, and exactly the undecodable messages are dead-lettered |
| Writers.TableMeans | apps/telemetry-consumers/src/consumers/locations.ts:29-53 | a key is stored if and only if a message read carries it, with the row of the first such message |
| Writers.LocationCarried | apps/telemetry-consumers/src/consumers/locations.ts:26-47 | a message carries a position if and only if it has a fix, for its vehicle and time |
| Writers.FuelCarried | apps/telemetry-consumers/src/consumers/fuel.ts:19-36 | a message carries a fuel level if and only if a reading is from that sensor |
| Writers.LocationStored | apps/telemetry-consumers/src/consumers/locations.ts:29-49 | whatever the batches and failures, a position is stored with arrival time and fix of the first message to carry it |
| Writers.FuelStored | apps/telemetry-consumers/src/consumers/fuel.ts:26-36 | whatever the batches and failures, a fuel level is stored with arrival time, percentage and litres of the first reading of its sensor in the first message to carry it |
| Topics.TurnsReadOnce | apps/telemetry-consumers/src/consumers/locations.ts:21-53 | with several topics, what is stored is an interleaving of each topic up to where it has been stored, read once, and dead letters are exact for each topic |
| Topics.KeysOfTopics | packages/db-telemetry/src/schema/telemetry.ts:70-76 | the stored keys are those that a stored message of some topic carries, whatever the interleaving, and a row is that of the first carrier of its topic |
| Vehicles.VehicleRegistry.Resolve | apps/telemetry-consumers/src/vehicles.ts:19-35 | answers with the table's id, adding a row only for an unknown device, and caches it |
| Vehicles.VehicleRegistry.ResolveAll | apps/telemetry-consumers/src/vehicles.ts:38-42 | one entry for each distinct device, agreeing with the table, whose old rows are unchanged |
| Vehicles.RunConsistent | apps/telemetry-consumers/src/vehicles.ts:15-36 | however consumers race and restart, caches and answers agree with a table that only grows |
| Vehicles.StableIds | apps/telemetry-consumers/src/vehicles.ts:23-34 | two answers name one vehicle if and only if they are about one device |
| Vehicles.NeverVanishes | apps/telemetry-consumers/src/vehicles.ts:32-32 | no run reaches the error of a row that vanished |
| AlertRules.Lowest | apps/telemetry-consumers/src/alerting/rules.ts:51-57 | a lowest reading with a percentage, none exactly if no reading has one |
| AlertRules.FirstLowest | apps/telemetry-consumers/src/alerting/rules.ts:51-57 | of several lowest readings the first is reported |
| AlertRules.Nearest | apps/telemetry-consumers/src/alerting/rules.ts:88-90 | a zone whose distance no other undercuts |
| AlertRules.FirstNearest | apps/telemetry-consumers/src/alerting/rules.ts:88-90 | of several nearest zones the first is reported |
| AlertRules.CandidateOf | apps/telemetry-consumers/src/alerting/rules.ts:46-105 | a candidate if and only if the rule is met, reporting the lowest sensor, the speed, or a nearest zone |
| AlertRules.EvaluateRules | apps/telemetry-consumers/src/alerting/rules.ts:46-105 | the pushed list, looked up by type, has exactly the candidates of the rules that are met |
| Alerting.StateMeans | apps/telemetry-consumers/src/alerting/consumer.ts:71-127 | active says whether the latest reading met the rule, lastFiredAt is the time of the last alert |
| Alerting.FiresExactly | apps/telemetry-consumers/src/alerting/consumer.ts:103-106 | a reading raises an alert if and only if the rule is met and was not met before, or the last alert is a cooldown ago |
| Alerting.AlertSpacing | apps/telemetry-consumers/src/alerting/consumer.ts:103-106 | n alerts in an unbroken holding run span at least n-1 cooldowns, whatever the order of times |
| Alerting.EdgeFires | apps/telemetry-consumers/src/alerting/consumer.ts:148-157 | a condition that starts to hold is reported at once |
| Alerting.Independent | apps/telemetry-consumers/src/alerting/consumer.ts:141-158 | a vehicle's state and alerts for a condition are those of its own readings alone |
| Alerting.TablesMean | apps/telemetry-consumers/src/alerting/consumer.ts:129-159 | the same meaning of active and lastFiredAt for the tables of all vehicles |
| Alerting.ApplyConcat | apps/telemetry-consumers/src/alerting/consumer.ts:141-158 | cutting the readings into batches differently changes nothing |
| AlertBatches.RecentExactly | apps/telemetry-consumers/src/alerting/consumer.ts:130-132 | a reading is ignored if and only if it is older than the oldest allowed |
| AlertBatches.ObservedExactly | apps/telemetry-consumers/src/alerting/consumer.ts:139-143 | a reading of an unknown vehicle is passed over |
| AlertBatches.RulesSeen | apps/telemetry-consumers/src/alerting/rules.ts:46-105 | a reading is seen under its vehicle and time with exactly the rules it meets, each spelt out |
| AlertBatches.ZonesExactly | apps/telemetry-consumers/src/alerting/consumer.ts:47-64 | zones loaded at one batch are used by a later one if and only if they are younger than the refresh time |
| AlertBatches.UpdatedExactly | apps/telemetry-consumers/src/alerting/consumer.ts:89-124 | a state was last updated at the latest reading that met the rule or was the first not to meet it any more |
| AlertBatches.AlertsInOrder | apps/telemetry-consumers/src/alerting/consumer.ts:148-157 | the alerts that one reading raises come in the order low fuel, outside every zone, speeding, each with what was found |
| Alerting.AlertingHandler.ActiveGeofences | apps/telemetry-consumers/src/alerting/consumer.ts:47-64 | the cached zones while young enough, else the table's, which are then cached with the time of loading |
| Alerting.AlertingHandler.ShouldFire | apps/telemetry-consumers/src/alerting/consumer.ts:71-127 | answer and stored state are those of the transition function, other keys unchanged |
| Alerting.AlertingHandler.Handle | apps/telemetry-consumers/src/alerting/consumer.ts:129-159 | tables and zone cache after a batch: the fresh readings of known vehicles applied in order under the zones in use, stale ones ignored |
| Engine.InterleavingIrrelevant | apps/telemetry-consumers/src/consumers/engine.ts:120-146 | any two interleavings of one live and one backlog sequence emit the same rows and end in the state of the live sequence alone |
| Engine.Separate | apps/telemetry-consumers/src/consumers/engine.ts:127-143 | the rows of a mixed sequence are those of its live part and those of its backlog part together |
| Engine.ChangesAlternate | apps/telemetry-consumers/src/consumers/engine.ts:127-134 | changes alternate strictly, the first away from the start and the last to the final value |
| Engine.LiveChangePoints | apps/telemetry-consumers/src/consumers/engine.ts:127-143 | live readings without explicit triggers emit, for each vehicle and input, exactly the changes of their values, and the last value is remembered |
| EngineReports.RowsExactly | apps/telemetry-consumers/src/consumers/engine.ts:120-146 | live and backlog readings in any mixture emit, for each vehicle and input, exactly one row for each reading that is triggered by it (AVL id 239 or 240) or is live and differs from the last live value, with its times and value; the last live value is remembered |
| EngineReports.BacklogExactly | apps/telemetry-consumers/src/consumers/engine.ts:127-143 | a backlog emits exactly what the device reported of itself, in order and whatever is known, and changes nothing known |
| EngineReports.ReportEmitted | apps/telemetry-consumers/src/consumers/engine.ts:128-131 | what the device reports is a row on either topic, whatever is known |
| EngineHandlers.LastTransition | apps/telemetry-consumers/src/consumers/engine.ts:95-113 | what a newest stored transition of the kind says, none if there is none |
| EngineHandlers.TransitionsFor | apps/telemetry-consumers/src/consumers/engine.ts:120-146 | transitions and mutated state are those of the transition function on the old state |
| EngineHandlers.EngineHandler.LoadState | apps/telemetry-consumers/src/consumers/engine.ts:46-61 | the cached state object, or a new one seeded from the newest stored transitions |
| EngineHandlers.EngineHandler.Handle | apps/telemetry-consumers/src/consumers/engine.ts:63-91 | cache and table after a batch: as if every vehicle's state had been seeded beforehand, with first-wins rows |
| EngineReports.DeliveriesExactly | apps/telemetry-consumers/src/consumers/engine.ts:63-78 | readings are taken in order, and exactly those that carry an input and are of a known vehicle |
| EngineReports.StoredExactly | apps/telemetry-consumers/src/consumers/engine.ts:79-90 | a transition is stored under vehicle, time and kind, with the arrival time of the first row to have them |
| Json.DeepEqualIsEqual | packages/shared/src/openapi/merge.ts:11-22 | the comparison decides equality of JSON trees |
| Json.SuffixedInjective | packages/shared/src/openapi/merge.ts:60-63 | a suffixed name determines the name and the suffix |
| Merge.RewriteCompose | packages/shared/src/openapi/merge.ts:25-40 | rewriting one section after another is rewriting with both renamings at once |
| Merge.Candidate | packages/shared/src/openapi/merge.ts:58-64 | the first suffixed name from 2 on that is free; one always exists |
| Merge.RenamingInjective | packages/shared/src/openapi/merge.ts:55-66 | final names are one-to-one, and a new name is used neither by the target nor by the source |
| Merge.RenamesExplained | packages/shared/src/openapi/merge.ts:97-99 | each section is renamed against its text after the earlier sections' renames |
| Merge.ComponentMerged | packages/shared/src/openapi/merge.ts:69-72 | a component lands under its final name with all renames applied, or an equal component of the target stands for it |
| Mergers.RewriteNode | packages/shared/src/openapi/merge.ts:25-40 | the walk over a node rewrites exactly the string values of `$ref` that name a renamed component |
| Mergers.FindCandidate | packages/shared/src/openapi/merge.ts:58-63 | the search loop ends at the first free suffixed name |
| Mergers.CollectRenames | packages/shared/src/openapi/merge.ts:55-66 | renames exactly the names that collide |
| Mergers.CopyEntries | packages/shared/src/openapi/merge.ts:69-72 | the target's entries unchanged, and the source's under their final names |
| Mergers.Merger.RewriteExtra | packages/shared/src/openapi/merge.ts:67-67 | the extra document is rewritten, and with it the entries copied out of it, and no others |
| Mergers.Merger.MergeSection | packages/shared/src/openapi/merge.ts:42-73 | one more section is merged, and the sections merged before are as if merged with the longer renaming |
| Mergers.Merger.MergeDocument | packages/shared/src/openapi/merge.ts:94-107 | one round of the loop gives the merge of one extra document |
| Mergers.MergeOpenApiDocuments | packages/shared/src/openapi/merge.ts:83-110 | the whole procedure computes the merge of all extras in order |
| MergeMeaning.BaseKept | packages/shared/src/openapi/merge.ts:76-82 | base paths and components are unchanged by any extras |
| MergeMeaning.RewriteIdempotent | packages/shared/src/openapi/merge.ts:25-40 | rewriting twice is rewriting once |
| MergeMeaning.PathsExactly | packages/shared/src/openapi/merge.ts:101-106 | the merged paths are exactly those of the base and the extras |
| MergeMeaning.OwnedPath | packages/shared/src/openapi/merge.ts:101-106 | a path belongs to the first document that has it, rewritten by that document's renames |
| MergeMeaning.MergeClosed | packages/shared/src/openapi/merge.ts:83-110 | documents whose references resolve merge to a document whose references resolve |
| MergeMeaning.OwnedPathResolves | packages/shared/src/openapi/merge.ts:101-106 | a kept path's references resolve if its own document's do, whatever else is merged |
| MergeMeaning.RewriteFixed | packages/shared/src/openapi/merge.ts:25-40 | a text is unchanged by rewriting if and only if it refers to no renamed component |
| MergeMeaning.RepresentsExactly | packages/shared/src/openapi/merge.ts:56-72 | every component keeps its text up to renaming if and only if no de-duplicated one refers to a component renamed in its own or a later section |
| MergeReach.ReachExactly | packages/shared/src/openapi/merge.ts:56-72 | what a text reaches through references is kept, under final names, if and only if no de-duplicated component it reaches refers to one renamed in the same or a later section |
| MergeReach.DedupSafeEverywhere | packages/shared/src/openapi/merge.ts:56-72 | no de-duplicated component of a document refers to one renamed in the same or a later section if and only if every text that resolves in the document meets the condition of ReachExactly |
| MergeReach.PathReachExactly | packages/shared/src/openapi/merge.ts:83-110 | the same for every kept path of every extra document, whatever else is merged |
| MergeReach.MeaningPreserved | packages/shared/src/openapi/merge.ts:83-110 | under that condition on the path alone it unfolds to the tree of its own document at every depth |
| MergeReach.BaseMeaningPreserved | packages/shared/src/openapi/merge.ts:83-110 | base paths unfold to what they did, without any condition on the extras |
| MergeReach.DedupLosesMeaning | packages/shared/src/openapi/merge.ts:57-57 | for every two different texts there are documents, violating the condition, for which a kept path unfolds differently |
| MergeNames.RenamedDiffers | packages/shared/src/openapi/merge.ts:58-68 | in a target whose references resolve, the component under a renamed component's old name differs from the rewritten one, also after all renames |
| MergeNames.InheritedStayOut | packages/shared/src/openapi/merge.ts:61-61 | no merge gives a component a name that every object inherits |
| MergeNames.NamedExactly | packages/shared/src/openapi/merge.ts:25-79 | for documents whose references resolve, and whatever else is merged, a component of an extra document is found rewritten under its old name if and only if it was neither renamed nor de-duplicated against one that refers to a component renamed in the same or a later section |
| MergeNames.RenamedExactly | packages/shared/src/openapi/merge.ts:58-66 | a component is renamed if and only if the target has another under its name, or every object inherits the name, and then to its name with the least number from 2 behind an underscore that nobody has |
| MergeNames.ReferenceText | packages/shared/src/openapi/merge.ts:33-36 | the references that are followed, letter for letter, for each of the four sections |
| MergeNames.DecimalReads | packages/shared/src/openapi/merge.ts:62-62 | the number behind the underscore is written in decimal digits without a leading zero |
| Paging.PageExactly | apps/app-apis/src/modules/accounts/service.ts:73-82 | a page holds the greatest rows below its cursor and has a next cursor exactly if rows remain, which is then smaller |
| Paging.HistoryComplete | apps/app-apis/src/modules/accounts/service.ts:67-83 | following the cursor with any page sizes and concurrent inserts ends, is strictly descending, and includes every row present at the first request |
| Paging.HistoryOfAccount | apps/app-apis/src/modules/accounts/service.ts:65-83 | from the first page on, every transfer from or to the account that was there at the first request is on some page, and nothing else is |

## Left out

- Express routing, request validation, authentication, health servers, environment loading, migrations, seeds and the docs router: plumbing around libraries.
- Postgres, Redis with BullMQ, and kafkajs beyond what the statements use: row locks, per-statement snapshots, atomic commit, unique keys, re-adding a job id as a no-op, redelivery of a batch that threw.
- Row locks that foreign keys take implicitly when transfers are inserted: the deadlock statements are about the explicit `FOR UPDATE` locks.
- That a pending transfer is finally executed: a job that used up its attempts blocks its id, so no liveness is claimed.
- The request hash is taken to be injective and stands for the payload.
- Float scaling of coordinates and litres, and timestamps from 2^53 on: coordinates stay raw int32, litres are integers, timestamps are exact; dates outside the JavaScript range are not modelled.
- Wording of parse errors: an error is structured data with the field, offset and numbers its text is made of.
- Log messages, the set of open connections and shutting down the server.
- Device.AcknowledgedMeansStored: damage that the checksum cannot see is not among the wire's actions, because then no server could tell; damage to the frame's header ends or stalls the connection and is not an action either.
- BankLedger.TerminalExactly: rows have no `completedAt`, so a second equal verdict, which sets it anew, counts as no change; without overlapping attempts `BankLedger.DecidedOnce` excludes it.
- BankLedger.ActionOverturns: for the same reason about status and failure reason only.
- Which broker errors leave which part of a request applied: any subset of the events may have been kept.
- Writers.TelemetryConsumer.EachBatch: the early return after a rebalance is not modelled, because what it commits depends on kafkajs.
- Exactly-once for alert rows and inferred transitions under redelivery: state changes before the row is written, so the code does not give it.
- Database checks on fuel percentages and coordinates; locations and fuel rows are inserted as built.
- Mergers.Merger.RewriteExtra: nodes are values here, so rewriting in place is a new tree assigned to the same place, and the nodes shared between the extra and the merged document are the entries listed in `copied`.
- Object key order, `__proto__` as a key, and document parts other than paths and the four sections; path items and components are objects, as the document type says.
- References to places inside a component (`#/components/schemas/A/...`) are not renamed by the code; the statements about resolving references exclude them by asking that a reference name a whole component.
- The `valid` flag of a GPS element, which is whether it has satellites, and the message keys, which are the IMEI.
- `normalizeRecord`, comments, customers and auth services: only easy members.
