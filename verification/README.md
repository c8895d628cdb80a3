# Verification of the logging pipeline

A Dafny model of the parts of this repository on which its promises rest: the hashing, batching
and anchoring of log entries, the message protocol between the submit and confirm queues, the
ledger service on the chain, and the pieces of the patched actix-http crate that write heads,
frame bodies, keep connections and handle cookies. Each module stands for one component and
proves what that component is for: statements over every input, every sequence of operations
or every interleaving.

`dafny verify dfyconfig.toml` checks the whole project.

## How the model is laid out

| module | component |
|---|---|
| MerkleTree, Hex | batch roots: the level-by-level loop against a tree defined from the root down |
| Json, CanonicalJson, Utf8, LogEntries | the canonical text of an entry, its hash, rows and verification |
| HybridBatch | the batched write and its tables, leaf listing, root verification |
| BatchWriter | buffer, timer and promises as an event machine |
| QueueProtocol | submit and confirm handlers, storage steps and rows, over all interleavings |
| Benchmark | semaphore, success and failure accounting, sampling |
| ProtoWire, ProtoMessages | the hand-written protobuf printer against the generated decoder |
| Ledger | record map, order list, submitter histories, pagination |
| ConnectionPool, PoolExclusion, PoolObjects | pool, guards, waiters and the support loop |
| Buffers, TransferEncoding, DecimalPrinter, HeaderWriter, HeadReader, MessageEncoder | HTTP/1 output: heads, bodies, and whether they agree |
| PercentCoding, CookieText, CookieParse, CookieJar | cookies: print, parse, index pairs, jar |
| Bytes | bytes, digests, options and results |

Code that changes things in place is a class or a method with loops, proved equal to a function
on values; the theorems are about those functions. An await splits a handler into steps, and
events of the outside world (a storage call that ends, a timer, a chain's answer, a dropped
future) are steps with any outcome the code admits. The hash function is a parameter
everywhere, and nothing is assumed of it: where security needs it to be injective, the theorem
hands back two different inputs with one digest.

## What the proofs found

These statements are not true of the code as one might expect them; each has its exact condition.

- Batch roots: an odd batch and the same batch with its last leaf repeated have one root, and so
  have a batch and its row of parents (`MerkleTree.RepeatedLastLeafKeepsRoot`,
  `MerkleTree.RootsAgreeIff`). A stored hash that is not 32 bytes moves leaf boundaries: of leaves
  of any length a root binds no more than the concatenated pairs (`MerkleTree.PairsAgreeIff`). A
  written batch of one entry whose stored hash is not the text of 32 bytes fails its own Merkle
  check (`HybridBatch.WrittenBatchVerifiesIff`).
- An own `__proto__` key of metadata is not hashed (`CanonicalJson.ProtoIsNotHashed`).
- An entry with another spelling of its level, an id that does not fill its column, or a source
  whose excess blanks are cut off, does not verify after it was written
  (`LogEntries.VerifyAfterWrite`).
- On a batch of unknown and DEBUG levels the storage says INFO and the anchor DEBUG
  (`HybridBatch.SeveritiesAgreeIff`).
- A confirmed batch in Postgres loses its status when a second batch is written under its root:
  the record is kept, and the last update of the write takes it back. Two entries with one stored
  hash in lower and in upper case are such batches (`HybridBatch.HexCaseTakesStatusBack`). Two
  batches of any length with the same leaves stop verifying, unless each leaf is the digest of
  itself twice (`HybridBatch.SharedRootVerifiesIff`). Over all runs of the
  queues a confirmed row is lost only after a write that disturbs it: a batch to Postgres under a
  root of the table, or a single entry to a batched Mongo storage under an id that is a root
  (`QueueProtocol.LostIff`, `QueueProtocol.DisturbedIsLost`, `QueueProtocol.StrayIsLost`). Rows of the anchored tables are
  never lost (`QueueProtocol.AnchoredStaysConfirmed`).
- The submit handler, when it replies itself and did not throw, says success exactly when the
  storage failed or the chain refused: a missing confirmation counts as given
  (`QueueProtocol.DirectSuccessIff`, `QueueProtocol.FalseSuccessIff`).
- A single entry sent to a batched storage ends that way in Postgres each time, since its table has
  no status column (`QueueProtocol.PostgresStrayFails`). In Mongo it is handed over, but its
  confirmation is recorded elsewhere and its own row is never confirmed, even when it is told a
  success (`QueueProtocol.BatchedRowsNeverConfirmed`, `QueueProtocol.StrayRun`).
- A failed direct open, or one cancelled before its guard exists, keeps its reservation for
  ever; as many as the limit stop the pool for good, and nothing less does
  (`ConnectionPool.StepLeaks`, `ConnectionPool.StoppedIff`, `ConnectionPool.PoolCanFill`).
  Served waiters leave their slab slots behind, one at each delivery, and the last waiter jumps the
  queue whenever the first is served (`ConnectionPool.LastJumpsQueue`). The branch of the support loop that handles a
  failed send would borrow the pool twice, but no run reaches it.
- A streamed response with chunked framing keeps the caller's content-length
  (`HeaderWriter.BothFramingsIff`).
- The camel-case writer leaves stale bytes unless every segment of the name starts with a
  lower-case letter (`HeaderWriter.CamelCaseIff`).
- A client that applies a jar's delta does not always end with what the jar shows. It does so
  under a name exactly when a change of the name is not visible and expired at once and has the
  path and domain of every original of the name, or, without a change, when the name was never
  sent or was sent under one path and domain and not dropped since
  (`CookieJar.ClientAgreesIff`). `clear` and `force_remove` drop without a removal cookie
  (`CookieJar.ClearReachesClientIff`, `CookieJar.ForceRemoveReachesClientIff`).
- A listing limit above 200 is clamped, so pages at multiples of it leave gaps
  (`Ledger.PagesCoverIff`).
- The status line reads `HTTP/2.1` for HTTP/2, of whose text only one digit is patched, and
  `HTTP/1.1` for HTTP/3, which takes the default arm (`DecimalPrinter.VersionIsRightIff`).
- Head and body of a message do not always agree (`MessageEncoder.InSyncIff`,
  `MessageEncoder.PlainInSyncIff`). The body encoding is picked from the caller's length and not
  from the one that the head announces: a 204 with a sized body sends bytes that a recipient takes
  for the next message, and a chunked head can be followed by a raw stream. The head of a stream
  keeps the caller's framing headers: without chunking a content-length frames the body, whatever
  its length (`MessageEncoder.RawLengthIff`), and a transfer-encoding that is not chunked takes the
  framing from a chunked one. A response that nothing frames is read to the end of a connection
  that may stay open (`MessageEncoder.UnframedStreams`).
- A queue run that collects more successes than logs has a negative failure count
  (`Benchmark.CountReplies`). That takes a message that the broker delivered twice: with one
  delivery each, each log is replied to once (`QueueProtocol.OneReplyEach`).

## Model

| member | source | states |
|---|---|---|
| MerkleTree.ComputeBatchHash | src/core/HashService.ts:13-29 | The level-by-level loop ends, and its result is the root of the recursive tree over the entries' leaves (the digest of the empty string for no entries). |
| MerkleTree.ParentsKeepNode | src/core/HashService.ts:19-26 | Hashing one level, with an odd last leaf paired with itself, keeps the digest of the tree defined from the root down. |
| MerkleTree.ParentsKeepRoot | src/core/HashService.ts:19-26 | One turn of the outer loop keeps the root. |
| MerkleTree.DepthIsLeast | src/core/HashService.ts:19 | The height of the tree is the least one whose row holds all leaves. |
| MerkleTree.NodeBinding | src/core/HashService.ts:21-25 | Two trees of one height with one digest pad to the same row of leaves, or the walk down both finds two different 64-byte node inputs with one digest. |
| MerkleTree.PaddedDeterminesNode | src/core/HashService.ts:23 | Conversely, rows that pad to the same full row have the same digest. |
| MerkleTree.LiftKeepsRoot | src/core/HashService.ts:19-27 | Lifting a tree to the row from which a given height remains keeps its root. |
| MerkleTree.RootsAgreeIff | src/core/HashService.ts:13-29 | For lists of any two lengths: lifted to a common height, their roots agree exactly when the rows pad to the same row, up to an explicit collision. |
| MerkleTree.ParentsShareRoot | src/core/HashService.ts:19-27 | A batch and its shorter row of parents share a root, so that a root alone does not tell the length. |
| MerkleTree.RootBinds | src/core/HashService.ts:13-29 | Equally long lists of 32-byte leaves with one root are equal, or a concrete pair of different 64-byte inputs with one digest is computed from them. |
| MerkleTree.RepeatedLastLeafKeepsRoot | src/core/HashService.ts:23 | Equal length is needed: an odd batch and the same batch with its last leaf repeated share a root. |
| MerkleTree.PaddedParents | src/core/HashService.ts:21-25 | The padded row of parents holds the digests of the pairs of the padded row. |
| MerkleTree.PairsAgreeIff | src/core/HashService.ts:19-27 | For leaves of any length: lists of one height above zero share a root exactly when their padded rows agree pair by pair as concatenations, up to an explicit collision. |
| MerkleTree.ShiftedBoundaryKeepsRoot | src/core/HashService.ts:24 | For the binding of leaves 32-byte leaves are needed: moving a byte across a leaf boundary keeps the root. |
| Hex.HexRoundTrip | src/core/HashService.ts:6 | The lower-case hexadecimal text of bytes decodes to those bytes. |
| Hex.ToHexInjective | src/core/HashService.ts:28 | Different bytes print differently. |
| Hex.FromHex | exonum-logstore/backend/src/log_service/transactions.rs:69-75 | The strict decoder accepts a text exactly when it has even length and hexadecimal digits only. |
| ProtoWire.EncodeVarint | src/adapters/storage/ExonumAnchor.ts:14-19 | The loop prints the base-128 varint of any number. |
| ProtoWire.ReadVarintInverts | src/adapters/storage/ExonumAnchor.ts:14-19 | A varint followed by anything reads back as its number and what follows. |
| ProtoWire.VarintIsCanonical | src/adapters/storage/ExonumAnchor.ts:14-19 | No byte string that reads as the same number is shorter than the printed varint. |
| ProtoWire.VarintIsPrefixFree | src/adapters/storage/ExonumAnchor.ts:14-19 | No printed varint starts another one, so concatenations split in one way. |
| ProtoWire.PayloadRead | src/adapters/storage/ExonumAnchor.ts:21-26 | A printed field of either wire type reads back as its value, with the rest left over. |
| ProtoWire.DecodeInverts | exonum-logstore/frontend/proto/stubs.js:210-245 | The decode loop over printed fields recovers exactly the known ones; unknown numbers vanish and the last value of a number stands. |
| ProtoMessages.EncodeWriteLog | src/adapters/storage/ExonumAnchor.ts:29-42 | The pushes and the final concatenation print the seven fields in order, leaving out empty strings and zero. |
| ProtoMessages.EncodeWriteHash | src/adapters/storage/ExonumAnchor.ts:45-55 | The same for the four fields of a hash write. |
| ProtoMessages.EncodeWriteBatch | src/adapters/storage/ExonumAnchor.ts:58-77 | The same for the eleven fields of a batch write. |
| ProtoMessages.ReadWriteLogField | exonum-logstore/frontend/proto/stubs.js:212-240 | One turn of the switch reads the field by its number into its own place, or skips it by its wire type. |
| ProtoMessages.DecodeWriteLog | exonum-logstore/frontend/proto/stubs.js:206-245 | The imperative loop computes the reference decoding, failures included. |
| ProtoMessages.ReadWriteHashField | exonum-logstore/frontend/proto/stubs.js:908-925 | The switch of the hash message. |
| ProtoMessages.DecodeWriteHash | exonum-logstore/frontend/proto/stubs.js:902-930 | The loop of the hash message computes the reference decoding. |
| ProtoMessages.ReadWriteBatchField | exonum-logstore/frontend/proto/stubs.js:1583-1620 | The switch of the batch message. |
| ProtoMessages.DecodeWriteBatch | exonum-logstore/frontend/proto/stubs.js:1576-1625 | The loop of the batch message computes the reference decoding. |
| ProtoMessages.WriteLogRoundTrip | src/adapters/storage/ExonumAnchor.ts:29-42 | Decoding the printed message gives back every WriteLog whose integer and lengths fit their wire width. |
| ProtoMessages.WriteHashRoundTrip | src/adapters/storage/ExonumAnchor.ts:45-55 | Decoding the printed message gives back every WriteHash. |
| ProtoMessages.WriteBatchRoundTrip | src/adapters/storage/ExonumAnchor.ts:58-77 | Decoding the printed message gives back every WriteBatch. |
| ProtoMessages.WriteLogSkips | exonum-logstore/frontend/proto/stubs.js:206-245 | Fields of any number above seven, in any wire form, before and behind the message's own, do not change what is read. |
| ProtoMessages.WriteHashSkips | exonum-logstore/frontend/proto/stubs.js:902-930 | The same above four. |
| ProtoMessages.WriteBatchSkips | exonum-logstore/frontend/proto/stubs.js:1576-1625 | The same above eleven. |
| ProtoMessages.DefaultsLeftOut | src/adapters/storage/ExonumAnchor.ts:29-42 | No default value is sent in any of the three messages, but for an empty content hash. |
| ProtoMessages.EnvelopeRoundTrip | src/adapters/storage/ExonumAnchor.ts:79-94 | Opening the SignedMessage, CoreMessage and AnyTx nesting recovers instance, method, arguments, key and signature byte for byte, and the signature is the one over the payload that was sent. |
| ConnectionPool.PopUsable | exonum-logstore/backend/patches/actix-http/src/client/pool.rs:311-357 | Popping from the back keeps a prefix of the idle list and yields the last usable connection, every later one being stale. |
| ConnectionPool.HolderCounted | exonum-logstore/backend/patches/actix-http/src/client/pool.rs:231-242 | While a future holds a reservation the counter is positive, so its drop cannot underflow. |
| ConnectionPool.WithoutKeepsDistinct | exonum-logstore/backend/patches/actix-http/src/client/pool.rs:282-285 | Removing a waiter from the queue keeps its tokens distinct and leaves no trace of it. |
| ConnectionPool.RoundKeepsInv | exonum-logstore/backend/patches/actix-http/src/client/pool.rs:448-485 | One turn of the support loop finds its token's slot taken by a live sender and keeps the invariant. |
| ConnectionPool.SupportKeepsInv | exonum-logstore/backend/patches/actix-http/src/client/pool.rs:441-488 | The whole support loop ends, with the queue length as measure, without a panic and keeps the invariant. |
| ConnectionPool.OpenKeepsInv | exonum-logstore/backend/patches/actix-http/src/client/pool.rs:528-600 | A waiting open that ends, in success, failure or drop, keeps the invariant. |
| ConnectionPool.GiveUpKeepsInv | exonum-logstore/backend/patches/actix-http/src/client/pool.rs:194-205 | A waiter that is dropped frees its slot and queue entry and keeps the invariant. |
| ConnectionPool.CallKeepsInv | exonum-logstore/backend/patches/actix-http/src/client/pool.rs:100-161 | A call, whether it reuses, opens or queues, keeps the invariant. |
| ConnectionPool.StepKeepsInv | exonum-logstore/backend/patches/actix-http/src/client/pool.rs:110-161 | No enabled step of any interleaving panics, spins or underflows, and each keeps the invariant. |
| ConnectionPool.RunKeepsInv | exonum-logstore/backend/patches/actix-http/src/client/pool.rs:110-161 | The same over every sequence of steps. |
| ConnectionPool.EveryRun | exonum-logstore/backend/patches/actix-http/src/client/pool.rs:273-380 | In every run the counter equals the live holders plus the leaked reservations and stays within a positive limit; the slab slots are the listening waiters plus the stranded ones; the queue has no duplicate and is exactly the slots that hold Some. |
| ConnectionPool.StepLeaks | exonum-logstore/backend/patches/actix-http/src/client/pool.rs:110-161 | A step leaks a reservation exactly when a direct open fails or is cancelled before its guard exists, and strands a slot exactly when a served waiter takes what it was sent. |
| ConnectionPool.FilledByLeaks | exonum-logstore/backend/patches/actix-http/src/client/pool.rs:311-321 | Once leaked reservations fill the limit, no future of any further run holds a connection. |
| ConnectionPool.StoppedIff | exonum-logstore/backend/patches/actix-http/src/client/pool.rs:311-321 | No future holds a connection now or after any further run exactly when the limit is positive and leaked reservations fill it; before that, a call always gets through. |
| ConnectionPool.FailingCallsLeak | exonum-logstore/backend/patches/actix-http/src/client/pool.rs:110-161 | A run of n calls whose connectors fail ends with n reservations leaked and nothing else, for every n within the limit. |
| ConnectionPool.PoolCanFill | exonum-logstore/backend/patches/actix-http/src/client/pool.rs:110-161 | For every positive limit such a run reaches the filled state, and in every continuation no future holds a connection. |
| ConnectionPool.AcquireIff | exonum-logstore/backend/patches/actix-http/src/client/pool.rs:311-357 | An acquire is refused exactly at the limit; else it takes the last usable idle connection of its key, exactly when there is one, with those behind it dropped; other keys keep their lists. |
| ConnectionPool.CallServes | exonum-logstore/backend/patches/actix-http/src/client/pool.rs:100-161 | A call holds the last usable idle connection of its key, opens one exactly when there is room and none is usable, or waits at the end of the queue exactly at the limit; every other future stays. |
| ConnectionPool.RoundServes | exonum-logstore/backend/patches/actix-http/src/client/pool.rs:448-485 | A turn of the support loop stops exactly when nobody waits or the limit is reached; else the first waiter is given an idle connection exactly when its key has a usable one, and else one is opened for it. |
| ConnectionPool.PollServes | exonum-logstore/backend/patches/actix-http/src/client/pool.rs:441-488 | One poll goes on until nobody waits or the limit is reached, with one reservation for each waiter that leaves the queue; each of these was given a usable idle connection of its key, or one is being opened for it and its key has no idle one left. |
| ConnectionPool.FutureAfter | exonum-logstore/backend/patches/actix-http/src/client/pool.rs:110-161 | What becomes of a future in each event: an opened connection makes its owner a client of its key, after the handshake if there is one; a waiter becomes a client of what it was sent, or ends; a waiting open answers its receiver if that still listens; every other event ends its future. |
| ConnectionPool.PollKeeps | exonum-logstore/backend/patches/actix-http/src/client/pool.rs:441-488 | A poll leaves every future alone that does not wait in the queue. |
| ConnectionPool.LastJumpsQueue | exonum-logstore/backend/patches/actix-http/src/client/pool.rs:484 | With room for one, the last waiter of the queue takes the place of the first. |
| PoolExclusion.StepExcludes | exonum-logstore/backend/patches/actix-http/src/client/pool.rs:311-380 | Every step keeps connections exclusive: in hand at most once, never idle at the same time, under the authority they were opened for. |
| PoolExclusion.EveryRunExcludes | exonum-logstore/backend/patches/actix-http/src/client/pool.rs:311-380 | In every run no two clients use one connection, and each client's connection belongs to the authority it asked for and is not idle. |
| PoolExclusion.ClosedIsGone | exonum-logstore/backend/patches/actix-http/src/client/pool.rs:372-379 | A connection that its client closes or drops is never idle and never lent again, in any further run. |
| PoolExclusion.GivenBackIsReused | exonum-logstore/backend/patches/actix-http/src/client/pool.rs:359-370 | A connection that is given back goes to the next call for its key if it is still usable; there is always room for it. |
| PoolObjects.Inner.AcquireConnection | exonum-logstore/backend/patches/actix-http/src/client/pool.rs:311-357 | The in-place method checks the limit, reserves and pops as the transition function does. |
| PoolObjects.Inner.ReleaseReservation | exonum-logstore/backend/patches/actix-http/src/client/pool.rs:278-280 | The decrement, under the condition that it does not underflow. |
| PoolObjects.Inner.ReleaseConnection | exonum-logstore/backend/patches/actix-http/src/client/pool.rs:359-370 | Decrement and push to the authority's idle list. |
| PoolObjects.Inner.FreeWaiter | exonum-logstore/backend/patches/actix-http/src/client/pool.rs:282-285 | The slot is vacated and the queue entry removed. |
| PoolObjects.Inner.Register | exonum-logstore/backend/patches/actix-http/src/client/pool.rs:293-309 | The slot and the queue entry are added together. |
| PoolObjects.Support.Poll | exonum-logstore/backend/patches/actix-http/src/client/pool.rs:441-488 | The in-place loop reaches exactly the state of the transition function, with every unwrap on a taken slot, and ends with an empty queue or at the limit. |
| PoolObjects.Support.ServeFirst | exonum-logstore/backend/patches/actix-http/src/client/pool.rs:459-484 | One turn of the loop, in place, is one round of the transition function. |
| Json.StringifyIsPrefixFree | src/core/LogEntry.ts:58 | In a text that a value and a delimiter open, the value is determined. |
| Json.StringifyInjective | src/core/LogEntry.ts:58 | Different values have different texts. |
| CanonicalJson.AscendingIsUnique | src/core/LogEntry.ts:6 | A sorted key list is determined by its elements. |
| CanonicalJson.ArrayIndexIff | src/core/LogEntry.ts:6-9 | The keys that an object enumerates first are the numbers below 2^32 - 1 as they are written. |
| CanonicalJson.SortedKeysOrdered | src/core/LogEntry.ts:6-9 | The keys of a sorted object stand in one order in its text: array indexes by number, then the others as in a dictionary. |
| CanonicalJson.LessIff | src/core/LogEntry.ts:6 | The order of keys is that of a dictionary: the smaller character where two keys first differ, and a key before those that it starts. |
| CanonicalJson.SameSortsAlike | src/core/LogEntry.ts:3-12 | Values equal up to key order at every depth have one sorted form. |
| CanonicalJson.SortedAlikeIsSame | src/core/LogEntry.ts:3-12 | Values with one sorted form are equal up to key order, not looking at "__proto__" keys. |
| CanonicalJson.SortKeepsMeaning | src/core/LogEntry.ts:3-12 | Sorting keeps the meaning of a value at every depth. |
| CanonicalJson.SortIsIdempotent | src/core/LogEntry.ts:3-12 | Sorting twice is sorting once. |
| CanonicalJson.CanonicalTextIff | src/core/LogEntry.ts:57-66 | Two values are hashed alike exactly when they are equal up to key order. |
| CanonicalJson.ProtoIsNotHashed | src/core/LogEntry.ts:6-9 | An own "__proto__" key is lost in the sorted form, so adding one does not change the text. |
| LogEntries.HashableTextIff | src/core/LogEntry.ts:57-66 | Two entries have one hashable string exactly when id, time, level, source, message and metadata agree, the last up to key order. |
| LogEntries.LogHashBinds | src/core/HashService.ts:9-11 | Entries with one hash have the same content or their texts are an explicit collision. |
| LogEntries.LevelComesBackIff | src/infrastructure/database/PostgresAdapter.ts:14-19 | A level survives its number exactly when it is one of the five names in capitals. |
| LogEntries.LevelIgnoresCase | src/infrastructure/database/PostgresAdapter.ts:14-19 | Every spelling of one of the five names, in capital or small letters, has the number of that name. |
| LogEntries.VerifyAfterWrite | src/adapters/composite/HybridStorage.ts:200-225 | An entry written with its computed hash and read back with keys reordered verifies if its level is known, its id fills the column and its source loses no blanks, and, up to a collision, only then. |
| LogEntries.TamperingShows | src/adapters/composite/HybridStorage.ts:200-225 | A row changed under its stored hash verifies only if its content is the same or a collision is exhibited. |
| LogEntries.TamperedMessageShows | src/infrastructure/database/PostgresAdapter.ts:589-600 | The benchmark's message change never verifies, up to a collision. |
| Utf8.EncodeInjective | src/core/HashService.ts:6 | Different texts are hashed as different bytes. |
| Utf8.DecodeInverts | exonum-logstore/backend/patches/actix-http/src/cookie/parse.rs:82-83 | Decoding the UTF-8 bytes of a text gives the text. |
| Utf8.DecodedEncodes | exonum-logstore/backend/patches/actix-http/src/cookie/parse.rs:82-83 | Bytes that decode are the encoding of what they decode to. |
| Utf8.BoundaryIsChar | exonum-logstore/backend/patches/actix-http/src/cookie/mod.rs:113-122 | The places where a slice of a text does not panic are those where its characters begin, and its end. |
| Utf8.PartReads | exonum-logstore/backend/patches/actix-http/src/cookie/parse.rs:67-70 | A part of a text, found by the size of what stands before it and its own, is sliced back from the bytes. |
| Utf8.SliceIsText | exonum-logstore/backend/patches/actix-http/src/cookie/mod.rs:113-122 | Wherever it does not panic, a slice is the text between two characters. |
| HybridBatch.ComputeCounts | src/adapters/composite/HybridStorage.ts:118-122 | The loop counts each level name. |
| HybridBatch.CountsAddUpIff | src/adapters/composite/HybridStorage.ts:117-122 | The five counts add up to the number of entries exactly when every level is known. |
| HybridBatch.CountIsNumber | src/adapters/composite/HybridStorage.ts:117-122 | Each of the five counts is the number of entries whose level has that name in any case. |
| HybridBatch.SeveritiesAgreeIff | src/adapters/storage/ExonumAnchor.ts:180-187 | The anchor's severity and the storage's agree exactly when every level is known or a known one is INFO or above. |
| HybridBatch.HybridStorage.ComputeHashes | src/adapters/composite/HybridStorage.ts:105-107 | Each entry keeps its stored hash or gets its computed one. |
| HybridBatch.HybridStorage.InsertBatched | src/infrastructure/database/PostgresAdapter.ts:464-478 | A row is inserted exactly when the texts fit their columns, up to blanks that are cut off, and neither its id nor its hash is taken. |
| HybridBatch.HybridStorage.InsertAll | src/adapters/composite/HybridStorage.ts:110 | All inserts are attempted; the call succeeds when each did. |
| HybridBatch.HybridStorage.InsertBatchRecord | src/infrastructure/database/PostgresAdapter.ts:480-505 | A record is added under a new root and nothing happens under a known one. |
| HybridBatch.HybridStorage.LinkBatchLeaves | src/infrastructure/database/PostgresAdapter.ts:507-524 | The transaction links all leaves with their indexes or none. |
| HybridBatch.HybridStorage.UpdateBatchAnchorStatus | src/infrastructure/database/PostgresAdapter.ts:526-540 | Only the status of the one record changes. |
| HybridBatch.HybridStorage.WriteBatch | src/adapters/composite/HybridStorage.ts:97-196 | The method reaches the tables and the result of the value-level write, after success and after each outside failure. |
| HybridBatch.InsertedAll | src/adapters/composite/HybridStorage.ts:110 | If all inserts went through, every entry has its own row under distinct ids. |
| HybridBatch.InsertedKeeps | src/adapters/composite/HybridStorage.ts:110 | Inserting keeps the rows that were there and adds unlinked ones only. |
| HybridBatch.LinkedFacts | src/infrastructure/database/PostgresAdapter.ts:507-524 | After linking, the i-th id carries the root and index i, and nothing else has changed. |
| HybridBatch.OnlyKeysLinked | src/infrastructure/database/PostgresAdapter.ts:507-524 | A root that no row had is carried by the linked ids only. |
| HybridBatch.ListedInOrder | src/infrastructure/database/PostgresAdapter.ts:574-580 | Leaf order leaves no choice of listing. |
| HybridBatch.ListingIsBatch | src/infrastructure/database/PostgresAdapter.ts:574-580 | The rows listed by a fresh root are exactly the batch in order with leaf indexes 0 to n - 1. |
| HybridBatch.RecomputedRoot | src/api/server.ts:371-376 | The root recomputed from the listed rows is the root computed from the entries. |
| HybridBatch.WrittenBatchVerifiesIff | src/api/server.ts:371-376 | A batch written under a fresh root verifies exactly when it has two entries or more or its one hash decodes to 32 bytes. |
| HybridBatch.CallKeepsLeaves | src/adapters/composite/HybridStorage.ts:97-141 | A write under another root, or one that fails before it links, keeps the rows of a root. |
| HybridBatch.EarlierBatchVerifiesIff | src/api/server.ts:371-376 | After any sequence of further writes of which none links under its root, a batch linked under a fresh root is still listed and verifies under the same condition. |
| HybridBatch.StatusLostIff | src/adapters/composite/HybridStorage.ts:140-173 | A write that is not confirmed at once takes a confirmed status back exactly when its inserts, record, links and last update go through and it comes under the same root. |
| HybridBatch.RecordTells | src/adapters/composite/HybridStorage.ts:112-173 | The record of a batch under a new root holds the root, the first and last id, the number of entries and of each level, the greatest severity, and a status that is confirmed, pending or failed as the anchor answered. |
| HybridBatch.ResultTells | src/adapters/composite/HybridStorage.ts:173-193 | The caller is told the root, the first and last id, the count and the anchor's answer exactly when inserts, record, links, anchor and last update went through, and else a failure with the count. |
| HybridBatch.SameLeafTakesStatusBack | src/adapters/composite/HybridStorage.ts:97-173 | Two batches of one entry with different ids and stored hashes equal as bytes but not as text are both admitted, have one root, and the second takes the status back. |
| HybridBatch.HexCaseTakesStatusBack | src/infrastructure/database/PostgresAdapter.ts:480-505 | A concrete pair of that kind: one hash in lower and in upper case. |
| HybridBatch.SharedRootVerifiesIff | src/api/server.ts:371-376 | Two batches of any length with the same 32-byte leaves, linked with anything else between and after: the root they share verifies exactly when every leaf is the digest of itself twice, up to an explicit collision. |
| HybridBatch.TwinsRun | src/infrastructure/database/PostgresAdapter.ts:480-505 | Such a pair of batches exists: two entries with one 32-byte stored hash in two spellings, written one after the other into empty tables. |
| HybridBatch.InPairs | src/infrastructure/database/PostgresAdapter.ts:574-580 | In a listing of two such batches each leaf index stands twice in a row, whatever the order of the two. |
| HybridBatch.DoubledRoot | src/core/HashService.ts:19-27 | The root of a row in which each leaf stands twice is the root of the digests of each leaf with itself. |
| HybridBatch.LinkAdds | src/adapters/composite/HybridStorage.ts:97-141 | A call that links adds exactly its own rows to those that carry its root. |
| HybridBatch.BatchRootBinds | src/core/HashService.ts:13-29 | Equally long batches without supplied hashes that have one root hold the same content entry by entry, or exhibit a collision of nodes or of texts. |
| TransferEncoding.Encoder.EncodeMessage | exonum-logstore/backend/patches/actix-http/src/h1/encoder.rs:412-453 | The method appends what the framing function says and keeps the encoder's state in step. |
| TransferEncoding.Encoder.EncodeEnd | exonum-logstore/backend/patches/actix-http/src/h1/encoder.rs:457-474 | The end of the body: terminator, error for a short body, or nothing. |
| TransferEncoding.ChunkedFraming | exonum-logstore/backend/patches/actix-http/src/h1/encoder.rs:412-474 | For any messages, the chunk decoder of section 4.1 of RFC 7230 recovers their concatenation up to the first empty one and stops exactly at what follows: one terminator, written last. |
| TransferEncoding.ClosedWritesNothing | exonum-logstore/backend/patches/actix-http/src/h1/encoder.rs:419-422 | After the terminator nothing more is written. |
| TransferEncoding.LengthFraming | exonum-logstore/backend/patches/actix-http/src/h1/encoder.rs:437-466 | With a length N the output is the first N bytes offered, and the end succeeds exactly when N were offered. |
| TransferEncoding.EofFraming | exonum-logstore/backend/patches/actix-http/src/h1/encoder.rs:414-418 | Without framing the body goes out as offered. |
| TransferEncoding.AnswerIff | exonum-logstore/backend/patches/actix-http/src/h1/encoder.rs:412-453 | The answer of a framed encoder is true exactly when the end of the body is accepted with nothing more to write, and then everything that is offered later is dropped; unframed it says that the message was empty. |
| DecimalPrinter.LutSpells | exonum-logstore/backend/patches/actix-http/src/helpers.rs:8-12 | Entry k of the table is the two decimal digits of k, for all hundred entries. |
| DecimalPrinter.DecimalIsCanonical | exonum-logstore/backend/patches/actix-http/src/helpers.rs:116-171 | The reference text spells the number in digits without a leading zero. |
| DecimalPrinter.TwentyDigits | exonum-logstore/backend/patches/actix-http/src/helpers.rs:117-118 | A number below 2^64 has at most twenty digits. |
| DecimalPrinter.PrintFour | exonum-logstore/backend/patches/actix-http/src/helpers.rs:126-135 | Four digits at a time in front of what is there. |
| DecimalPrinter.PrintLast | exonum-logstore/backend/patches/actix-http/src/helpers.rs:141-163 | The last one to four digits, with the cursor inside the buffer. |
| DecimalPrinter.ConvertUsize | exonum-logstore/backend/patches/actix-http/src/helpers.rs:116-171 | For every number below 2^64 the canonical decimal and CR LF are appended and the cursor never leaves the 41-byte buffer. |
| DecimalPrinter.WriteContentLength | exonum-logstore/backend/patches/actix-http/src/helpers.rs:68-114 | The three short paths and the general one append the same header text. |
| DecimalPrinter.WriteStatusLine | exonum-logstore/backend/patches/actix-http/src/helpers.rs:16-65 | The version text that the match leaves and the exact three digits of 100 to 999. |
| DecimalPrinter.VersionIsRightIff | exonum-logstore/backend/patches/actix-http/src/helpers.rs:20-28 | The version text is the one that request lines spell exactly up to HTTP/1.1; HTTP/3 is printed like HTTP/1.1. |
| HeaderWriter.WriteCamelCase | exonum-logstore/backend/patches/actix-http/src/h1/encoder.rs:494-520 | The in-place writer leaves the camel-case text at the start of its region and touches nothing else. |
| HeaderWriter.CamelCaseIff | exonum-logstore/backend/patches/actix-http/src/h1/encoder.rs:494-520 | The region is filled with the intended name exactly when every segment starts with a lower-case letter. |
| HeaderWriter.Destination.CommitAndReserve | exonum-logstore/backend/patches/actix-http/src/h1/encoder.rs:161-170 | Committing the cursor and reserving keeps the written bytes, whatever capacity is granted. |
| HeaderWriter.Destination.WriteData | exonum-logstore/backend/patches/actix-http/src/h1/encoder.rs:490-492 | A copy at the cursor: position plus remaining stays the unused capacity. |
| HeaderWriter.Destination.WriteLine | exonum-logstore/backend/patches/actix-http/src/h1/encoder.rs:155-187 | One header line, after growing when it does not fit; no write passes the capacity. |
| HeaderWriter.Destination.WriteHeaders | exonum-logstore/backend/patches/actix-http/src/h1/encoder.rs:140-226 | The loop appends exactly the lines of the kept headers in order and finds a Date header. |
| HeaderWriter.Destination.EncodeHeaders | exonum-logstore/backend/patches/actix-http/src/h1/encoder.rs:52-237 | The whole head is the plain concatenation of framing, connection and kept header lines, for names the chosen spelling can print; HeadReader.HeadReads says what is read off it. |
| HeadReader.HeadReads | exonum-logstore/backend/patches/actix-http/src/h1/encoder.rs:52-237 | A reader of lines, field names and values recovers from the bytes of a head the status line, every field in order, and the clock's date behind them exactly when the message has no date of its own, and stops where the body begins. |
| HeadReader.LinesRead | exonum-logstore/backend/patches/actix-http/src/h1/encoder.rs:155-227 | Written lines, with names in either spelling, read back as their fields up to the empty line. |
| HeaderWriter.HeaderFieldsCarry | exonum-logstore/backend/patches/actix-http/src/h1/encoder.rs:146-154 | A name is written exactly when it is not skipped and has a value. |
| HeaderWriter.ExtraOverrides | exonum-logstore/backend/patches/actix-http/src/h1/encoder.rs:131-138 | A name among the extra headers is written with the extra values only. |
| HeaderWriter.FramingCarries | exonum-logstore/backend/patches/actix-http/src/h1/encoder.rs:61-108 | Which framing header the encoder itself writes. |
| HeaderWriter.BothFramingsIff | exonum-logstore/backend/patches/actix-http/src/h1/encoder.rs:52-101 | The exact condition under which a head carries both framing headers, which section 3.3.2 of RFC 7230 forbids. |
| MessageEncoder.MessageWriter.Encode | exonum-logstore/backend/patches/actix-http/src/h1/encoder.rs:326-358 | The call sets the body encoding and writes status line and head. |
| MessageEncoder.InSyncIff | exonum-logstore/backend/patches/actix-http/src/h1/encoder.rs:337-357 | From the bytes of the head a recipient reads the same fields whatever follows; and reading the body by them, by sections 3.3.3 and 6.3 of RFC 7230, it gets every body as it was given and finds the next message behind it, if the head lets one follow, exactly under a condition on status, length, chunking, version, connection type and the caller's framing headers. |
| MessageEncoder.PlainInSyncIff | exonum-logstore/backend/patches/actix-http/src/h1/encoder.rs:337-357 | For a caller without framing headers the condition is that a response without a body is given none, that a chunked head is not followed by a raw stream nor an upgrade by chunks, that a streamed request is chunked, and that a response read to its end is the last on its connection. |
| MessageEncoder.BodyFramingIs | exonum-logstore/backend/patches/actix-http/src/h1/encoder.rs:77-108 | What a recipient makes of the head of a message that may have a body: the announced length; for a stream the codings, its own and the caller's, before the caller's content-length; else the end of a response, or no body of a request. |
| MessageEncoder.StreamInSyncIff | exonum-logstore/backend/patches/actix-http/src/h1/encoder.rs:343-349 | A stream is understood exactly when it is chunked and the caller's codings leave that coding last, or when it is raw, the last thing on the connection of a response, and nothing of the head delimits it. |
| MessageEncoder.HeadFraming | exonum-logstore/backend/patches/actix-http/src/h1/encoder.rs:77-154 | The codings and lengths in a head are the encoder's own followed by all the caller's values, unless these are skipped. |
| MessageEncoder.HeadSaysLast | exonum-logstore/backend/patches/actix-http/src/h1/encoder.rs:110-128 | The head ends the connection exactly for an upgrade by status, a close from HTTP/1.1 on, and anything but keep-alive before; the caller's connection headers have no say. |
| MessageEncoder.KeptValues | exonum-logstore/backend/patches/actix-http/src/h1/encoder.rs:145-154 | Of every name the head carries all the caller's values in order, or none when the name is skipped. |
| MessageEncoder.RawLengthIff | exonum-logstore/backend/patches/actix-http/src/h1/encoder.rs:346-348 | A raw stream behind a content-length is understood exactly when it has that length. |
| MessageEncoder.UnframedStreams | exonum-logstore/backend/patches/actix-http/src/h1/encoder.rs:85-88 | Two calls on a connection that stays open: with a caller's content-length of zero the body is out of sync even if the connection closes, and without headers only if it stays open. |
| MessageEncoder.LengthInSync | exonum-logstore/backend/patches/actix-http/src/h1/encoder.rs:341-342 | A body of announced length is read as given, whatever the messages and what follows. |
| Ledger.Service.Store | exonum-logstore/backend/src/log_service/schema.rs:41-69 | The in-place store appends to the history and order and puts the record, as the transition function says. |
| Ledger.Service.WriteCall | exonum-logstore/backend/src/log_service/transactions.rs:55-66 | The call stores or rejects, with the error of the branch taken. |
| Ledger.EveryRun | exonum-logstore/backend/src/log_service/schema.rs:41-69 | After every sequence of transactions: order duplicate-free and exactly the map's keys, as long as all histories together, and each record located in a history. |
| Ledger.LocatedWithSubmitter | exonum-logstore/backend/src/log_service/schema.rs:52-66 | After an accepted write and any further transactions, the record's length and hash locate that very transaction in the history of its submitter. |
| Ledger.EveryRecordHasItsTx | exonum-logstore/backend/src/log_service/schema.rs:41-69 | In every run each record was written by one of its accepted transactions and is located in that submitter's history. |
| Ledger.FirstWriteWinsIff | exonum-logstore/backend/src/log_service/transactions.rs:55-66 | Over every run a call is accepted exactly when it comes from a transaction, names a digest, and no earlier call did so for the same digest. |
| Ledger.RunKeepsRecords | exonum-logstore/backend/src/log_service/schema.rs:41-69 | Stored records never change, and order and histories only grow. |
| Ledger.AcceptedIff | exonum-logstore/backend/src/log_service/transactions.rs:55-75 | A write is accepted exactly when it comes from a transaction, names 64 hexadecimal digits and the hash is new; a rejected one changes nothing. |
| Ledger.RejectedIff | exonum-logstore/backend/src/log_service/transactions.rs:55-80 | Each of the three errors is returned exactly in its case: no transaction hash, then a content hash that is not 64 hexadecimal digits, then a record that is there already. |
| Ledger.PageIsStretch | exonum-logstore/backend/src/log_service/api.rs:60-71 | A page is a stretch of the newest-first list, of the saturating size; no lookup drops a record. |
| Ledger.PagesCoverIff | exonum-logstore/backend/src/log_service/api.rs:60-71 | Pages at offsets 0, limit, 2 limit, ... concatenate to the whole list exactly when the limit is not clamped or one page holds all. |
| CookieJar.Cookies.Lookup | exonum-logstore/backend/patches/actix-http/src/cookie/jar.rs:118-123 | The method finds what the two-map view shows under a name. |
| CookieJar.Cookies.InsertOriginal | exonum-logstore/backend/patches/actix-http/src/cookie/jar.rs:150-152 | An original is stored under its name; the changes stay. |
| CookieJar.Cookies.Insert | exonum-logstore/backend/patches/actix-http/src/cookie/jar.rs:171-173 | A change is stored under its name; the originals stay. |
| CookieJar.Cookies.RemoveCookie | exonum-logstore/backend/patches/actix-http/src/cookie/jar.rs:220-229 | A removal cookie for a current original, else the change is dropped. |
| CookieJar.Cookies.ForceRemoveCookie | exonum-logstore/backend/patches/actix-http/src/cookie/jar.rs:262-265 | Both sets forget the name. |
| CookieJar.Cookies.Clear | exonum-logstore/backend/patches/actix-http/src/cookie/jar.rs:274-279 | The jar ends up empty, its delta too. |
| CookieJar.RunKeepsValid | exonum-logstore/backend/patches/actix-http/src/cookie/jar.rs:220-279 | After every sequence of operations cookies stand under their names and each removal entry names a current original. |
| CookieJar.GetAfter | exonum-logstore/backend/patches/actix-http/src/cookie/jar.rs:118-279 | What a lookup gives after each operation: the added cookie, an original only where no change hides it, nothing after a removal, and under other names what it gave before. |
| CookieJar.DeltaAfter | exonum-logstore/backend/patches/actix-http/src/cookie/jar.rs:171-279 | What is sent after each operation: the added cookie, or for a removed original a cookie with an empty value, no age and an expiry in the past under the given path and domain; other names keep theirs. |
| CookieJar.IterIsGet | exonum-logstore/backend/patches/actix-http/src/cookie/jar.rs:342-349 | In whatever order the sets are walked, the iteration yields each name at most once and exactly the cookies that lookups return. |
| CookieJar.DeltaTakesEffectIff | exonum-logstore/backend/patches/actix-http/src/cookie/jar.rs:306-308 | A client with any store, keyed by name, domain and path, that applies the delta in any order has under a name what the jar shows exactly when a change of the name is not visible and expired at once and reaches its one cookie of that name, or, without a change, when it had that already. |
| CookieJar.OriginalsTakeEffectIff | exonum-logstore/backend/patches/actix-http/src/cookie/jar.rs:203-229 | For a client that holds the jar's originals: exactly when a change is not visible and expired at once and has the path and domain of the original. |
| CookieJar.OriginalIs | exonum-logstore/backend/patches/actix-http/src/cookie/jar.rs:150-152 | Over every sequence of operations the originals are those sent last and not dropped since. |
| CookieJar.ClientAgreesIff | exonum-logstore/backend/patches/actix-http/src/cookie/jar.rs:150-308 | Over every sequence of operations, for a client that held what it sent: the exact condition, on the operations, under which it ends with what the jar shows under a name. |
| CookieJar.ClearReachesClientIff | exonum-logstore/backend/patches/actix-http/src/cookie/jar.rs:274-279 | After clearing, client and jar agree on a name exactly when the client never sent it. |
| CookieJar.ForceRemoveReachesClientIff | exonum-logstore/backend/patches/actix-http/src/cookie/jar.rs:262-265 | After a forced removal they agree on the name exactly when the client never sent it. |
| CookieJar.RemoveReachesClientIff | exonum-logstore/backend/patches/actix-http/src/cookie/jar.rs:175-229 | After the removal of an original the client has nothing under the name exactly when the removal has the path and domain of each original of the name. |
| PercentCoding.RoundTripIff | exonum-logstore/backend/patches/actix-http/src/cookie/mod.rs:77-95 | Percent decoding undoes percent encoding exactly for bytes in which no percent sign is followed by two hexadecimal digits. |
| CookieText.PctRoundTripIff | exonum-logstore/backend/patches/actix-http/src/cookie/parse.rs:78-88 | The same for names and values as text. |
| CookieText.AttachedReads | exonum-logstore/backend/patches/actix-http/src/cookie/parse.rs:132-136 | Splitting at semicolons recovers the pair and each printed attribute. |
| CookieText.AttributesApply | exonum-logstore/backend/patches/actix-http/src/cookie/mod.rs:739-771 | Reading the printed parameters back sets each field to its normal form. |
| CookieText.DisplayParses | exonum-logstore/backend/patches/actix-http/src/cookie/mod.rs:923-933 | Parsing the encoded display of any cookie whose path and domain have no semicolon gives the normal form of the cookie, or the exact error. |
| CookieText.CookieRoundTripIff | exonum-logstore/backend/patches/actix-http/src/cookie/mod.rs:923-933 | The same cookie comes back exactly when its name is not empty, name and value hold no percent triplet, path and domain no semicolon, and every attribute is in normal form. |
| CookieText.ParsesIff | exonum-logstore/backend/patches/actix-http/src/cookie/parse.rs:89-131 | For every text with an equals sign before the first semicolon, in both modes: the name and value are what stands around the first equals sign, trimmed, and decoded in the one mode; an empty name and, where it decodes, text that is not UTF-8 fail with their errors. |
| CookieText.NoPair | exonum-logstore/backend/patches/actix-http/src/cookie/parse.rs:96-99 | Every text without one fails as a missing pair. |
| CookieText.PlainRoundTripIff | exonum-logstore/backend/patches/actix-http/src/cookie/mod.rs:935-953 | The plain display comes back without decoding exactly when the name is not empty and holds no equals sign or semicolon, the value no semicolon, neither white space at its ends, and path, domain and attributes are as above. |
| CookieText.MaxAgeReads | exonum-logstore/backend/patches/actix-http/src/cookie/parse.rs:141-154 | Any integer as an age: ignored beyond 64 bits, zero when not positive, and at most the longest duration. |
| CookieParse.IndexesOf | exonum-logstore/backend/patches/actix-http/src/cookie/parse.rs:56-71 | For a part of the base string the byte offsets are in bounds, on character boundaries, and select that part. |
| CookieParse.TrimWithin | exonum-logstore/backend/patches/actix-http/src/cookie/parse.rs:97-100 | A trimmed slice is still a part of the input. |
| CookieParse.SplitWithin | exonum-logstore/backend/patches/actix-http/src/cookie/parse.rs:90-100 | Both sides of a split are still parts of the input. |
| CookieParse.Cookie.ApplyAttribute | exonum-logstore/backend/patches/actix-http/src/cookie/parse.rs:132-138 | One attribute, stored as index pairs, reads back as the value-level rule says, and every pair stays in bounds. |
| CookieParse.Cookie.StorePair | exonum-logstore/backend/patches/actix-http/src/cookie/parse.rs:138-201 | The match on the attribute's name, arm by arm. |
| CookieParse.Cookie.Name | exonum-logstore/backend/patches/actix-http/src/cookie/mod.rs:358-360 | The accessor reads within bounds and gives the field. |
| CookieParse.Cookie.Value | exonum-logstore/backend/patches/actix-http/src/cookie/mod.rs:373-375 | The accessor reads within bounds and gives the field. |
| CookieParse.Cookie.Path | exonum-logstore/backend/patches/actix-http/src/cookie/mod.rs:506-511 | The accessor reads within bounds and gives the field. |
| CookieParse.Cookie.Domain | exonum-logstore/backend/patches/actix-http/src/cookie/mod.rs:527-532 | The accessor reads within bounds and gives the field. |
| CookieParse.ParsePair | exonum-logstore/backend/patches/actix-http/src/cookie/parse.rs:91-117 | Name and value before the first semicolon, as index pairs or decoded, with the three errors. |
| CookieParse.ParseInner | exonum-logstore/backend/patches/actix-http/src/cookie/parse.rs:89-204 | The loop over attributes computes the specified parse; without decoding, name and value are index pairs in bounds. |
| CookieParse.ParseCookie | exonum-logstore/backend/patches/actix-http/src/cookie/parse.rs:206-214 | A parsed cookie holds its input, so no accessor of it panics and each gives the specified field. |
| BatchWriter.StepKeepsInv | src/modes/BatchWriter.ts:27-83 | Every event keeps: buffer non-empty exactly when the timer is set, below capacity, order of writes, and each promise settled as its own flush says. |
| BatchWriter.EveryRun | src/modes/BatchWriter.ts:27-83 | After every run the flushed batches followed by the buffer are the writes in order, no batch is empty or above capacity, and the rest of the invariant holds; a non-positive size acts as one. |
| BatchWriter.SettlesOnce | src/modes/BatchWriter.ts:52-72 | No event changes a settled promise. |
| BatchWriter.SettlesWithItsFlush | src/modes/BatchWriter.ts:48-72 | A promise settles exactly in the event that ends the storage call of its own flush, with that call's verdict on its own entry. |
| BatchWriter.EndSettles | src/modes/BatchWriter.ts:48-74 | When a storage call ends, every promise of its flush is settled: after a batch with the own id of its entry and the success, transaction, confirmation and error of the one result, else the j-th with the j-th result, or all with the error. |
| BatchWriter.EndLeavesOthers | src/modes/BatchWriter.ts:48-74 | No promise of another flush changes. |
| BatchWriter.PromiseTells | src/modes/BatchWriter.ts:27-74 | In every run the promise of a flushed entry belongs to the write that brought the entry, and says what the storage call of its flush came to, or nothing before that. |
| BatchWriter.OutcomeStays | src/modes/BatchWriter.ts:47-74 | What a storage call came to is what it ended with, and stays. |
| BatchWriter.FlushEnds | src/modes/BatchWriter.ts:62-75 | A flush fails when storage or callback throws, waits for a callback after a batch alone, and returns else. |
| BatchWriter.FlushTakesAll | src/modes/BatchWriter.ts:38-45 | A call to flush and the timer leave the buffer empty, the timer off, and every write so far in a batch. |
| BatchWriter.FullBatches | src/modes/BatchWriter.ts:29-35 | In a run without them every batch has exactly the capacity. |
| BatchWriter.CallbackChangesNoPromise | src/modes/BatchWriter.ts:62-72 | A failing callback rejects nothing: all promises of its flush are settled. |
| BatchWriter.QuietIsSettled | src/modes/BatchWriter.ts:27-83 | With the timer off and no storage call outstanding every write has settled. |
| BatchWriter.Writer.Write | src/modes/BatchWriter.ts:27-36 | The method pushes, then flushes at capacity or sets the timer, and returns a new unsettled promise. |
| BatchWriter.Writer.Flush | src/modes/BatchWriter.ts:38-45 | The part before the first await: timer off, buffer taken as one batch. |
| BatchWriter.Writer.OnTimer | src/modes/BatchWriter.ts:79-82 | The timer's flush. |
| BatchWriter.Writer.SettleBatch | src/modes/BatchWriter.ts:52-61 | The loop settles the batch in order and leaves settled promises alone. |
| BatchWriter.Writer.OnStorageEnd | src/modes/BatchWriter.ts:48-75 | The part after the storage call, for results, results per entry, and errors. |
| BatchWriter.Writer.OnCallbackEnd | src/modes/BatchWriter.ts:62-75 | The part after the callback. |
| QueueProtocol.StepKeepsInv | src/queue/subscriber.ts:63-229 | Every step of every interleaving of handlers keeps the invariants of hand-over, answers, replies, their meaning, and evidence. |
| QueueProtocol.EveryRun | src/queue/subscriber.ts:63-229 | They hold in every reachable state. |
| QueueProtocol.OneReplyEach | src/queue/subscriber.ts:118-140 | When all is worked off, each submission that wants a reply has had exactly one attempt across both handlers, and the others none. |
| QueueProtocol.StatusHasEvidence | src/queue/subscriber.ts:165-202 | A row is confirmed only after a check confirmed it, and failed only after the chain refused it or a check found it failed. |
| QueueProtocol.InsertWrites | src/adapters/composite/HybridStorage.ts:66-142 | An insert adds its row as pending and goes on to the chain; a taken key ends the write, but for the record of a Postgres batch, which stays; failing links end it behind the insert. |
| QueueProtocol.AnswerLeads | src/queue/subscriber.ts:63-97 | The chain's answer is the result of a chain write, and of every other write the status still to be recorded. |
| QueueProtocol.UpdateWrites | src/adapters/composite/HybridStorage.ts:78-89 | In every run the last update leaves the row of its write confirmed exactly when the chain confirmed, failed exactly when it refused, pending else, and other rows as they are; a single entry reports success even if the chain refused. |
| QueueProtocol.UpdateFails | src/adapters/composite/HybridStorage.ts:81-92 | An update that fails, or has no column, changes no row and ends the write without a result. |
| QueueProtocol.FinishHandsOver | src/queue/subscriber.ts:97-128 | In every run a submit handler hands over exactly what the chain accepted, with its transaction hash and its own row but for stray entries; everything else it replies itself. |
| QueueProtocol.CheckCounts | src/queue/subscriber.ts:158-168 | A check keeps the answer and ends the polling exactly when it is decisive or the sixtieth. |
| QueueProtocol.RecordWrites | src/queue/subscriber.ts:178-202 | In every run the update of a confirmation leaves the row it names confirmed exactly when the last check did, failed exactly when that found it neither confirmed nor pending, pending else, and other rows as they are; only the row that a stray entry names can be missing. |
| QueueProtocol.StepKeepsConfirmed | src/adapters/composite/HybridStorage.ts:78-81 | No step takes a confirmed row back unless it disturbs the row. |
| QueueProtocol.ConfirmedStays | src/queue/subscriber.ts:178-202 | Over whole runs: once confirmed, always confirmed, while no write disturbs the row. |
| QueueProtocol.AnchoredStaysConfirmed | src/queue/subscriber.ts:192-201 | In every run a confirmed row of an anchored table stays confirmed. |
| QueueProtocol.LostIff | src/queue/subscriber.ts:178-202 | In every run a confirmed row is lost exactly in the last update of a write to it and in a recorded check that does not confirm, and only after a write that disturbed it. |
| QueueProtocol.DisturbedIsLost | src/adapters/composite/HybridStorage.ts:140-173 | Conversely a batch written through under a root of the table leaves the row unconfirmed, whatever happens in between. |
| QueueProtocol.StrayIsLost | src/queue/subscriber.ts:178-191 | And so does a single entry in Mongo under the root of a batch, once a check that does not confirm it is recorded. |
| QueueProtocol.StrayRun | src/queue/subscriber.ts:178-213 | A concrete run in Mongo: such an entry is handed over and takes a confirmed batch to failed when its own transaction fails; when it is confirmed it is told a success, and in both cases its own row stays pending. |
| QueueProtocol.SuccessMeansConfirmed | src/queue/subscriber.ts:178-213 | A success reply of a hybrid strategy's confirm handler means that the row is confirmed, then and ever after, while no write disturbs it. |
| QueueProtocol.ConfirmedCanBeLost | src/adapters/composite/HybridStorage.ts:140-173 | A concrete run in Postgres in which a second batch under one root takes a confirmed row back to pending. |
| QueueProtocol.FalseSuccessIff | src/queue/subscriber.ts:118-140 | In every reachable state a success reply stands for a write that was not confirmed exactly when that write failed without an exception; a refusal by the chain is always such a failure. |
| QueueProtocol.DirectSuccessIff | src/queue/subscriber.ts:97-128 | At the end of every submit handler of a run that wants a reply, it replies a success exactly when the storage failed or the chain refused. |
| QueueProtocol.PostgresStrayFails | src/adapters/composite/HybridStorage.ts:66-92 | In every run a single entry sent to a batched Postgres storage is never handed over, its write fails, and its reply is a success unless the handler threw. |
| QueueProtocol.BatchedRowsNeverConfirmed | src/queue/subscriber.ts:181-201 | In no run is a row of a batched table confirmed. |
| QueueProtocol.ConfirmReplyIff | src/queue/subscriber.ts:152-229 | In every reachable state each closed confirmation that wants a reply has had exactly one, a success exactly when the chain confirmed and, for a hybrid row, the update went through. |
| QueueProtocol.PollTx | src/queue/subscriber.ts:158-168 | At least one and at most sixty checks; it stops at the first decisive answer and otherwise after sixty. |
| QueueProtocol.Subscriber.EndSubmit | src/queue/subscriber.ts:99-140 | The end of the submit handler: hand over or reply. |
| QueueProtocol.Subscriber.UpdateStatus | src/adapters/composite/HybridStorage.ts:78-89 | The storage's last update of the row and its result. |
| QueueProtocol.Subscriber.CheckOnce | src/queue/subscriber.ts:164-168 | One round of the confirm handler's loop. |
| QueueProtocol.Subscriber.EndConfirm | src/queue/subscriber.ts:169-226 | Update of the row of a hybrid strategy, then the reply, or the error reply. |
| QueueProtocol.Subscriber.ReplyResult | src/queue/subscriber.ts:29-39 | One reply attempt, if one is wanted. |
| Benchmark.Semaphore.Acquire | src/bench/engine.ts:410-416 | A slot at once or a place at the end of the queue. |
| Benchmark.Semaphore.Release | src/bench/engine.ts:418-425 | The slot goes to the first waiter, or back. |
| Benchmark.FifoHandOn | src/bench/engine.ts:418-425 | Slots are granted in the order of asking. |
| Benchmark.StepKeepsInv | src/bench/engine.ts:404-426 | Every acquire or release keeps: current equals the holders, within the maximum; a waiter only while all slots are held; grants in order of asking; counts equal to the ended tasks. |
| Benchmark.EveryRun | src/bench/engine.ts:404-426 | The same over all interleavings, for any maximum. |
| Benchmark.WaitersHaveHolders | src/bench/engine.ts:404-426 | With a slot at all, a waiting task always has a holder to wait for. |
| Benchmark.WrittenAddsUpIff | src/bench/engine.ts:197-234 | When all tasks are done, successes plus failures equal the writes exactly when the run was not rejected. |
| Benchmark.CountReplies | src/bench/engine.ts:166-172 | Successes plus failures equal the writes whatever was collected; the failures go below zero exactly when more successes came back than logs went out. |
| Benchmark.TallyAddsUpIff | src/bench/engine.ts:181-192 | The handlers' counts add up to the writes exactly when every promise has settled. |
| Benchmark.TallyIs | src/bench/engine.ts:181-192 | The successes are exactly the promises that resolved with one; the failures those that resolved without or were rejected. |
| Benchmark.BatchedAddsUp | src/bench/engine.ts:174-195 | For every quiet run of the batch writer the counts add up to the writes. |
| Benchmark.PickRandom | src/bench/engine.ts:28-35 | The in-place shuffle; the sample is the start of a rearrangement, of the asked size or the whole. |
| Benchmark.ShufflePermutes | src/bench/engine.ts:30-33 | Shuffling keeps the multiset of logs. |
| Benchmark.ShuffleReaches | src/bench/engine.ts:30-33 | Every arrangement is the result of some choices. |
| CookieParse.Cookie.SetName | exonum-logstore/backend/patches/actix-http/src/cookie/mod.rs:567-569 | The setter replaces its one field, whatever it was derived from, and every accessor stays within bounds. |
| CookieParse.Cookie.SetPath | exonum-logstore/backend/patches/actix-http/src/cookie/mod.rs:674-676 | The setter replaces its one field, whatever it was derived from, and every accessor stays within bounds. |
| CookieParse.Cookie.SetDomain | exonum-logstore/backend/patches/actix-http/src/cookie/mod.rs:691-693 | The setter replaces its one field, whatever it was derived from, and every accessor stays within bounds. |
| ProtoWire.ReadUint64Inverts | exonum-logstore/frontend/proto/stubs.js:226-227 | Any number below 2^64 reads back from its varint. |
| QueueProtocol.Subscriber.CatchError | src/queue/subscriber.ts:129-140 | The catch branch: a failure reply, if one is wanted. |
| QueueProtocol.Subscriber.InsertPending | src/adapters/composite/HybridStorage.ts:72-141 | The row appears as pending; a key that is taken fails the write, but for a batch root in Postgres, whose record is kept. |
| CookieParse.Cookie.FmtParameters | exonum-logstore/backend/patches/actix-http/src/cookie/mod.rs:739-771 | The writes to the formatter append exactly the printed attributes in their order. |
| CookieParse.Cookie.FmtEncoded | exonum-logstore/backend/patches/actix-http/src/cookie/mod.rs:923-933 | The encoded display that the round trip is about. |
| CookieParse.Cookie.FmtPlain | exonum-logstore/backend/patches/actix-http/src/cookie/mod.rs:949-952 | The plain display that its round trip is about. |
| CookieText.ParsedIsUnsplit | exonum-logstore/backend/patches/actix-http/src/cookie/parse.rs:90-165 | A parsed path or domain never holds a semicolon, in either mode. |

## Left out

- SHA-256, Ed25519 and the ledger's list hash are parameters; signatures are a function of the bytes signed.
- protobufjs: the reader primitives are written from the Protocol Buffers encoding specification, on whole buffers (the optional `length` argument of `decode` is not modelled) and with strings as their UTF-8 bytes.
- JSON: strings are sequences of Unicode scalar values, ordered by them, and not of UTF-16 units; number tokens are opaque; values that are not JSON (dates, undefined, `toJSON`) do not occur in metadata.
- `toUpperCase` and lower-casing are modelled on ASCII letters.
- PostgreSQL: column widths, padding and the cutting of blanks are modelled, collations and NUL characters are not. Of Mongo, the queue protocol has the statuses of rows; HybridBatch is about Postgres alone. The offchain table is not modelled.
- MerkleTree.ComputeBatchHash: an entry's stored hash is a value here; that the loop of the storage writes it into the caller's objects is not modelled.
- HybridBatch.HybridStorage.WriteBatch: the concurrent inserts of one batch are attempted in order, and delays are not measured.
- Ledger.Service.WriteCall: the payload is generic, so that the cut of the preview to 256 characters is not modelled; hash_service and batch_service have the same shape.
- ConnectionPool.EveryRun: keep-alive and lifetime clocks are one predicate on connections; wake-ups, closing futures and liveness are not modelled. PoolObjects covers the pool's own methods and the support loop; guards and futures are steps.
- QueueProtocol.EveryRun: each message is delivered once and is well-formed; the HTTP server's own hand-over to the confirm queue and its direct writes are not modelled. An update is applied or fails as a whole. An anchor that succeeds answers with a transaction hash, and in the handlers' mode never with a confirmation.
- QueueProtocol.Subscriber.CheckOnce: the times between checks are not modelled.
- BatchWriter.Writer.Flush: a storage call that throws at once is the event that ends it, in the next step.
- Benchmark.PickRandom: the choices are given; their distribution is not modelled. The sample holds logs, of which the program then takes the ids.
- Benchmark.EveryRun: latencies, CPU and memory figures and the tamper and verification samples are not modelled.
- HeaderWriter.Destination.EncodeHeaders: the lines before the header loop are chosen by the specification functions; the clock's date header is a parameter.
- HeadReader.HeadReads: names and values are taken to be what the header types admit: names not empty and in lower case without colons, and neither with a carriage return. Folded lines, which the encoder never writes, are not read.
- MessageEncoder.InSyncIff: a coding with parameters is not taken for the chunked one, codings below the chunked one are the application's to undo, a comma-separated content-length is rejected, and the tunnel after a CONNECT is not modelled.
- TransferEncoding.ChunkedFraming: the reference decoder reads chunks without extensions and bodies without trailers, which the encoder never writes.
- CookieText.CookieRoundTripIff: the Expires attribute is not modelled, and Max-Age counts whole seconds.
- CookieJar.ClientAgreesIff: an original stands for the client's cookie with its path and domain, as `remove` asks of its callers; which requests a path and domain apply to is not modelled.
- Signed and private cookie jars, the HTTP/1 decoder and dispatcher, HTTP/2, websockets, compression, the smart contracts and the front ends are not part of this model.
