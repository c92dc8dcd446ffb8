# Verified model of hugofs: RPC connection, key-value layer, log files, paths

A Dafny model of four parts of the repository and proofs about them. `dafny verify dfyconfig.toml`
checks everything.

**The RPC connection (`pkg/tcp`).** One connection carries many concurrent calls.
`Bytes` and `Framing` hold the wire format: a 128-byte header, then body, block length and block.
`RpcClient` and `RpcServer` are step systems: every section under a lock, every `Write` and every
read is a step, and the steps of all goroutines interleave in any order. Each side is proved against
an arbitrary peer. `RpcSystem` joins the two by their byte streams and proves what a caller gets end to
end. `ConnectionObjects` holds the mutable objects behind the steps, `Supervisor` the goroutine that
keeps a live connection published.

**The key-value layer (`pkg/store`).** `Keys` has the lexicographic order and prefixes, `StoreSpec` what each
operation does to the map of stored keys, `Badger` the transaction object and the iterator loops, `Tikv`
the loops of the other backend, `Backends` where the two agree, `Transactions` the transaction overlay and
`DoInTxn`, `Decimal` and `Counter` the stored counter.

**Logs and paths (`global`).** `LogRetention` and `LogSegments` are the sweep and the rotation of
log files; `Paths` and `Utf8` are the path algebra.

## What the code relies on

These are hypotheses of the theorems, visible in their `requires` clauses or in the step systems.

- A header read returns all 128 bytes (`RpcSystem.ClientReads`, `RpcSystem.ServerReads`). The code uses a plain `Read`.
- JSON is an abstract codec (`Framing.Lawful`): an encoding is not empty and decodes to its value. Marshal may fail.
- Bodies and blocks are shorter than 2^32 bytes (`RpcSystem.Sound`, `RpcServer.Fits`).
- At most 2^64 calls are registered on one connection. `RpcClient.OverwritesIff` shows what happens at the limit.
- After a failed `Write`, no later `Write` on that connection gets a byte through.
- Every call is given to `send` once and has its own Done channel of capacity 1, as `Do` arranges.
- A database refuses some keys, in the same way for reading, writing and deleting, and holds none of them.

## Where the code falls short of what one would expect

The lemmas named say exactly when the code as it is does what one would expect, or give the input on which it does not.

- A reply, or a request, whose body encodes to `null` and that carries a block leaves the block in the stream
  (`Framing.ReplyBoundaryIff`, `Framing.RequestBoundaryIff`).
- An error whose first 100 bytes are all zero arrives as an empty success (`Framing.ErrorSeenIff`).
- A response whose body cannot be encoded is never sent (`RpcServer.OneFramePerJob`).
- Badger's `Scan` stops at once if a key lies between `begin` and the prefix (`Backends.BadgerScanIff`, `Backends.BlockedScan`); TiKV's `Scan`
  finds nothing but the empty key without an `end` (`Backends.OpenEndedScans`).
- Badger reads the bucket name `//` as the root and deletes it literally, so that deleting it need not empty it
  (`Backends.DoubleSeparatorDisagrees`, `Backends.DeleteEmptiesIff`).
- A bucket name with a separator in it can share stored keys with another bucket (`Backends.CollideIff`).
- Badger's `Get` trims a separator that `Save` keeps (`Backends.SaveThenReadIff`).
- A counter whose sum reaches 2^64 starts over (`Counter.RisingIff`).
- A batch that fails half way leaves its first half in a transaction, and nothing without one
  (`Transactions.BatchSaveCleanIff`, `Transactions.FaithfulIff`, `Transactions.SwallowedBatchError`).
- Paths with two slashes in a row are not rebuilt from their parts (`Paths.RebuildIff`).

## Model

| member | source | states |
|---|---|---|
| Bytes.BigEndianRoundTrip | pkg/tcp/client.go:254-263 | a number written into a field of w bytes is read back modulo 256^w |
| Bytes.FieldRoundTrip | pkg/tcp/server.go:355-362 | a text copied into a zeroed field comes back truncated to the field and without zero bytes |
| Bytes.ProjectLaws | pkg/tcp/protocol.go:28-36 | that projection is idempotent and keeps exactly the texts that fit and hold no zero byte |
| Bytes.GetValidBytes | pkg/tcp/protocol.go:28-36 | the loop returns the non-zero bytes in order |
| Framing.FillHeader | pkg/tcp/client.go:252-259 | the buffer filled field by field is the 128-byte layout of sequence number, service, length and error |
| Framing.HeaderRoundTrip | pkg/tcp/client.go:268-281 | a parsed header is the written one with its numbers reduced to their width and its texts projected |
| Framing.FrameShape | pkg/tcp/server.go:319-353 | the Writes of one message together are its header followed by body, block length and block, or by nothing |
| Framing.ReadPayloadMonotone | pkg/tcp/client.go:420-437 | a complete payload does not depend on what follows it |
| Framing.FrameRoundTrip | pkg/tcp/server.go:169-217 | a sendable frame followed by anything is read back and exactly its bytes are consumed |
| Framing.HeaderInStream | pkg/tcp/client.go:268-281 | a reader where k frames end, on a stream of sendable messages cut anywhere, can only find the header of frame k |
| Framing.PayloadInStream | pkg/tcp/client.go:283-323 | behind that header it can only find that frame's payload, and then stands where k+1 frames end |
| Framing.ReadRequests | pkg/tcp/server.go:147-198 | the read loop, with its service lookup, returns the messages the recursive reader decodes from the stream |
| Framing.DecodeStream | pkg/tcp/server.go:169-217 | decoding any concatenation of sendable frames returns the messages in order, texts projected, up to the first one for an unregistered service |
| Framing.RequestsRoundTrip | pkg/tcp/client.go:215-266 | up to there requests come back unchanged when their service is at most 16 non-zero bytes and a block comes only with a body |
| Framing.ReplyBoundaryIff | pkg/tcp/client.go:382-396 | when exactly the client ends on the frame boundary, for known and unknown sequence numbers, successes and errors |
| Framing.RequestBoundaryIff | pkg/tcp/server.go:182-195 | when exactly the server ends on the frame boundary |
| Framing.ReadReplies | pkg/tcp/client.go:368-397 | the input loop cuts the stream where the recursive reader does, whatever numbers are pending at each of its turns |
| Framing.ClientStopsOnBoundaries | pkg/tcp/client.go:368-397 | over any list of replies, and whichever of them are pending when they are read, the client consumes one frame at a time |
| Framing.ErrorSeenIff | pkg/tcp/client.go:387-389 | a reply is seen as an error exactly when a non-zero byte is among the first 100 of its text |
| RpcClient.StepKeepsInv | pkg/tcp/client.go:123-162 | every step of sender, input loop, Close and receiver keeps locks, numbering, completion tokens, channels and wire consistent |
| RpcClient.StepKeepsToken | pkg/tcp/client.go:374-413 | for each call, being pending, held by a goroutine and completed add up to what send owes it: the token is conserved |
| RpcClient.CompletesOnce | pkg/tcp/client.go:112-121 | no step completes a call that has been completed |
| RpcClient.EncodedIsRequest | pkg/tcp/client.go:141-150 | under reqMutex the shared client.request belongs to the sender that encodes, whatever others wrote to it before |
| RpcClient.RunInv | pkg/tcp/client.go:123-162 | all of this holds in every state of every interleaving with at most 2^64 registrations |
| RpcClient.AtMostOneCompletion | pkg/tcp/client.go:112-121 | a call is completed at most once and done never discards |
| RpcClient.NoCallIsLost | pkg/tcp/client.go:136-161 | a call whose send returned is completed, or pending under its own number, or in the input loop's hands, and only one of these |
| RpcClient.OverwritesIff | pkg/tcp/client.go:136-138 | a registration would overwrite a pending call exactly when all 2^64 numbers are used and number 0 is pending |
| RpcClient.StoppedMeansCompleted | pkg/tcp/client.go:398-414 | when input has returned, every call whose send returned has exactly one completion |
| RpcClient.NothingAfterStop | pkg/tcp/client.go:126-135 | after that no step touches pending or writes a byte, and the only new completion is ErrShutdown |
| RpcClient.FramesAreContiguous | pkg/tcp/client.go:150-161 | however senders interleave, the bytes written are whole frames, each the request of its own call under its own number, the last one possibly cut |
| RpcClient.SenderCanStep | pkg/tcp/client.go:126-161 | a send that holds reqMutex always has a step: nobody keeps mutex from it |
| RpcClient.InputCanStep | pkg/tcp/client.go:368-414 | input always has a step, the drain included, except where it waits for the sender that holds reqMutex |
| RpcClient.NoDeadlock | pkg/tcp/client.go:123-161 | in every reachable state with a send under way or input not returned, one of these goroutines has a step |
| RpcClient.SendAdvances | pkg/tcp/client.go:123-161 | every step of a send lowers a bound on its remaining steps that no other step raises: it takes at most twelve |
| RpcClient.RefusedAfterStop | pkg/tcp/client.go:130-135 | a send not past its lock when input returned ends with ErrShutdown and nothing else |
| ConnectionObjects.CallTable.Register | pkg/tcp/client.go:129-139 | registration takes the next number modulo 2^64, or refuses when shut down or closing |
| ConnectionObjects.CallTable.Take | pkg/tcp/client.go:374-381 | looks a call up and removes its entry |
| ConnectionObjects.CallTable.Drain | pkg/tcp/client.go:398-414 | marks the shutdown and completes every pending call exactly once, leaving pending as it is |
| ConnectionObjects.CallTable.Close | pkg/tcp/client.go:440-448 | only the first Close reports that it closed |
| ConnectionObjects.FrameWriter.WriteMessage | pkg/tcp/server.go:319-353 | a frame goes out whole, is cut where the connection fails, or leaves no byte if it cannot be encoded |
| RpcServer.StepKeepsInv | pkg/tcp/server.go:223-243 | every step of the read loop and the handlers keeps the send lock, the shared response header and the frames consistent |
| RpcServer.EncodedIsResponse | pkg/tcp/server.go:232-238 | under the lock the shared header belongs to the job that writes, whatever others wrote to it before |
| RpcServer.OneFramePerJob | pkg/tcp/server.go:371-394 | while no Write has failed, a finished request has exactly one whole contiguous frame with its own number, service and result, or none if it cannot be encoded |
| RpcSystem.ReplyIsOwn | pkg/tcp/client.go:374-381 | the response the input loop has in hand answers the call it routed it to |
| RpcSystem.ClientKeepsInv | pkg/tcp/client.go:365-397 | every client step keeps both readers on frame boundaries and every delivered result true |
| RpcSystem.ServerKeepsInv | pkg/tcp/server.go:147-167 | every server step does so too |
| RpcSystem.ReplyMatchesRequest | pkg/tcp/client.go:365-397 | in every run a reply is what the handler returned in its one execution for that call's service, body and block |
| RpcSystem.AtMostOneExecution | pkg/tcp/server.go:147-167 | no call runs twice, and nothing runs that was not called |
| RpcSystem.AnsweredWhenQuiet | pkg/tcp/client.go:376-396 | once all responses are read, every call whose response went out whole has its completion, unless its own failed send is just about to complete it |
| Supervisor.StepKeepsInv | pkg/tcp/client.go:460-506 | only the current connection is open, and what is published is current and open |
| Supervisor.PublishedIsOpen | pkg/tcp/client.go:460-506 | the published connection was never closed, no socket is closed twice, and when ping has returned all are closed |
| Supervisor.ErrClientForEver | pkg/tcp/client.go:469-475 | after quit was acted upon the published value stays errClient |
| Keys.PrefixConvex | pkg/store/store_badger.go:147-161 | keys with a common prefix are convex in the order |
| Keys.ListingUnique | pkg/store/store_badger.go:109-123 | a set of keys has one ascending listing |
| Badger.NothingBehind | pkg/store/store_badger.go:109-123 | where the scan stops, no wanted key is left behind |
| Badger.ScanIn | pkg/store/store_badger.go:103-131 | for all arguments the loop returns in ascending order exactly the stored keys with the prefix in [begin, end], or nothing when blocked |
| Badger.GetByBucketIn | pkg/store/store_badger.go:135-170 | the prefix loop returns exactly what a filter of the whole store would, with the root's own rule |
| Badger.DeleteByBucketIn | pkg/store/store_badger.go:195-213 | the loop removes exactly the keys under the prefix from what the transaction shows |
| Badger.BatchSaveIn | pkg/store/store_badger.go:265-279 | a batch leaves what setting its entries one by one leaves, up to the first error unless errors are ignored |
| Badger.BatchDeleteIn | pkg/store/store_badger.go:280-298 | likewise for deletions |
| Badger.RunIn | pkg/store/store_badger.go:81-102 | each operation's callback, on any transaction, does what the map specification says, errors included |
| Badger.Store.Direct | pkg/store/store_badger.go:249-264 | without a transaction in the context an operation changes the store exactly if its callback returned no error and its commit succeeded; a lost commit is reported, except by BatchDeleteByKey |
| StoreSpec.RunKeepsAccepted | pkg/store/store_badger.go:242-248 | no operation stores a key the database refuses |
| Tikv.Scan | pkg/store/store_tikv.go:121-145 | returns in order the keys with the prefix in [begin, end) that are also at most end |
| Tikv.GetByBucket | pkg/store/store_tikv.go:196-218 | returns everything under the plain prefix |
| Tikv.DeleteByBucket | pkg/store/store_tikv.go:220-239 | removes exactly that |
| Backends.BadgerScanIff | pkg/store/store_badger.go:103-131 | the listing Badger returned is the one asked for exactly when no stored key lies between begin and the prefix, or no stored key qualifies |
| Backends.BlockedScan | pkg/store/store_badger.go:109-111 | a store of two keys on which the scan misses a qualifying key |
| Backends.BeginAfterPrefix | pkg/store/store_badger.go:103-131 | it always is for a begin at or after the prefix |
| Backends.ScansDifferAtEnd | pkg/store/store_tikv.go:121-145 | with an end given, Badger's scan is TiKV's plus at most the entry at end, or nothing when blocked |
| Backends.OpenEndedScans | pkg/store/store_tikv.go:131-136 | without an end Badger's scan runs on unless blocked, and TiKV's finds at most the empty key |
| Backends.BucketsAgreeIff | pkg/store/store_tikv.go:196-218 | when exactly both backends return the same bucket |
| Backends.BucketsAgree | pkg/store/store_badger.go:132-170 | they do for every name ending in the separator but `/` and `//` |
| Backends.DoubleSeparatorDisagrees | pkg/store/store_badger.go:136-146 | `//` is an exception: Badger reads the root, TiKV nothing |
| Backends.DeletesAgreeIff | pkg/store/store_tikv.go:220-239 | when exactly DeleteByBucket leaves the same store on both |
| Backends.SaveThenReadIff | pkg/store/store_badger.go:81-84 | when exactly Get returns what Save stored under the same key |
| Backends.CollideIff | pkg/store/store_badger.go:182-194 | two bucket and key pairs share a stored key exactly when they are equal or one bucket is nested in the other and the keys make up for it |
| Backends.ReadsWhere | pkg/store/store_badger.go:81-84 | which stored key GetInBucket reads, with the separator that Get drops |
| Backends.BucketsDoNotInterfere | pkg/store/store_badger.go:182-190 | for all names, SaveInBucket changes GetInBucket for exactly the pairs that read its stored key: its own, nested ones that spell it, and an empty key in a bucket named like it |
| Backends.NestedHasSep | pkg/store/store_badger.go:182-194 | nesting needs a separator in the longer name, so bucket names without one never collide |
| Backends.DeleteEmptiesIff | pkg/store/store_badger.go:195-213 | when exactly DeleteByBucket empties the bucket |
| Backends.DeleteSparesOthers | pkg/store/store_badger.go:195-213 | keys outside the prefix read as before |
| Transactions.FaithfulOverlay | pkg/store/store_badger.go:249-264 | a callback sees the same results in a transaction as executed directly, and ends with the same contents, if the guard Clean holds of its operations |
| Transactions.FaithfulIff | pkg/store/store_badger.go:249-264 | for any callback that chooses its next operation from earlier results, both executions agree after every number of operations exactly when the guard Clean holds of each operation it performs |
| Transactions.SafeCallbacksAreClean | pkg/store/store_badger.go:265-298 | which holds from any store for callbacks whose batches ignore errors or meet no refused key |
| Transactions.BatchSaveCleanIff | pkg/store/store_badger.go:265-279 | a failing batch save leaves no trace in a transaction exactly when it ignores errors, meets no refused key, or had nothing new to set before the first |
| Transactions.BatchDeleteCleanIff | pkg/store/store_badger.go:280-298 | likewise a batch delete, with nothing stored before the first refused key |
| Transactions.CleanIff | pkg/store/store_badger.go:265-298 | for every operation the guard Clean, which looks at arguments and store only, decides whether a failure leaves no trace |
| Transactions.RunDirectly | pkg/store/store_badger.go:249-256 | executing a callback's operations on the store one by one is the direct execution the transaction is compared with |
| Transactions.SwallowedBatchError | pkg/store/store_badger.go:265-279 | a callback that ignores a batch error commits what direct execution would not have saved |
| Transactions.DoInTxn | pkg/store/store.go:21-37 | the caller gets the error of the (terminating) callback; the store changes only if there was none and the commit succeeded |
| Transactions.RunAtomically | pkg/store/store.go:21-37 | for clean callbacks failure changes nothing, success leaves what direct execution would, a lost commit is silent |
| Transactions.BadgerTxn.Begin | pkg/store/txn_badger.go:41-44 | a transaction starts out showing the store |
| Transactions.BadgerTxn.Commit | pkg/store/txn_badger.go:46-48 | a successful commit makes the store what the transaction showed |
| Decimal.ParseFormat | pkg/store/store_tikv.go:156-165 | the printed counter parses back |
| Counter.Store.Incr | pkg/store/store_tikv.go:147-172 | one increment, with the missing key, the unreadable text and the 64-bit sum |
| Counter.Store.IncrMany | pkg/store/store_tikv.go:147-172 | any sequence of increments of a fresh key returns one plus the running sum modulo 2^64 and touches no other key |
| Counter.NthIncrement | pkg/store/store_tikv.go:147-172 | with a constant step s call n returned n*s+1 modulo 2^64 |
| Counter.IncreasesIff | pkg/store/store_tikv.go:160-166 | a call with a positive step returns more than the last one exactly when the counter did not wrap |
| Counter.RisingIff | pkg/store/store_tikv.go:147-172 | for positive steps all the values returned are positive and strictly increasing exactly when one plus the sum of the steps is below 2^64 |
| Counter.WrapsOnFirst | pkg/store/store_tikv.go:152-157 | without positivity this fails: a first step of 2^64-1 returns 0 and the values go on increasing |
| LogRetention.OverIff | global/logger.go:215-233 | testing each file alone decides the same as the limits on the whole run |
| LogRetention.Sweep | global/logger.go:212-234 | removes exactly the log files behind the longest newest-first run that meets count, size and age limits |
| LogRetention.SweepLogDir | global/logger.go:173-234 | for any order the sort may produce, kept and removed are the log files of the directory, cut at the longest fitting run |
| LogRetention.RemovedAreOlder | global/logger.go:208-233 | no removed log file is newer than a kept one, and only log files are removed |
| LogSegments.OnDemandFile.Write | global/logger.go:311-358 | accepted bytes are appended; a new file is begun exactly when none is open or it would overflow |
| LogSegments.WriteAll | global/logger.go:311-358 | over any sequence of writes, with failed creations and short writes, segments concatenate to the bytes accepted, names never repeat, and each segment is within the limit or at most one write |
| LogSegments.NamesDiffer | global/logger.go:324-334 | segment names with different counters differ |
| Utf8.KeptIff | global/path.go:23 | a text survives ToValidUTF8 exactly when it is valid |
| Paths.IsUnderIff | global/path.go:78-83 | for absolute paths, being under q other than the root is having q's parts as a proper prefix |
| Paths.DirAndNameIff | global/path.go:21-49 | for all paths and names, when exactly DirAndName inverts Child |
| Paths.JoinSplit | global/path.go:59-64 | joining the parts of a split gives the text back |
| Paths.RebuildIff | global/path.go:39-64 | walking down the parts from the root rebuilds a path exactly when it is absolute and has no two slashes in a row |

## Left out

- RpcClient, RpcServer, RpcSystem: the goroutines are modelled as step systems over values; `ConnectionObjects` has the objects, one critical section per method.
- RpcClient, RpcServer: Writes after the connection was closed may still succeed in the model, which only adds behaviours.
- RpcClient.NoDeadlock: a Write or read that blocks for ever is not modelled, because every call of the connection returns, with or without an error.
- RpcClient: which read error a drained call gets (io.EOF is mapped to ErrShutdown or ErrUnexpectedEOF) is not distinguished.
- RpcServer: a handler that panics with something that is not an error ends the process and is not modelled.
- RpcSystem.ReplyMatchesRequest: says nothing about the `Header` of a reply, which aliases a variable that later frames overwrite.
- RpcSystem.ReplyMatchesRequest: replies are read into a fresh `ProtoBuff`; a body the caller put there beforehand is not modelled.
- LogRetention.Sweep: file sizes are added without 64-bit overflow, and removals succeed.
- LogSegments.OnDemandFile.Write: does not return the file's own write error, only how many bytes the file accepted, because the caller gets both unchanged.
- LogSegments.WriteAll: the sweep that runs beside the writer and may delete old segments is not part of it.
- Badger.Txn: a transaction that grows too big for Badger is not modelled.
- Transactions.DoInTxn: one transaction at a time, without nesting and without conflicts between writers; `commitOk` stands for the commit's outcome.
- Counter.Store.Incr: increments are sequential and their commits succeed.
- Badger's Incr and Cleanup: they bypass the transaction in the context; sequence leases are internal to Badger.
- TiKV's transaction wrapper, the in-memory store, the factories and the serializer wrappers: same shape or easy members only.
- BatchGetValueByKey and BatchDoGetValueByKey put as many nil values before their results as they were given keys, and DoDeleteByPrefix deletes the one key that equals the prefix: easy members only.
- RegisterName: the model starts from a server whose handlers are registered.
- Sockets, dialing, deadlines, tracing, timeouts of callers and JSON itself: outside the model or parameters of it.
- HashStringToLong and AsInode, command line, configuration, generated code: not modelled.
