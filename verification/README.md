# Verified model of ds4's distributed inference and expert I/O

This project models, in Dafny, the parts of ds4 that move work and state between machines and drives,
and proves what they promise. It covers six areas and two small ones.

**Pipelined prefill** (`Pipeline*.dfy`, `SingleNode.dfy`, `LayerSlices.dfy`, `SenderRing.dfy`,
`LinkedFifo.dfy`, `WorkerQueues.dfy`). The coordinator cuts a prompt into chunks, evaluates its own layers and passes
chunks on through a ring, a flow window, and on every worker a job queue, an evaluator, a forwarder
with a pending list, and a relay. `Pipeline.dfy` is a step machine with one action per locked region
or channel operation, for routes of any length and any positive bounds. The invariant of
`PipelineInvariant.dfy` determines the whole state from per-thread counts; from it follow safety, the
absence of deadlock, bounded runs, and that every interleaving ends with the single-node result, which
`SingleNode.dfy` tells as a table of chunks and layers without any of the machinery. The
ring, the queues and the pending list are also proved as the mutable structures they are, and
`PipelineStructures.dfy` shows that the steps of the pipeline are the operations of those structures.

**Prefix-hash guard** (`TokenHash.dfy`, `WorkerSession.dfy`). The token hash and the session state
that workers keep over WORK frames, resets, failed evaluations and snapshot loads. Everything that
only compares hashes is stated for an arbitrary hash; injectivity is never assumed, and results that
need it name the collision instead. The initial constant of the hash is not the FNV-1a offset basis,
so no FNV document is cited.

**Registry and routes** (`RouteSearch.dfy`, `RouteBlob.dfy`, `RoutePlan.dfy`, `WorkFrame.dfy`,
`Registry.dfy`, `PlanCache.dfy`). The backtracking search over sorted workers, the route payload with
its encoder and three parsers, WORK frames and their checks at every hop, and the plan a session
caches while workers come and go. The order `qsort` leaves among equal workers is a parameter.

**KV snapshots** (`Payload.dfy`, `KvLayout.dfy`, `KvSnapshot.dfy`, `KvTransfer.dfy`, `KvRestore.dfy`,
`SnapshotChunks.dfy`). The session payload and the per-node shards as file formats, gathering shards
from one route, splitting the payload for another, and the chunk frames in between.

**Engram rows** (`EngramHash.dfy`, `EngramStream.dfy`, `EngramRow.dfy`, `EngramBatch.dfy`,
`EngramBatchRead.dfy`). The rolling n-gram hash with its in-place history, the decoding of a row, and
the sorted, deduplicated, partitioned batch read over any table of rows; `EngramRow.FileTable` is that
of a file.

**Replica reads** (`ReplicaPlan.dfy`, `ReplicaRead.dfy`). Sharing the blocks of a read over drives by
largest remainder, and the read loops that fill one buffer at the same time.

**Small ones**: the think-tag printer (`TokenPrinter.dfy`) and the choice of the best logits
(`TopLogprobs.dfy`).

`Options.dfy`, `Bytes.dfy`, `Bits.dfy`, `Arith.dfy` and `Sums.dfy` hold what several modules share. `dafny verify
dfyconfig.toml` checks the project.

## Where the code and its promises part

- A backend reset that fails has already emptied the session's timeline, while the worker returns an
  error and keeps its hash as valid (ds4_distributed.c:7466-7474, ds4.c:69396-69420). So "a valid
  hash is the hash of the timeline" is lost exactly by a failed reset of a session whose timeline did
  not hash to the empty prefix: `SoundExactlyUnlessResetFails` is the equivalence, `SoundCanBeLost`
  the concrete run, and `ReplayRecovers` shows that the coordinator's replay repairs it.
- A session whose timeline is as long as its context can be saved and then not loaded into the same
  context, because the load demands one free position (ds4_distributed.c:5265). `SaveThenLoad` gives
  the exact condition, and `FullContextIsNotRestored` says for which sessions it fails.
- The three parsers of a route payload check different parts of it. Of entries followed by a return
  target, `GetEntry` asks for usable hosts up to the entry (`EntryInPayload`), `GetReturnTarget` only
  for a host of the target that fits (`TargetInPayload`), and the validator for well-formed entries and
  the upstream target (`RouteInPayload`). So the validator accepts a payload exactly when the two
  readers go through and read such a route (`AcceptedExactly`). They part, for example, on an entry with
  an empty host, whose return target is still read, and on an entry with port zero, which both readers
  take (`EmptyHostPartsThem`, `PortZeroPartsThem`).
- A restore that fails late, because a node refuses its slice or bytes remain after the last one, has
  already loaded the nodes before (ds4_distributed.c:5331-5382): `LoadShards` and `LoadPayload` say
  which.

## Assumptions

- Layer evaluation is a deterministic function per layer of its KV state and the hidden state, so that
  adjacent slices compose (`Model` in `LayerSlices.dfy`).
- Channels deliver what was sent, in order. The replicas of a file are identical, and reading a table
  row twice gives the same bytes.
- Sorting functions return a permutation in order; among equal elements any order is allowed.
- Workers entered the registry through the HELLO checks of ds4_distributed.c:4166-4250
  (`RoutePlan.HelloOk`), and their connection number and host are those of the connection.

## Model

| member | source | states |
|---|---|---|
| `PipelineTheorems.RunInv` | ds4_distributed.c:3206-3419 | every reachable state of the prefill pipeline, for any route length, depths and windows, satisfies the per-hop invariant at the counts of its run; no id, hash or result check has failed; the number of steps taken equals the total of the counts and never exceeds the run length |
| `PipelineSteps.StepInv` | ds4_distributed.c:6452-6625 | each action of the producer, sender, reader, evaluator, relay or result reader advances exactly one count and keeps the invariant |
| `PipelineTheorems.StuckOnlyAtTheEnd` | ds4_distributed.c:3643-3720 | a reachable state from which no thread can move is the final one: no deadlock between the ring, the window, the job queues, the pending lists and the bounded channels |
| `PipelineTheorems.StuckExactlyAtTheEnd` | ds4_distributed.c:3643-3720 | a reachable state can move no further exactly when the call is complete, and every complete run takes the same number of steps |
| `PipelineTheorems.FinalIsSingleNode` | ds4_distributed.c:7411-7519 | every complete run, whatever its interleaving, has accepted one result per chunk and ends with the logits, the per-layer KV states on coordinator and workers of the table that one node fills in, layer l turning its own state and the hidden value before it into the next ones; every worker session holds the whole span, and nothing is left in queues or channels |
| `PipelineTheorems.TrafficIsSingleNode` | ds4_distributed.c:7501-7519 | in every reachable state every frame and every answer on the way is that of some chunk of the same table: its tokens, position, hashes and id, its hidden value at that hop, a reset for the very first chunk only, and an acknowledgement, logits or hidden state as asked for |
| `SingleNode.TableIsUnique` | ds4_distributed.c:7501-7512 | there is only one such table |
| `SingleNode.ReferenceFills` | ds4_distributed.c:7501-7512 | the reference of the invariant fills it in |
| `PipelineTheorems.RingAndWindow` | ds4_distributed.c:3152-3187 | in every reachable state the ring holds at most its slots, tail is head plus queued modulo the slot count, the slot being filled is none of the queued ones, and submitted chunks stay within completed chunks plus the window |
| `PipelineTheorems.PendingDecomposition` | ds4_distributed.c:6319-6372 | at every hop the pending list, oldest first, is the results on their way back, then the requests being worked on downstream, then those on the forward channel, then at most one not yet sent |
| `PipelineInvariant.InitInv` | ds4_distributed.c:3513-3642 | the state in which the threads start satisfies the invariant |
| `PipelineInvariant.SliceCell` | ds4_distributed.c:7501-7512 | evaluating the layers of one hop on one chunk gives the hidden state and the KV states of the single-node reference for that cell |
| `PipelineInvariant.HashNext` | ds4_distributed.c:3593-3602 | the prefix hash of the next chunk is the result hash of this one |
| `PipelineInvariant.ComputeExpectedHashes` | ds4_distributed.c:3593-3602 | the loop yields, for every chunk, the hash of the prompt up to the end of that chunk |
| `Pipeline.Config.Starts` | ds4_distributed.c:3643-3702 | the chunks tile the span: their starts increase up to its end, and there are exactly Count of them |
| `Pipeline.Config.StartClosed` | ds4_distributed.c:3385-3387 | chunk i starts where the result reader computes it, at i times the chunk size |
| `PipelineTheorems.ReaderTurnsDown` | ds4_distributed.c:3352-3404 | in any state, the result reader fails the call on everything but the right answer to its next chunk, told by id, prompt hash and payload, and takes that one |
| `PipelineTheorems.RelayTurnsDown` | ds4_distributed.c:6526-6541 | in any state, a relay passes on a result exactly if it answers its oldest pending request |
| `PipelineTheorems.GuardTurnsDown` | ds4_distributed.c:7464-7519 | in any state, a worker evaluates a frame exactly if its hashes agree with its tokens and it goes on from the session's own timeline |
| `PipelineSteps.GuardPasses` | ds4_distributed.c:7492-7500 | in a failure-free run the frame of chunk i passes the prefix-hash guard of every worker |
| `PipelineSteps.ReaderAccepts` | ds4_distributed.c:3352-3404 | the result at the front of the coordinator's connection passes the reader's id, hash and kind checks |
| `PipelineTheorems.TotalBound` | ds4_distributed.c:3206-3419 | no run is longer than nine steps per chunk and hop plus those of the coordinator's own threads |
| `LayerSlices.Model.SliceSplit` | ds4_distributed.c:7501-7512 | evaluating layers a and then layers b is evaluating them together, for hidden state and KV |
| `LayerSlices.Model.SliceRuns` | ds4_distributed.c:7501-7512 | a slice from layer start on is a trace: layer start + k turns the k-th state and hidden value into the new state and the next hidden value |
| `Arith.WrapSucc` | ds4_distributed.c:3182-3182 | advancing a ring index modulo its size is one step of the unbounded position |
| `Arith.ChunkCountIsCeilDiv` | ds4_distributed.c:3536-3536 | the number of chunks is the ceiling division the program computes |
| `SenderRing.Ring.constructor` | ds4_distributed.c:3102-3137 | an empty ring with all its slots free |
| `SenderRing.Ring.AcquireSlot` | ds4_distributed.c:3152-3169 | waits exactly when the ring is full and ends when it is stopped; the slot handed out is none of the queued slots |
| `SenderRing.Ring.Fill` | ds4_distributed.c:3658-3697 | writing the acquired slot leaves every queued chunk as it was |
| `SenderRing.Ring.EnqueueSlot` | ds4_distributed.c:3171-3187 | the filled slot becomes the newest queued chunk, unless the sender stopped |
| `SenderRing.Ring.Front` | ds4_distributed.c:3206-3217 | the sender reads the oldest queued chunk; it ends only when stopped or drained after the producer is done |
| `SenderRing.Ring.Sent` | ds4_distributed.c:3239-3263 | a sent chunk leaves at the front and the others keep their order; a failed send stops the ring and drops nothing |
| `SenderRing.Ring.Finish` | ds4_distributed.c:3189-3194 | marks the producer as done and leaves the queue alone |
| `SenderRing.Ring.Cancel` | ds4_distributed.c:3196-3204 | stops the ring |
| `LinkedFifo.Fifo.Append` | ds4_distributed.c:7706-7709 | appending at the tail of the linked list adds the newest element |
| `LinkedFifo.Fifo.PopFront` | ds4_distributed.c:7725-7729 | unlinking the head returns the oldest element and keeps tail right |
| `LinkedFifo.Fifo.RemoveFirst` | ds4_distributed.c:6374-6396 | unlinking in the front, middle or end removes exactly the first match and keeps tail and count right |
| `LinkedFifo.Fifo.UpdateFirst` | ds4_distributed.c:6398-6412 | rewrites exactly the first match |
| `LinkedFifo.Fifo.Clear` | ds4_distributed.c:7657-7667 | leaves the empty list |
| `WorkerQueues.JobQueue.constructor` | ds4_distributed.c:7644-7655 | an open empty queue of the given depth |
| `WorkerQueues.JobQueue.Enqueue` | ds4_distributed.c:7696-7714 | blocked, refused or taken as the queue state says; a taken job is the newest |
| `WorkerQueues.JobQueue.Pop` | ds4_distributed.c:7716-7733 | waits, ends or hands out the oldest job as the queue state says |
| `WorkerQueues.JobQueue.Finish` | ds4_distributed.c:7678-7684 | closes the queue and keeps its jobs |
| `WorkerQueues.JobQueue.Cancel` | ds4_distributed.c:7686-7694 | closes and empties the queue |
| `WorkerQueues.JobsOfEveryRun` | ds4_distributed.c:7657-7733 | over every run, the jobs taken in are the jobs handed out, then those dropped, then those queued, in this order, and the depth is kept |
| `WorkerQueues.FinishDrains` | ds4_distributed.c:7678-7733 | after finish, pops hand out everything queued, in order and without waiting, and then report the end |
| `WorkerQueues.CancelIsFinal` | ds4_distributed.c:7686-7733 | after cancel nothing is handed out or taken in any more, whatever follows |
| `WorkerQueues.PendingRequests.constructor` | ds4_distributed.c:6661-6663 | an open empty list of the given depth |
| `WorkerQueues.PendingRequests.Enqueue` | ds4_distributed.c:6319-6348 | blocked, refused or taken as the list state says, where depth zero is no bound; a taken request is the newest |
| `WorkerQueues.PendingRequests.Pop` | ds4_distributed.c:6350-6372 | returns and removes the oldest request, if any |
| `WorkerQueues.PendingRequests.Remove` | ds4_distributed.c:6374-6396 | removes the first request with the id, and says whether there was one |
| `WorkerQueues.PendingRequests.NoteSendDone` | ds4_distributed.c:6398-6412 | records the send time of the first request with the id and changes nothing else |
| `WorkerQueues.PendingRequests.Clear` | ds4_distributed.c:6414-6428 | empties the list |
| `WorkerQueues.PendingRequests.Close` | ds4_distributed.c:6430-6435 | refuses further requests and keeps the pending ones |
| `WorkerQueues.RequestsOfEveryRun` | ds4_distributed.c:6319-6435 | over every run with removals anywhere, ids taken in are answered, withdrawn or pending; answers and pending ids together keep the order in which the requests came |
| `PipelineStructures.RingGuards` | ds4_distributed.c:3152-3263 | in the pipeline, the producer and the sender go on, wait and end as the ring's own operations tell them, and the sender sends the oldest chunk |
| `PipelineStructures.RingStep` | ds4_distributed.c:3152-3263 | every action of the pipeline leaves the ring with the contents that the ring's operation leaves |
| `PipelineStructures.RingOfEveryRun` | ds4_distributed.c:3152-3263 | over every run the slots, head, tail and count of the pipeline represent the contents its ring operations leave |
| `PipelineStructures.JobGuards` | ds4_distributed.c:7696-7733 | a worker hands over and takes up a job exactly when its queue does, and it is that job |
| `PipelineStructures.JobsStep` | ds4_distributed.c:7696-7733 | every action does to a worker's jobs what its queue operations do |
| `PipelineStructures.JobsOfEveryRun` | ds4_distributed.c:7657-7733 | over every run each worker's jobs are those of its queue under these operations, with nothing lost, doubled or reordered |
| `PipelineStructures.PendingGuards` | ds4_distributed.c:6319-6372 | a forwarder registers exactly when its list takes the request, and a relay rejects exactly the results that do not answer what its list hands out |
| `PipelineStructures.PendingStep` | ds4_distributed.c:6319-6372 | every action does to a forwarder's ids what its list operations do |
| `PipelineStructures.PendingOfEveryRun` | ds4_distributed.c:6319-6372 | over every run each forwarder's ids are those of its list under these operations: answered in turn or still pending, none withdrawn |
| `TokenHash.ComputeUpdate` | ds4_distributed.c:1495-1502 | folding in the four little-endian bytes of a token is the specified update |
| `TokenHash.BytesOfToken` | ds4_distributed.c:1495-1502 | the bytes folded in are those of the token as a 32-bit word, lowest first |
| `TokenHash.UpdateFlipsBits` | ds4_distributed.c:1495-1502 | each of them flips the bits of the hash that are set in it, and then the hash is multiplied and wraps |
| `TokenHash.Hasher.SpanSteps` | ds4_distributed.c:1504-1511 | the hash of one more token is one more step |
| `TokenHash.Hasher.ComputeSpan` | ds4_distributed.c:1504-1507 | the loop computes the span hash |
| `TokenHash.Hasher.SpanAppend` | ds4_distributed.c:1504-1507 | hashing a and then b is hashing a followed by b |
| `TokenHash.Hasher.PrefixAppend` | ds4_distributed.c:1509-1511 | the result hash of a span is the prefix hash of what comes after it |
| `TokenHash.SomeTokenMovesHash` | ds4_distributed.c:1495-1502 | the hash does depend on the tokens: some token changes it |
| `WorkerSession.Session.ProcessWork` | ds4_distributed.c:7455-7519 | the worker session after a WORK frame and its reply, for every outcome of reset and evaluation, told from the session's fields |
| `WorkerSession.Session.LoadSnapshot` | ds4_distributed.c:7132-7151 | a snapshot load that succeeds leaves exactly the loaded timeline with its hash, one with the wrong hash changes nothing, and one that fails leaves the hash invalid |
| `WorkerSession.LoadedIsWorkedOn` | ds4_distributed.c:7132-7151 | after such a load, from any earlier session, the frame that goes on from the loaded timeline is evaluated |
| `WorkerSession.SoundExactlyUnlessResetFails` | ds4_distributed.c:7466-7519 | a step keeps "a valid hash is the hash of the timeline" if and only if it is not a failed reset of a session whose valid hash is not that of the empty timeline |
| `WorkerSession.GuardedStep` | ds4_distributed.c:7492-7519 | what every step keeps of the guard even when resets fail |
| `WorkerSession.RunGuarded` | ds4_distributed.c:7455-7519 | over every run of WORK, RESET, failed evaluation and snapshot loads the guard stays in force |
| `WorkerSession.EvaluatedOnlyOnItsPrefix` | ds4_distributed.c:7492-7500 | after any run, a frame is evaluated only on the very prefix the coordinator meant, unless two timelines collide under the hash |
| `WorkerSession.EvaluatedExactlyWhenInSync` | ds4_distributed.c:7492-7500 | a frame without reset is evaluated exactly when the session holds its prefix, up to collisions |
| `WorkerSession.ReplayRecovers` | ds4_distributed.c:2948-2987 | a replay that begins with a reset brings any session, whatever happened before, back in step with the transcript |
| `WorkerSession.FailedResetKeepsHash` | ds4_distributed.c:7466-7479 | a failed reset leaves a valid hash beside an emptied timeline, for every token |
| `WorkerSession.SoundCanBeLost` | ds4_distributed.c:7466-7479 | a concrete run in which a failed reset loses the invariant |
| `RouteSearch.FoundIsChain` | ds4_distributed.c:1954-1989 | a found path is a contiguous chain of admissible workers from the first missing layer to the last |
| `RouteSearch.FindsTheFirstChain` | ds4_distributed.c:1954-1989 | the search succeeds exactly when some chain exists, and returns the lexicographically first one |
| `RouteSearch.MissingIsFurthestFrontier` | ds4_distributed.c:1954-1989 | on failure the reported layer is the furthest frontier of any partial chain, and some partial chain reaches it |
| `RouteSearch.FindsTheFirstUsable` | ds4_distributed.c:1944-1989 | in terms of the workers' fields: the search succeeds exactly when contiguous workers lead from the first layer to the last, everybody who has to can hand on a hidden state, and the head is at the end or at home; it finds the first such path, and otherwise reports the furthest layer that such workers lead up to |
| `RouteSearch.ChainIsUsable` | ds4_distributed.c:1944-1952 | the chains of the search are exactly these paths |
| `RouteSearch.Searcher.Search` | ds4_distributed.c:1954-1989 | the in-place search terminates, never overruns its n-entry path buffer, leaves a failed path as it was and appends exactly the chain the search function finds |
| `RoutePlan.SortedIsSearchable` | ds4_distributed.c:1933-1942 | any order qsort may leave under the comparison groups the workers by first layer, as the search needs |
| `RoutePlan.MissingIsAboutTheRegistry` | ds4_distributed.c:2201-2258 | whether a route is missing, and which layer is reported, depends on the registered workers alone and not on how ties are sorted |
| `RoutePlan.BuiltPlanCovers` | ds4_distributed.c:2201-2313 | a built plan starts at layer 0 and covers exactly the layers after the coordinator's own, ends at the last layer with the head, and its encoding is an acceptable route |
| `RoutePlan.ChainCovers` | ds4_distributed.c:2260-2303 | the entries of a chain of HELLO-checked workers are contiguous, in range and carry the output flag only at the end |
| `RoutePlan.PlanMeans` | ds4_distributed.c:2201-2313 | every outcome of a build told from the coordinator's slice and the workers' fields, and a built plan names the workers of a usable path with host, port, layers and head |
| `RoutePlan.BeforeIsAnOrder` | ds4_distributed.c:1933-1942 | the comparison handed to qsort is a strict order of first layer, output head and last layer |
| `RoutePlan.PlanPrefersHeadThenReach` | ds4_distributed.c:1933-1942 | where the plan first differs from another usable route it goes on with a worker that is no worse: the head comes first, and then the longer slice |
| `RoutePlan.Plan.AppendBlob` | ds4_distributed.c:2135-2171 | appends exactly the encoding of the entry, or fails on an unusable host or a payload over 32 bits and changes nothing |
| `RoutePlan.Plan.AppendReturnUpstream` | ds4_distributed.c:2173-2199 | appends the upstream return target, or fails when the payload would not fit |
| `RoutePlan.Plan.AppendPath` | ds4_distributed.c:2260-2302 | the loop over the path leaves its entries and their encoding, or an empty plan and the reason |
| `RoutePlan.Plan.Build` | ds4_distributed.c:2201-2313 | the plan holds the entries of the specified plan and their encoding, and nothing when the build fails |
| `RouteBlob.TakeEncoded` | ds4_distributed.c:6021-6047 | reading the front of an encoded entry gives that entry |
| `RouteBlob.TakenIsEncoded` | ds4_distributed.c:6021-6047 | what is read was encoded: the bytes are the entry's encoding and the rest |
| `RouteBlob.EntryFormat` | ds4_distributed.c:2135-2171 | where every field of an entry stands, most significant byte first |
| `RouteBlob.ReturnFormat` | ds4_distributed.c:2173-2199 | where every field of the return target stands |
| `RouteBlob.PrefixUnique` | ds4_distributed.c:6021-6055 | the bytes determine the entries: a longer description of the same bytes goes on where a shorter one stops |
| `RouteBlob.ValidateBlob` | ds4_distributed.c:6131-6229 | accepts a payload if and only if it is the encoding of that many well-formed contiguous entries and the upstream target, or is empty without entries |
| `RouteBlob.GetEntry` | ds4_distributed.c:6011-6062 | returns exactly the entry that stands at the index behind entries with usable hosts |
| `RouteBlob.GetReturnTarget` | ds4_distributed.c:6064-6129 | returns exactly the return target that ends the payload, checking less about the entries |
| `RouteBlob.BlobIsInjective` | ds4_distributed.c:2135-2199 | two routes with the same encoding are the same |
| `RouteBlob.EntryInPayload` | ds4_distributed.c:6011-6062 | in any encoded entries and return target, the entry at an index is readable exactly when it and all before it have usable hosts, and it is the one written there |
| `RouteBlob.TargetInPayload` | ds4_distributed.c:6064-6129 | in any such payload the return target is readable exactly when its host fits the buffer, whatever the entries hold, and it is the one written there |
| `RouteBlob.RouteInPayload` | ds4_distributed.c:6131-6229 | in any such payload the validator finds a route exactly when the entries are well formed and the target is the upstream connection |
| `RouteBlob.AcceptedMeans` | ds4_distributed.c:6131-6229 | the validator's verdict spelled out field by field: hosts, ports, contiguous layer ranges of the model, the output flag only up to the last layer, and the bare upstream target |
| `RouteBlob.ReadersAgree` | ds4_distributed.c:6011-6129 | both readers go through on exactly the payloads of usable hosts and a target that fits, and read back what was written |
| `RouteBlob.AcceptedExactly` | ds4_distributed.c:6011-6229 | of any payload: the validator accepts it exactly when both readers go through and what they read is a well-formed route upstream |
| `RouteBlob.EmptyHostPartsThem` | ds4_distributed.c:6011-6229 | a payload whose one entry has an empty host: the return target is read, the entry and the route are refused |
| `RouteBlob.PortZeroPartsThem` | ds4_distributed.c:6011-6229 | a payload whose one entry has port zero: both readers take it, the validator does not |
| `RouteBlob.AcceptedEntries` | ds4_distributed.c:6011-6229 | in an accepted payload the entry found at each index is that entry of the route |
| `RouteBlob.AcceptedTarget` | ds4_distributed.c:6064-6229 | in an accepted payload the return target is the upstream connection |
| `WorkFrame.TokensRoundTrip` | ds4_distributed.c:6258-6261 | the tokens read from a frame are the tokens sent |
| `WorkFrame.BodyFormat` | ds4_distributed.c:6238-6275 | where the tokens, the hidden state and the route stand in a frame |
| `WorkFrame.WireSizes` | ds4_distributed.c:785-816 | a hidden state takes four, two or one bytes per value, and no other width is sent |
| `WorkFrame.ProcessWork` | ds4_distributed.c:7171-7421 | a frame passes the checks if and only if its sizes, address, flags, tokens, hash, hidden state and route are right; then the route says where the result goes and of what kind and size it is |
| `WorkFrame.AdmittedIsFit` | ds4_distributed.c:7171-7421 | any frame that is let through, whoever sent it, is fit for evaluation at this worker: its model, exactly its layers, known flags and tokens, within the context, with the right sizes and hash, and at a hop of its route |
| `WorkFrame.HopShape` | ds4_distributed.c:6718-6752 | the fixed part reaching hop k says hop k's layers and index, and otherwise what the coordinator wrote |
| `WorkFrame.HopFlags` | ds4_distributed.c:2526-2532 | at every hop the flags say that a hidden state comes with the frame, ask for logits where the hop's entry has the head, and carry reset and bare acknowledgement exactly as the span asks for them |
| `WorkFrame.HopAdmits` | ds4_distributed.c:7171-7421 | the frame for hop k passes every check of the worker that entry k stands for |
| `WorkFrame.EveryHopAdmits` | ds4_distributed.c:6718-6752 | the frame that reaches hop k, forwarded over all earlier hops, is admitted there; all hops but the last forward to the next entry, the last answers |
| `WorkFrame.BuiltPlanIsAdmitted` | ds4_distributed.c:2493-2552 | for every plan built from HELLO-checked workers and every span that fits, the frame passes every check at every hop, at a registered worker |
| `WorkFrame.AcceptedIsWhole` | ds4_distributed.c:3382-3398 | a reply passes exactly if it is an acknowledgement of a chunk before the final one, a full row of logits, or the hidden values of the whole chunk where the plan promises them |
| `WorkFrame.AnswerAccepted` | ds4_distributed.c:3382-3398 | the last hop answers with a bare acknowledgement, logits or a hidden state as the span and the plan ask for, of the right size, and the answer passes the reader's check |
| `Registry.WithoutKeeps` | ds4_distributed.c:1889-1911 | dropping the registrations a worker replaces keeps all others, and only them |
| `Registry.ForgottenExactly` | ds4_distributed.c:2102-2130 | in a proper registry, forgetting a plan removes exactly the workers that its entries name |
| `Registry.EntryHits` | ds4_distributed.c:2102-2123 | an entry names a worker by host, port, layers and head |
| `Registry.DropFirstAt` | ds4_distributed.c:4095-4118 | removal takes out exactly the first match |
| `Registry.Coordinator.AddWorker` | ds4_distributed.c:1883-1914 | exactly the registrations of the same slice, model, head and host go, the new one stands in front, and the generation advances, unless shutting down |
| `Registry.Coordinator.RemoveWorker` | ds4_distributed.c:4095-4118 | the first worker on the connection goes and the generation advances, or nothing changes |
| `Registry.Coordinator.ForgetRouteWorkers` | ds4_distributed.c:2102-2130 | the first match of every entry goes, and the generation advances once if anybody went |
| `PlanCache.StepInv` | ds4_distributed.c:2948-2976 | every action of the session thread or of a connection thread keeps the plan-cache invariant, also between forgetting and rebuilding |
| `PlanCache.CachedPlanIsFresh` | ds4_distributed.c:4332-4348 | over every interleaving, a ready plan of the current generation is the plan a fresh build would give, and no slice is registered twice from one place |
| `PlanCache.CachedPlanIsUsable` | ds4_distributed.c:4332-4348 | such a plan covers exactly the layers left to workers, over workers registered at that moment |
| `PlanCache.FreshEntriesAreRegistered` | ds4_distributed.c:2260-2271 | every entry of a fresh plan stands for a registered worker |
| `PlanCache.ForgettingOutdates` | ds4_distributed.c:2102-2130 | forgetting a current plan outdates it, unless it needs no worker |
| `PlanCache.RecoveryGoesOn` | ds4_distributed.c:2948-2987 | after a failed evaluation the session keeps or forgets the plan's workers as the error was remote or not, then rebuilds if it has to and replays, and the plan is ready afterwards exactly when that succeeds |
| `PlanCache.OthersGoOn` | ds4_distributed.c:1856-1914 | a HELLO, a lost connection or a shutdown on another thread changes the registry as it should and leaves the session's plan and phase alone |
| `PlanCache.Session.EnsureRoute` | ds4_distributed.c:4332-4348 | keeps a current plan, and otherwise builds one or clears the ready flag |
| `KvLayout.StateBytes` | ds4_distributed.c:4597-4609 | the checked product fails exactly when the state size does not fit 64 bits |
| `KvLayout.LayerTensorBytes` | ds4_distributed.c:4611-4664 | fails exactly when the layer size does not fit 64 bits, and is exact otherwise; a GLM engine answers itself |
| `KvLayout.LayerIsItsTensors` | ds4_distributed.c:4597-4664 | the size is that of the layer's tensors in floats of four bytes: raw rows, and for compressed layers the compressed rows and two states, for ratio four with doubled rows and widths and the same for the indexer |
| `KvLayout.TensorBytes` | ds4_distributed.c:4782-4796 | the summing loop fails exactly when the sum does not fit, and is exact otherwise |
| `KvLayout.SizeOfCut` | ds4_distributed.c:5011-5022 | cutting a run of layers in two cuts its bytes in two |
| `Payload.WordsOfEncoded` | ds4_distributed.c:591-608 | words survive the little-endian file format |
| `Payload.EncodedWords` | ds4_distributed.c:591-608 | the bytes read are the encoding of the words they hold |
| `Payload.WordPlace` | ds4_distributed.c:591-608 | word k stands at byte 4 k, least significant byte first |
| `KvSnapshot.ShardRoundTrip` | ds4_distributed.c:4692-4867 | parsing a written shard gives its layout, row counts and tensors |
| `KvSnapshot.DecodedShard` | ds4_distributed.c:4692-4804 | a shard that parses is the encoding of an acceptable slice |
| `KvSnapshot.SessionRoundTrip` | ds4_distributed.c:4806-4830 | parsing a written session payload gives the session |
| `KvSnapshot.DecodedSession` | ds4_distributed.c:5239-5340 | a payload that parses is the encoding of a session |
| `KvSnapshot.SliceIsOk` | ds4_distributed.c:4998-5030 | every slice of a session is an acceptable shard |
| `KvSnapshot.SessionFormat` | ds4_distributed.c:4806-4840 | where every header word, token, logit, row count and tensor stands in a session file, byte by byte |
| `KvSnapshot.ShardFormat` | ds4_distributed.c:4836-4867 | where every header word, row count and tensor stands in a shard |
| `KvSnapshot.SessionIsOk` | ds4_distributed.c:4682-4690 | which sessions are acceptable, told from the fields of their layout and the lengths of their parts |
| `KvSnapshot.SizeOfLayers` | ds4_distributed.c:4782-4796 | the tensors of a run of layers have the sum of the sizes of its layers |
| `KvTransfer.ValidateRoute` | ds4_distributed.c:4891-4918 | accepts exactly the ranges that tile all layers from layer 0 |
| `KvTransfer.ParseShard` | ds4_distributed.c:4692-4804 | word by word, accepts exactly the shards of the expected range whose layout agrees with the earlier ones |
| `KvTransfer.SavePayload` | ds4_distributed.c:5092-5222 | writes the specified session payload for the shards handed over, or fails as specified |
| `KvTransfer.SaveIsRouteFree` | ds4_distributed.c:5141-5214 | saving the slices of a session writes the same bytes whatever the route |
| `KvTransfer.SaveWritesASnapshot` | ds4_distributed.c:5141-5214 | a save succeeds only on the slices of one session, and then writes that session |
| `KvTransfer.GatherOfSlices` | ds4_distributed.c:5141-5179 | gathering the first k slices gives the layers up to the k-th range |
| `KvTransfer.GatheredAreSlices` | ds4_distributed.c:5141-5179 | shards that gather are the slices of what they gather to |
| `KvRestore.PrepareShard` | ds4_distributed.c:4998-5042 | cuts exactly one shard off the front of the tensors, or fails when they are too short |
| `KvRestore.LoadShards` | ds4_distributed.c:5331-5382 | the nodes that have loaded a shard hold the consecutive slices of the tensors; the loop stops at the first slice that is cut short or refused, and succeeds only with nothing remaining |
| `KvRestore.LoadPayload` | ds4_distributed.c:5225-5391 | succeeds exactly on the encodings of sessions that fit and whose slices every node takes; where a node refuses its slice, exactly the nodes before it have loaded theirs |
| `KvRestore.SaveThenLoad` | ds4_distributed.c:5092-5391 | saved on one route and loaded on another, a session comes back whole, exactly when its context is no larger, its timeline leaves a position free and its tokens are known |
| `KvRestore.LoadThenSave` | ds4_distributed.c:5092-5391 | saving again what a load handed out gives the loaded bytes |
| `KvRestore.FullContextIsNotRestored` | ds4_distributed.c:5263-5270 | every session can be saved, and comes back into a context of its own size exactly when its timeline is shorter than that context |
| `SnapshotChunks.ChunkFormat` | ds4_distributed.c:5986-5996 | where magic, type, sizes, request and data stand in a chunk frame |
| `SnapshotChunks.SendChunks` | ds4_distributed.c:5978-6005 | the chunk frames on the stream carry exactly the payload, all full but perhaps the last, and stop as soon as it is complete |
| `SnapshotChunks.TakeEncoded` | ds4_distributed.c:5978-6005 | reading a frame header and chunk at the front of the stream gives the data that was encoded there, if there is room for it |
| `SnapshotChunks.TakenIsEncoded` | ds4_distributed.c:4536-4577 | what passes the checks of the receiver is the encoding of a chunk of this request, with consistent sizes |
| `SnapshotChunks.ReceiveChunks` | ds4_distributed.c:4522-4586 | succeeds exactly when the stream begins with chunk frames of the request that complete the payload, and leaves the bytes after them |
| `SnapshotChunks.CompletionIsUnique` | ds4_distributed.c:4522-4586 | there is only one way to complete a payload |
| `SnapshotChunks.SendThenReceive` | ds4_distributed.c:4522-4586 | what was sent is what is received, whatever follows on the connection |
| `EngramHash.LayoutValid` | ds4_engram.c:70-90 | accepts exactly the valid layouts; the division test is the product bound |
| `EngramHash.RowInBand` | ds4_engram.c:120-128 | each row lies in its own column's band; the bands lie end to end and fill the layer's rows |
| `EngramHash.HashIsParity` | ds4_engram.c:117-121 | each bit of the hash says whether an odd number of the products of ids and multipliers have it, and that determines the hash |
| `Bits.BitOfXor` | ds4_engram.c:121-121 | bit k of an exclusive or is set where the two bits differ |
| `EngramStream.WindowProductsDoNotWrap` | ds4_engram.c:117-121 | with a valid layout no product of an id and a multiplier wraps, in any window |
| `EngramStream.WindowIds` | ds4_engram.c:108-115 | the loop fills in the sliding-window ids: the token there, or the pad once it or a newer place is masked or before the start |
| `EngramStream.FillLayer` | ds4_engram.c:116-129 | the nested loops write the specified row of every column and nothing else |
| `EngramStream.Hash` | ds4_engram.c:96-137 | bad input changes neither history nor output; otherwise the rows are those of the sliding window and the history moves along |
| `EngramStream.HashInPieces` | ds4_engram.c:96-137 | hashing a ++ b is hashing a and then b from the saved history |
| `EngramStream.FromTheStart` | ds4_engram.c:92-94 | from a reset history the rows are the sliding window over the stream itself |
| `EngramStream.HashedMeans` | ds4_engram.c:101-135 | every row told from the tokens, the mask and the history: the hash over the two, three or four newest ids, padded from a masked one on, reduced and moved by the primes of its column; and the history left behind is the newest three entries |
| `EngramRow.CodesInOrder` | ds4_engram.c:217-221 | the values of all codes: equal steps at first, then doubling every eight codes and with every step of the scale; code 56 at scale 127 is one |
| `EngramRow.DecodedIsNearest` | ds4_engram.c:217-250 | the rounding of the bits gives the multiple of 2^-133 nearest to the exact scaled E4M3 value, ties to even, changes nothing for scales above two, and keeps the sign |
| `EngramRow.BitsOfScaled` | ds4_engram.c:246-250 | a value of four significant bits has no low half in its float bits and is what they stand for |
| `EngramRow.DecodeRow` | ds4_engram.c:240-256 | a row decodes exactly when no code is a NaN, no scale is 255 and no value overflows, and then into its values in order |
| `EngramBatch.Read` | ds4_engram.c:224-258 | succeeds exactly when every row is in range and readable, and then holds them in order |
| `EngramBatch.ReadTurn` | ds4_engram.c:327-337 | one turn of a reader writes the slot of its request only, with that row, and reads only where the row changes |
| `EngramBatch.ReadPart` | ds4_engram.c:320-338 | writes the slots of its own requests only, each with its row, and reads once per change of row |
| `EngramBatch.Turn` | ds4_engram.c:320-338 | a turn of one reader leaves the progress of all the others as it was |
| `EngramBatch.RunParts` | ds4_engram.c:373-390 | however the turns of the readers interleave, every part is done or some row was unreadable |
| `EngramBatch.PartsTile` | ds4_engram.c:323-324 | the parts of the requests lie end to end |
| `EngramBatch.PartsAreEven` | ds4_engram.c:323-324 | no reader has more than one request more than another |
| `EngramBatchRead.RunsAreDistinctRows` | ds4_engram.c:328-336 | after sorting, the changes of row count the distinct rows |
| `EngramBatchRead.PartsCost` | ds4_engram.c:323-336 | splitting over m readers costs at most m - 1 extra reads |
| `EngramBatchRead.SortedIsDistinct` | ds4_engram.c:260-268 | however equal rows are sorted, every slot is requested once |
| `EngramBatchRead.ReadOneBatch` | ds4_engram.c:364-391 | one batch: success exactly when all its rows are readable, every slot right, and no more reads than distinct rows plus readers minus one |
| `EngramBatchRead.ReadBatch` | ds4_engram.c:340-396 | the whole read agrees with reading every row directly, for any sort of ties, number of readers, interleaving, tokens and stride, and each batch takes no more reads than its distinct rows plus readers minus one |
| `ReplicaPlan.LeftOver` | argodrive_read.h:169-169 | the remainders add up to the blocks the floors leave over |
| `ReplicaPlan.Quotas` | argodrive_read.h:169-169 | the loop computes every quota and their sum in 64-bit words without wrapping |
| `ReplicaPlan.Apportion` | argodrive_read.h:164-173 | every block is given out, each source gets its floor or one more, and those with one more have the largest remainders, the earlier source first where they are equal |
| `ReplicaPlan.QuotaIsRounded` | argodrive_read.h:169-173 | every source's share is its quota rounded down or up |
| `ReplicaPlan.GreedyIsBest` | argodrive_read.h:164-173 | no other split of the blocks has a smaller total deviation from the weights |
| `ReplicaPlan.EqualWeights` | argodrive_read.h:170-173 | of two sources of equal weight the earlier one gets as much as the later, or one block more |
| `ReplicaPlan.OnlyOneSplit` | argodrive_read.h:164-173 | largest remainder with the earlier source first leaves exactly one split of the blocks |
| `ReplicaPlan.Plan` | argodrive_read.h:162-180 | in 64-bit words throughout: fails exactly on requests that cannot be planned; otherwise the pieces tile the span inside the file |
| `ReplicaPlan.NothingWraps` | argodrive_read.h:164-180 | for every planned request, each product of blocks and weight, each running sum, each piece in bytes and each position stays within 64 bits and inside the file |
| `ReplicaPlan.PlanIsBest` | argodrive_read.h:162-180 | the plan's own split is the best one |
| `ReplicaPlan.PlanIsDetermined` | argodrive_read.h:162-180 | a request has one plan: whatever tiles its span and shares its blocks so is equal to it |
| `ReplicaPlan.PlanIsProportional` | argodrive_read.h:162-180 | every source reads its proportional share to within a block, by its decode weight in the decode phase if it has one, and the first also what fills no block |
| `ReplicaRead.StepInv` | argodrive_read.h:181-192 | whatever a read returns, bytes land in the source's own slice and nowhere else |
| `ReplicaRead.RunInv` | argodrive_read.h:218-237 | over every interleaving of the loops, what has landed is the file's and the rest is untouched |
| `ReplicaRead.Attribute` | argodrive_read.h:193-212 | of the sources that took part, the one that landed last is charged the time by which it was behind the next, and each has a read counted; a lone one is not |
| `ReplicaRead.Complete` | argodrive_read.h:213-216 | reports the bytes that landed, and success exactly when every slice is full |
| `ReplicaRead.ReadIsAllOrNothing` | argodrive_read.h:218-245 | over every interleaving and pattern of short reads, full slices mean that the buffer is the file range, and otherwise fewer bytes than asked for are reported |
| `ReplicaRead.SourceGets` | argodrive_read.h:181-192 | over every interleaving a source gets exactly as far as its own reads bring it: its whole slice, or what came before its first read that failed or met the end of the file; interruptions cost nothing |
| `ReplicaRead.Exact` | argodrive_read.h:181-192 | the loop reports exactly what came before the first failed read or end of file, at most the length asked for, and writes exactly those bytes, all of them the file's |
| `ReplicaRead.Read` | argodrive_read.h:218-245 | ar_read as a whole, planning, the loops in any interleaving and the verdict: a refused request touches nothing; success exactly when every planned slice is full, and then the buffer is the file range; otherwise the bytes reported are those that landed, each in its place, and every source got exactly as far as its reads brought it |
| `TokenPrinter.ScanInPieces` | ds4_cli.c:421-465 | cutting the text anywhere leaves output, style and unfinished tag as if it had come at once |
| `TokenPrinter.CutsDoNotShow` | ds4_cli.c:421-472 | printing any pieces and finishing prints what printing the whole text at once prints |
| `TokenPrinter.ThinkBlockIsShown` | ds4_cli.c:402-465 | what a text with a think block prints, character by character: the tags vanish, the block is greyed if there are colours, and what follows it starts a new line |
| `TokenPrinter.PlainThen` | ds4_cli.c:415-465 | text in which no tag starts is printed as it is, angle brackets included, and what follows goes on from there |
| `TokenPrinter.TagStartIsKept` | ds4_cli.c:448-458 | the start of a tag at the end of the text is kept back, and nothing else is |
| `TokenPrinter.PendingFits` | ds4_cli.c:451-458 | what is kept back always fits the pending buffer, so that no byte is dropped; a final scan keeps nothing back |
| `TokenPrinter.Printer.constructor` | ds4_cli.c:555-562 | a printer at the start of a line with nothing pending |
| `TokenPrinter.Printer.WriteChar` | ds4_cli.c:415-419 | one character, greyed inside a think block |
| `TokenPrinter.Printer.ResetColor` | ds4_cli.c:408-413 | closes an open colour |
| `TokenPrinter.Printer.Process` | ds4_cli.c:421-465 | the loop over the buffer is the scan of the pending tag and the new text |
| `TokenPrinter.Printer.WriteText` | ds4_cli.c:485-492 | formatted text is scanned, other text goes out as it is |
| `TokenPrinter.Printer.Finish` | ds4_cli.c:467-473 | after finishing nothing is pending and the colour is closed |
| `TopLogprobs.Argmax` | ds4_distributed.c:2315-2321 | nothing is greater than the result, and what comes before it is less or not a number |
| `TopLogprobs.TopLogits` | ds4_distributed.c:2911-2946 | exactly the first min(k, finite) tokens by descending logit and then ascending id, each with its logit less the logarithm of the sum over all finite logits |
| `TopLogprobs.Normalized` | ds4_distributed.c:2925-2929 | these are logarithms of probabilities: over all tokens with finite logits they add up to one |
| `TopLogprobs.GreaterMeans` | ds4_distributed.c:2315-2321 | the C comparison on infinities and NaNs |
| `TopLogprobs.OnlyOneTop` | ds4_distributed.c:2930-2944 | there is only one such list |
| `TopLogprobs.InsertToken` | ds4_distributed.c:2932-2943 | one more token inserted after everything at least as good keeps the list the best k |
| `TopLogprobs.FirstIsArgmax` | ds4_distributed.c:2315-2321 | with all logits finite the first of them is argmax |

## Left out

- The engine and all GPU code: evaluation, reset, save and load enter as functions or outcomes with the assumptions above.
- Sockets, polling, name resolution, temporary files, allocation failures, environment variables, logging, telemetry and timing: they are FIFO channels, byte sequences, parameters or outcomes.
- The order of failures inside the pipeline: an error reply of a middle worker can overtake earlier results, so the pipeline theorems are about failure-free runs; recovery is `ReplayRecovers`.
- A flow window of zero, which switches the window off, and the fallback without pipelining.
- The 16-bit and 8-bit activation codecs: the pipeline carries hidden states losslessly; the sizes of all three widths are in `WorkFrame.dfy`.
- The coordinator's own session checks before and after a call, and the early return of a sync whose checkpoint already equals the prompt: nothing is claimed about workers after that return.
- Wrap-around of the 64-bit generation, request and session identifiers: they are unbounded numbers here.
- The HELLO fields that routing does not use (model name, quantisation, layer count), and the reuse of a closed connection number by a new worker while the old connection's thread is still ending.
- Size checks against SIZE_MAX and SSIZE_MAX in the Engram and replica readers: a single call may read any length here. Positions and lengths of replica reads are 64-bit words.
- The floating-point rounding of log-probabilities: `exp`, `log` and the sums are over real numbers.
- How a GLM engine computes the size of its layers: it is a function of the engine that may fail.
- The JSON writer, dumps, option parsing, the REPL, benchmarks and evaluation tables: they would add only easy members.
