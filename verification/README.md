# Verified model of the x-lib inter-core library and the simon monitor

x-lib lets the tasks of an Epiphany application communicate. Two cores that share a connection hold
one endpoint each; they synchronise and transfer messages by writing three words into each other's
endpoint and waiting for equality of a wrapping sequence number. The host prepares the connections,
the tasks find their peers when they start, and the monitor `simon` serves the traps of the cores.
This project models that machinery in Dafny and proves what it guarantees, and under which exact
conditions. `dafny verify dfyconfig.toml` checks everything.

## The parts

- **The handshake** (`Words`, `Handshake`, `HandshakeSkew`, `Rendezvous`, `HandshakeAgreement`,
  `HandshakeAgreementSteps`, `HandshakeResults`, `HandshakeProgress`, `HandshakeExactness`,
  `HandshakeWitnesses`).
  `x_sync`, `x_sync_send` and `x_sync_receive` on both ends of a connection, cut into single reads and
  writes of shared words. A write is issued first and takes effect later; the writes of one core to
  its peer take effect in the order of issue, interleaved in any way with everything else. Each end runs
  any sequence of calls. Safety holds for every run. The pairing of calls and progress fail when a word
  overtakes its reader and misleads it, or laps it in its wait; both are predicates on single steps. It is
  proved that a run which comes to a standstill has completed its calls as prescribed if and only if
  neither happened, and witnesses show both.
- **The calls as programs** (`Endpoints`, `EndpointRuns`). A class with the fields of the endpoint record
  and the three calls as methods with their wait loops; each method is proved to take exactly the steps of
  the machine. Behaviours of two such endpoints, given each other's writes and interleaved so that no write
  arrives before it is issued, are exactly the runs of the system.
- **The copy loops of the send** (`CopyPlan`, `CopyEngine`). Methods over an array with the loops of the
  source, proved equal to a byte copy with naturally aligned accesses and a bounded number of stores.
- **Start-up** (`Startup`, `StartupResults`, `StartupHandshake`, `StartupProgress`, `TaskStart`).
  Any number of tasks clear and publish their endpoints and look for their peers while tasks that have
  finished already communicate. Every connection's share of such a run is a run of the handshake
  machine from its initial state. `TaskStart` is the program of one task as a class.
- **The connection lists** (`Connections`, `Assembly`, `EndpointLookup`, `Mesh`, `MeshResults`,
  `MeshBuilder`, `MeshStartup`). The growable lists on the host, the search for an endpoint by key, the mesh
  builder, and a mesh application from its connections to its started tasks.
- **Shared memory** (`WorkingMemory`, `SharedLayout`). The downward allocator and the transfer of the
  lists into shared memory, byte by byte.
- **Monitor, addresses, application state** (`Polling`, `PollingLoop`, `Addresses`, `ApplicationState`).

## Where the program and its documentation differ

The model follows the program.

- `x_sync_receive` is documented to return zero when the sender only synchronises; it returns -1
  (x-lib/src/x_sync.c:291-292, 348-350; `ReceiveMeetsSync`), and zero is never returned (`ReceiveNeverZero`).
- The notes on `x_sync_send` (x-lib/src/x_sync.c:137-139) say that the second synchronisation avoids the
  race described for `x_sync`. It protects the control and address words (`StabilityTheorem`), but the
  receiver announces the second phase as soon as it has seen the first, so a sender that has not yet
  looked can miss its answer and wait for ever (`TransferLapWitness`). `TransfersCompleteExactly` says
  which runs complete.
- Receiving keys are documented to be unique per task. The loop that checks them never advances to the
  next entry (x-lib/src/x_application.c:520-529), so only the first entry of the index is compared.
  `OnlyFirstKeyProtected` says which keys cannot be repeated and `SinkKeysExactly` when uniqueness
  survives; `DuplicateSinkKeyAccepted` shows a duplicate.
- The row of a workgroup member is compared with the number of columns (x-lib/src/x_application.c:160).
  The mesh builder succeeds if and only if there are no more rows than columns (`MeshTheorem`).
- The mesh builder reads the result variables of directions that the first cell does not use before
  writing them (x-lib/src/x_application.c:1069-1080). Their initial values are a parameter of the model.
- The allocators are documented to return zero when there is no room; they return the end of free
  memory (x-lib/src/x_application.c:342, 366). `FailureSeen` says what a caller can tell from the
  result; the transfer of the lists cannot tell and reports success (`OverwrittenList`).
- `x_task_id_descriptor`, `xc_validate_task_key` and `xc_add_task_endpoint` end without a return statement
  (x-lib/src/x_application.c:120-134, 481-540, 558-608). They are modelled as returning the value they
  have computed.
- The state of an application is an unsigned 16-bit type (x-lib/include/x_application.h:33-37), so the
  failed state is reported as 65535, above every other (`ReportedVerdicts`).
- An application counts as successful while some of its tasks have not started
  (x-lib/src/x_application.c:850). `SuccessIsPermanentExactly` says when that verdict lasts.

## Assumptions

- The writes of one core to another take effect in the order of issue. Memory belongs to one connection
  at a time: in the start-up machine each connection has a memory of its own for its buffers.
- Buffers lie inside memory, and no send buffer of a connection overlaps a receive buffer of it. Addresses
  do not wrap around.
- A program does not touch a buffer that its peer is using in a call, and uses its own only between calls.
- Integers that the source keeps in 32 bits are unbounded, except where roll-over or truncation matters:
  sequence numbers, coordinates outside the workgroup, words in shared memory, 16-bit states.
- An allocation is never larger than the absolute address at which the application data begins.
- Masks and shifts of addresses are written as division and remainder; or-ing in coreid bits as addition.

## Model

| member | source | states |
|---|---|---|
| Words.RolloverExact | x-lib/src/x_sync.c:84 | counts that differ by at most one are equal exactly if their wrapped values are: the equality waits are right across roll-over |
| Words.RolloverNeedsTwo | x-lib/include/x_connection_internals.h:51 | this holds for every modulus of at least two and fails for modulus one |
| HandshakeSkew.SkewTheorem | x-lib/src/x_sync.c:75-93 | in every run of any calls, error returns included, published counts of the ends differ by at most one, and so do completed counts; no end completes a phase its peer has not published |
| HandshakeSkew.DecidesExactly | x-lib/src/x_sync.c:84 | an equality wait ends exactly when unbounded counters would end it |
| HandshakeSkew.ReadyTheorem | x-lib/src/x_endpoint.c:35-39 | between calls, in every run, the peer has issued as many phases as this end has completed or one more; the endpoint is ready if and only if it is one more and no sequence word is still on its way |
| HandshakeSkew.LappedIsFinal | x-lib/src/x_sync.c:52-57 | no step moves an end that has been overtaken in its wait, nor the end that overtook it out of its own wait |
| HandshakeSkew.LappedForever | x-lib/src/x_sync.c:52-57 | through every further run both ends stay where they are |
| HandshakeSkew.StuckExactly | x-lib/src/x_sync.c:52-57 | with both ends waiting, nothing can move if and only if nothing is on its way and one end has been overtaken; never both |
| HandshakeResults.AgreementTheorem | x-lib/src/x_sync.c:128-130 | for any calls and sizes, in every run in which no control word misleads a reader that it overtakes (a decision that comes out the same does no harm): every call returns what the pair of k-th calls prescribes, buffers hold message and old contents accordingly, and both ends use the same number of sequence values |
| HandshakeResults.OutcomesInFull | x-lib/src/x_sync.c:205-220 | return value and error number of every finished call, for each pair of a sync, a transfer of nothing and a transfer of a size: 0 and 0, -1 and -30012, -1 and -30014, -1 and -30013 at both ends if the message is larger than the buffer, and the size sent and 0 at both ends otherwise |
| HandshakeResults.TransfersFailTogether | x-lib/src/x_sync.c:209-217 | in every run in which no control word misleads a reader that it overtakes, a send and a receive that met and have returned both returned the size sent, or both -1 with the receive buffer unchanged |
| HandshakeResults.OvertakenReadsNextCall | x-lib/src/x_sync.c:52-57 | if a control word does overtake a pending answer, it is that of the peer's next call, and the reader decides on it |
| HandshakeResults.OvertakingHarmsExactly | x-lib/src/x_sync.c:52-57 | when a control word overtakes a pending answer, the call then ends with the return value and error that the pair of k-th calls prescribes if and only if the peer's next call gives the same error as its k-th |
| HandshakeResults.TransfersArePrompt | x-lib/src/x_sync.c:137-139 | between transfers that move data no control word can overtake its reader, in any interleaving |
| HandshakeResults.ChannelTheorem | x-lib/src/x_sync.c:183-283 | refinement to a rendezvous channel in every interleaving of any number of matched sends and receives: the k-th completed receive delivered exactly the k-th message in front of an otherwise untouched buffer |
| HandshakeResults.WindowTheorem | x-lib/src/x_sync.c:221-279 | bytes reach the receive buffer only between the first publication of that receive and its return, only for a pair that moves data, inside the extent of the message, to the address and with the alignment of the partner's call |
| HandshakeResults.FromBufferToBuffer | x-lib/src/x_sync.c:196-274 | in every run in which no control word misleads its reader, each access of a copy takes bytes at some offset in the sender's buffer to the same offset in the receiver's, inside the message; a buffer address within the first megabyte carries the coreid bits of the buffer's own core |
| HandshakeResults.StabilityTheorem | x-lib/src/x_sync.c:137-139 | the control word read after the first phase, and the address word throughout the copy, are those of the partner's call |
| HandshakeResults.ReceiveNeverZero | x-lib/src/x_sync.c:345-360 | in every run of any calls, a receive returns -1 or a positive size, never zero |
| HandshakeProgress.StepDecreases | x-lib/src/x_sync.c:206 | every step of a core and every arrival lowers a measure; a spinning core makes no step |
| HandshakeProgress.SchedulesAreFinite | x-lib/src/x_sync.c:206 | a bound on the length of every schedule |
| HandshakeProgress.CompletionTheorem | x-lib/src/x_sync.c:97-139 | if no wait is lapped and no reader misled, any two programs can only come to rest when all calls that have a partner have returned with the prescribed results; a longer program then waits in its next call |
| HandshakeExactness.CompletionExactly | x-lib/src/x_sync.c:52-57 | for any two programs, every run that has come to a standstill has completed all calls that have a partner, with the prescribed results and buffers, if and only if no sequence word arrived before its reader had seen the previous one and no control word misled a reader that it overtook |
| HandshakeExactness.TransfersCompleteExactly | x-lib/src/x_sync.c:137-139 | for matched transfers, in every run: all of them have returned at the standstill if and only if no wait was lapped |
| HandshakeProgress.CallsInProgressMove | x-lib/src/x_sync.c:206 | under the same condition, two ends inside calls always have a next step |
| HandshakeWitnesses.RaceWitness | x-lib/src/x_sync.c:52-57 | a run in which a sync that met a sync reports a mismatch |
| HandshakeWitnesses.ReceiveMeetsSync | x-lib/src/x_sync.c:348-350 | a run in which a receive that meets a sync returns -1 |
| HandshakeWitnesses.LapWitness | x-lib/src/x_sync.c:52-57 | a run of two syncs on each end that comes to a standstill |
| HandshakeWitnesses.TransferLapWitness | x-lib/src/x_sync.c:137-139 | a run of one send and one receive that comes to a standstill |
| EndpointRuns.LocalStepIsStep | x-lib/src/x_sync.c:79-85 | a step of one core's part, whose peer has still writes to issue, is a step of the whole system; what it sends joins the writes on their way |
| EndpointRuns.PeerIssues | x-lib/src/x_sync.c:79-85 | a step of the peer that issues the next of those writes leaves this core's part as it is |
| EndpointRuns.PeerReceives | x-lib/src/x_sync.c:79-85 | so does an arrival at the peer, if it brings no data for this core's buffers |
| EndpointRuns.TracesAreRun | x-lib/src/x_sync.c:75-93 | two behaviours of the endpoint programs from start-up, through any number of calls, each given what the other issues and interleaved so that no write arrives before it is issued, are a run of the whole system that ends where they end; for calls other than matched transfers, if no data is for a buffer of its own sender |
| EndpointRuns.RunIsTraces | x-lib/src/x_sync.c:75-93 | every run of the two endpoint programs comes from two such behaviours, under the same condition |
| EndpointRuns.TracesDeliver | x-lib/src/x_sync.c:183-283 | so two endpoint programs that make matched transfers deliver: the k-th completed receive holds the k-th message in front of the old contents of its buffer |
| Endpoints.Endpoint.Await | x-lib/src/x_sync.c:84 | the wait loop ends exactly when the word has the awaited value, and otherwise is left only when no write of the peer is left to arrive |
| Endpoints.Endpoint.Sync | x-lib/src/x_sync.c:75-93 | the call takes exactly the steps of the machine; it returns with the machine's result and error, or is blocked in the wait with nothing left to arrive |
| Endpoints.Endpoint.SyncSend | x-lib/src/x_sync.c:183-283 | likewise for a send; on an endpoint of another mode it returns -1 and changes nothing |
| Endpoints.Endpoint.SyncReceive | x-lib/src/x_sync.c:319-363 | likewise for a receive |
| Endpoints.Endpoint.IsReady | x-lib/src/x_endpoint.c:35-39 | between calls and under the skew invariant, the wrapped comparison is true if and only if one phase of the peer that this end has not completed has taken effect |
| CopyPlan.PlanCovers | x-lib/src/x_sync.c:163-180 | the planned accesses cover each byte once, in order, and every one is naturally aligned |
| CopyPlan.PlanLength | x-lib/src/x_sync.c:226-273 | the exact number of stores for every alignment; at most 4*(size/32)+11 for word buffers of 32 bytes or more in the same position of a doubleword |
| CopyPlan.PlanIsByteCopy | x-lib/src/x_sync.c:221-274 | performing the plan is a byte copy: destination equals source, all other bytes unchanged |
| CopyEngine.CopyDoubles | x-lib/src/x_sync.c:233-240 | the doubleword loop performs the doubleword part of the plan |
| CopyEngine.CopyQuads | x-lib/src/x_sync.c:242-249 | the unrolled word loop |
| CopyEngine.CopyWords | x-lib/src/x_sync.c:250-254 | the word loop |
| CopyEngine.CopyOctets | x-lib/src/x_sync.c:261-270 | the unrolled byte loop |
| CopyEngine.CopyBytes | x-lib/src/x_sync.c:255-257 | the byte loop |
| CopyEngine.CopyMessage | x-lib/src/x_sync.c:221-274 | the loops together copy the message for every size and alignment, change nothing else, perform exactly the plan, and keep the bound on stores |
| StartupResults.ReciprocityTheorem | x-lib/src/x_task.c:250-309 | in every interleaving of any number of tasks without self-connections, two connected tasks that have finished start-up point at each other, with opposite modes and the same connection |
| StartupResults.ArrivesAfterClearing | x-lib/src/x_task.c:250-270 | whatever arrives at an endpoint arrives after its owner cleared and published it |
| StartupHandshake.CleanStartTheorem | x-lib/src/x_task.c:250-309 | the share of each connection in any such run is a run of the handshake machine from equal sequences zero, so no signal is lost |
| StartupHandshake.ApplicationChannels | x-lib/src/x_task.c:340-346 | the channel result for every connection of a whole application, start-up included |
| StartupProgress.ScansNeverWorsen | x-lib/src/x_task.c:272-309 | the count at the end of a scan is the number of unresolved endpoints, and at the end of no later scan is it larger |
| StartupProgress.ResolutionTheorem | x-lib/src/x_task.c:272-309 | once its peers have published their ends of its connections, the next full scan of a task, first or later, ends its loop: after any steps it is active, or has been given fewer of its own than a scan takes and can take another; other tasks may not even have begun |
| StartupProgress.StartupTheorem | x-lib/src/x_task.c:250-309 | from the beginning: after any run that gives each task the steps of its publishing loop, and any continuation, every task is active, or has been given fewer own steps in the continuation than two scans take and can take another |
| StartupProgress.AllCanStart | x-lib/src/x_task.c:250-309 | from every initial state there is a run in which all tasks become active |
| StartupProgress.SelfConnectionTheorem | x-lib/src/x_task.c:258-265 | a task connected with itself never leaves start-up |
| TaskStart.OthersOnlyPublish | x-lib/src/x_task.c:258-265 | what another task's start-up does to this one: a pointer appears, or nothing |
| TaskStart.OwnStepIsStep | x-lib/src/x_task.c:250-309 | a step of this task's program is a step of the start-up machine with the same effect, whatever state the other tasks are in |
| TaskStart.RunIsBehaviour | x-lib/src/x_task.c:250-309 | every run of the start-up of all tasks is, for one task, its own steps and publications of others |
| TaskStart.Task.Publish | x-lib/src/x_task.c:250-271 | the publishing loop takes exactly the steps of the start-up machine |
| TaskStart.Task.Scan | x-lib/src/x_task.c:277-306 | one scan; if it counts something and nothing more is published, a named peer is missing |
| TaskStart.Task.Resolve | x-lib/src/x_task.c:275-309 | the poll loop ends with the start-up complete, or goes on only because a peer is missing for good |
| Connections.Registry.ValidateTaskKey | x-lib/src/x_application.c:481-540 | -2 if the id is not configured; else, for a sending key, -1 if some connection in the list has that source and key and 0 otherwise, and for a receiving key, -1 if entry 0 of the index has that sink and key and 0 otherwise |
| Connections.Registry.AddTaskEndpoint | x-lib/src/x_application.c:558-608 | one more entry in one index, which has room in whole chunks with less than a chunk to spare |
| Connections.Registry.ConnectByTaskId | x-lib/src/x_application.c:617-669 | 0 if and only if both tasks are configured and neither test finds the key taken: then the list has this connection as a new last entry; otherwise -1 and nothing changes; capacities and indexes stay valid through growth |
| Connections.RequestExact | x-lib/src/x_application.c:617-669 | the same for a request on the lists as values |
| Connections.IndexTheorem | x-lib/src/x_application.c:577-606 | after any requests each index is exactly the list of entries that name its task, and no two entries share source and source key |
| Connections.NamingExact | x-lib/src/x_application.c:577-606 | an entry is in an index if and only if it names that task |
| Connections.NamingIncreases | x-lib/src/x_application.c:577-606 | without self-connections indexes are strictly increasing |
| Connections.SinkTestExact | x-lib/src/x_application.c:520-529 | a receiving key is in use if some entry of the index holds it; the test sees only entry 0 |
| Connections.RepeatRefusedExactly | x-lib/src/x_application.c:520-529 | a request in order otherwise that repeats a receiving key is refused if and only if entry 0 of the receiver's index holds the key |
| Connections.FirstEntryStays | x-lib/src/x_application.c:601-604 | entry 0 of an index never changes |
| Connections.OnlyFirstKeyProtected | x-lib/src/x_application.c:520-529 | after any requests, repeats of the key of a connection are refused if and only if it is the first in its receiver's index; that key then belongs to no other connection |
| Connections.SinkUniqueExactly | x-lib/src/x_application.c:520-529 | a request keeps receiving keys unique if and only if it does not repeat one that entry 0 of the receiver's index leaves open |
| Connections.SinkKeysExactly | x-lib/src/x_application.c:467-469 | through any requests, receiving keys stay unique if and only if none of them repeated a key other than that of entry 0 of the receiver's index at that time |
| Connections.DuplicateSinkKeyAccepted | x-lib/src/x_application.c:520-529 | three requests that end with a duplicate receiving key |
| Connections.UniqueKeysAccepted | x-lib/src/x_application.c:617-669 | any set of connections between configured tasks with unique keys is accepted whole and in order |
| Assembly.ApplicationIndexed | x-lib/src/x_application.c:702-719 | the lists that any requests build give each endpoint its place at both of its tasks, as start-up needs |
| Assembly.RequestedApplicationResolves | x-lib/src/x_task.c:275-309 | from requests to resolved endpoints: each accepted connection is resolved reciprocally at those places |
| Assembly.SelfConnectedNeverStarts | x-lib/src/x_task.c:258-265 | a requested self-connection keeps its task from starting |
| EndpointLookup.GetEndpoint | x-lib/src/x_task.c:126-150 | the first endpoint that goes by the key, or none if no endpoint does |
| EndpointLookup.HandlesOfIndex | x-lib/src/x_task.c:250-271 | the endpoints that a task searches once it has published them are those its index describes, in mode and connection |
| EndpointLookup.LookupFindsBothEnds | x-lib/src/x_task.c:114-115 | with unique keys, exactly one endpoint of each of the two tasks answers for a connection |
| EndpointLookup.SelfConnectionHidesReceiver | x-lib/src/x_task.c:137-146 | the receiving end of a self-connection cannot be found |
| Mesh.WrappedStep | x-lib/src/x_application.c:682-689 | unsigned reduction brings a coordinate one step outside back round the edge |
| Mesh.MemberTaskExact | x-lib/src/x_application.c:150-172 | the task at given coordinates: there is one if and only if both are at least 0 and below the number of columns, the row too, and the place row * columns + column is configured; otherwise -1 |
| Mesh.ConnectByWorkgroupCoords | x-lib/src/x_application.c:671-700 | a request between the tasks at two reduced coordinates |
| Mesh.MeshLinksExact | x-lib/src/x_application.c:1047-1068 | the links attempted are exactly those inside the workgroup, or round its edge if it wraps |
| Mesh.MeshSize | x-lib/src/x_application.c:1047-1068 | 4RC connections in a torus, 2(2RC-R-C) in an open mesh |
| MeshResults.MeshTheorem | x-lib/src/x_application.c:160 | all connections of the mesh are accepted if and only if there are no more rows than columns |
| MeshResults.MeshKeysUnique | x-lib/src/x_application.c:1047-1068 | keys are unique per task, also between sending and receiving |
| MeshResults.SendingKeysExact | x-lib/src/x_application.c:1049-1068 | a task has a sending key for a direction exactly if it has a neighbour there |
| MeshResults.ReceivingKeysExact | x-lib/src/x_application.c:1049-1068 | and a receiving key for a side exactly if it has a neighbour there |
| MeshResults.TorusKeys | x-lib/include/x_application.h:105-113 | in a torus every task has all eight keys and no others |
| MeshResults.NeighboursConnected | x-lib/src/x_application.c:1047-1068 | a task and its neighbour in any direction find the two ends of one connection under their matching keys |
| MeshResults.TorusNeighbours | x-lib/src/x_application.c:1047-1068 | the four directions by name: TO_RIGHT at (r,c) and FROM_LEFT at (r,(c+1) mod C) are the two ends of one connection, and so on |
| MeshStartup.NeighboursJoined | x-lib/src/x_task.c:126-150 | in any run of the application built, two neighbours that have both started, each searching the endpoints it has, find under those keys one endpoint each, of opposite modes, that point at each other |
| MeshResults.SelfConnectionsExactly | x-lib/src/x_application.c:1047-1068 | some task is connected with itself exactly when the mesh wraps around a single row or column |
| MeshBuilder.ConnectCell | x-lib/src/x_application.c:1049-1068 | the four attempts of one cell |
| MeshBuilder.AssignExecutables | x-lib/src/x_application.c:1035-1045 | every core of the workgroup has an executable, other slots are untouched |
| MeshBuilder.ConnectMesh | x-lib/src/x_application.c:1047-1084 | the loops make exactly the mesh's requests in order on any lists; success if and only if all were accepted and no unwritten variable holds an error |
| MeshBuilder.PrepareMesh | x-lib/src/x_application.c:1008-1085 | on an application without connections: success, the number of connections and their order |
| WorkingMemory.Arena.Allocz | x-lib/src/x_application.c:324-345 | if there is room, every byte of the block is 0 and no other byte changes; if not, nothing does; the result is the end of free memory in both cases |
| WorkingMemory.Arena.AllocString | x-lib/src/x_application.c:347-369 | likewise for a string: the block holds its characters and a terminating 0 |
| WorkingMemory.ClearedBlock | x-lib/src/x_application.c:324-345 | on any store, a granted request for cleared memory leaves zeros in the block and changes nothing else |
| WorkingMemory.FitsExactly | x-lib/src/x_application.c:331-337 | a block is granted exactly when free memory holds an aligned stretch of its size; at most seven bytes are skipped |
| WorkingMemory.AllocationTheorem | x-lib/src/x_application.c:324-369 | through any requests, granted or refused, blocks are stacked downwards and aligned, each still holds its contents, all other memory is untouched |
| WorkingMemory.StackedDisjoint | x-lib/src/x_application.c:311-312 | such blocks are pairwise disjoint |
| WorkingMemory.StackedInside | x-lib/src/x_application.c:311-312 | and lie inside working memory |
| WorkingMemory.StackedConsumption | x-lib/src/x_application.c:311-312 | memory consumed is the bytes asked for plus at most seven per block |
| WorkingMemory.FailureSeen | x-lib/src/x_application.c:308-309 | the result is never zero; a non-empty request failed if and only if the result is the old end |
| SharedLayout.WordsRoundTrip | x-lib/src/x_application.c:761-764 | a 32-bit word written in an array is read back at its place |
| SharedLayout.ConnectionLayout | x-lib/include/x_connection_internals.h:75-82 | entry i begins 24 i bytes from the start of the list; source, source key, sink and sink key lie at its bytes 0, 4, 8 and 12, each as four bytes, least significant first, and then two null pointers |
| SharedLayout.LaidOutExactly | x-lib/src/x_application.c:739-767 | written blocks are inside working memory and disjoint if and only if every one found room |
| SharedLayout.SharedListsFaithful | x-lib/src/x_application.c:739-767 | if so, reading shared memory gives back the host's list entry for entry, and every index |
| SharedLayout.SharedListsLaidOutExactly | x-lib/src/x_application.c:739-767 | the same equivalence for the list and the indexes together |
| SharedLayout.Layout.SetupConnections | x-lib/src/x_application.c:723-773 | the transfer's result, memory and descriptors, in all of its branches |
| SharedLayout.OverwrittenList | x-lib/src/x_application.c:739-767 | whenever there is room for none of them, the list and the last index are put at the same place although success is reported, and the list reads back with the first number of that index as its first source |
| SharedLayout.UsedUpMemory | x-lib/src/x_application.c:739-767 | so it does, for example, when working memory behind the header has been used up |
| Polling.PollingTheorem | src/simon.c:252-347 | after any polls, through exits and revivals, the exited count is the number of set flags; polling goes on only while a flag is clear and ends with result 0 if and only if all are set |
| Polling.FlagsExact | src/simon.c:292-304 | a flag is set if and only if the core was found at a software exception or at a trap other than 0, 1, 2, 6 and 7, and none of those five was served since |
| Polling.StatusExact | src/simon.c:304-338 | the status kept for a core whose flag is set is that of the first halt since it last showed life: the exit status for trap 3, the number of any other trap, the cause of a software exception; a core that never halted has 0 |
| Polling.FailureExact | src/simon.c:263-291 | the result is -1 exactly when the last poll could not read the exception or failed to serve trap 0, 1, 2, 6 or 7, and no earlier one did |
| PollingLoop.ServiceTraps | src/simon.c:225-357 | against any finite scripts of events, each followed by any halt that lasts, the loops end, with result 0 if and only if all flags are set, and so whenever nothing goes wrong; a core is polled again at once exactly if its I/O was served, otherwise the next in its row or the first of the next row follows; each core's polls follow its script; the sweeps and whether each met an I/O trap are those of the polls; flags, status and result too |
| PollingLoop.ServiceTheorem | src/simon.c:252-347 | if nothing goes wrong the result is 0; with result 0 every core is at a halt and has the exit status, trap number or cause of the halt that began it; every script that does not halt early was consumed, each trap served once and in order, and its core has the exit status, trap number or cause of its final halt |
| PollingLoop.OrderExact | src/simon.c:252-347 | the polls behind any state that the loops reach are in that order |
| PollingLoop.ShortPauses | src/simon.c:348-354 | a sweep is followed by the short pause exactly when one of the last five sweeps met an I/O trap |
| Addresses.EpiphanyToHost | x-lib/src/x_epiphany_control.c:242-305 | the host address in plain terms: 0 for 0; the core's own mapping plus the address below one megabyte; the base of the last segment that covers the address plus the offset into it; else, for the core named by bits 20 to 31 if it is in the workgroup, its mapping plus the low twenty bits; else 0 |
| Addresses.TranslationExact | x-lib/src/x_epiphany_control.c:242-305 | a host address meets that description if and only if it is the translation |
| Addresses.NullExactly | x-lib/src/x_epiphany_control.c:234-235 | exactly which addresses translate to null |
| Addresses.AliasCoherence | x-lib/src/x_epiphany_control.c:252-299 | a local address from its own core and its global form from any core are the same host address, if the coreid is not zero and the global form is in no external segment |
| Addresses.AliasExactly | x-lib/src/x_epiphany_control.c:252-299 | when the two agree in all other cases |
| Addresses.GlobaliseTwice | x-lib/src/x_sync.c:196-202 | making an address global is idempotent |
| ApplicationState.GetApplicationState | x-lib/src/x_application.c:797-871 | the reported value from the states of the tasks in use: 65535 if and only if one is negative, 2 if and only if none is negative and one is 2, 3 if and only if none is negative or 2 and one is 3 or more, 0 if and only if all are 0 or 1 and one is 0, 1 if and only if all are 1; and the number of tasks in each state |
| ApplicationState.VerdictExact | x-lib/src/x_application.c:797-871 | the verdict on any table meets those equivalences |
| ApplicationState.ReportedVerdicts | x-lib/include/x_application.h:33-41 | reported values tell verdicts apart, but the failed one lies above all others |
| ApplicationState.ReportedIsTerminal | x-lib/src/x_task.c:316-355 | every result ends its task; which results are reported unchanged |
| ApplicationState.EventLeaves | x-lib/src/x_task.c:340-354 | the state that each event of a task's life leaves: 2, 3, -30010, and at the end the program's result, or exactly -30008 if it is above 0 or not above -30000; no other task changes |
| ApplicationState.LifeKeeps | x-lib/src/x_task.c:340-354 | finished tasks stay as they are and none becomes virgin again |
| ApplicationState.FailureIsPermanent | x-lib/src/x_application.c:844-846 | a failed verdict is permanent over every run of task lives |
| ApplicationState.SuccessIsPermanentExactly | x-lib/src/x_application.c:850-852 | a successful verdict is permanent if and only if no task in use is still to start |
| ApplicationState.FinalVerdict | x-lib/src/x_application.c:786-794 | when nothing can change, success means that there are tasks and all ended with zero |

## Left out

- System calls and legacy I/O traps: their marshalling and execution; a poll only says whether they were served.
- Device access, loading and starting of cores, processes, sleeping: effects of foreign code; the order of polls and pauses is modelled, time is not.
- Failures of the host's memory allocation: allocation succeeds.
- Display, diagnostics, register dumps and message texts.
- x_create_task and the host branch of x_launch_task: unfinished in the source.
- x_get_task_coordinates, x_is_workgroup_task, x_is_host_task, x_task_descriptor_id: direct lookups.
- The error path of xt_initialise_endpoints for a too small endpoint array: its only caller passes an array of the right size.
- Host tasks in start-up: the translation of peer addresses to host mappings; endpoints are named by owner and slot.
- Endpoints.Endpoint.SyncSend: performs the copy access by access as planned; that the copy loops make exactly those accesses is CopyEngine.CopyMessage. Stores of the program between calls are in the step machine, not in the class.
- EndpointRuns.TracesAreRun: for calls other than matched transfers it asks that no data is for a buffer of its own sender, since an endpoint object sees no writes but its peer's.
- TaskStart.Task.Scan: writes of peers that are already communicating may reach an endpoint while its owner still scans; the class leaves them out, the start-up machine has them.
- SharedLayout.Layout.SetupConnections: bytes that would fall past the end of the region are dropped, and the branch for an allocation at offset zero is omitted because working memory does not begin there.
- Mesh.ConnectByWorkgroupCoords: a descriptor beyond the table counts as not configured.
- PollingLoop.ServiceTraps: an empty rectangle, for which the source never returns, is excluded.
- Layout of descriptors and endpoints in memory, apart from the connection list and the indexes.
