# LightNVM resource server: a verified model

LightNVM hands out parts of Open-Channel SSDs. A node has devices (units), each made of channels,
LUNs and blocks. A client asks for shared channels (some blocks of each LUN) or exclusive channels
(whole), gets a *virtual SSD* describing what it was granted, and, if it is remote, uses it through
the server, which lays the granted blocks out as stripes (vblks).

| file | content |
|---|---|
| `Bytes.dfy` | 32-bit words in byte buffers |
| `VirtualSsd.dfy`, `WireFormat.dfy`, `Serializer.dfy` | the virtual SSD, its nested wire format on values and field by field, and the in-place readers and writers proved against it |
| `Requests.dfy` | the 24-byte request frames and dispatch |
| `Allocation.dfy` | one allocation request on values, with one counter per channel |
| `Physical.dfy`, `Manager.dfy` | the mutable LUN, channel, unit and manager objects, proved to compute it |
| `Grants.dfy` | exactly which channels and blocks of which device a request is granted |
| `Ownership.dfy`, `DeviceNames.dfy` | which blocks are granted, over whole runs |
| `Accounting.dfy`, `RequestBound.dfy` | conservation, greedy completeness, how much a request can get |
| `ReplySize.dfy`, `NodeReply.dfy` | size of a reply against the reply buffer |
| `Striping.dfy` | the striping loop and the shape of the stripes |
| `Framing.dfy`, `WriteQueue.dfy` | the receiving and sending side of a connection |
| `ThreadPool.dfy` | the thread pool as interleaved atomic steps |
| `Service.dfy` | an allocation request end to end |
| `ClientStream.dfy`, `Session.dfy` | a whole session: input bytes to decoded replies |

Assumptions, all written as preconditions or types: a device's numbers of channels, LUNs and blocks
and the product of the last two fit in 32 bits (`GeoOk`); device names have no NUL byte and fit a
32-bit length (`NameOk`); a reader is given a buffer that holds the whole record, as the code itself
demands; a little-endian layout stands in for the native loads and stores. Geometry, device names,
read and write outcomes, vblk test outcomes and thread interleavings are arbitrary parameters.

Four things the code does that one might not expect are stated as they are. The thread pool admits
one job more than its maximum (`BoundIsReached`). A shared request served by several units can get
more blocks than it asked for, since only its channel count shrinks (`NodeCanExceedRequest`; exactly
when it cannot happen is `NodeWithinRequestIff`). A reply that does not fit the 1024-byte buffer is
not noticed (`NodeRepliesFitIff` says exactly when all fit). One
device registered twice is handed out twice; distinct names are exactly what prevents it
(`NeverTwiceIffDistinct`).

## Model

| member | source | states |
|---|---|---|
| `Ownership.NoBlockGrantedTwice` | ocssd_server.h:1138-1158 | over every sequence of added devices and requests in which no two devices holding blocks are added under one name, shared and exclusive mixed, the granted blocks are exactly the blocks gone from the devices, none twice, each inside its device |
| `Ownership.GrantsAreDisjoint` | ocssd_server.h:993-1064 | two grants of a run together list any block at most once |
| `Ownership.GrantListsOnce` | ocssd_server.h:993-1064 | no single grant of a run lists a block twice |
| `Ownership.EachUnitGrantsOnce` | ocssd_server.h:1042-1064 | no unit of a grant lists a block twice, whatever the device names |
| `Ownership.RunMoves` | ocssd_server.h:1138-1158 | from any valid state and block by block: gone afterwards = gone before + granted, and the invariant is kept |
| `Ownership.SharedAllocMoves` | ocssd_server.h:993-1015 | a walk over shared channels moves exactly the blocks its grant lists from free to gone |
| `Ownership.ExclusiveAllocMoves` | ocssd_server.h:1017-1040 | a walk over exclusive channels moves exactly the whole channels its grant lists |
| `Ownership.GoneUnitOnce` | ocssd_server.h:965-991 | a device's own bookkeeping never counts a block twice nor one outside its geometry |
| `Ownership.GrantIdsCount` | ocssd_server.h:1155-1156 | the k-th request of a run gets the k-th id in 32-bit arithmetic, whether or not anything was granted |
| `DeviceNames.NeverTwiceIffDistinct` | ocssd_server.h:1129-1136 | on a fresh node no request sequence grants a block twice if and only if devices holding blocks have distinct names |
| `DeviceNames.AliasingGrantsTwice` | ocssd_server.h:1129-1136 | two entries of one name: constructs requests that grant a block twice |
| `DeviceNames.Exhaust` | ocssd_server.h:993-1015 | repeating one shared request empties the shared channels of every device |
| `Accounting.RunConserves` | ocssd_server.h:1066-1099 | over every run, free blocks of a device plus all blocks ever granted from it equal channels × LUNs × blocks |
| `Accounting.UnitAllocConserves` | ocssd_server.h:1042-1064 | one request on one unit: free after + total granted = free before |
| `Accounting.ExclusiveRequestIsGreedy` | ocssd_server.h:1017-1040 | an exclusive request over the node gets min(asked, unused exclusive channels) and uses up that many |
| `Accounting.SharedRequestIsGreedy` | ocssd_server.h:993-1015 | a shared request to a unit gets min(asked, open shared channels) if (blocks / channels) / LUNs ≥ 1, else nothing and the unit is unchanged |
| `Grants.SharedRequestPicks` | ocssd_server.h:993-1015 | a shared request picks the first asked-for open shared channels of a unit in id order, or all if there are fewer, and leaves the exclusive ones alone |
| `Grants.SharedRequestGets` | ocssd_server.h:862-876 | of every LUN of a picked channel it gets, from the first block not handed out, min(blocks / channels / LUNs, blocks left) blocks |
| `Grants.SharedRequestLeaves` | ocssd_server.h:856-883 | a picked channel is afterwards that many blocks further on, every other shared channel as before |
| `Grants.SharedRequestMet` | ocssd_server.h:993-1015 | with enough open channels, none with less left than its share, the request gets channels × LUNs × (blocks / channels / LUNs) blocks |
| `Grants.ExclusiveRequestPicks` | ocssd_server.h:1017-1040 | any other request picks the first asked-for unused exclusive channels of a unit in id order, or all if there are fewer, and leaves the shared ones alone |
| `Grants.ExclusiveRequestGets` | ocssd_server.h:1027-1032 | a picked exclusive channel is described whole: mark 0, LUNs × blocks, no LUN list |
| `Grants.ExclusiveRequestLeaves` | ocssd_server.h:1023-1026 | a picked exclusive channel is taken from then on, every other as before |
| `Grants.NextDeviceGets` | ocssd_server.h:1138-1158 | devices are served in the order they were added: one more device changes nothing for those before it, is asked for the channels they left open, and is listed behind them under its own name and geometry if it gives any |
| `Grants.AddedDevice` | ocssd_server.h:957-991 | a new device goes behind the others, which stay as they are; its channels 0 to 3 are shared, those from 4 on exclusive, and nothing of it is handed out |
| `Grants.DevicesAsAdded` | ocssd_server.h:1129-1136 | over every run the node's devices are those added, in order, with their names and geometries |
| `Accounting.UnitWithinRequest` | ocssd_server.h:998-1011 | one unit never gives a shared request more blocks than asked |
| `Accounting.NodeWithinRequestPerUnit` | ocssd_server.h:1144-1153 | the node gives at most the blocks asked once per unit that gives anything |
| `Accounting.FirstUnitSuffices` | ocssd_server.h:1144-1153 | whatever the geometries, a request the first unit can serve alone gets all its channels and stays within its blocks |
| `RequestBound.NodeWithinRequestIff` | ocssd_server.h:1144-1153 | on a fresh node every shared request of every request sequence stays within its blocks if and only if no device holding blocks is followed by one with LUNs × blocks above its LUN count (devices of 2^31 or more LUNs, which no 32-bit request can ask for two channels of, aside) |
| `RequestBound.TaperingSuffices` | ocssd_server.h:993-1015 | the sufficient half, for every state and request |
| `RequestBound.OvertakingExceeds` | ocssd_server.h:1147-1149 | the necessary half: constructs the requests that exceed |
| `RequestBound.Narrow` | ocssd_server.h:993-1015 | one-channel requests can close the shared channels in order up to any one, touching nothing behind it |
| `Accounting.NodeCanExceedRequest` | ocssd_server.h:1147-1149 | two one-channel devices answer 2 channels and 2n blocks with 3n blocks |
| `Allocation.QuotaBounds` | ocssd_server.h:856-883 | a channel gives at most what was asked and never passes the end of its LUNs |
| `Allocation.QuotaIsLargest` | ocssd_server.h:862-870 | the per-LUN share is the largest that the even split and the free blocks allow |
| `Allocation.UnitsAllocGrants` | ocssd_server.h:1138-1158 | no more channels than asked, every listed unit has at least one, nothing granted exactly when no unit is listed |
| `Allocation.GrantIsWellFormed` | ocssd_server.h:449-465 | every grant survives the wire: mark 0 or 1, LUN count equals list length, all extents non-empty and inside the device, exclusive channels list no LUN |
| `Allocation.UnitAllocKeeps` | ocssd_server.h:1042-1064 | every request keeps the device invariant (ids, shape, shared never whole, exclusive never partial) |
| `Physical.Lun.AllocBlocks` | ocssd_server.h:780-791 | bump allocation of min(asked, left) blocks at the old mark; the extent stays (0,0) when nothing is given |
| `Physical.Channel.constructor` | ocssd_server.h:804-818 | a fresh channel with all LUNs at zero |
| `Physical.Channel.DistributeOverLuns` | ocssd_server.h:861-882 | the loop with its full check and early exit serves every LUN: the exit fires at the last LUN only, no LUN is skipped, all get the same extent |
| `Physical.Channel.AllocBlocks` | ocssd_server.h:856-883 | keeps all LUNs in lockstep and the used count equal to their sum, and refines the single-counter step |
| `Physical.Channel.GetFreeBlocks` | ocssd_server.h:845-850 | the free blocks of the channel, zero once taken |
| `Physical.ChannelFromUnits` | ocssd_server.h:449-465 | lists the LUNs and totals their blocks |
| `Physical.InitializeDev` | ocssd_server.h:957-991 | builds fresh channels in id order, the first four shared |
| `Physical.PhysicalUnit.constructor` | ocssd_server.h:901-910 | a fresh device satisfying the invariant |
| `Physical.PhysicalUnit.WalkShared` | ocssd_server.h:1000-1014 | the loop over shared channels with its early exit computes the walk on values and touches no other channel |
| `Physical.PhysicalUnit.AllocSharedChannels` | ocssd_server.h:993-1015 | divides the blocks by a non-zero channel count and grants the shared walk |
| `Physical.PhysicalUnit.AllocExclusiveChannels` | ocssd_server.h:1017-1040 | the loop that skips used channels computes the exclusive walk on values |
| `Physical.PhysicalUnit.AllocChannels` | ocssd_server.h:1042-1064 | chooses the walk, adds a unit to the virtual SSD exactly when something was granted |
| `Physical.PhysicalUnit.GetStats` | ocssd_server.h:1066-1099 | open channels and free blocks of the device |
| `Manager.OcssdManager.AddOcssd` | ocssd_server.h:1129-1136 | one step of a run: a fresh device is appended |
| `Manager.OcssdManager.WalkUnits` | ocssd_server.h:1144-1153 | the loop over units with its early exit computes the walk on values; the request's count ends at asked minus given without wrapping |
| `Manager.OcssdManager.AllocOcssdResource` | ocssd_server.h:1138-1158 | one request step of a run; the returned count is the channels listed, and the request's count ends at asked minus given without wrapping |
| `VirtualSsd.SsdRoundTrip` | ocssd_server.h:712-747 | for every well-formed virtual SSD, any padding bytes and any trailing bytes, decoding the encoding gives it back and consumes exactly its length |
| `VirtualSsd.UnitRoundTrip` | ocssd_server.h:614-677 | the same for a unit anywhere in a buffer: name, nine geometry fields, channels in order |
| `VirtualSsd.NameRoundTrip` | ocssd_server.h:618-662 | the terminated name is recovered and the reader's 32-bit rounding skips the same padding |
| `VirtualSsd.GeoRoundTrip` | ocssd_server.h:596-651 | all nine 64-bit geometry fields are recovered |
| `VirtualSsd.ChannelRoundTrip` | ocssd_server.h:507-544 | channel fields and, only when marked 1, the LUN records are recovered |
| `VirtualSsd.LunsRoundTrip` | ocssd_server.h:408-429 | LUN records are recovered in order |
| `WireFormat.SsdLayout` | ocssd_server.h:712-717 | magic 0x6502, id and unit count stand at bytes 0, 4 and 8 |
| `WireFormat.UnitsInOrder` | ocssd_server.h:719-720 | unit k follows the first k units without a gap, over the bytes that were there |
| `WireFormat.UnitLayout` | ocssd_server.h:614-627 | length with NUL, name, NUL, untouched padding, nine 64-bit geometry fields and channel count, each at its place |
| `WireFormat.ChannelsInOrder` | ocssd_server.h:629-630 | channel j follows the first j channels without a gap |
| `WireFormat.ChannelLayout` | ocssd_server.h:507-522 | id, mark, total and LUN count at bytes 0 to 12; LUN records only for mark 1 |
| `WireFormat.LunLayout` | ocssd_server.h:408-418 | LUN l of a channel marked 1 at byte 16 + 12 l: id, start, count |
| `WireFormat.ParsedUnitLayout` | ocssd_server.h:653-677 | from any bytes: the name ends at the first NUL, the geometry stands where the length word rounded up in 32 bits points, the counted channels follow |
| `WireFormat.ParsedChannelLayout` | ocssd_server.h:524-544 | from any bytes: a channel is its four words, with as many LUNs as the fourth says only if the second is 1 |
| `Bytes.WordBytes` | ocssd_server.h:156-160 | a word is stored least significant byte first |
| `Serializer.SerializeChannel` | ocssd_server.h:507-522 | writes exactly the encoding at the cursor, changes nothing else, advances by its length |
| `Serializer.SerializeName` | ocssd_server.h:618-623 | writes length, name and NUL and leaves the padding bytes as they were |
| `Serializer.SerializeGeo` | ocssd_server.h:596-612 | writes the nine fields and changes nothing else |
| `Serializer.SerializeUnit` | ocssd_server.h:614-633 | writes the unit over the old bytes, padding kept |
| `Serializer.VirtualOcssd.Serialize` | ocssd_server.h:712-723 | writes the virtual SSD over the old bytes and returns its closed-form length |
| `Serializer.DeserializeChannel` | ocssd_server.h:524-544 | the reader's loop computes the parse at the cursor |
| `Serializer.DeserializeChannels` | ocssd_server.h:670-674 | the loop over the counted channels computes the parse at the cursor |
| `Serializer.DeserializeUnit` | ocssd_server.h:653-677 | name, geometry and counted channels are the parse at the cursor |
| `Serializer.VirtualOcssd.ReadUnits` | ocssd_server.h:740-744 | the loop over the counted units pushes exactly the parsed units behind the ones already present |
| `Serializer.VirtualOcssd.Deserialize` | ocssd_server.h:725-747 | appends the parsed units and returns the bytes consumed; a wrong magic returns 0 and changes nothing |
| `Requests.IoRoundTrip` | ocssd_server.h:207-268 | every read, write or erase request is 24 bytes and decodes to the same fields, whatever follows |
| `Requests.AllocRoundTrip` | ocssd_server.h:312-338 | every allocation request is 24 bytes and decodes to the same fields |
| `Requests.IoFrameLayout` | ocssd_server.h:247-268 | 24 bytes: magic 0x6401, 0x6402 or 0x6403 by command, block index, count and offset at 0, 4, 8, 16 |
| `Requests.AllocFrameLayout` | ocssd_server.h:329-338 | 24 bytes: magic 0x6501, channels, blocks, shared, NUMA id and remote at 0, 4, 8, 12, 16, 20 |
| `Requests.IoFrameOf` | ocssd_server.h:216-241 | a frame that is accepted is the encoding of what it decodes to |
| `Requests.AllocFrameOf` | ocssd_server.h:312-323 | the same for an allocation frame |
| `Requests.SerializeIo` | ocssd_server.h:247-268 | writes exactly one frame; any other command writes nothing and returns 0 |
| `Requests.SerializeAlloc` | ocssd_server.h:329-338 | writes exactly one frame |
| `Requests.DispatchAccepts` | ocssd_conn.h:164-181 | for every frame the selected handler's decoder accepts, and no other decoder would |
| `Requests.RequestReachesHandler` | ocssd_conn.h:166-181 | an encoded request is dispatched to the handler of its own command |
| `ReplySize.GrantedUnitLength` | ocssd_server.h:507-522 | closed form of a granted unit's encoded length |
| `NodeReply.ReplyWithinBound` | ocssd_conn.h:316-331 | a one-device node's reply is at most 92 + padded name + max(4(16 + 12·LUNs), 16·(channels − 4)), for fewer than four channels accordingly |
| `NodeReply.EveryReplyFitsIff` | ocssd_conn.h:316-331 | every request of every sequence on a one-device node is answered within 1024 bytes if and only if that bound is at most 1024 |
| `NodeReply.NodeReplyWithin` | ocssd_conn.h:316-331 | in every state of any node a reply is at most 12 + the larger of the sums of the devices' full shared and full exclusive sizes |
| `NodeReply.NodeRepliesFitIff` | ocssd_conn.h:316-331 | on a fresh node with any devices every request of every sequence is answered within 1024 bytes if and only if that bound is at most 1024 |
| `Striping.GenerateUnits` | ocssd_server.h:590-594 | the flat cursor vector for any marks; where the two walks agree, it is index-aligned with the nested traversal |
| `Striping.AlignedIff` | ocssd_server.h:495-505 | a channel has one cursor per visited LUN, at the block its visits start from, if and only if its mark is 0 or 1 or it lists as many LUNs as it counts |
| `Striping.Visit` | ocssd_server.h:86-100 | takes the next block of a LUN if one is left and keeps flat index, cursors and stripe in step |
| `Striping.Pass` | ocssd_conn.h:216-243 | one pass yields stripe r and leaves every cursor at start + min(r + 1, length) |
| `Striping.RemoteBlocks.InitializeVssdBlocks` | ocssd_conn.h:206-277 | the endless loop terminates whatever the tests say; exactly the stripes that pass are appended and counted |
| `Striping.StripesPartitionGrant` | ocssd_conn.h:215-269 | the stripes together contain every block exactly as often as the grant describes it |
| `Striping.FailedTestsLoseTheirStripes` | ocssd_conn.h:252-256 | a failed test loses the blocks of its own stripe and no others |
| `Striping.KeptAreThosePassing` | ocssd_conn.h:252-268 | exactly the stripes whose attempt passes are kept, each at the place given by the number of attempts before it that passed |
| `Striping.AllOrNoneKept` | ocssd_conn.h:252-265 | if every attempt passes every stripe is kept, if none does none is |
| `Striping.StripesInOrder` | ocssd_conn.h:215-269 | as many stripes as the longest extent has blocks, stripe r in place r |
| `Striping.StripeHasLongExtents` | ocssd_conn.h:225-242 | every extent longer than r contributes block start + r to stripe r |
| `Striping.StripeHasOnlyLongExtents` | ocssd_conn.h:225-242 | nothing else is in stripe r |
| `Striping.StripeKeepsOrder` | ocssd_conn.h:216-243 | within a stripe the blocks stand in the order of their extents |
| `Striping.ExtentsInOrder` | ocssd_conn.h:219-242 | the extents stand in the order of channels and LUNs: the listed ones, or every LUN with all blocks for mark 0 |
| `Striping.WidthsNeverGrow` | ocssd_conn.h:230-241 | later stripes are never wider; equal exactly when no extent ends in between |
| `Striping.EqualWidthsIff` | ocssd_conn.h:266-267 | all stripes have one width if and only if all non-empty extents have one length |
| `Striping.ExclusiveStripesSpanAll` | ocssd_conn.h:235-241 | for an exclusive grant every stripe spans channels × LUNs |
| `Framing.ParseResumes` | ocssd_conn.h:135-161 | the reference parser may stop anywhere and go on with more bytes |
| `Framing.PrefixDispatchesPrefix` | ocssd_conn.h:135-184 | a prefix of a stream dispatches a prefix of its messages |
| `Framing.ParseIsIndexed` | ocssd_conn.h:77 | every dispatched read, write or erase names a vblk that exists when it is handled |
| `Framing.StreamRoundTrip` | ocssd_conn.h:135-184 | the messages a client sends, payloads and frames with any other header included, are recovered in order and nothing else |
| `Framing.MessageByHeader` | ocssd_conn.h:164-181 | what a message is and how long, told from header 0x6501, 0x6401, 0x6402, 0x6403 or any other, the vblk count and the fields at their places |
| `Framing.ParsedIff` | ocssd_conn.h:135-184 | for every byte stream: the parse is (messages, rest) if and only if the messages could be sent, their bytes followed by the rest are the stream, and the rest is incomplete |
| `Framing.Receiver.FillFrame` | ocssd_conn.h:137-159 | reads of any size fill the frame buffer with the next 24 bytes; it closes only at a read that reports a close or failure, with nothing lost from the account |
| `Framing.Receiver.ProcessCommand` | ocssd_conn.h:135-184 | keeps that what was dispatched is the reference parse of the bytes received and the rest is one incomplete message; every successful read takes a byte and only an unsuccessful one closes |
| `Framing.Receiver.ProcessWriteRequest` | ocssd_conn.h:384-440 | collects exactly the announced payload, or consumes none if the block does not exist, or closes at an unsuccessful read without dispatching |
| `Framing.ServeInput` | ocssd_conn.h:123-184 | for every splitting into enough positive reads the dispatched messages are the reference parse of the whole input; in general they are the parse of the bytes received, a prefix of it, and the reads stop only at the end of input or the first unsuccessful read |
| `WriteQueue.WireFollowsReplies` | ocssd_libevent_server.cc:206-255 | over every run the wire is a prefix of the replies in order, complete when the queue is empty, and the event is armed exactly while the queue is non-empty |
| `WriteQueue.HandleSafe` | ocssd_libevent_server.cc:216-254 | every enqueue and every complete, partial or interrupted write keeps this, and the callback never meets an empty queue |
| `WriteQueue.EventMoves` | ocssd_libevent_server.cc:222-254 | a write puts exactly the bytes it reports from the front of what is pending on the wire and drops a buffer with its last byte; an interrupted one changes nothing; a reply goes behind what is pending |
| `WriteQueue.ProgressShrinksBacklog` | ocssd_libevent_server.cc:240-254 | every write that makes progress brings the queue closer to empty |
| `WriteQueue.CallbacksKeep` | ocssd_libevent_server.cc:206-255 | a round of callbacks keeps the wire a prefix of the replies, ends the process only at a broken socket, and takes one off the backlog for every write that is accepted until nothing is left |
| `WriteQueue.CallbackStep` | ocssd_libevent_server.cc:222-254 | one callback puts min(accepted, left in the front buffer) bytes of the front buffer on the wire and ends the process only at a broken socket |
| `WriteQueue.CallbacksConcat` | ocssd_libevent_server.cc:206-255 | outcomes are met in order, and a round may be split anywhere |
| `WriteQueue.Connection.OnWrite` | ocssd_libevent_server.cc:206-255 | the callback performs one write event; its unguarded read of the front is safe |
| `WriteQueue.Connection.EnqueueReply` | ocssd_conn.h:331-336 | a reply is appended and the event armed |
| `ThreadPool.PoolIsSafe` | threadpool.h:64-105 | in every interleaving of any number of threads: mutual exclusion, first-in first-out with nothing lost or duplicated, at most max + 1 queued, every queued job covered by a wakeup; every call is pending or answered, true exactly for accepted jobs; every job taken is in a worker's hands or processed |
| `ThreadPool.StepInv` | threadpool.h:64-105 | each atomic step keeps that invariant |
| `ThreadPool.WorkerGetsOldest` | threadpool.h:98-103 | a worker pops the oldest job accepted and not yet taken, and that is the job it processes |
| `ThreadPool.JobStaysWithThread` | threadpool.h:64-105 | a caller's job is the one it was called with until it is pushed and answered, a worker's the one it popped until it is processed, whatever other threads do |
| `ThreadPool.TestsDecide` | threadpool.h:67-97 | a job is refused exactly when max + 1 are queued, and a worker finds none exactly when the queue is empty |
| `ThreadPool.EmptyBranchUnreachable` | threadpool.h:93-96 | while no wait has failed no worker finds the queue empty |
| `ThreadPool.NoJobStranded` | threadpool.h:64-105 | from every state any continuation without new appends and failed waits is bounded, and where it can go no further every accepted job was taken in order, processed as often as accepted, and confirmed to its caller |
| `ThreadPool.SomebodyCanStep` | threadpool.h:87-105 | while a job is queued and a worker exists some thread can take a step |
| `ThreadPool.BoundIsReached` | threadpool.h:68-71 | for every maximum and every pool with an appender some interleaving queues max + 1 jobs |
| `ThreadPool.MaximumHoldsIff` | threadpool.h:68-71 | the configured maximum holds in every interleaving if and only if there is no appender |
| `Service.ServeAlloc` | ocssd_conn.h:302-344 | performs one request step, queues a reply that decodes to the grant exactly when something was granted and fits the buffer, stripes the first unit for a remote client, and never overruns when the node's bound fits |
| `Service.ProcessAllocRequest` | ocssd_conn.h:302-344 | the same, stripes included, from the dispatched frame, which always decodes |
| `Service.SendReply` | ocssd_conn.h:316-336 | the bytes queued decode to the virtual SSD, to the last byte |
| `Service.Replay` | ocssd_server.h:1129-1158 | the manager object driven through any operations computes the run on values |
| `Service.ClientLearnsWhatWasTaken` | ocssd_conn.h:302-344 | for every reachable state, request, padding and trailing bytes, the client decodes a virtual SSD describing exactly the blocks just taken |
| `Service.StripesAreDisjoint` | ocssd_conn.h:215-269 | for every granted unit the stripes are pairwise disjoint and none repeats a block |
| `Service.StripesHoldWhatWasTaken` | ocssd_conn.h:279-299 | for a grant from one device the stripes contain exactly the blocks just taken |
| `ClientStream.SsdStays` | ocssd_server.h:725-747 | a reply that decodes, decodes to the same whatever bytes follow |
| `ClientStream.RepliesDecode` | ocssd_server.h:725-747 | replies in a row, virtual SSDs and read data mixed, decode one after another to their answers |
| `ClientStream.PrefixDecodesPrefix` | ocssd_server.h:725-747 | a prefix of the bytes decodes to a prefix of the answers |
| `Session.ServedIsRun` | ocssd_conn.h:302-344 | handling messages takes the node through the run of their allocation requests, and the virtual SSDs among the answers are its non-empty grants in order |
| `Session.ReadsAreAnswered` | ocssd_conn.h:346-382 | the data among the answers are, in order, one per read message, each of the length asked for and with the bytes found; nothing else is answered with data |
| `Session.MessageIsAnswered` | ocssd_conn.h:164-183 | message by message, in order: a granted request is answered with its grant and, if remote, adds the vblks that pass; a read is answered with its data; nothing else changes or is answered |
| `Session.WriteCallbacks` | ocssd_libevent_server.cc:206-255 | the callbacks for a round of write outcomes, exactly |
| `Session.ServeMessage` | ocssd_conn.h:164-183 | one message: node, vblk count and answers move on together, the reply costs at most its size, and every vblk index used is in range |
| `Session.ServeMessages` | ocssd_conn.h:123-184 | all messages in order, each followed by a round of write callbacks: ends early only at a broken socket, otherwise no more is left to write than the lag computed from messages and writes |
| `Session.PromptWritesDoNotLag` | ocssd_libevent_server.cc:206-255 | nothing lags if the socket accepts 1025 times after each allocation request and more often than the bytes asked for after each read |
| `Session.Serve` | ocssd_conn.h:123-184 | for any input, chunking, failures and partial writes the client decodes a prefix of the answers due to its input; with successful reads, an unbroken socket and writes that do not lag, all of them |

## Left out

- Service.ServeAlloc: a reply longer than the buffer ends in the outcome `Overrun` with nothing queued; the code writes past the buffer there and is undefined.
- Striping.RemoteBlocks.InitializeVssdBlocks: requires that every channel has one cursor per visited LUN (`AlignedIff`), since otherwise the code indexes the cursor vector out of step or out of range; the allocator emits no others. It takes the geometry of the reopened device to be the one in the grant, and block numbers are unbounded here, which granted extents, all inside a 32-bit geometry, do not notice.
- Session.Serve: requires a node whose replies fit the buffer (`NodeRepliesFitIff`). All messages are handled after all were received; receiving depends on what the handlers do only through the vblk count, which is the one the session itself produces, so handling each on arrival comes to the same. A client learns which requests are answered from the answers due, since a request that is granted nothing gets no reply at all.
- Framing.Receiver.ProcessWriteRequest: a block index past the vblk list counts as a missing block; the code indexes the list without a test.
- Units, channels and LUNs of a virtual SSD are values, not objects: the code builds them once and then only reads them, so aliasing between them is not captured.
- The stripes cover the first unit of a grant only, as in the code; the other units of a multi-device grant stay with the client.
- liblightnvm calls (opening devices, vblk allocation, erase, read, write): geometry is a parameter, vblk allocation succeeds, a vblk test is an arbitrary outcome.
- Azure publishing, socket setup, signals, accept and the event library itself.
- What vblks hold: a read is answered with arbitrary bytes of the length asked for, and payloads are not stored.
- Pool construction and shutdown, failing semaphore posts, null jobs, and what a job does when processed.
- Fairness of thread scheduling: the pool results are about all interleavings, not about time.
- Demo clients and benchmark drivers.
