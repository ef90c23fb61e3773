# CometBFT: mempool gossip, connection packets and the e2e testnet generator

This project is a Dafny model of three pieces of CometBFT, with proofs of what each one promises.

1. **The v1 mempool reactor.**
   - The peer-ID table hands each connected peer a compact 16-bit ID. ID 0 is reserved for "unknown sender".
   - The priority snapshot cuts the priority-sorted pool to a 2 MiB budget.
   - Each broadcast routine decides, one step at a time, whether to send a transaction to a peer.
   - Inbound transaction batches are handed to CheckTx.
   - GetChannels lists the reactor's two channels.
2. **The multiplexed connection, as its tests pin it down.**
   - The Protocol Buffers wire form of the `Packet` union (Ping, Pong, Msg), checked against the literal test vectors.
   - The `round`, `maxSendRate` and `maxRecvRate` ceilings that observed peak rates are compared against.
   - The bounded per-channel send queues behind `Send`, `TrySend` and `CanSend`.
3. **The end-to-end testnet generator.**
   - The parser for the weighted multi-version option.
   - The fix-ups `generateNode` applies to a node.
   - The light-client builder.
   - The whole of `generateTestnet`: node counts per topology, start heights, the validator set and its updates, seed meshing, start-ordered peer wiring and the light clients.
   - The latest-release selection of `findLatestReleaseTag`.

## How the model is built

The model follows the form of the code.

- **State updated in place is a class.**
  - The ID table is `MempoolIds.PeerIdTable`.
  - The connection's send side is `Connection.MConnection`.
  - Their methods keep a class invariant and state their whole new state.
- **Loops are methods with loop invariants.** Each loop method is proved equal to a recursive specification function, and the properties are proved as lemmas about those functions. This covers:
  - `nextPeerID`, the snapshot cut and the inbound batch;
  - `parseWeightedVersions`, the generator's seed, validator, full-node, classification, mesh, wiring and light-client loops;
  - the `findLatestReleaseTag` loop.
- **The broadcast goroutines are step functions over a cursor.**
  - `FloodStep` and `PriorityStep` are the step functions.
  - `FloodRun` and `PriorityPass` run the steps over a sequence of observations.
- **Random draws are parameters.** Every draw the generator takes from its random source is a field of `TestnetManifest`'s `TestnetDraws` record, and the per-node draws are `NodeDraws`.
  - Per-node draws are indexed by node name.
  - Per-position draws are indexed by node number or by position in the sorted peer list.
  - `uniformSetChoice` becomes an arbitrary set of chosen positions.
  - The model therefore covers every choice of values and every choice of subset, not only those the choice lists allow. A chosen subset keeps the order of the list it is drawn from, and the lists are built in one fixed visiting order (see "## Left out").

Three facts about the code that the model keeps, because they are easy to assume otherwise:

- **No delivery mark.** Neither broadcast routine records that an entry was delivered to a peer. Both only read `HasPeer` (mempool/v1/reactor.go:327 and :398). `MempoolReactor.BothRoutinesSendSameEntry` shows that both routines send the same entry.
- **The priority routine's channel.** The priority routine sends on the ordinary mempool channel, `MempoolChannel` (mempool/v1/reactor.go:329), not on the priority channel it registers.
- **Where the ID search starts.** The ID table hands out the first free ID at or after its watermark `nextID` (mempool/v1/reactor.go:67-75), not the smallest free ID. A freed ID is reused only when the watermark reaches it again (`MempoolIds.ReuseScenario`).

## Model

| member | source | states |
|---|---|---|
| MempoolIds.PeerIdTable.constructor | mempool/v1/reactor.go:98-104 | A new table has no peers, holds only ID 0 as active, starts the search at 1, and satisfies the table invariant. |
| MempoolIds.PeerIdTable.GetForPeer | mempool/v1/reactor.go:91-96 | Returns 0 exactly when the peer holds no ID, and otherwise the peer's recorded ID. It changes nothing. |
| MempoolIds.PeerIdTable.NextPeerID | mempool/v1/reactor.go:63-76 | See note 1 below the table. |
| MempoolIds.PeerIdTable.ReserveForPeer | mempool/v1/reactor.go:52-59 | See note 2 below the table. |
| MempoolIds.PeerIdTable.Reclaim | mempool/v1/reactor.go:79-88 | For a known peer, removes the peer and frees its ID. An unknown peer changes nothing. The watermark is never touched, and the table invariant is kept. |
| MempoolIds.FreeIdExists | mempool/v1/reactor.go:64-72 | A table with fewer than 65536 active IDs has a free ID below 65536, so the search terminates. |
| MempoolIds.SearchStopsAtFreeId | mempool/v1/reactor.go:67-75 | The search never passes a free ID. A reclaimed ID is handed out again, at the latest when the watermark next reaches it. |
| MempoolIds.ReserveAtWatermark | mempool/v1/reactor.go:56-58 | When the watermark itself is free, reserving hands out exactly the watermark and adds one active ID. |
| MempoolIds.JoinThree | mempool/v1/reactor.go:98-104 | Three peers joining a new table receive 1, 2 and 3, and the table is {0,1,2,3} with watermark 4. |
| MempoolIds.ReuseScenario | mempool/v1/reactor.go:52-96 | After 1, 2 and 3 are handed out and the first peer leaves, that peer reads as unknown (0). The next peer gets 4, not the freed 1. |
| MempoolReactor.GetChannels | mempool/v1/reactor.go:141-163 | Two channels with different IDs: the mempool channel 0x30, then the priority channel 0x80. Both have priority 5 and a receive capacity equal to the size of a batch holding one largest transaction. |
| MempoolReactor.TotalSizeMonotone | mempool/v1/reactor.go:263-270 | A longer prefix of the sorted entries never has a smaller total size. |
| MempoolReactor.TruncateSnapshot | mempool/v1/reactor.go:260-272 | See note 3 below the table. |
| MempoolReactor.FloodStep | mempool/v1/reactor.go:362-426 | See note 4 below the table. |
| MempoolReactor.FloodRunNoGaps | mempool/v1/reactor.go:349-427 | See note 5 below the table. |
| MempoolReactor.PriorityStep | mempool/v1/reactor.go:313-344 | Always moves to the next snapshot entry. It sends exactly when the entry is still in the pool, the peer is caught up and the peer does not have the entry. The message is the one-transaction envelope on the mempool channel, never on the priority channel. A delivery is exactly a send that succeeds. |
| MempoolReactor.PriorityDeliversOnlyEligible | mempool/v1/reactor.go:313-344 | Every transaction a pass delivers comes from a snapshot entry that is still pooled, caught up, not yet the peer's, and successfully sent. No more transactions are delivered than there are entries. |
| MempoolReactor.PriorityPass | mempool/v1/reactor.go:300-344 | Without a known peer state nothing is sent. Otherwise the pass walks the whole snapshot from its head and delivers exactly the eligible entries, in snapshot order. |
| MempoolReactor.BothRoutinesSendSameEntry | mempool/v1/reactor.go:327-343 | An entry the peer lacks, with the peer caught up, is delivered by the flood routine and also by the priority routine, because neither records the delivery. |
| MempoolReactor.ReceiveEnvelope | mempool/v1/reactor.go:182-219 | See note 6 below the table. |
| PacketWire.Varint | p2p/conn/connection_test.go:721-725 | A varint is at least one byte. Every byte but the last has the high bit set and the last does not. It is one byte exactly for values below 0x80. |
| PacketWire.VarintRoundTrip | p2p/conn/connection_test.go:721-725 | Reading a varint back returns its value and leaves whatever followed it. |
| PacketWire.Int32WireRoundTrip | p2p/conn/connection_test.go:715 | An int32 channel ID survives its 64-bit two's complement wire form. |
| PacketWire.MsgBodyRoundTrip | p2p/conn/connection_test.go:715 | A PacketMsg body decodes back to the same channel, eof flag and data. Fields holding default values are left out of the body. |
| PacketWire.EncodeDecodeRoundTrip | p2p/conn/connection_test.go:721-725 | Decoding the encoding of any packet gives that packet back. |
| PacketWire.EncodeInjective | p2p/conn/connection_test.go:708-725 | Two different packets never share an encoding. |
| PacketWire.PingVector | p2p/conn/connection_test.go:713 | Ping encodes to 0a 00. |
| PacketWire.PongVector | p2p/conn/connection_test.go:714 | Pong encodes to 12 00. |
| PacketWire.VectorDataBytes | p2p/conn/connection_test.go:715 | The Msg vector's payload is the 30 ASCII bytes of "data transmitted over the wire". |
| PacketWire.MsgVector | p2p/conn/connection_test.go:715 | Msg{1, false, payload} encodes to 1a 22 08 01 1a 1e followed by the payload. This is the literal vector. |
| RateCeiling.Round | p2p/conn/connection_test.go:174-180 | The result is within one half of num/den. A fraction of exactly one half rounds up. |
| RateCeiling.RoundFloorOrCeil | p2p/conn/connection_test.go:174-180 | A fractional part below one half gives the floor. One half or more gives the ceiling. |
| RateCeiling.RoundMonotone | p2p/conn/connection_test.go:174-180 | Rounding never decreases as the value grows. |
| RateCeiling.CeilDiv | p2p/conn/connection_test.go:168 | The least quotient whose multiple covers x. |
| RateCeiling.RoundUpToMultiple | p2p/conn/connection_test.go:168 | `math.Ceil(x/g)*g` is at least x and less than x + g. |
| RateCeiling.RoundUpToMultipleLeast | p2p/conn/connection_test.go:168 | Any multiple of g that covers x is at least the rounded-up value. |
| RateCeiling.CeilingCoversBudget | p2p/conn/connection_test.go:163-172 | See note 7 below the table. |
| RateCeiling.CeilingMonotone | p2p/conn/connection_test.go:163-172 | A higher configured rate never lowers the ceiling. |
| RateCeiling.RecvCeilingAtMostSendCeiling | p2p/conn/connection_test.go:242-251 | For the same rate, the receive ceiling (granule: one packet) is at most the send ceiling (granule: a batch of packets). |
| Connection.ChannelIndex | p2p/conn/connection_test.go:545-549 | The connection's channels are exactly the described IDs, and the final descriptor's capacity is its channel's. |
| Connection.ChannelIndexLastWins | p2p/conn/connection_test.go:545-549 | Every channel's capacity is the one given by its last descriptor: a later descriptor with the same ID overrides earlier ones. |
| Connection.MConnection.constructor | p2p/conn/connection_test.go:545-549 | A new connection has one empty queue per described channel, with the described capacities. It has written nothing and is not yet started. |
| Connection.MConnection.Start | p2p/conn/connection_test.go:104-106 | Only a created connection starts. The queues are untouched. |
| Connection.MConnection.Stop | p2p/conn/connection_test.go:107 | A running connection stops. |
| Connection.MConnection.CanSend | p2p/conn/connection_test.go:693-700 | True only for a running connection, a registered channel and a queue below capacity. An unknown channel is always refused. |
| Connection.MConnection.TrySend | p2p/conn/connection_test.go:690-701 | Succeeds exactly when CanSend held, and then appends the message to that channel's queue. Otherwise nothing changes. |
| Connection.MConnection.Send | p2p/conn/connection_test.go:608-612 | See note 8 below the table. |
| Connection.MConnection.Drain | p2p/conn/connection_test.go:111-116 | The writer takes the oldest queued message of the channel and writes it out. An empty or unknown queue is left alone. |
| Connection.StartedTestConnection | p2p/conn/connection_test.go:25-33 | The test connection runs with the single channel 0x01, whose queue has capacity 1 and is empty. |
| Connection.SendScenario | p2p/conn/connection_test.go:99-128 | Send succeeds. After the writer drains, CanSend and TrySend succeed. Channel 0x05 refuses both CanSend and Send. |
| Connection.DrainingSendScenario | p2p/conn/connection_test.go:99-128 | On the full capacity-1 test channel, a send while the writer drains succeeds: the first message is written out and the second is the only one queued. |
| Connection.UnregisteredRefused | p2p/conn/connection_test.go:126-127 | On any channel the connection does not know, CanSend and Send both return false. |
| Connection.TrySendScenario | p2p/conn/connection_test.go:678-703 | With capacity 1: TrySend succeeds; after a drain, CanSend and TrySend succeed; with that message still queued, CanSend and a further TrySend fail. |
| Connection.UnknownChannelScenario | p2p/conn/connection_test.go:601-612 | With channels 0x01 and 0x02 registered, Send on 0x03 fails and Send on 0x02 succeeds. |
| WeightedVersions.ParseEntry | test/e2e/generator/generate.go:362-380 | An entry parses exactly when it has two or three ':'-parts and its trimmed last part reads as an integer of at least 1. The weight is that integer. |
| WeightedVersions.WeightErrorQuotesSecondPart | test/e2e/generator/generate.go:373-376 | A weight error quotes the entry's second part, `parts[1]`, whatever the entry's shape. Its cause is the integer parser's error on the trimmed last part. |
| WeightedVersions.WeightQuoteAsWrittenNamesTag | test/e2e/generator/generate.go:375 | The entry "img:v1:x" is reported as a bad weight "v1", the tag, with a syntax error on "x". |
| WeightedVersions.TagEntryRoundTrip | test/e2e/generator/generate.go:362-381 | For any tag without ':' or outer space and any weight from 1 to the int64 maximum, "tag:w" gives version "cometbft/e2e-node:tag" with weight w. |
| WeightedVersions.ImageEntryRoundTrip | test/e2e/generator/generate.go:362-381 | For any image and tag without ':' or outer space and any weight from 1 to the int64 maximum, "img:tag:w" gives version "img:tag" with weight w. |
| WeightedVersions.ParseEntryIntended | test/e2e/generator/generate.go:373-376 | The corrected parse has the same outcome as the code's, except that a weight error may quote a different part. |
| WeightedVersions.WeightErrorQuotesWeight | test/e2e/generator/generate.go:373-376 | Under the corrected parse, a weight error quotes the entry's last part, the one that failed to parse. Its cause is the integer parser's error on that part. |
| WeightedVersions.WeightErrorNamesWeight | test/e2e/generator/generate.go:375 | Under the corrected parse, the entry "img:v1:x" is reported as a bad weight "x". |
| WeightedVersions.FoldErrSticky | test/e2e/generator/generate.go:369-380 | Once an entry fails, the whole option fails with that entry's error. |
| WeightedVersions.FoldOkIff | test/e2e/generator/generate.go:362-384 | The option parses exactly when every entry parses. |
| WeightedVersions.FoldKeys | test/e2e/generator/generate.go:381-382 | After a successful parse, the recorded versions are exactly the entries' versions, and the last version is the final entry's. |
| WeightedVersions.FoldLastWeight | test/e2e/generator/generate.go:381 | A version's recorded weight is the weight of its last occurrence. A later entry overwrites an earlier one. |
| WeightedVersions.FoldWeightsFromEntries | test/e2e/generator/generate.go:381 | Every recorded weight is the weight some entry gave that version. |
| WeightedVersions.ParseWeightedVersions | test/e2e/generator/generate.go:358-385 | The loop's outcome is the fold of the entries' parses over the trimmed option split on ','. |
| WeightedVersions.ParseAllContents | test/e2e/generator/generate.go:358-385 | After a successful parse: every entry parsed, every entry's version is recorded, every weight is at least 1, and the last version is the final entry's and is recorded. |
| WeightedVersions.EmptyOptionRejected | test/e2e/generator/generate.go:361-370 | The empty option is one entry with one part, so it is rejected as a bad combination. |
| WeightedVersions.TagWeightEntry | test/e2e/generator/generate.go:365-366 | "v1:2" gives version "cometbft/e2e-node:v1" with weight 2. |
| NodeGen.GenerateNode | test/e2e/generator/generate.go:287-334 | The fix-up sequence (archive override, persist-or-retain choice, retention widening) yields the node `GeneratedNode` describes in one piece. |
| NodeGen.GeneratedNodeConsistent | test/e2e/generator/generate.go:298-331 | See note 9 below the table. |
| NodeGen.GeneratedRetentionLeast | test/e2e/generator/generate.go:324-331 | A node that keeps only recent blocks keeps the least window covering the drawn window, the persist interval and the snapshot interval. |
| NodeGen.GeneratedKeepsAllBlocks | test/e2e/generator/generate.go:307-320 | A node keeps every block exactly when it is an archive node, drew no window, or persisted nothing and the coin chose to keep all blocks. |
| NodeGen.GenerateLightNode | test/e2e/generator/generate.go:336-346 | A light node starts at the given height, follows exactly the providers, persists nothing and keeps every block. |
| PeerOrder.FilterMembers | test/e2e/generator/generate.go:231-243 | A classified list holds exactly the visited names that pass the test. |
| PeerOrder.BeforeTransitive | test/e2e/generator/generate.go:253-263 | The peer order is transitive. |
| PeerOrder.BeforeTotal | test/e2e/generator/generate.go:253-263 | The peer order is total and asymmetric on distinct nodes. |
| PeerOrder.SortPeers | test/e2e/generator/generate.go:253-263 | The sort permutes the peer names. |
| PeerOrder.SortPeersSorted | test/e2e/generator/generate.go:253-263 | The sorted peers come in order of start height, then name, and each exactly once. |
| PeerOrder.Pick | test/e2e/generator/generate.go:266-268 | A drawn subset only holds names from the list it was drawn from. |
| PeerOrder.PickedPeersComeBefore | test/e2e/generator/generate.go:267-268 | Every peer drawn from peerNames[:i] comes before the i-th peer in the order. |
| PeerWiring.Classify | test/e2e/generator/generate.go:231-243 | The classification loop collects, in visiting order, the seeds, the non-seeds, and the non-seeds that start at 0 or at the initial height and keep every block. |
| PeerWiring.ClassesPartition | test/e2e/generator/generate.go:231-243 | Seeds and peers split the visited nodes by mode. Providers are peers that start at 0 or at the initial height and keep every block. |
| PeerWiring.LinkSeed | test/e2e/generator/generate.go:246-250 | The inner loop appends every other seed, in order, to one seed's list. |
| PeerWiring.MeshSeeds | test/e2e/generator/generate.go:245-251 | The outer loop meshes every seed in turn. |
| PeerWiring.MeshedNodes | test/e2e/generator/generate.go:245-251 | Each meshed seed gets the other seeds appended once. Every other node is unchanged. |
| PeerWiring.MeshLinksOthers | test/e2e/generator/generate.go:246-249 | A seed lists every other seed exactly once and never itself. |
| PeerWiring.WirePeers | test/e2e/generator/generate.go:264-270 | The wiring loop wires each peer in start order. |
| PeerWiring.WiredNodes | test/e2e/generator/generate.go:264-270 | Each distinct peer is wired once, by its position. Every other node is unchanged. |
| PeerWiring.WiredLinksOrdered | test/e2e/generator/generate.go:264-270 | For each peer, either its links are the ones it had before wiring, or its persistent peers all come before it in the order and its seeds are all seeds. The unconditional form, for peers that start with no links, is `TestnetFacts.TestnetPeerLinks`. |
| PeerWiring.AddLightClients | test/e2e/generator/generate.go:272-278 | The light-client loop adds light01 .. lightN to the nodes. |
| PeerWiring.LightNodesAt | test/e2e/generator/generate.go:272-278 | Light client i is a light node starting at the initial height + 5 + 5i. It follows exactly the providers and keeps every block. |
| TestnetGen.DelaysFor | test/e2e/generator/generate.go:138-151 | "none" sets no delay. Only "large" sets a CheckTx delay. |
| TestnetGen.VoteExtensionHeights | test/e2e/generator/generate.go:152-159 | See note 10 below the table. |
| TestnetGen.TopologyCounts | test/e2e/generator/generate.go:161-175 | See note 11 below the table. |
| TestnetGen.Quorum | test/e2e/generator/generate.go:187 | n*2/3+1 is the least count above two thirds of n, and at most n when n is at least 1. |
| TestnetGen.NamesDistinct | test/e2e/generator/generate.go:179 | The generated names prefix01, prefix02, ... are pairwise different. |
| TestnetGen.UpdateKeysDistinct | test/e2e/generator/generate.go:201 | Late validators get pairwise different update keys, so no update overwrites another. |
| TestnetGen.Power | test/e2e/generator/generate.go:199 | A voting power lies between 30 and 100. |
| TestnetGen.AddSeeds | test/e2e/generator/generate.go:177-181 | The seed loop builds seed01 .. seedN, each starting at 0 and not forced to archive. |
| TestnetGen.AddValidators | test/e2e/generator/generate.go:186-205 | The validator loop yields the validator nodes, the genesis set and the updates, and hands on the height after the last late validator. |
| TestnetGen.AddValidator | test/e2e/generator/generate.go:189-204 | One loop turn extends all four loop results by validator i. |
| TestnetGen.AddFulls | test/e2e/generator/generate.go:217-226 | The full-node loop yields full01 .. fullN, and the height after the last late one. |
| TestnetGen.AddFull | test/e2e/generator/generate.go:219-225 | One loop turn extends both loop results by full node i. |
| TestnetGen.SeedNodesKeys | test/e2e/generator/generate.go:178-181 | The seed nodes are exactly seed01 .. seedN. |
| TestnetGen.ValidatorNodesKeys | test/e2e/generator/generate.go:188-196 | The validator nodes are exactly validator01 .. validatorN. |
| TestnetGen.FullNodesKeys | test/e2e/generator/generate.go:218-225 | The full nodes are exactly full01 .. fullN. |
| TestnetGen.ValidatorNodesAt | test/e2e/generator/generate.go:188-196 | Validator i is generated at its start height, and is an archive node exactly when i is at most 2. |
| TestnetGen.GenesisValidatorsMembers | test/e2e/generator/generate.go:188-199 | With a non-negative initial height, the validator set is exactly the first min(n, quorum) validators, with powers 30..100. |
| TestnetGen.GenesisQuorum | test/e2e/generator/generate.go:183-199 | More than two thirds of the validators start the chain. |
| TestnetGen.ValidatorUpdatesKeys | test/e2e/generator/generate.go:200-203 | Every update is keyed by the start height + 5 of a late validator. |
| TestnetGen.ValidatorUpdatesEntries | test/e2e/generator/generate.go:200-203 | Every update adds one validator, with a power between 30 and 100. |
| TestnetGen.UpdateKeyNotZero | test/e2e/generator/generate.go:201 | With a non-negative initial height, an update key is never "0". |
| TestnetGen.ValidatorUpdatesAvoidZero | test/e2e/generator/generate.go:211 | No update sits under "0", so moving the set to InitChain overwrites nothing. |
| TestnetGen.LateValidatorStarts | test/e2e/generator/generate.go:186-193 | Late validators start 5 blocks apart, in number order, all below the height handed on to the full nodes. |
| TestnetGen.LateFullStarts | test/e2e/generator/generate.go:218-223 | Late full nodes start at or after the height handed on, at strictly increasing heights in number order. |
| TestnetManifest.ClassifyGenerated | test/e2e/generator/generate.go:231-243 | Classifying the generated nodes yields the seed, peer and provider lists of the manifest. |
| TestnetManifest.LinkNodes | test/e2e/generator/generate.go:228-278 | Classification, meshing, sorting, wiring and the light clients turn the generated nodes into the manifest's final nodes. |
| TestnetManifest.GenerateTestnet | test/e2e/generator/generate.go:124-281 | The generator returns the manifest `Testnet` describes, or its error. |
| TestnetFacts.TestnetErrors | test/e2e/generator/generate.go:161-215 | Generation fails exactly for an unknown topology or an invalid validators option. An unknown topology is reported first. |
| TestnetFacts.ValidatorSets | test/e2e/generator/generate.go:183-215 | See note 12 below the table. |
| TestnetFacts.TestnetValidators | test/e2e/generator/generate.go:183-215 | The same facts as `ValidatorSets`, stated on the manifest that generation returns. |
| TestnetFacts.TestnetNodeNames | test/e2e/generator/generate.go:177-278 | The nodes are exactly the seed, validator, full and light names of the topology's counts. The seeds are exactly the seedNN nodes, and the light nodes are exactly the lightNN nodes. |
| TestnetFacts.TestnetRetention | test/e2e/generator/generate.go:298-331 | Every node of the manifest keeps blocks, persists state and snapshots consistently. |
| TestnetFacts.TestnetSeedMesh | test/e2e/generator/generate.go:245-251 | A seed has no persistent peers. Its seeds are distinct, and they are exactly the other seeds. |
| TestnetFacts.TestnetPeerLinks | test/e2e/generator/generate.go:253-270 | See note 13 below the table. |
| TestnetFacts.TestnetLightClients | test/e2e/generator/generate.go:231-278 | See note 14 below the table. |
| TestnetFacts.TestnetArchiveValidators | test/e2e/generator/generate.go:183-196 | validator01 and validator02 (when present) are validators that start at 0, keep every block and snapshot every 3 heights. |
| ReleaseTag.Render | test/e2e/generator/generate.go:455 | A rendered version starts with a digit, so the "v" prefix is always added. |
| ReleaseTag.FindLatestReleaseTag | test/e2e/generator/generate.go:413-460 | See note 15 below the table. |
| Text.JoinSplit | test/e2e/generator/generate.go:361-363 | Splitting on a separator gives parts without it, and joining them restores the string. |
| Text.SplitJoin | test/e2e/generator/generate.go:366-368 | Joining parts that lack the separator and splitting again gives the parts back. |
| Text.TrimSpaceIdempotent | test/e2e/generator/generate.go:361-363 | Trimming twice is trimming once. |
| Text.AtoiSignedDecimal | test/e2e/generator/generate.go:373 | The integer parser reads back every decimal rendering in the int64 range. |
| Text.AtoiRejectsNonDigit | test/e2e/generator/generate.go:373 | A non-digit after the first character makes the integer parser fail. |
| Text.ScanUintValue | test/e2e/generator/generate.go:373 | The integer parser's left-to-right scan reads a value exactly for a digit string within uint64, and that value is the digits' value. |
| Text.AtoiRangeBeforeSyntax | test/e2e/generator/generate.go:373 | A leading run of digits that already exceeds uint64 makes the parse a range error, whatever follows. |
| Text.SignedDecimalInjective | test/e2e/generator/generate.go:201 | Different heights give different update keys. |
| Text.Pad2Injective | test/e2e/generator/generate.go:194 | Different numbers give different %02d node names. |
| Text.LexLessTotal | test/e2e/generator/generate.go:261 | Two different names are ordered one way or the other. |
| Text.LexLessTransitive | test/e2e/generator/generate.go:261 | The name order is transitive. |

Notes on the longer contracts:

1. **NextPeerID.**
   - It fails exactly when the table holds MaxActiveIDs IDs, and then leaves the watermark alone.
   - Otherwise it returns a non-zero, inactive ID below 65536. Every ID between the watermark and the returned one (wrapping modulo 65536) is active.
   - The watermark moves to the returned ID + 1, modulo 65536.
   - The table invariant is kept: 0 is reserved, IDs are below 65536, and peers hold distinct non-zero active IDs.
2. **ReserveForPeer.**
   - It fails exactly on a full table, and then nothing changes.
   - Otherwise the peer is mapped to a fresh non-zero ID that becomes active. Every other peer's entry is unchanged, and a peer's previous ID stays active.
   - The invariant is kept.
3. **TruncateSnapshot.**
   - The snapshot is a prefix of the sorted entries with a total size of at most 2 MiB.
   - Every longer prefix exceeds 2 MiB.
   - When the whole list fits, the snapshot is the whole list.
4. **FloodStep.**
   - The cursor moves by at most one.
   - A send is attempted exactly when the cursor is on an entry, the peer state is known, the peer is caught up, and the peer does not yet have the entry.
   - An attempt sends the one-transaction envelope on the mempool channel.
   - The cursor advances exactly when a caught-up peer already has the entry or the send succeeds. Lag, an unknown peer state or a failed send retry the same entry.
5. **FloodRunNoGaps.**
   - Over any run, the cursor only advances, stays within the list, and moves at most once per observation.
   - Every entry it passed was already the peer's or was delivered.
   - Every delivered transaction is an entry, at or after the start, that the peer did not have.
6. **ReceiveEnvelope.**
   - A non-batch message stops the peer.
   - An empty batch submits nothing.
   - Otherwise every transaction is submitted, in order, with the sender's numeric ID and peer ID, whatever CheckTx answers to each.
7. **CeilingCoversBudget.**
   - The per-sample budget rounded up to whole granules covers the budget, with less than one granule to spare.
   - The ceiling is at least the budget scaled back to one second.
8. **Send.**
   - It fails at once, changing nothing, on an unknown channel or a connection that is not running.
   - When CanSend held, it enqueues and succeeds.
   - On a full queue it succeeds exactly when the writer drains that queue in time.
   - A send after such a drain leaves the queue without its oldest message and with the new one at the end, and the drained message is appended to the written output.
   - Whenever it fails, the queues and the written output are unchanged.
9. **GeneratedNodeConsistent.**
   - Every generated node persists state whenever it keeps only recent blocks. Its window then covers the persist and snapshot intervals.
   - An archive node keeps every block and snapshots every 3 heights.
   - State sync is on only for a late-starting node.
   - Links are left empty.
10. **VoteExtensionHeights.**
    - The update height is -1, 0, or the initial height plus an offset.
    - When extensions are enabled, the enable height is above the update height and no lower than the initial height. Otherwise it is 0.
11. **TopologyCounts.**
    - "single" and "quad" have 1 or 4 validators and nothing else.
    - "large" has 4..7 validators, at most 1 seed, 3 full nodes and 2 light clients.
    - Any other topology is an error naming it.
12. **ValidatorSets.** This holds with a non-negative initial height.
    - The starting validators are exactly the first min(n, quorum). There are more than 2n/3 of them, with powers 30..100.
    - They form the genesis set, or, with "initchain", the update "0" with an empty set.
    - Every other update is keyed by a late validator's join height and adds one validator.
13. **TestnetPeerLinks.** For every validator and full node:
    - it has seeds or persistent peers, never both;
    - its seeds are seeds;
    - its persistent peers are validators or full nodes that start before it, or at the same height with a lower name.
14. **TestnetLightClients.** For every light client:
    - it has no seeds and keeps every block;
    - validator01, and validator02 when present, are among its providers;
    - every provider is a validator or full node that starts at 0 or at the initial height and keeps every block.
15. **FindLatestReleaseTag.**
    - It fails exactly when the base version, cut at its first '-', does not parse.
    - It returns "" exactly when no tag qualifies. A tag qualifies when it has a "v" prefix, parses, is not a pre-release, and lies in the caret range of the base's major.minor.
    - Otherwise it returns "v" plus the highest qualifying version, taking the first listed among equals.

## Left out

- Goroutines, select loops, signal channels, backoff sleeps and the ID table's lock are left out. The table's methods run one at a time, and the broadcast routines are step functions over a cursor.
- The transaction pool is not part of this model. CheckTx, HasTx, the priority order of `allEntriesSorted`, the pool's clist and `WrappedTx.HasPeer` are inputs: a verdict per call, an observation per step, an already sorted list, a set of peer IDs.
- Protobuf decoding in `Receive` and the encoded batch size in `GetChannels` come from the protobuf library. The size is a parameter.
- Trace writes and logging are left out. `StopPeerForError` is a recorded outcome.
- `ReceiveEnvelope` with no source peer is not modelled: the source is always a peer ID.
- MaxActiveIDs (65535) and the mempool channel ID (0x30) are defined in the mempool package, which is not part of this model. They are taken as constants.
- MempoolReactor.FloodStep: the wait for a new pool entry and the restart after a removed element are modelled only as a cursor at the end of an insertion-ordered list.
- The MConnection implementation is not part of this model, and neither are the network pipe, the packet reader and writer, the ping/pong and timing tests, or the rate monitor's observed peak rate. Send, TrySend and CanSend are modelled on per-channel queues, as the tests use them.
- Connection.MConnection.Send: blocking until the queue has room, then timing out, is modelled by the `writerDrains` input.
- The rate formulas use exact rationals and a whole number of milliseconds per sample instead of float64. IEEE rounding is left out.
- The random source and the choice lists are left out: every draw is an arbitrary parameter value.
- `combinations`, `Generate` and `gitRepoLatestReleaseVersion` (git I/O) are not modelled.
- Go's random map iteration order in the classification loop is replaced by one fixed order: seeds, then validators, then full nodes, each in number order. This order decides each seed's `Seeds` list, the order in which peers are passed to the sort, and the order of the light clients' providers. The model covers only that one order, not every order the map can yield.
- PeerOrder.Pick: `uniformSetChoice.Choose` is not part of this model. A drawn subset is modelled as the chosen elements in the order of their list.
- The manifest's node map is modelled as the union of the per-kind maps, which have disjoint keys.
- TestnetManifest.GenerateTestnet: on an error the Go code also returns the partly built manifest. The model returns only the error.
- The e2e package's evidence-age constant and the perturbation choice sets appear only as opaque draws.
- int64 and uint64 widths in the generator and the connection formulas are not modelled: heights, weights and rates are unbounded integers. The exception is `strconv.Atoi`: its int64 range and its left-to-right scan, which reports a uint64 overflow before a later bad character, are modelled.
- ReleaseTag.FindLatestReleaseTag: semantic-version parsing and the constraint library are not part of this model. Parsing is the `parse` parameter. The caret range is stated from the library's documented rules for "^ major.minor". Comparison uses major, minor and patch, as is exact for versions without a pre-release.

## Findings

| source | as written | input that shows it | evidently intended | confidence | as-written member | corrected member |
|---|---|---|---|---|---|---|
| test/e2e/generator/generate.go:375 | The bad-weight error quotes `parts[1]`. For a three-part entry that is the tag, not the weight that failed to parse. | "img:v1:x" is reported as unexpected weight "v1" | Quote the part that was parsed, `parts[len(parts)-1]` ("x") | not executed | WeightedVersions.WeightQuoteAsWrittenNamesTag | WeightedVersions.WeightErrorQuotesWeight |

`WeightedVersions.ParseEntry`, and so the whole option parse, keeps the quote as written. `WeightedVersions.ParseEntryIntended` differs from it only in the quoted text: it succeeds on the same entries with the same results, and fails with the same kind of error. So nothing else in the model depends on which quote is used.
